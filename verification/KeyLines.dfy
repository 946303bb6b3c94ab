/** One line of authorized_keys: the upload marker and the source pin, written and read back. */
module KeyLines {
  import opened Common
  import opened ByteText

  const MARKER := "lium-uploaded-at="
  const PIN := "from=\""
  const PIN_END := "\" "

  /** The code points beside ASCII whitespace that `str.strip` removes. */
  const TEXT_SPACES: set<int> :=
    {0x1c, 0x1d, 0x1e, 0x1f, 0x85, 0xa0, 0x1680, 0x2000, 0x2001, 0x2002, 0x2003, 0x2004, 0x2005, 0x2006, 0x2007,
     0x2008, 0x2009, 0x200a, 0x2028, 0x2029, 0x202f, 0x205f, 0x3000}

  predicate IsTextSpace(c: char) {
    IsSpace(c) || c as int in TEXT_SPACES
  }

  function TextStrip(s: string): (r: string)
    ensures r != [] ==> !IsTextSpace(r[0]) && !IsTextSpace(r[|r| - 1])
    ensures forall c :: c in r ==> c in s
  {
    if s == [] then s
    else if IsTextSpace(s[0]) then TextStrip(s[1..])
    else if IsTextSpace(s[|s| - 1]) then TextStrip(s[..|s| - 1])
    else s
  }

  // ---- One line ----------------------------------------------------------------------------------------

  /** `_split_marker`: the key without the marker, and the marker's value on a marked line. */
  function SplitMarker(line: Bytes): (Bytes, Option<Bytes>) {
    SplitStripped(Strip(line))
  }

  function SplitStripped(stripped: Bytes): (Bytes, Option<Bytes>) {
    var i := LastSpace(stripped);
    if i < 0 || !(MARKER <= stripped[i + 1..]) then (stripped, None)
    else (TrimRight(stripped[..i]), Some(stripped[i + 1 + |MARKER|..]))
  }

  predicate Marked(line: Bytes) {
    SplitMarker(line).1.Some?
  }

  predicate PinEndsAt(s: Bytes, k: nat) {
    k + 1 < |s| && s[k] == PIN_END[0] && s[k + 1] == PIN_END[1]
  }

  /** The first index at or after `i` where `" ` stands, or -1. */
  function FindPinEnd(s: Bytes, i: nat): (r: int)
    ensures r == -1 || (i <= r && PinEndsAt(s, r))
    ensures forall k: nat :: i <= k && PinEndsAt(s, k) ==> 0 <= r <= k
    decreases |s| - i
  {
    if i + 2 > |s| then -1 else if PinEndsAt(s, i) then i else FindPinEnd(s, i + 1)
  }

  function WithoutPin(key: Bytes): Bytes {
    if !(PIN <= key) then key
    else
      var end := FindPinEnd(key, |PIN|);
      if end == -1 then key else key[end + 2..]
  }

  /** `_key_without_marker_and_source_pin`. */
  function KeyOf(line: Bytes): Bytes {
    WithoutPin(SplitMarker(line).0)
  }

  /** `_validator_source_pin_option`. */
  function PinOption(sources: Bytes, enabled: bool): Bytes {
    if sources == [] || !enabled then [] else PIN + sources + PIN_END
  }

  /** The line an upload appends. */
  function KeyLine(pin: Bytes, key: Bytes, now: nat): Bytes {
    pin + key + " " + MARKER + Decimal(now) + "\n"
  }

  ghost predicate NoSpace(s: Bytes) {
    forall i :: 0 <= i < |s| ==> !IsSpace(s[i])
  }

  function MarkerToken(now: nat): Bytes {
    MARKER + Decimal(now)
  }

  lemma MarkerIsOneToken(now: nat)
    ensures NoSpace(MarkerToken(now)) && MarkerToken(now) != []
  {
    assert NoSpace(MARKER);
  }

  lemma SplitHeadToken(head: Bytes, token: Bytes)
    requires head != [] && !IsSpace(head[0]) && NoSpace(token) && MARKER <= token
    ensures SplitMarker(head + " " + token + "\n") == (TrimRight(head), Some(token[|MARKER|..]))
  {
    var body := head + " " + token;
    LastSpaceAt(head, ' ', token);
    HeadTokenSlices(head, token, |MARKER|);
    StripNewline(body);
  }

  lemma HeadTokenSlices(head: Bytes, token: Bytes, n: nat)
    requires n <= |token|
    ensures var body := head + " " + token;
      body[..|head|] == head && body[|head| + 1..] == token && body[|head| + 1 + n..] == token[n..] &&
      (token != [] ==> body[|body| - 1] == token[|token| - 1]) && (head != [] ==> body[0] == head[0])
  {
  }

  /** Reading a marked line back. */
  lemma SplitMarkedLine(pin: Bytes, key: Bytes, now: nat)
    requires pin + key != [] && !IsSpace((pin + key)[0])
    ensures SplitMarker(KeyLine(pin, key, now)) == (TrimRight(pin + key), Some(Decimal(now)))
  {
    MarkerIsOneToken(now);
    KeyLineForm(pin, key, now);
    SplitHeadToken(pin + key, MarkerToken(now));
    assert MarkerToken(now)[|MARKER|..] == Decimal(now);
  }

  lemma KeyLineForm(pin: Bytes, key: Bytes, now: nat)
    ensures KeyLine(pin, key, now) == pin + key + " " + MarkerToken(now) + "\n"
  {
  }

  /** A line is marked with `value` just when the last of at least two tokens is the marker and that value. */
  lemma MarkedIff(line: Bytes, value: Bytes)
    ensures SplitMarker(line).1 == Some(value) <==>
      NoSpace(value) && exists head, space: char :: IsSpace(space) && Strip(line) == head + [space] + (MARKER + value)
  {
    var stripped := Strip(line);
    if SplitStripped(stripped).1 == Some(value) {
      MarkerTail(stripped, value);
    }
    if head, space: char :| NoSpace(value) && IsSpace(space) && stripped == head + [space] + (MARKER + value) {
      MarkedForm(head, space, value);
    }
  }

  lemma MarkerTail(s: Bytes, value: Bytes)
    requires SplitStripped(s).1 == Some(value)
    ensures var i := LastSpace(s);
      0 <= i && NoSpace(value) && s == s[..i] + [s[i]] + (MARKER + value)
  {
    TailIsMarker(s, LastSpace(s), MARKER, value);
  }

  lemma TailIsMarker(s: Bytes, i: nat, marker: Bytes, value: Bytes)
    requires i < |s| && (forall k :: i < k < |s| ==> !IsSpace(s[k])) && marker <= s[i + 1..]
    requires value == s[i + 1 + |marker|..]
    ensures NoSpace(value) && s == s[..i] + [s[i]] + (marker + value)
  {
    assert forall k :: 0 <= k < |value| ==> value[k] == s[i + 1 + |marker| + k];
    assert s[i + 1..][|marker|..] == value;
    assert s[i + 1..] == marker + value;
    assert s == s[..i] + [s[i]] + s[i + 1..];
  }

  lemma MarkedForm(head: Bytes, space: char, value: Bytes)
    requires IsSpace(space) && NoSpace(value)
    ensures SplitStripped(head + [space] + (MARKER + value)).1 == Some(value)
  {
    var token := MARKER + value;
    var s := head + [space] + token;
    MarkerJoins(value);
    LastSpaceAt(head, space, token);
    assert s[|head| + 1..] == token;
    assert s[|head| + 1 + |MARKER|..] == value;
  }

  lemma MarkerJoins(value: Bytes)
    requires NoSpace(value)
    ensures NoSpace(MARKER + value) && MARKER <= MARKER + value
  {
    assert NoSpace(MARKER);
  }

  lemma {:induction false} LastSpaceAt(head: Bytes, space: char, token: Bytes)
    requires NoSpace(token) && IsSpace(space)
    ensures LastSpace(head + [space] + token) == |head|
    decreases |token|
  {
    var s := head + [space] + token;
    if token != [] {
      LastSpaceAt(head, space, token[..|token| - 1]);
      assert s[..|s| - 1] == head + [space] + token[..|token| - 1];
    }
  }

  /** A line that is the marker alone is not a marked line. */
  lemma BareMarker(now: nat)
    ensures SplitMarker(KeyLine([], [], now)) == (MarkerToken(now), None)
  {
    var token := MarkerToken(now);
    MarkerIsOneToken(now);
    var line := " " + (token + "\n");
    assert KeyLine([], [], now) == line;
    assert line[1..] == token + "\n";
    StripNewline(token);
    assert Strip(line) == Strip(token + "\n");
  }

  /** An upload of an empty key without a source pin is the one upload the marker does not take on. */
  lemma UploadIsMarkedIff(sources: Bytes, enabled: bool, text: string, now: nat)
    ensures var pin := PinOption(sources, enabled);
      var key := TextStrip(text);
      Marked(KeyLine(pin, key, now)) <==> pin != [] || key != []
  {
    var pin := PinOption(sources, enabled);
    var key := TextStrip(text);
    if pin + key != [] {
      SplitMarkedLine(pin, key, now);
    } else {
      BareMarker(now);
    }
  }

  lemma WithoutOwnPin(sources: Bytes, key: Bytes)
    requires '"' !in sources
    ensures WithoutPin(PIN + sources + PIN_END + key) == key
  {
    var s := PIN + sources + PIN_END + key;
    var n := |PIN| + |sources|;
    assert PinEndsAt(s, n);
    assert forall k :: |PIN| <= k < n ==> s[k] == sources[k - |PIN|];
    assert FindPinEnd(s, |PIN|) == n;
    assert s[n + 2..] == key;
  }

  lemma TrimmedAlready(s: Bytes)
    requires s != [] && !IsSpace(s[|s| - 1])
    ensures TrimRight(s) == s && TrimRight(s + " ") == s
  {
    assert (s + " ")[..|s|] == s;
  }

  /** The key has a `from="…" ` option of its own in front. */
  predicate HasPin(key: Bytes) {
    PIN <= key && FindPinEnd(key, |PIN|) != -1
  }

  /**
    Parsing an uploaded line gives back the key and the time.  The key comes back exactly when it is not empty
    and a source pin was put in front or it brings no `from="…" ` option of its own.
   */
  lemma UploadRoundTrip(sources: Bytes, enabled: bool, text: string, now: nat)
    requires '"' !in sources
    ensures var key := TextStrip(text);
      var pin := PinOption(sources, enabled);
      var line := KeyLine(pin, key, now);
      (KeyOf(line) == key <==> key != [] && (pin != [] || !HasPin(key))) &&
      (pin != [] || key != [] ==> SplitMarker(line).1 == Some(Decimal(now)))
  {
    var key := TextStrip(text);
    if key == [] {
      EmptyKeyNeverReadsBack(sources, enabled, now);
    } else {
      KeyReadsBack(PinOption(sources, enabled), key, now);
      PinnedKeyReadsBack(sources, enabled, key);
    }
  }

  lemma KeyReadsBack(pin: Bytes, key: Bytes, now: nat)
    requires key != [] && !IsSpace(key[|key| - 1]) && !IsSpace((pin + key)[0])
    ensures SplitMarker(KeyLine(pin, key, now)) == (pin + key, Some(Decimal(now)))
  {
    SplitMarkedLine(pin, key, now);
    assert (pin + key)[|pin + key| - 1] == key[|key| - 1];
    TrimmedAlready(pin + key);
  }

  lemma PinnedKeyReadsBack(sources: Bytes, enabled: bool, key: Bytes)
    requires '"' !in sources
    ensures var pin := PinOption(sources, enabled);
      WithoutPin(pin + key) == key <==> pin != [] || !HasPin(key)
  {
    var pin := PinOption(sources, enabled);
    if pin == [] {
      assert pin + key == key;
    } else {
      WithoutOwnPin(sources, key);
    }
  }

  lemma EmptyKeyNeverReadsBack(sources: Bytes, enabled: bool, now: nat)
    requires '"' !in sources
    ensures var pin := PinOption(sources, enabled);
      KeyOf(KeyLine(pin, [], now)) != [] && (pin != [] ==> SplitMarker(KeyLine(pin, [], now)).1 == Some(Decimal(now)))
  {
    if PinOption(sources, enabled) == [] {
      BareMarker(now);
      assert MarkerToken(now)[0] == 'l';
    } else {
      PinnedEmptyKey(sources, now);
    }
  }

  lemma PinnedEmptyKey(sources: Bytes, now: nat)
    requires '"' !in sources
    ensures var pin := PIN + sources + PIN_END;
      KeyOf(KeyLine(pin, [], now)) != [] && SplitMarker(KeyLine(pin, [], now)).1 == Some(Decimal(now))
  {
    var pin := PIN + sources + PIN_END;
    SplitMarkedLine(pin, [], now);
    PinAloneStays(sources);
    assert pin + [] == PIN + sources + "\"" + " ";
  }

  lemma PinAloneStays(sources: Bytes)
    requires '"' !in sources
    ensures var s := PIN + sources + "\""; TrimRight(s + " ") == s && WithoutPin(s) == s
  {
    var s := PIN + sources + "\"";
    TrimmedAlready(s);
    assert forall k :: |PIN| <= k < |s| - 1 ==> s[k] == sources[k - |PIN|];
    assert FindPinEnd(s, |PIN|) == -1;
  }

  // ---- The startup stamp -------------------------------------------------------------------------------

  /** The startup stamp leaves blank lines, comments and marked lines as they are. */
  predicate LeftAlone(line: Bytes) {
    Strip(line) == [] || Strip(line)[0] == '#' || Marked(line)
  }

  function StampedLine(line: Bytes, now: nat): Bytes {
    if LeftAlone(line) then line else Strip(line) + " " + MARKER + Decimal(now) + "\n"
  }

  lemma StampMarks(line: Bytes, now: nat)
    requires !LeftAlone(line)
    ensures SplitMarker(StampedLine(line, now)) == (Strip(line), Some(Decimal(now)))
    ensures LeftAlone(StampedLine(line, now))
  {
    StripIsStripped(line);
    SplitMarkedLine([], Strip(line), now);
    assert [] + Strip(line) == Strip(line);
    TrimmedAlready(Strip(line));
    assert StampedLine(line, now) == KeyLine([], Strip(line), now);
  }

  // ---- The marker's time -------------------------------------------------------------------------------

  datatype Marker = Unmarked | Unreadable | At(time: int)

  /** What a purge reads of a line. */
  function ReadMarker(line: Bytes): Marker {
    match SplitMarker(line).1
    case None => Unmarked
    case Some(value) =>
      match ParseInt(value)
      case None => Unreadable
      case Some(time) => At(time)
  }

  lemma NewlineIsNotRead(line: Bytes)
    ensures ReadMarker(line + "\n") == ReadMarker(line)
  {
    StripIgnoresNewline(line);
  }

  lemma ReadUpload(sources: Bytes, enabled: bool, text: string, now: nat)
    requires |Decimal(now)| <= MAX_DIGITS
    ensures var pin := PinOption(sources, enabled);
      var key := TextStrip(text);
      ReadMarker(KeyLine(pin, key, now)) == if pin != [] || key != [] then At(now) else Unmarked
  {
    var pin, key := PinOption(sources, enabled), TextStrip(text);
    if pin + key != [] {
      SplitMarkedLine(pin, key, now);
      ParseOfDecimal(now);
    } else {
      BareMarker(now);
    }
  }

  lemma ReadStamp(line: Bytes, now: nat)
    requires !LeftAlone(line) && |Decimal(now)| <= MAX_DIGITS
    ensures ReadMarker(StampedLine(line, now)) == At(now) && LeftAlone(StampedLine(line, now))
  {
    StampMarks(line, now);
    ParseOfDecimal(now);
  }

  ghost predicate NoNewline(s: Bytes) {
    forall i :: 0 <= i < |s| ==> s[i] != '\n'
  }

  lemma NoNewlineIn(a: Bytes, b: Bytes)
    requires NoNewline(a) && NoNewline(b)
    ensures NoNewline(a + b)
  {
  }

  lemma MarkedTailIsLine(head: Bytes, now: nat)
    requires NoNewline(head)
    ensures var line := head + " " + MARKER + Decimal(now) + "\n"; IsLine(line) && Ended(line)
  {
    NoNewlineIn(head, " ");
    assert NoNewline(MARKER);
    NoNewlineIn(head + " ", MARKER);
    NoNewlineIn(head + " " + MARKER, Decimal(now));
  }

  /** An uploaded line is one line: its newline is its last byte. */
  lemma UploadIsLine(sources: Bytes, enabled: bool, text: string, now: nat)
    requires '\n' !in sources && '\n' !in TextStrip(text)
    ensures var line := KeyLine(PinOption(sources, enabled), TextStrip(text), now); IsLine(line) && Ended(line)
  {
    NoNewlineIn(PIN, sources);
    NoNewlineIn(PIN + sources, PIN_END);
    NoNewlineIn(PinOption(sources, enabled), TextStrip(text));
    MarkedTailIsLine(PinOption(sources, enabled) + TextStrip(text), now);
  }
}
