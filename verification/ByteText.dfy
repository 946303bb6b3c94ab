/**
  Python's `bytes` operations on a text file: strip, the last whitespace-separated token, lines and integers.
  A byte is modelled as a character.
 */
module ByteText {
  import opened Common

  type Bytes = string

  /** What `bytes.strip` and `bytes.split` take for whitespace. */
  predicate IsSpace(c: char) {
    c == ' ' || '\t' <= c <= '\r'
  }

  function TrimLeft(s: Bytes): Bytes {
    if s != [] && IsSpace(s[0]) then TrimLeft(s[1..]) else s
  }

  function TrimRight(s: Bytes): (r: Bytes)
    ensures r <= s
    ensures r != [] ==> !IsSpace(r[|r| - 1])
  {
    if s != [] && IsSpace(s[|s| - 1]) then TrimRight(s[..|s| - 1]) else s
  }

  function Strip(s: Bytes): Bytes {
    TrimRight(TrimLeft(s))
  }

  ghost predicate Stripped(s: Bytes) {
    s != [] ==> !IsSpace(s[0]) && !IsSpace(s[|s| - 1])
  }

  /** The index of the last whitespace byte, or -1. */
  function LastSpace(s: Bytes): (i: int)
    ensures -1 <= i < |s| && (i >= 0 ==> IsSpace(s[i]))
    ensures forall k :: i < k < |s| ==> !IsSpace(s[k])
  {
    if s == [] then -1 else if IsSpace(s[|s| - 1]) then |s| - 1 else LastSpace(s[..|s| - 1])
  }

  /** A text that starts with no whitespace and ends with no whitespace but one newline. */
  lemma StripNewline(s: Bytes)
    requires s != [] && !IsSpace(s[0]) && !IsSpace(s[|s| - 1])
    ensures Strip(s) == s && Strip(s + "\n") == s
  {
    assert (s + "\n")[..|s|] == s;
  }

  lemma {:induction false} TrimLeftStarts(s: Bytes)
    ensures TrimLeft(s) != [] ==> !IsSpace(TrimLeft(s)[0])
    ensures exists i :: 0 <= i <= |s| && TrimLeft(s) == s[i..]
    decreases |s|
  {
    if s != [] && IsSpace(s[0]) {
      TrimLeftStarts(s[1..]);
      var i :| 0 <= i <= |s[1..]| && TrimLeft(s[1..]) == s[1..][i..];
      assert s[1..][i..] == s[i + 1..];
    } else {
      assert s[0..] == s;
    }
  }

  lemma StripIsStripped(s: Bytes)
    ensures Stripped(Strip(s))
    ensures forall c :: c in Strip(s) ==> c in s
  {
    TrimLeftStarts(s);
  }

  /** Adding the final newline changes nothing but the newline. */
  lemma {:induction false} StripIgnoresNewline(s: Bytes)
    ensures Strip(s + "\n") == Strip(s)
    decreases |s|
  {
    if s == [] {
      assert TrimLeft("\n") == "\n"[1..];
    } else if IsSpace(s[0]) {
      assert (s + "\n")[1..] == s[1..] + "\n";
      StripIgnoresNewline(s[1..]);
    } else {
      assert (s + "\n")[..|s|] == s;
    }
  }

  // ---- Lines -------------------------------------------------------------------------------------------

  /** The index just past the first newline, or the length. */
  function LineEnd(s: Bytes): (n: nat)
    requires s != []
    ensures 0 < n <= |s| && (forall i :: 0 <= i < n - 1 ==> s[i] != '\n') && (n < |s| ==> s[n - 1] == '\n')
  {
    if s[0] == '\n' || |s| == 1 then 1 else 1 + LineEnd(s[1..])
  }

  /** `readlines` of a binary file: each line keeps its newline. */
  function Lines(s: Bytes): seq<Bytes> {
    if s == [] then [] else [s[..LineEnd(s)]] + Lines(s[LineEnd(s)..])
  }

  function Join(ls: seq<Bytes>): Bytes {
    if ls == [] then [] else ls[0] + Join(ls[1..])
  }

  predicate Ended(l: Bytes) {
    l != [] && l[|l| - 1] == '\n'
  }

  ghost predicate IsLine(l: Bytes) {
    l != [] && forall i :: 0 <= i < |l| - 1 ==> l[i] != '\n'
  }

  /** What `readlines` returns for some file: only the last line may lack its newline. */
  ghost predicate FileLines(ls: seq<Bytes>) {
    (forall i :: 0 <= i < |ls| ==> IsLine(ls[i])) && (forall i :: 0 <= i < |ls| - 1 ==> Ended(ls[i]))
  }

  lemma {:induction false} JoinOfLines(s: Bytes)
    ensures Join(Lines(s)) == s
    decreases |s|
  {
    if s != [] {
      var n := LineEnd(s);
      var rest := Lines(s[n..]);
      JoinOfLines(s[n..]);
      assert ([s[..n]] + rest)[1..] == rest;
    }
  }

  lemma FileLinesCons(l: Bytes, ls: seq<Bytes>)
    requires IsLine(l) && FileLines(ls) && (Ended(l) || ls == [])
    ensures FileLines([l] + ls)
  {
  }

  lemma {:induction false} LinesOfFile(s: Bytes)
    ensures FileLines(Lines(s))
    decreases |s|
  {
    if s != [] {
      var n := LineEnd(s);
      LinesOfFile(s[n..]);
      assert IsLine(s[..n]) && (n < |s| ==> Ended(s[..n]));
      FileLinesCons(s[..n], Lines(s[n..]));
    }
  }

  lemma LineEndOf(l: Bytes, rest: Bytes)
    requires IsLine(l) && (Ended(l) || rest == [])
    ensures LineEnd(l + rest) == |l|
  {
    assert forall i :: 0 <= i < |l| ==> (l + rest)[i] == l[i];
  }

  /** Writing lines out and reading them back gives the same lines. */
  lemma {:induction false} LinesOfJoin(ls: seq<Bytes>)
    requires FileLines(ls)
    ensures Lines(Join(ls)) == ls
    decreases |ls|
  {
    if ls != [] {
      LinesOfJoin(ls[1..]);
      var s := Join(ls);
      LineEndOf(ls[0], Join(ls[1..]));
      assert s[..|ls[0]|] == ls[0] && s[|ls[0]|..] == Join(ls[1..]);
    }
  }

  lemma {:induction false} JoinAppends(a: seq<Bytes>, b: seq<Bytes>)
    ensures Join(a + b) == Join(a) + Join(b)
    decreases |a|
  {
    if a == [] {
      assert a + b == b;
    } else {
      assert (a + b)[1..] == a[1..] + b;
      JoinAppends(a[1..], b);
    }
  }

  // ---- Integers ----------------------------------------------------------------------------------------

  /** The interpreter's limit on the digits of an integer read from text. */
  const MAX_DIGITS: nat := 4300

  predicate IsDigit(c: char) {
    '0' <= c <= '9'
  }

  function Digit(d: nat): char
    requires d < 10
  {
    '0' + d as char
  }

  function Decimal(n: nat): (s: Bytes)
    ensures s != [] && forall i :: 0 <= i < |s| ==> IsDigit(s[i])
  {
    if n < 10 then [Digit(n)] else Decimal(n / 10) + [Digit(n % 10)]
  }

  function DigitsValue(s: Bytes): nat {
    if s == [] then 0
    else if IsDigit(s[|s| - 1]) then 10 * DigitsValue(s[..|s| - 1]) + (s[|s| - 1] as int - '0' as int)
    else DigitsValue(s[..|s| - 1])
  }

  function DigitCount(s: Bytes): nat {
    if s == [] then 0 else DigitCount(s[1..]) + if IsDigit(s[0]) then 1 else 0
  }

  /** Digits with single underscores between them. */
  predicate IsNumeral(s: Bytes) {
    s != [] && IsDigit(s[0]) && IsDigit(s[|s| - 1]) &&
    (forall i :: 0 <= i < |s| ==> IsDigit(s[i]) || s[i] == '_') &&
    forall i :: 0 <= i < |s| - 1 ==> IsDigit(s[i]) || IsDigit(s[i + 1])
  }

  /** `int(token)`, None for ValueError. */
  function ParseInt(s: Bytes): Option<int> {
    var signed := s != [] && (s[0] == '+' || s[0] == '-');
    var body := if signed then s[1..] else s;
    if !IsNumeral(body) || DigitCount(body) > MAX_DIGITS then None
    else
      var value: int := DigitsValue(body);
      Some(if signed && s[0] == '-' then -value else value)
  }

  lemma {:induction false} DecimalValue(n: nat)
    ensures DigitsValue(Decimal(n)) == n
    decreases n
  {
    if n < 10 {
      assert Decimal(n)[..0] == [];
    } else {
      DecimalValue(n / 10);
      assert Decimal(n)[..|Decimal(n)| - 1] == Decimal(n / 10);
    }
  }

  lemma {:induction false} DigitCountBound(s: Bytes)
    ensures DigitCount(s) <= |s|
    decreases |s|
  {
    if s != [] {
      DigitCountBound(s[1..]);
    }
  }

  lemma {:induction false} DecimalLength(n: nat, e: nat)
    requires n < Pow(10, e) && e > 0
    ensures |Decimal(n)| <= e
    decreases e
  {
    if n >= 10 {
      DecimalLength(n / 10, e - 1);
    }
  }

  lemma {:induction false} PowBelow(e: nat)
    ensures Pow(2, e) <= Pow(10, e)
    decreases e
  {
    if e > 0 {
      PowBelow(e - 1);
    }
  }

  /** A sign in front of a printed integer is read with it. */
  lemma ParseOfSigned(n: nat)
    requires |Decimal(n)| <= MAX_DIGITS
    ensures ParseInt("+" + Decimal(n)) == Some(n) && ParseInt("-" + Decimal(n)) == Some(-(n as int))
  {
    ParseOfDecimal(n);
    assert ("+" + Decimal(n))[1..] == Decimal(n) && ("-" + Decimal(n))[1..] == Decimal(n);
  }

  /** Reading back a printed integer, for every integer whose digits the interpreter accepts. */
  lemma ParseOfDecimal(n: nat)
    requires |Decimal(n)| <= MAX_DIGITS
    ensures ParseInt(Decimal(n)) == Some(n)
  {
    DecimalValue(n);
    DigitCountBound(Decimal(n));
  }
}
