/** What holds of authorized_keys over whole runs of uploads, purges, removals and the startup stamp. */
module KeyRuns {
  import opened Common
  import opened ByteText
  import opened KeyLines
  import opened MarkerRuns
  import opened AuthorizedKeys

  datatype KeyOp =
    | Add(text: string, at: nat, pinned: bool)
    | Expire(now: real, ttl: int)

  function LowerOp(sources: Bytes, op: KeyOp): Op {
    match op
    case Add(text, at, pinned) => UploadOp(sources, text, at, pinned)
    case Expire(now, ttl) => Purge(now, ttl)
  }

  /** The steps `KeyFile.Upload` and `KeyFile.Purge` take on the lines of the file. */
  function Lower(sources: Bytes, ops: seq<KeyOp>): (r: seq<Op>)
    ensures |r| == |ops| && forall i :: 0 <= i < |ops| ==> r[i] == LowerOp(sources, ops[i])
  {
    seq(|ops|, i requires 0 <= i < |ops| => LowerOp(sources, ops[i]))
  }

  // ---- The clock ---------------------------------------------------------------------------------------

  /**
    The smallest integer that a float whose exponent reaches `bits`, with a 53-bit significand, cannot take; for
    the host's doubles `bits` is 1024.  Subtracting it raises OverflowError, which is not a ValueError.
   */
  function FloatLimit(bits: nat): int
    requires bits >= 54
  {
    Pow(2, bits) - Pow(2, bits - 54)
  }

  /** A time the process can print and a float can hold. */
  predicate IsClock(at: nat, limit: int) {
    at < limit && |Decimal(at)| <= MAX_DIGITS
  }

  /** Every time below the float limit is such a time. */
  lemma FloatTimesAreClocks(at: nat, bits: nat)
    requires 54 <= bits <= MAX_DIGITS && at < FloatLimit(bits)
    ensures IsClock(at, FloatLimit(bits))
  {
    PowPositive(bits - 54);
    PowBelow(bits);
    DecimalLength(at, bits);
  }

  /** The limit itself is a marker such a process can read and no float of its own can hold. */
  lemma LimitOverflows(bits: nat)
    requires 54 <= bits <= MAX_DIGITS
    ensures FloatLimit(bits) >= 0 && |Decimal(FloatLimit(bits))| <= MAX_DIGITS
  {
    PowPositive(bits - 54);
    PowGrows(bits - 54, bits);
    PowBelow(bits);
    DecimalLength(FloatLimit(bits), bits);
  }

  lemma {:induction false} PowGrows(a: nat, b: nat)
    requires a <= b
    ensures Pow(2, a) <= Pow(2, b)
    decreases b
  {
    if a < b {
      PowGrows(a, b - 1);
    }
  }

  lemma {:induction false} PowPositive(e: nat)
    ensures Pow(2, e) > 0
    decreases e
  {
    if e > 0 {
      PowPositive(e - 1);
    }
  }

  /** A key followed by a marker no float can hold: while it is in the file no purge removes anything. */
  lemma OverflowingLine(key: string, at: nat, limit: int, ls: seq<Bytes>, now: real, ttl: int)
    requires TextStrip(key) != [] && at >= limit && |Decimal(at)| <= MAX_DIGITS
    requires KeyLine([], TextStrip(key), at) in ls
    ensures After(ReadMarker, limit, ls, Purge(now, ttl)) == ls
  {
    ReadUpload([], false, key, at);
    OverflowBlocks(ReadMarker, limit, ls, KeyLine([], TextStrip(key), at), at, now, ttl);
  }

  // ---- Runs of uploads and purges ----------------------------------------------------------------------

  ghost predicate ClocksFit(ops: seq<KeyOp>, limit: int) {
    forall i :: 0 <= i < |ops| && ops[i].Add? ==> IsClock(ops[i].at, limit)
  }

  lemma NewlineNeverRead()
    ensures forall l :: ReadMarker(l + "\n") == ReadMarker(l)
  {
    forall l ensures ReadMarker(l + "\n") == ReadMarker(l) {
      NewlineIsNotRead(l);
    }
  }

  lemma UploadsFit(sources: Bytes, limit: int, ops: seq<KeyOp>)
    requires ClocksFit(ops, limit)
    ensures AppendsFit(ReadMarker, limit, Lower(sources, ops))
  {
    forall i | 0 <= i < |ops| && Lower(sources, ops)[i].Append?
      ensures !Overflows(ReadMarker, limit, Lower(sources, ops)[i].line)
    {
      ReadUpload(sources, ops[i].pinned, ops[i].text, ops[i].at);
    }
  }

  /**
    After any run that ends in a purge every marked line is within the time to live of that purge, unless the
    file held a marker no float can hold before the run.
   */
  lemma KeysExpire(sources: Bytes, limit: int, ls: seq<Bytes>, ops: seq<KeyOp>, now: real, ttl: int, line: Bytes)
    requires ClocksFit(ops, limit) && forall l :: l in ls ==> !Overflows(ReadMarker, limit, l)
    requires line in AfterAll(ReadMarker, limit, ls, Lower(sources, ops) + [Purge(now, ttl)])
    ensures Live(ReadMarker, now, ttl, line)
  {
    NewlineNeverRead();
    UploadsFit(sources, limit, ops);
    RunExpires(ReadMarker, limit, ls, Lower(sources, ops), now, ttl, line);
  }

  /**
    Over any run of uploads and purges the lines without a marker keep their bytes and their order, provided no
    upload is of an empty key without a source pin.
   */
  lemma UnmarkedKeysStay(sources: Bytes, limit: int, ls: seq<Bytes>, ops: seq<KeyOp>)
    requires forall i :: 0 <= i < |ops| && ops[i].Add? ==>
      |Decimal(ops[i].at)| <= MAX_DIGITS && (PinOption(sources, ops[i].pinned) != [] || TextStrip(ops[i].text) != [])
    ensures UnmarkedCores(ReadMarker, AfterAll(ReadMarker, limit, ls, Lower(sources, ops))) == UnmarkedCores(ReadMarker, ls)
  {
    NewlineNeverRead();
    var lowered := Lower(sources, ops);
    forall i | 0 <= i < |lowered| && lowered[i].Append? ensures !ReadMarker(lowered[i].line).Unmarked? {
      ReadUpload(sources, ops[i].pinned, ops[i].text, ops[i].at);
    }
    RunKeepsUnmarked(ReadMarker, limit, ls, lowered);
  }

  // ---- The startup stamp -------------------------------------------------------------------------------

  function Stamper(now: nat): Bytes -> Bytes {
    (l: Bytes) => StampedLine(l, now)
  }

  /** A start that dies before the done-file is written stamps again, and the second stamp changes nothing. */
  lemma StampIsIdempotent(ls: seq<Bytes>, first: nat, second: nat)
    ensures var once := Stamped(ls, LeftAlone, Stamper(first)); Stamped(once, LeftAlone, Stamper(second)) == once
  {
    forall l | !LeftAlone(l) ensures LeftAlone(Stamper(first)(l)) {
      StampMarks(l, first);
    }
    StampedAreLeftAlone(ls, LeftAlone, Stamper(first));
    StampOfLeftAlone(Stamped(ls, LeftAlone, Stamper(first)), LeftAlone, Stamper(second));
  }

  lemma StampedLineExpires(line: Bytes, at: nat, limit: int, now: real, ttl: int)
    requires !LeftAlone(line) && IsClock(at, limit) && Abs(now - at as real) > ttl as real
    ensures Expiry(ReadMarker, now, ttl, limit)(StampedLine(line, at)) == Drop
  {
    ReadStamp(line, at);
    ExpiredDrops(ReadMarker, now, ttl, limit, StampedLine(line, at), at);
  }

  lemma {:induction false} StampNeverOverflows(ls: seq<Bytes>, at: nat, limit: int)
    requires IsClock(at, limit) && forall l :: l in ls ==> !Overflows(ReadMarker, limit, l)
    ensures forall l :: l in Stamped(ls, LeftAlone, Stamper(at)) ==> !Overflows(ReadMarker, limit, l)
    decreases |ls|
  {
    if ls != [] {
      StampNeverOverflows(ls[1..], at, limit);
      assert ls[0] in ls;
      if !LeftAlone(ls[0]) {
        ReadStamp(ls[0], at);
      }
    }
  }

  /**
    Every line the stamp marks is gone after any purge later than the stamp plus the time to live, whatever
    uploads and purges came between, unless the file held a marker no float can hold before the stamp.
   */
  lemma StampedKeysExpire(sources: Bytes, limit: int, ls: seq<Bytes>, at: nat, ops: seq<KeyOp>, now: real, ttl: int,
                          line: Bytes)
    requires IsClock(at, limit) && ClocksFit(ops, limit) && forall l :: l in ls ==> !Overflows(ReadMarker, limit, l)
    requires Abs(now - at as real) > ttl as real && line in ls && !LeftAlone(line)
    ensures StampedLine(line, at) !in
      AfterAll(ReadMarker, limit, Stamped(ls, LeftAlone, Stamper(at)), Lower(sources, ops) + [Purge(now, ttl)])
  {
    var stamped := Stamped(ls, LeftAlone, Stamper(at));
    StampNeverOverflows(ls, at, limit);
    ReadStamp(line, at);
    if StampedLine(line, at) in AfterAll(ReadMarker, limit, stamped, Lower(sources, ops) + [Purge(now, ttl)]) {
      KeysExpire(sources, limit, stamped, ops, now, ttl, StampedLine(line, at));
    }
  }

  /**
    What such a purge leaves when it is the first thing after the stamp: of the lines as they were before it,
    exactly those the stamp left alone and the purge keeps, in order.
   */
  lemma PurgeAfterStamp(limit: int, ls: seq<Bytes>, at: nat, now: real, ttl: int)
    requires IsClock(at, limit) && forall l :: l in ls ==> !Overflows(ReadMarker, limit, l)
    requires Abs(now - at as real) > ttl as real
    ensures After(ReadMarker, limit, Stamped(ls, LeftAlone, Stamper(at)), Purge(now, ttl)) ==
      Kept(ls, LeftAloneOnly(LeftAlone, Expiry(ReadMarker, now, ttl, limit)))
  {
    var judge := Expiry(ReadMarker, now, ttl, limit);
    forall l | !LeftAlone(l) ensures judge(Stamper(at)(l)) == Drop {
      StampedLineExpires(l, at, limit, now, ttl);
    }
    StampExpires(ls, LeftAlone, Stamper(at), judge);
    StampNeverOverflows(ls, at, limit);
    OverflowIff(ReadMarker, limit, Stamped(ls, LeftAlone, Stamper(at)), now, ttl);
  }

  // ---- Removing a key ----------------------------------------------------------------------------------

  /** The upload is refused, or its key reads back from its line. */
  predicate ReadsBack(sources: Bytes, add: KeyOp) {
    add.Add? &&
    var key := TextStrip(add.text);
    OneLine(key) ==> key != [] && (PinOption(sources, add.pinned) != [] || !HasPin(key))
  }

  ghost predicate AllAdds(sources: Bytes, adds: seq<KeyOp>) {
    forall i :: 0 <= i < |adds| ==> ReadsBack(sources, adds[i])
  }

  /** The keys of the uploads that are not refused, in order. */
  ghost function UploadKeys(adds: seq<KeyOp>): seq<Bytes> {
    if adds == [] then []
    else
      var add := adds[|adds| - 1];
      UploadKeys(adds[..|adds| - 1]) + if add.Add? && OneLine(TextStrip(add.text)) then [TextStrip(add.text)] else []
  }

  ghost function UploadLines(sources: Bytes, adds: seq<KeyOp>): seq<Bytes> {
    LinesOfAppends(Lower(sources, adds))
  }

  lemma UploadEnds(sources: Bytes, add: KeyOp)
    requires '"' !in sources && ReadsBack(sources, add)
    ensures var op := LowerOp(sources, add);
      !op.Purge? && (op.Append? <==> OneLine(TextStrip(add.text))) &&
      (op.Append? ==> Ended(op.line) && KeyOf(op.line) == TextStrip(add.text))
  {
    UploadRoundTrip(sources, add.pinned, add.text, add.at);
  }

  /** Each uploaded line reads back as its key. */
  lemma {:induction false} UploadsReadBack(sources: Bytes, adds: seq<KeyOp>, keyOf: Bytes -> Bytes)
    requires AllAdds(sources, adds)
    requires forall i :: 0 <= i < |adds| ==> GoodUpload(sources, adds[i], keyOf)
    ensures var lines, keys := UploadLines(sources, adds), UploadKeys(adds);
      |lines| == |keys| && forall i :: 0 <= i < |lines| ==> keyOf(lines[i]) == keys[i]
    decreases |adds|
  {
    if adds != [] {
      var init := adds[..|adds| - 1];
      UploadsReadBack(sources, init, keyOf);
      assert Lower(sources, adds)[..|adds| - 1] == Lower(sources, init);
      assert GoodUpload(sources, adds[|adds| - 1], keyOf);
    }
  }

  ghost predicate GoodUpload(sources: Bytes, add: KeyOp, keyOf: Bytes -> Bytes) {
    add.Add? &&
    var op := LowerOp(sources, add);
    !op.Purge? && (op.Append? <==> OneLine(TextStrip(add.text))) &&
    (op.Append? ==> Ended(op.line) && keyOf(op.line) == TextStrip(add.text))
  }

  /**
    Removing a key after any uploads, refused ones included, deletes the lines of that key, old and uploaded,
    and keeps every other line byte for byte and in order; the last old line is completed if a line follows it.
   */
  lemma RemoveAfterUploads(sources: Bytes, limit: int, ls: seq<Bytes>, adds: seq<KeyOp>, text: string)
    requires '"' !in sources && AllAdds(sources, adds)
    ensures var removal, lines := Removal(KeyOf, TextStrip(text)), UploadLines(sources, adds);
      var keys := UploadKeys(adds);
      |lines| == |keys| && Kept(AfterAll(ReadMarker, limit, ls, Lower(sources, adds)), removal) ==
      Kept(Followed(ls, lines)[..|ls|], removal) + NotKeyed(lines, keys, TextStrip(text))
  {
    forall i | 0 <= i < |adds| ensures GoodUpload(sources, adds[i], KeyOf) {
      UploadEnds(sources, adds[i]);
    }
    UploadsReadBack(sources, adds, KeyOf);
    assert NoPurge(Lower(sources, adds)) by {
      forall i | 0 <= i < |adds| ensures !Lower(sources, adds)[i].Purge? {
        assert GoodUpload(sources, adds[i], KeyOf);
      }
    }
    RemoveAfterAppends(ReadMarker, limit, ls, Lower(sources, adds), UploadKeys(adds), KeyOf, TextStrip(text));
  }
}
