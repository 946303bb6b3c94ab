/**
  A text file whose lines may carry a time marker, under appends, purges and a one-time stamp.  How a marker is
  read is an argument: the results hold for every way of reading it.
 */
module MarkerRuns {
  import opened ByteText
  import opened KeyLines

  type Reader = Bytes -> Marker

  // ---- Lines of the file -------------------------------------------------------------------------------

  /** The lines once the last one has its newline. */
  function Completed(ls: seq<Bytes>): seq<Bytes> {
    if ls == [] || Ended(ls[|ls| - 1]) then ls else ls[..|ls| - 1] + [ls[|ls| - 1] + "\n"]
  }

  /** `_lacks_trailing_newline`, for the content of the file. */
  predicate LacksNewline(f: Bytes) {
    f != [] && f[|f| - 1] != '\n'
  }

  function Appended(f: Bytes, line: Bytes): Bytes {
    f + (if LacksNewline(f) then "\n" else "") + line
  }

  lemma {:induction false} LastOfJoin(ls: seq<Bytes>)
    requires FileLines(ls) && ls != []
    ensures Join(ls) != [] && Join(ls)[|Join(ls)| - 1] == ls[|ls| - 1][|ls[|ls| - 1]| - 1]
    decreases |ls|
  {
    if |ls| > 1 {
      LastOfJoin(ls[1..]);
    } else {
      assert Join(ls[1..]) == [];
    }
  }

  lemma CompletedIsFile(ls: seq<Bytes>)
    requires FileLines(ls)
    ensures FileLines(Completed(ls)) && (ls != [] ==> Ended(Completed(ls)[|ls| - 1]))
  {
  }

  lemma JoinCompleted(ls: seq<Bytes>)
    requires FileLines(ls)
    ensures Join(Completed(ls)) == Join(ls) + (if LacksNewline(Join(ls)) then "\n" else "")
  {
    if ls != [] {
      LastOfJoin(ls);
      if !Ended(ls[|ls| - 1]) {
        JoinLast(ls[..|ls| - 1], ls[|ls| - 1]);
        JoinLast(ls[..|ls| - 1], ls[|ls| - 1] + "\n");
        assert ls == ls[..|ls| - 1] + [ls[|ls| - 1]];
      }
    }
  }

  lemma JoinLast(init: seq<Bytes>, last: Bytes)
    ensures Join(init + [last]) == Join(init) + last
  {
    JoinAppends(init, [last]);
    assert [last][1..] == [];
    assert Join([last]) == last;
  }

  /** An append never merges two keys: the old lines stand, the last one completed, and one line follows. */
  lemma AppendedLines(f: Bytes, line: Bytes)
    requires IsLine(line) && Ended(line)
    ensures Lines(Appended(f, line)) == Completed(Lines(f)) + [line]
  {
    var ls := Lines(f);
    LinesOfFile(f);
    JoinOfLines(f);
    JoinCompleted(ls);
    CompletedIsFile(ls);
    JoinLast(Completed(ls), line);
    var out := Completed(ls) + [line];
    assert FileLines(out);
    LinesOfJoin(out);
  }

  // ---- Keeping and dropping lines ----------------------------------------------------------------------

  datatype Verdict = Keep | Drop | Overflow

  function Kept(ls: seq<Bytes>, judge: Bytes -> Verdict): seq<Bytes> {
    if ls == [] then []
    else (if judge(ls[0]) == Drop then [] else [ls[0]]) + Kept(ls[1..], judge)
  }

  predicate AnyOverflow(ls: seq<Bytes>, judge: Bytes -> Verdict) {
    exists i :: 0 <= i < |ls| && judge(ls[i]) == Overflow
  }

  lemma {:induction false} KeptLines(ls: seq<Bytes>, judge: Bytes -> Verdict)
    requires FileLines(ls)
    ensures FileLines(Kept(ls, judge)) && |Kept(ls, judge)| <= |ls|
    ensures |Kept(ls, judge)| == |ls| ==> Kept(ls, judge) == ls
    ensures ls == [] ==> Kept(ls, judge) == []
    decreases |ls|
  {
    if ls != [] {
      KeptLines(ls[1..], judge);
      if judge(ls[0]) != Drop {
        FileLinesCons(ls[0], Kept(ls[1..], judge));
        assert ls == [ls[0]] + ls[1..];
      }
    }
  }

  lemma {:induction false} KeptAppends(a: seq<Bytes>, b: seq<Bytes>, judge: Bytes -> Verdict)
    ensures Kept(a + b, judge) == Kept(a, judge) + Kept(b, judge)
    decreases |a|
  {
    if a == [] {
      assert a + b == b;
    } else {
      assert (a + b)[1..] == a[1..] + b;
      KeptAppends(a[1..], b, judge);
    }
  }

  lemma {:induction false} KeptSurvivors(ls: seq<Bytes>, judge: Bytes -> Verdict)
    ensures forall l :: l in Kept(ls, judge) <==> l in ls && judge(l) != Drop
    decreases |ls|
  {
    if ls != [] {
      KeptSurvivors(ls[1..], judge);
      assert ls == [ls[0]] + ls[1..];
    }
  }

  function Abs(x: real): real { if x < 0.0 then -x else x }

  /** What the purge at `now` does with a line; `limit` is the first integer a float cannot hold. */
  function Expiry(read: Reader, now: real, ttl: int, limit: int): Bytes -> Verdict {
    (line: Bytes) =>
      match read(line)
      case Unmarked => Keep
      case Unreadable => Drop
      case At(time) =>
        if time >= limit || -time >= limit then Overflow
        else if Abs(now - time as real) <= ttl as real then Keep
        else Drop
  }

  /** What removing the key `wanted` does with a line. */
  function Removal(keyOf: Bytes -> Bytes, wanted: Bytes): Bytes -> Verdict {
    (line: Bytes) => if keyOf(line) == wanted then Drop else Keep
  }

  /** The lines after a rewrite: all of them when a line cannot be judged, else the lines that are kept. */
  function Rewritten(ls: seq<Bytes>, judge: Bytes -> Verdict): seq<Bytes> {
    if AnyOverflow(ls, judge) then ls else Kept(ls, judge)
  }

  // ---- Runs --------------------------------------------------------------------------------------------

  datatype Op =
    | Append(line: Bytes)
    | Refused
    | Purge(now: real, ttl: int)

  /** The lines after one operation. */
  ghost function After(read: Reader, limit: int, ls: seq<Bytes>, op: Op): seq<Bytes> {
    match op
    case Append(line) => Completed(ls) + [line]
    case Refused => ls
    case Purge(now, ttl) => Rewritten(ls, Expiry(read, now, ttl, limit))
  }

  ghost function AfterAll(read: Reader, limit: int, ls: seq<Bytes>, ops: seq<Op>): seq<Bytes> {
    if ops == [] then ls else After(read, limit, AfterAll(read, limit, ls, ops[..|ops| - 1]), ops[|ops| - 1])
  }

  /** A marker whose integer a float cannot hold. */
  predicate Overflows(read: Reader, limit: int, line: Bytes) {
    read(line).At? && (read(line).time >= limit || -read(line).time >= limit)
  }

  /** The marker's time, if the line has a marker, is within the time to live. */
  predicate Live(read: Reader, now: real, ttl: int, line: Bytes) {
    read(line).Unmarked? || (read(line).At? && Abs(now - read(line).time as real) <= ttl as real)
  }

  lemma OverflowIff(read: Reader, limit: int, ls: seq<Bytes>, now: real, ttl: int)
    ensures AnyOverflow(ls, Expiry(read, now, ttl, limit)) <==> exists l :: l in ls && Overflows(read, limit, l)
  {
    var judge := Expiry(read, now, ttl, limit);
    if l :| l in ls && Overflows(read, limit, l) {
      var i :| 0 <= i < |ls| && ls[i] == l;
      assert judge(ls[i]) == Overflow;
    }
    if AnyOverflow(ls, judge) {
      var i :| 0 <= i < |ls| && judge(ls[i]) == Overflow;
      assert Overflows(read, limit, ls[i]);
    }
  }

  /** One overflowing marker makes every purge fail and leave the whole file; without one, exactly live lines stay. */
  lemma PurgeKeepsLiveIff(read: Reader, limit: int, ls: seq<Bytes>, now: real, ttl: int)
    ensures var after := Rewritten(ls, Expiry(read, now, ttl, limit));
      if exists l :: l in ls && Overflows(read, limit, l) then after == ls
      else forall l :: l in after <==> l in ls && Live(read, now, ttl, l)
  {
    OverflowIff(read, limit, ls, now, ttl);
    KeptSurvivors(ls, Expiry(read, now, ttl, limit));
  }

  ghost predicate AppendsFit(read: Reader, limit: int, ops: seq<Op>) {
    forall i :: 0 <= i < |ops| && ops[i].Append? ==> !Overflows(read, limit, ops[i].line)
  }

  lemma CompletedReads(read: Reader, ls: seq<Bytes>, l: Bytes)
    requires l in Completed(ls) && l !in ls
    ensures exists k :: k in ls && !Ended(k) && l == k + "\n"
  {
    assert ls != [] && !Ended(ls[|ls| - 1]);
    assert ls[|ls| - 1] in ls;
  }

  lemma {:induction false} RunNeverOverflows(read: Reader, limit: int, ls: seq<Bytes>, ops: seq<Op>)
    requires AppendsFit(read, limit, ops) && forall l :: l in ls ==> !Overflows(read, limit, l)
    requires forall l :: read(l + "\n") == read(l)
    ensures forall l :: l in AfterAll(read, limit, ls, ops) ==> !Overflows(read, limit, l)
    decreases |ops|
  {
    if ops != [] {
      var init, op := ops[..|ops| - 1], ops[|ops| - 1];
      RunNeverOverflows(read, limit, ls, init);
      var before := AfterAll(read, limit, ls, init);
      match op
      case Append(line) =>
        forall l | l in Completed(before) ensures !Overflows(read, limit, l) {
          if l !in before {
            CompletedReads(read, before, l);
          }
        }
      case Refused =>
      case Purge(now, ttl) =>
        KeptSurvivors(before, Expiry(read, now, ttl, limit));
    }
  }

  /** After any run that ends in a purge every marked line is within the time to live of that purge. */
  lemma RunExpires(read: Reader, limit: int, ls: seq<Bytes>, ops: seq<Op>, now: real, ttl: int, line: Bytes)
    requires AppendsFit(read, limit, ops) && forall l :: l in ls ==> !Overflows(read, limit, l)
    requires forall l :: read(l + "\n") == read(l)
    requires line in AfterAll(read, limit, ls, ops + [Purge(now, ttl)])
    ensures Live(read, now, ttl, line)
  {
    var all := ops + [Purge(now, ttl)];
    assert all[..|all| - 1] == ops;
    RunNeverOverflows(read, limit, ls, ops);
    PurgeKeepsLiveIff(read, limit, AfterAll(read, limit, ls, ops), now, ttl);
  }

  /** A marked line that is in the file after two purges of a run has them within twice the time to live of each other. */
  lemma MarkedLivesTwiceTtl(read: Reader, limit: int, ls: seq<Bytes>, ops: seq<Op>, more: seq<Op>, first: real, second: real,
                            ttl: int, line: Bytes)
    requires AppendsFit(read, limit, ops) && AppendsFit(read, limit, more)
    requires forall l :: l in ls ==> !Overflows(read, limit, l)
    requires forall l :: read(l + "\n") == read(l)
    requires line in AfterAll(read, limit, ls, ops + [Purge(first, ttl)]) && !read(line).Unmarked?
    requires line in AfterAll(read, limit, ls, ops + [Purge(first, ttl)] + more + [Purge(second, ttl)])
    ensures Abs(first - second) <= 2.0 * ttl as real
  {
    RunExpires(read, limit, ls, ops, first, ttl, line);
    RunExpires(read, limit, ls, ops + [Purge(first, ttl)] + more, second, ttl, line);
  }

  // ---- Lines without a marker are never touched --------------------------------------------------------

  function Core(line: Bytes): Bytes {
    if Ended(line) then line[..|line| - 1] else line
  }

  /** The unmarked lines, in order, without their newlines. */
  ghost function UnmarkedCores(read: Reader, ls: seq<Bytes>): seq<Bytes> {
    if ls == [] then []
    else
      var last := ls[|ls| - 1];
      UnmarkedCores(read, ls[..|ls| - 1]) + if read(last).Unmarked? then [Core(last)] else []
  }

  lemma UnmarkedCoresAppend(read: Reader, init: seq<Bytes>, last: Bytes)
    ensures UnmarkedCores(read, init + [last]) ==
      UnmarkedCores(read, init) + if read(last).Unmarked? then [Core(last)] else []
  {
    assert (init + [last])[..|init|] == init;
  }

  lemma CompletedKeepsUnmarked(read: Reader, ls: seq<Bytes>)
    requires forall l :: read(l + "\n") == read(l)
    ensures UnmarkedCores(read, Completed(ls)) == UnmarkedCores(read, ls)
  {
    if ls != [] && !Ended(ls[|ls| - 1]) {
      var init, last := ls[..|ls| - 1], ls[|ls| - 1];
      UnmarkedCoresAppend(read, init, last + "\n");
      assert Core(last + "\n") == Core(last);
    }
  }

  lemma {:induction false} PurgeKeepsUnmarked(read: Reader, ls: seq<Bytes>, now: real, ttl: int, limit: int)
    ensures UnmarkedCores(read, Kept(ls, Expiry(read, now, ttl, limit))) == UnmarkedCores(read, ls)
    decreases |ls|
  {
    if ls != [] {
      var judge := Expiry(read, now, ttl, limit);
      var init, last := ls[..|ls| - 1], ls[|ls| - 1];
      PurgeKeepsUnmarked(read, init, now, ttl, limit);
      assert ls == init + [last];
      KeptAppends(init, [last], judge);
      assert [last][1..] == [];
      assert Kept([last], judge) == if judge(last) == Drop then [] else [last];
      if judge(last) == Drop {
        assert Kept(ls, judge) == Kept(init, judge);
      } else {
        UnmarkedCoresAppend(read, Kept(init, judge), last);
      }
    }
  }

  /** Over any run of marked appends and purges the unmarked lines keep their bytes and their order. */
  lemma {:induction false} RunKeepsUnmarked(read: Reader, limit: int, ls: seq<Bytes>, ops: seq<Op>)
    requires forall l :: read(l + "\n") == read(l)
    requires forall i :: 0 <= i < |ops| && ops[i].Append? ==> !read(ops[i].line).Unmarked?
    ensures UnmarkedCores(read, AfterAll(read, limit, ls, ops)) == UnmarkedCores(read, ls)
    decreases |ops|
  {
    if ops != [] {
      var init, op := ops[..|ops| - 1], ops[|ops| - 1];
      RunKeepsUnmarked(read, limit, ls, init);
      var before := AfterAll(read, limit, ls, init);
      match op
      case Append(line) =>
        CompletedKeepsUnmarked(read, before);
        UnmarkedCoresAppend(read, Completed(before), line);
      case Refused =>
      case Purge(now, ttl) =>
        PurgeKeepsUnmarked(read, before, now, ttl, limit);
    }
  }

  // ---- The stamp ---------------------------------------------------------------------------------------

  /** Every line that is not to be left alone is replaced by its stamped form. */
  function Stamped(ls: seq<Bytes>, alone: Bytes -> bool, stamp: Bytes -> Bytes): seq<Bytes> {
    if ls == [] then []
    else [if alone(ls[0]) then ls[0] else stamp(ls[0])] + Stamped(ls[1..], alone, stamp)
  }

  lemma {:induction false} StampedAreLeftAlone(ls: seq<Bytes>, alone: Bytes -> bool, stamp: Bytes -> Bytes)
    requires forall l :: !alone(l) ==> alone(stamp(l))
    ensures forall l :: l in Stamped(ls, alone, stamp) ==> alone(l)
    decreases |ls|
  {
    if ls != [] {
      StampedAreLeftAlone(ls[1..], alone, stamp);
    }
  }

  lemma {:induction false} StampOfLeftAlone(ls: seq<Bytes>, alone: Bytes -> bool, stamp: Bytes -> Bytes)
    requires forall l :: l in ls ==> alone(l)
    ensures Stamped(ls, alone, stamp) == ls
    decreases |ls|
  {
    if ls != [] {
      StampOfLeftAlone(ls[1..], alone, stamp);
      assert ls[0] in ls;
    }
  }

  /** What the first purge after the stamp has expired leaves of the file as it was before the stamp. */
  function LeftAloneOnly(alone: Bytes -> bool, judge: Bytes -> Verdict): Bytes -> Verdict {
    (line: Bytes) => if alone(line) then judge(line) else Drop
  }

  lemma {:induction false} StampExpires(ls: seq<Bytes>, alone: Bytes -> bool, stamp: Bytes -> Bytes,
                                        judge: Bytes -> Verdict)
    requires forall l :: !alone(l) ==> judge(stamp(l)) == Drop
    ensures Kept(Stamped(ls, alone, stamp), judge) == Kept(ls, LeftAloneOnly(alone, judge))
    decreases |ls|
  {
    if ls != [] {
      StampExpires(ls[1..], alone, stamp, judge);
      assert Stamped(ls, alone, stamp)[1..] == Stamped(ls[1..], alone, stamp);
    }
  }

  lemma ExpiredDrops(read: Reader, now: real, ttl: int, limit: int, line: Bytes, at: nat)
    requires read(line) == At(at) && at < limit && Abs(now - at as real) > ttl as real
    ensures Expiry(read, now, ttl, limit)(line) == Drop
  {
  }

  // ---- Removing a key ----------------------------------------------------------------------------------

  /** The lines a run of appends and refused uploads puts in the file, in order. */
  ghost function LinesOfAppends(ops: seq<Op>): seq<Bytes> {
    if ops == [] then []
    else
      var last := ops[|ops| - 1];
      LinesOfAppends(ops[..|ops| - 1]) + if last.Append? then [last.line] else []
  }

  ghost predicate NoPurge(ops: seq<Op>) {
    forall i :: 0 <= i < |ops| ==> !ops[i].Purge? && (ops[i].Append? ==> Ended(ops[i].line))
  }

  /** The old lines with `lines` after them; the last old one is completed only when something follows. */
  ghost function Followed(ls: seq<Bytes>, lines: seq<Bytes>): seq<Bytes> {
    if lines == [] then ls else Completed(ls) + lines
  }

  /** Appends put their lines after the old ones, in order, and a refused upload does nothing. */
  lemma {:induction false} AppendsInOrder(read: Reader, limit: int, ls: seq<Bytes>, ops: seq<Op>)
    requires NoPurge(ops)
    ensures AfterAll(read, limit, ls, ops) == Followed(ls, LinesOfAppends(ops))
    ensures LinesOfAppends(ops) != [] ==> Ended(LinesOfAppends(ops)[|LinesOfAppends(ops)| - 1])
    decreases |ops|
  {
    if ops != [] {
      AppendsInOrder(read, limit, ls, ops[..|ops| - 1]);
      if ops[|ops| - 1].Append? {
        FollowedMore(ls, LinesOfAppends(ops[..|ops| - 1]), ops[|ops| - 1]);
      }
    }
  }

  lemma FollowedMore(ls: seq<Bytes>, lines: seq<Bytes>, op: Op)
    requires op.Append? && (lines != [] ==> Ended(lines[|lines| - 1]))
    ensures Completed(Followed(ls, lines)) + [op.line] == Followed(ls, lines + [op.line])
  {
    if lines == [] {
      assert [] + [op.line] == [op.line];
    } else {
      var all := Completed(ls) + lines;
      assert all[|all| - 1] == lines[|lines| - 1];
      assert Completed(ls) + (lines + [op.line]) == Completed(ls) + lines + [op.line];
    }
  }

  /** The lines whose key, by position, is not `wanted`. */
  ghost function NotKeyed(lines: seq<Bytes>, keys: seq<Bytes>, wanted: Bytes): seq<Bytes>
    requires |lines| == |keys|
  {
    if lines == [] then []
    else (if keys[0] == wanted then [] else [lines[0]]) + NotKeyed(lines[1..], keys[1..], wanted)
  }

  lemma {:induction false} KeptByKey(lines: seq<Bytes>, keys: seq<Bytes>, keyOf: Bytes -> Bytes, wanted: Bytes)
    requires |lines| == |keys| && forall i :: 0 <= i < |lines| ==> keyOf(lines[i]) == keys[i]
    ensures Kept(lines, Removal(keyOf, wanted)) == NotKeyed(lines, keys, wanted)
    decreases |lines|
  {
    if lines != [] {
      KeptByKey(lines[1..], keys[1..], keyOf, wanted);
    }
  }

  lemma RemoveAfterAppends(read: Reader, limit: int, ls: seq<Bytes>, ops: seq<Op>, keys: seq<Bytes>,
                           keyOf: Bytes -> Bytes, wanted: Bytes)
    requires NoPurge(ops)
    requires var lines := LinesOfAppends(ops); |lines| == |keys| && forall i :: 0 <= i < |lines| ==> keyOf(lines[i]) == keys[i]
    ensures var lines, removal := LinesOfAppends(ops), Removal(keyOf, wanted);
      Kept(AfterAll(read, limit, ls, ops), removal) == Kept(Followed(ls, lines)[..|ls|], removal) + NotKeyed(lines, keys, wanted)
  {
    var lines, removal := LinesOfAppends(ops), Removal(keyOf, wanted);
    AppendsInOrder(read, limit, ls, ops);
    KeptByKey(lines, keys, keyOf, wanted);
    if lines == [] {
      assert ls[..|ls|] == ls;
    } else {
      KeptAppends(Completed(ls), lines, removal);
      assert (Completed(ls) + lines)[..|ls|] == Completed(ls);
    }
  }

  lemma OverflowBlocks(read: Reader, limit: int, ls: seq<Bytes>, line: Bytes, at: nat, now: real, ttl: int)
    requires line in ls && read(line) == At(at) && at >= limit
    ensures After(read, limit, ls, Purge(now, ttl)) == ls
  {
    assert Overflows(read, limit, line);
    OverflowIff(read, limit, ls, now, ttl);
  }
}
