/**
  The executor's authorized_keys file: uploads append a marked line, marked keys expire, a key is removed by
  its text, and a one-time stamp puts older keys on the same clock.
 */
module AuthorizedKeys {
  import opened Common
  import opened ByteText
  import opened KeyLines
  import opened MarkerRuns

  datatype Outcome = Missing | Raised | Done(count: nat)

  /** The content of the file; a missing file has no lines. */
  function Content(file: Option<Bytes>): Bytes {
    if file.Some? then file.value else []
  }

  /** One purge step on the lines: it raises exactly when a marker overflows, and otherwise counts what went. */
  ghost predicate PurgeStep(read: Reader, limit: int, before: seq<Bytes>, after: seq<Bytes>, now: real, ttl: int, r: Outcome) {
    after == After(read, limit, before, Purge(now, ttl)) &&
    (r.Raised? <==> exists l :: l in before && Overflows(read, limit, l)) &&
    !r.Missing? && (r.Done? ==> r.count == |before| - |after|)
  }

  /** `file` is None while the file does not exist; `stampDone` is the done-file of the startup stamp. */
  class KeyFile {
    var file: Option<Bytes>
    var stampDone: bool
    const sources: Bytes
    const limit: int

    constructor (file: Option<Bytes>, stampDone: bool, sources: Bytes, limit: int)
      ensures this.file == file && this.stampDone == stampDone && this.sources == sources && this.limit == limit
    {
      this.file := file;
      this.stampDone := stampDone;
      this.sources := sources;
      this.limit := limit;
    }

    /** The lines `readlines` returns. */
    ghost function Contents(): seq<Bytes>
      reads this
    {
      Lines(Content(file))
    }

    /** `add_pubkey_to_host`. */
    method Upload(text: string, now: nat, pinned: bool) returns (r: Outcome)
      requires '\n' !in sources
      modifies this`file
      ensures Contents() == After(ReadMarker, limit, old(Contents()), UploadOp(sources, text, now, pinned))
      ensures r.Raised? <==> !OneLine(TextStrip(text))
      ensures r.Raised? ==> file == old(file)
    {
      var key := TextStrip(text);
      if '\n' in key || '\r' in key {
        return Raised;
      }
      var line := KeyLine(PinOption(sources, pinned), key, now);
      UploadIsLine(sources, pinned, text, now);
      AppendedLines(Content(file), line);
      file := Some(Appended(Content(file), line));
      return Done(1);
    }

    /** `_rewrite_authorized_keys`: a line that cannot be judged ends it before anything is written. */
    method Rewrite(judge: Bytes -> Verdict) returns (r: Outcome)
      modifies this`file
      ensures Contents() == Rewritten(old(Contents()), judge)
      ensures r.Missing? <==> old(file).None?
      ensures r.Raised? <==> AnyOverflow(old(Contents()), judge)
      ensures r.Done? ==> r.count == |old(Contents())| - |Contents()|
      ensures (r.Done? ==> r.count == 0) ==> file == old(file)
    {
      if file.None? {
        return Missing;
      }
      var lines := Lines(file.value);
      var kept: seq<Bytes> := [];
      for k := 0 to |lines|
        invariant file == old(file)
        invariant kept == Kept(lines[..k], judge) && !AnyOverflow(lines[..k], judge)
      {
        assert lines[..k + 1] == lines[..k] + [lines[k]];
        KeptAppends(lines[..k], [lines[k]], judge);
        var verdict := judge(lines[k]);
        if verdict == Overflow {
          assert AnyOverflow(lines, judge);
          return Raised;
        }
        assert [lines[k]][1..] == [];
        if verdict == Keep {
          kept := kept + [lines[k]];
        }
      }
      assert lines[..|lines|] == lines;
      LinesOfFile(file.value);
      KeptLines(lines, judge);
      if |kept| == |lines| {
        return Done(0);
      }
      LinesOfJoin(kept);
      file := Some(Join(kept));
      return Done(|lines| - |kept|);
    }

    /** `purge_expired_uploaded_keys`. */
    method Purge(now: real, ttl: int) returns (r: Outcome)
      modifies this`file
      ensures PurgeStep(ReadMarker, limit, old(Contents()), Contents(), now, ttl, r)
    {
      r := PurgeReading(ReadMarker, now, ttl);
    }

    /** The purge, for a way to read the marker; a missing file is no error. */
    method PurgeReading(read: Reader, now: real, ttl: int) returns (r: Outcome)
      modifies this`file
      ensures PurgeStep(read, limit, old(Contents()), Contents(), now, ttl, r)
    {
      OverflowIff(read, limit, Contents(), now, ttl);
      r := Rewrite(Expiry(read, now, ttl, limit));
      if r.Missing? {
        r := Done(0);
      }
    }

    /** `remove_pubkey_from_host`; a missing file raises. */
    method Remove(text: string) returns (r: Outcome)
      modifies this`file
      ensures Contents() == Kept(old(Contents()), Removal(KeyOf, TextStrip(text)))
      ensures r.Missing? <==> old(file).None?
      ensures !r.Raised? && (r.Done? ==> r.count == |old(Contents())| - |Contents()|)
    {
      r := Rewrite(Removal(KeyOf, TextStrip(text)));
    }

    /** `stamp_legacy_uploaded_keys`; `dies` is a process killed after the rewrite and before the done-file. */
    method Stamp(now: nat, dies: bool) returns (r: Option<nat>)
      modifies this
      ensures old(stampDone) ==> r.None? && file == old(file) && stampDone
      ensures !old(stampDone) ==>
        Contents() == Stamped(old(Contents()), LeftAlone, (l: Bytes) => StampedLine(l, now)) && stampDone == !dies
      ensures !old(stampDone) && !dies ==> r == Some(CountOthers(old(Contents()), LeftAlone))
    {
      if stampDone {
        return None;
      }
      var stamp := (l: Bytes) => StampedLine(l, now);
      var out, stamped := StampLines(Lines(Content(file)), LeftAlone, stamp);
      if stamped > 0 {
        StampedIsFile(Content(file), now);
        LinesOfJoin(out);
        file := Some(Join(out));
      }
      if dies {
        return None;
      }
      stampDone := true;
      return Some(stamped);
    }
  }

  /** How many lines are not to be left alone. */
  function CountOthers(ls: seq<Bytes>, alone: Bytes -> bool): nat {
    if ls == [] then 0 else CountOthers(ls[..|ls| - 1], alone) + if alone(ls[|ls| - 1]) then 0 else 1
  }

  /** The stamp's pass over the lines, for a choice of lines to leave alone and a stamped form. */
  method StampLines(lines: seq<Bytes>, alone: Bytes -> bool, stamp: Bytes -> Bytes)
    returns (out: seq<Bytes>, stamped: nat)
    ensures out == Stamped(lines, alone, stamp) && stamped == CountOthers(lines, alone)
    ensures stamped == 0 ==> out == lines
  {
    out := [];
    stamped := 0;
    for k := 0 to |lines|
      invariant out == Stamped(lines[..k], alone, stamp) && stamped == CountOthers(lines[..k], alone)
      invariant stamped == 0 ==> out == lines[..k]
    {
      StampedAppends(lines[..k], lines[k], alone, stamp);
      assert lines[..k + 1] == lines[..k] + [lines[k]];
      assert lines[..k + 1][..k] == lines[..k];
      if alone(lines[k]) {
        out := out + [lines[k]];
      } else {
        out := out + [stamp(lines[k])];
        stamped := stamped + 1;
      }
    }
    assert lines[..|lines|] == lines;
  }

  /** What an upload does to the lines. */
  function UploadOp(sources: Bytes, text: string, now: nat, pinned: bool): Op {
    var key := TextStrip(text);
    if OneLine(key) then Append(KeyLine(PinOption(sources, pinned), key, now)) else Refused
  }

  predicate OneLine(key: string) {
    '\n' !in key && '\r' !in key
  }

  lemma {:induction false} StampedAppends(ls: seq<Bytes>, l: Bytes, alone: Bytes -> bool, stamp: Bytes -> Bytes)
    ensures Stamped(ls + [l], alone, stamp) == Stamped(ls, alone, stamp) + [if alone(l) then l else stamp(l)]
    decreases |ls|
  {
    if ls == [] {
      assert ls + [l] == [l] && [l][1..] == [];
    } else {
      assert (ls + [l])[1..] == ls[1..] + [l];
      StampedAppends(ls[1..], l, alone, stamp);
    }
  }

  lemma StampedLineIsLine(line: Bytes, now: nat)
    requires IsLine(line) && !LeftAlone(line)
    ensures IsLine(StampedLine(line, now)) && Ended(StampedLine(line, now))
  {
    StripIsStripped(line);
    StripDropsNewline(line);
    MarkedTailIsLine(Strip(line), now);
  }

  lemma StripDropsNewline(line: Bytes)
    requires IsLine(line)
    ensures '\n' !in Strip(line)
  {
    TrimLeftStarts(line);
    var i :| 0 <= i <= |line| && TrimLeft(line) == line[i..];
    var tail := line[i..];
    var r := TrimRight(tail);
    forall k | 0 <= k < |r| ensures r[k] != '\n' {
      assert r[k] == tail[k] == line[i + k];
    }
  }

  lemma {:induction false} StampedAreLines(ls: seq<Bytes>, now: nat)
    requires FileLines(ls)
    ensures FileLines(Stamped(ls, LeftAlone, (l: Bytes) => StampedLine(l, now)))
    decreases |ls|
  {
    if ls != [] {
      var stamp := (l: Bytes) => StampedLine(l, now);
      StampedAreLines(ls[1..], now);
      var first := if LeftAlone(ls[0]) then ls[0] else stamp(ls[0]);
      if !LeftAlone(ls[0]) {
        StampedLineIsLine(ls[0], now);
      }
      FileLinesCons(first, Stamped(ls[1..], LeftAlone, stamp));
    }
  }

  lemma StampedIsFile(f: Bytes, now: nat)
    ensures FileLines(Stamped(Lines(f), LeftAlone, (l: Bytes) => StampedLine(l, now)))
  {
    LinesOfFile(f);
    StampedAreLines(Lines(f), now);
  }
}
