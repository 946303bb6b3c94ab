/** The log lines a reporter keeps until a report gets through: the newest ones that fit the request. */
module PendingLogs {
  const MAX_LINES: nat := 20
  const MAX_BYTES: nat := 32_000
  const MAX_LINE_CHARS: nat := 2000

  type CodePoint = c: int | 0 <= c < 0x110000

  type Line = seq<CodePoint>

  /** The length of a character in `json.dumps` with its default ASCII escapes. */
  function EscapedSize(c: CodePoint): (n: nat)
    ensures 1 <= n <= 12
  {
    if c == 0x22 || c == 0x5c then 2                          // quote, backslash
    else if c == 0x0a || c == 0x0d || c == 0x09 || c == 0x08 || c == 0x0c then 2
    else if 0x20 <= c <= 0x7e then 1
    else if c < 0x10000 then 6
    else 12                                                   // a surrogate pair
  }

  function BodySize(line: Line): nat {
    if line == [] then 0 else EscapedSize(line[0]) + BodySize(line[1..])
  }

  /** `len(json.dumps(line))`. */
  function LineSize(line: Line): nat {
    2 + BodySize(line)
  }

  function Size(lines: seq<Line>): nat {
    if lines == [] then 0 else LineSize(lines[0]) + Size(lines[1..])
  }

  function Cut(line: Line): (r: Line)
    ensures r <= line && |r| <= MAX_LINE_CHARS
  {
    if |line| <= MAX_LINE_CHARS then line else line[..MAX_LINE_CHARS]
  }

  function LastLines(lines: seq<Line>): seq<Line> {
    if |lines| <= MAX_LINES then lines else lines[|lines| - MAX_LINES..]
  }

  predicate Fits(lines: seq<Line>) {
    |lines| <= MAX_LINES && Size(lines) <= MAX_BYTES
  }

  /** The longest suffix that fits. */
  function LongestFit(lines: seq<Line>): (r: seq<Line>)
    ensures Fits(r)
  {
    if Fits(lines) then lines else LongestFit(lines[1..])
  }

  lemma {:induction false} BodySizeBound(line: Line)
    ensures BodySize(line) <= 12 * |line|
    decreases |line|
  {
    if line != [] {
      BodySizeBound(line[1..]);
    }
  }

  lemma {:induction false} SizeOfSuffix(lines: seq<Line>, k: nat)
    requires k <= |lines|
    ensures Size(lines[k..]) <= Size(lines)
    decreases k
  {
    if k > 0 {
      SizeOfSuffix(lines[1..], k - 1);
      assert lines[1..][k - 1..] == lines[k..];
    } else {
      assert lines[0..] == lines;
    }
  }

  lemma {:induction false} SizeAppends(a: seq<Line>, b: seq<Line>)
    ensures Size(a + b) == Size(a) + Size(b)
    decreases |a|
  {
    if a == [] {
      assert a + b == b;
    } else {
      assert (a + b)[1..] == a[1..] + b;
      SizeAppends(a[1..], b);
    }
  }

  lemma FitsSuffix(lines: seq<Line>, k: nat)
    requires k <= |lines| && Fits(lines)
    ensures Fits(lines[k..])
  {
    SizeOfSuffix(lines, k);
  }

  lemma {:induction false} LongestIsSuffix(lines: seq<Line>) returns (i: nat)
    ensures i <= |lines| && LongestFit(lines) == lines[i..]
    decreases |lines|
  {
    if Fits(lines) {
      i := 0;
      assert lines[0..] == lines;
    } else {
      var j := LongestIsSuffix(lines[1..]);
      i := j + 1;
      assert lines[1..][j..] == lines[i..];
    }
  }

  /** Every suffix that fits is part of the longest one. */
  lemma {:induction false} LongestIsLongest(lines: seq<Line>, k: nat)
    requires k <= |lines| && Fits(lines[k..])
    ensures |LongestFit(lines)| >= |lines| - k
    decreases |lines|
  {
    assert lines[0..] == lines;
    if k > 0 && !Fits(lines) {
      assert lines[1..][k - 1..] == lines[k..];
      LongestIsLongest(lines[1..], k - 1);
    }
  }

  /** Cutting after every line is the same as cutting once at the end. */
  lemma {:induction false} CutAsYouGo(lines: seq<Line>, line: Line)
    ensures LongestFit(LongestFit(lines) + [line]) == LongestFit(lines + [line])
    decreases |lines|
  {
    if !Fits(lines) {
      CutAsYouGo(lines[1..], line);
      assert (lines + [line])[1..] == lines[1..] + [line];
      SizeAppends(lines, [line]);
    }
  }

  /** A line cut to 2000 characters fits on its own, so the newest line is always kept. */
  lemma NewestIsKept(lines: seq<Line>, line: Line)
    ensures var r := LongestFit(lines + [Cut(line)]); r != [] && r[|r| - 1] == Cut(line)
  {
    var all := lines + [Cut(line)];
    var k := |lines|;
    assert all[k..] == [Cut(line)];
    BodySizeBound(Cut(line));
    assert Size([Cut(line)]) == LineSize(Cut(line)) + Size([Cut(line)][1..]);
    LongestIsLongest(all, k);
    var i := LongestIsSuffix(all);
  }

  lemma {:induction false} LongestOfLast(lines: seq<Line>)
    ensures LongestFit(LastLines(lines)) == LongestFit(lines)
    decreases |lines|
  {
    if |lines| > MAX_LINES {
      LongestOfLast(lines[1..]);
      assert LastLines(lines) == LastLines(lines[1..]);
    }
  }

  /** `_newest_within_bytes`: add lines from the newest until one does not fit. */
  method NewestWithinBytes(lines: seq<Line>) returns (r: seq<Line>)
    requires |lines| <= MAX_LINES
    ensures r == LongestFit(lines)
  {
    var kept: seq<Line> := [];
    var size := 0;
    var k := |lines|;
    while k > 0
      invariant 0 <= k <= |lines| && kept == lines[k..] && size == Size(kept) && Fits(kept)
    {
      size := size + LineSize(lines[k - 1]);
      assert lines[k - 1..][1..] == lines[k..];
      if size > MAX_BYTES {
        StopsHere(lines, k);
        return kept;
      }
      kept := [lines[k - 1]] + kept;
      k := k - 1;
    }
    return kept;
  }

  lemma {:induction false} StopsHere(lines: seq<Line>, k: nat)
    requires 0 < k <= |lines| && Fits(lines[k..]) && !Fits(lines[k - 1..])
    ensures LongestFit(lines) == lines[k..]
    decreases |lines|
  {
    if Fits(lines) {
      FitsSuffix(lines, k - 1);
    } else if k == 1 {
      assert LongestFit(lines[1..]) == lines[1..];
    } else {
      assert lines[1..][k - 1..] == lines[k..] && lines[1..][k - 2..] == lines[k - 1..];
      StopsHere(lines[1..], k - 1);
    }
  }

  // ---- The life of a line ------------------------------------------------------------------------------

  /**
    The pending lines beside what they came from: every line so far, those since the last report that got
    through, those between two such reports, and what each such report carried.
   */
  datatype Book = Book(pending: seq<Line>, logged: seq<Line>, since: seq<Line>, batches: seq<seq<Line>>,
                       delivered: seq<seq<Line>>)

  datatype BookStep = Note(line: Line) | Deliver

  /** A new line joins the pending ones, cut to fit; a report that gets through clears the lines it carried. */
  function After(b: Book, step: BookStep): Book {
    match step
    case Note(line) => b.(pending := LongestFit(b.pending + [line]), logged := b.logged + [line], since := b.since + [line])
    case Deliver => Book([], b.logged, [], b.batches + [b.since], b.delivered + [b.pending])
  }

  function AfterAll(b: Book, steps: seq<BookStep>): Book {
    if steps == [] then b else After(AfterAll(b, steps[..|steps| - 1]), steps[|steps| - 1])
  }

  const EMPTY_BOOK := Book([], [], [], [], [])

  function Flat(batches: seq<seq<Line>>): seq<Line> {
    if batches == [] then [] else Flat(batches[..|batches| - 1]) + batches[|batches| - 1]
  }

  /**
    The pending lines are the longest fitting suffix of all lines since the last report that got through, and
    each such report carried the longest fitting suffix of the lines since the one before it.
   */
  ghost predicate Faithful(b: Book) {
    b.pending == LongestFit(b.since) && b.logged == Flat(b.batches) + b.since && |b.delivered| == |b.batches| &&
    forall i :: 0 <= i < |b.batches| ==> b.delivered[i] == LongestFit(b.batches[i])
  }

  lemma DeliverIsFaithful(b: Book)
    requires Faithful(b)
    ensures Faithful(After(b, Deliver))
  {
    assert (b.batches + [b.since])[..|b.batches|] == b.batches;
  }

  /** Whatever reports fail or get through, no line is cleared that was not reported or pushed out by newer ones. */
  lemma {:induction false} BookStaysFaithful(steps: seq<BookStep>)
    ensures Faithful(AfterAll(EMPTY_BOOK, steps))
    decreases |steps|
  {
    if steps != [] {
      var init, step := steps[..|steps| - 1], steps[|steps| - 1];
      BookStaysFaithful(init);
      var b := AfterAll(EMPTY_BOOK, init);
      match step
      case Note(line) => CutAsYouGo(b.since, line);
      case Deliver => DeliverIsFaithful(b);
    }
  }
}
