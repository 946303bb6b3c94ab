/**
  The storage event reporter: throttled progress reports, a lease that ends when reporting fails too long, and
  log lines kept until a report gets through.

  Time is a real number.  What each PUT meets (its answer, how long it takes, the random factor of the next
  delay) is an argument.
 */
module Reporter {
  import opened Common
  import opened PendingLogs

  const PROGRESS_MIN_INTERVAL: real := 10.0
  const RETRY_BACKOFF_CAP: real := 60.0

  datatype Answer = Accepted(cancel: bool) | Gone | Failed

  datatype Attempt = Attempt(answer: Answer, seconds: real, jitter: real, overslept: real)

  /** The clock does not run backwards and the random factor is `uniform(0.5, 1.0)`. */
  ghost predicate Sane(a: Attempt) {
    a.seconds >= 0.0 && a.overslept >= 0.0 && 0.5 <= a.jitter <= 1.0
  }

  datatype Outcome = Skipped | Reported | Retried | LeaseExpired

  datatype Event =
    | Progress(percent: Option<real>)
    | Log(message: Line)
    | Result(completed: bool)

  function Min(a: real, b: real): real { if a <= b then a else b }
  function Max(a: real, b: real): real { if a >= b then a else b }

  function Doublings(failures: nat): real {
    if failures <= 1 then 1.0 else if failures == 2 then 2.0 else if failures == 3 then 4.0 else 8.0
  }

  /** The delay after the n-th failed progress report in a row, before the random factor. */
  function Backoff(failures: nat): (b: real)
    ensures PROGRESS_MIN_INTERVAL <= b <= RETRY_BACKOFF_CAP
  {
    Min(PROGRESS_MIN_INTERVAL * Doublings(failures), RETRY_BACKOFF_CAP)
  }

  function Ceil(x: real): int {
    -((-x).Floor)
  }

  /** How many more attempts a terminal report can make with `left` seconds of its lease. */
  ghost function AttemptsLeft(left: real): nat {
    if left <= 0.0 then 1 else Ceil(2.0 * left) + 2
  }

  lemma SleepUsesAttempts(left: real, slept: real, after: real)
    requires left > 0.0 && (slept >= 0.5 || slept == left) && slept > 0.0 && after <= left - slept
    ensures AttemptsLeft(after) < AttemptsLeft(left)
  {
    assert Ceil(2.0 * left) >= 1;
    if after > 0.0 {
      assert -(2.0 * after) >= -(2.0 * left) + 1.0;
    }
  }

  lemma AttemptsGrow(a: real, b: real)
    requires a <= b
    ensures AttemptsLeft(a) <= AttemptsLeft(b)
  {
    if a > 0.0 {
      assert -(2.0 * a) >= -(2.0 * b);
    }
  }

  class StorageEventReporter {
    var now: real
    var lastSuccessAt: real
    var nextProgressAt: real
    var progressFailures: nat
    var pending: seq<Line>
    var progress: real
    var cancelRequested: bool
    const timeout: real

    /** Whether a report got through yet, and when the last failed progress report since then ended. */
    ghost var succeeded: bool
    ghost var failedAt: Option<real>
    /** Where the pending lines came from, and the steps taken so far. */
    ghost var book: Book
    ghost var steps: seq<BookStep>

    constructor (now: real, timeout: real)
      requires timeout > 0.0
      ensures Valid() && Traced() && this.now == now && this.timeout == timeout && pending == [] && progress == 0.0
      ensures !succeeded && failedAt.None? && steps == []
    {
      this.now := now;
      this.lastSuccessAt := now;
      this.nextProgressAt := now;
      this.progressFailures := 0;
      this.pending := [];
      this.progress := 0.0;
      this.cancelRequested := false;
      this.timeout := timeout;
      this.succeeded := false;
      this.failedAt := None;
      this.book := EMPTY_BOOK;
      this.steps := [];
    }

    ghost predicate Valid()
      reads this
    {
      timeout > 0.0 && lastSuccessAt <= now && 0.0 <= progress <= 100.0 &&
      pending == book.pending &&
      (succeeded ==> nextProgressAt >= lastSuccessAt + PROGRESS_MIN_INTERVAL) &&
      match failedAt
      case None => nextProgressAt == if succeeded then lastSuccessAt + PROGRESS_MIN_INTERVAL else lastSuccessAt
      case Some(f) => lastSuccessAt <= f <= now && f + 5.0 <= nextProgressAt <= f + RETRY_BACKOFF_CAP
    }

    /** The last success is recent enough, or long enough ago, and so is the last failure. */
    ghost predicate MayReport(at: real)
      reads this
    {
      (succeeded ==> at >= lastSuccessAt + PROGRESS_MIN_INTERVAL) && (failedAt.Some? ==> at >= failedAt.value + 5.0)
    }

    /** No report is held off once this much time has passed since the last one. */
    ghost predicate MustReport(at: real)
      reads this
    {
      (succeeded ==> at >= lastSuccessAt + PROGRESS_MIN_INTERVAL) &&
      (failedAt.Some? ==> at >= failedAt.value + RETRY_BACKOFF_CAP)
    }

    /** The book has taken one step. */
    ghost predicate Stepped(book0: Book, steps0: seq<BookStep>, step: BookStep)
      reads this
    {
      book == PendingLogs.After(book0, step) && steps == steps0 + [step]
    }

    ghost method Step(step: BookStep)
      modifies this`book, this`steps
      ensures Stepped(old(book), old(steps), step)
    {
      book, steps := PendingLogs.After(book, step), steps + [step];
    }

    /** The book is what its steps make of an empty one. */
    ghost predicate Traced()
      reads this
    {
      book == AfterAll(EMPTY_BOOK, steps)
    }

    /**
      At any time the pending lines are the longest suffix, within 20 lines and 32 000 escaped bytes, of all
      lines since the last report that got through.
     */
    lemma PendingIsLongestSuffix()
      requires Valid() && Traced()
      ensures Faithful(book) && pending == LongestFit(book.since)
    {
      BookStaysFaithful(steps);
    }

    /** What a report that got through leaves; the lines it carried are the ones that are cleared. */
    method Accept(logs: seq<Line>, cancel: bool)
      requires Valid() && logs == pending
      modifies this
      ensures Valid() && now == old(now) && progress == old(progress)
      ensures lastSuccessAt == now && succeeded && failedAt.None? && progressFailures == 0
      ensures Stepped(old(book), old(steps), Deliver) && book.delivered == old(book).delivered + [logs]
      ensures cancelRequested == (old(cancelRequested) || cancel)
    {
      lastSuccessAt := now;
      nextProgressAt := lastSuccessAt + PROGRESS_MIN_INTERVAL;
      progressFailures := 0;
      pending := [];
      if cancel {
        cancelRequested := true;
      }
      succeeded, failedAt := true, None;
      Step(Deliver);
    }

    /** `_put` for a progress report: one attempt, unless it is too early. */
    method PutProgress(logs: seq<Line>, a: Attempt) returns (r: Outcome)
      requires Valid() && logs == pending && Sane(a)
      modifies this
      ensures Valid() && now >= old(now) && progress == old(progress)
      ensures r.Skipped? ==> !old(MustReport(now)) && now == old(now)
      ensures !r.Skipped? ==> old(MayReport(now)) && now == old(now) + a.seconds
      ensures Delivery(r, old(book), old(steps))
      ensures r.Retried? ==> failedAt == Some(now) && lastSuccessAt == old(lastSuccessAt)
      ensures r.Retried? ==> progressFailures == old(progressFailures) + 1
      ensures r.Retried? ==> 0.5 * Backoff(progressFailures) <= nextProgressAt - now <= Backoff(progressFailures)
      ensures r.Reported? ==> progressFailures == 0
      ensures r.LeaseExpired? ==> a.answer.Gone? || (a.answer.Failed? && now - old(lastSuccessAt) >= timeout)
      ensures r.Reported? <==> !r.Skipped? && a.answer.Accepted?
    {
      if now < nextProgressAt {
        return Skipped;
      }
      now := now + a.seconds;
      match a.answer
      case Gone =>
        return LeaseExpired;
      case Accepted(cancel) =>
        Accept(logs, cancel);
        return Reported;
      case Failed =>
        if timeout - (now - lastSuccessAt) <= 0.0 {
          return LeaseExpired;
        }
        progressFailures := progressFailures + 1;
        var delay := Backoff(progressFailures) * a.jitter;
        JitterBounds(Backoff(progressFailures), a.jitter);
        nextProgressAt := now + delay;
        failedAt := Some(now);
        return Retried;
    }

    /** The lines are delivered and cleared together, or nothing about them changes. */
    ghost predicate Delivery(r: Outcome, book0: Book, steps0: seq<BookStep>)
      reads this
    {
      if r.Reported? then Stepped(book0, steps0, Deliver) else book == book0 && steps == steps0
    }

    /** `_put` for the result: it is retried until it gets through or the lease ends. */
    method PutTerminal(logs: seq<Line>, env: nat -> Attempt) returns (r: Outcome, attempts: nat)
      requires Valid() && logs == pending && forall i: nat :: Sane(env(i))
      modifies this
      ensures Valid() && now >= old(now) && progress == old(progress)
      ensures r.Reported? || r.LeaseExpired?
      ensures Delivery(r, old(book), old(steps))
      ensures 1 <= attempts <= AttemptsLeft(timeout)
      ensures Ends(r, env(attempts - 1), timeout, old(lastSuccessAt), now)
      ensures forall i :: 0 <= i < attempts - 1 ==> env(i).answer.Failed?
      ensures now == StartOf(env, timeout, old(lastSuccessAt), old(now), attempts - 1) + env(attempts - 1).seconds
    {
      var delay := 1.0;
      attempts := 0;
      r := Retried;
      AttemptsGrow(timeout - (now - lastSuccessAt), timeout);
      while r.Retried?
        invariant r.Retried? || r.Reported? || r.LeaseExpired?
        invariant Valid() && now >= old(now) && progress == old(progress) && delay == RetryDelay(attempts)
        invariant Delivery(r, old(book), old(steps)) && (r.Retried? ==> lastSuccessAt == old(lastSuccessAt))
        invariant r.Retried? ==> now == StartOf(env, timeout, old(lastSuccessAt), old(now), attempts)
        invariant r.Retried? ==> attempts + AttemptsLeft(timeout - (now - lastSuccessAt)) <= AttemptsLeft(timeout)
        invariant attempts <= AttemptsLeft(timeout) && (attempts == 0 ==> r.Retried?)
        invariant forall i :: 0 <= i < attempts - 1 ==> env(i).answer.Failed?
        invariant r.Retried? && attempts > 0 ==> env(attempts - 1).answer.Failed?
        invariant attempts > 0 ==> Ends(r, env(attempts - 1), timeout, old(lastSuccessAt), now)
        invariant !r.Retried? ==>
          now == StartOf(env, timeout, old(lastSuccessAt), old(now), attempts - 1) + env(attempts - 1).seconds
        decreases r.Retried?, AttemptsLeft(timeout - (now - lastSuccessAt))
      {
        r := TryTerminal(logs, env(attempts), delay);
        attempts := attempts + 1;
        delay := Min(delay * 2.0, RETRY_BACKOFF_CAP);
      }
    }

    /** One attempt of a terminal report; after a failure within the lease it sleeps and is to be retried. */
    method TryTerminal(logs: seq<Line>, a: Attempt, delay: real) returns (r: Outcome)
      requires Valid() && logs == pending && Sane(a) && delay >= 1.0
      modifies this
      ensures Valid() && now >= old(now) && progress == old(progress) && !r.Skipped?
      ensures Delivery(r, old(book), old(steps))
      ensures r.Retried? ==> lastSuccessAt == old(lastSuccessAt) && a.answer.Failed? &&
                             now == NextStart(old(now) + a.seconds, lastSuccessAt, timeout, delay, a)
      ensures r.Retried? ==>
        AttemptsLeft(timeout - (now - lastSuccessAt)) < AttemptsLeft(timeout - (old(now) - lastSuccessAt))
      ensures !r.Retried? ==> now == old(now) + a.seconds
      ensures Ends(r, a, timeout, old(lastSuccessAt), now)
    {
      ghost var before := timeout - (now - lastSuccessAt);
      now := now + a.seconds;
      match a.answer
      case Gone =>
        return LeaseExpired;
      case Accepted(cancel) =>
        Accept(logs, cancel);
        return Reported;
      case Failed =>
        AttemptsGrow(timeout - (now - lastSuccessAt), before);
        if timeout - (now - lastSuccessAt) <= 0.0 {
          return LeaseExpired;
        }
        SleepBeforeRetry(delay, a);
        return Retried;
    }

    /** The sleep between two attempts; it is cut at the end of the lease, and each one uses up an attempt. */
    method SleepBeforeRetry(delay: real, a: Attempt)
      requires Valid() && Sane(a) && delay >= 1.0 && timeout - (now - lastSuccessAt) > 0.0
      modifies this`now
      ensures Valid() && now >= old(now) && now == NextStart(old(now), lastSuccessAt, timeout, delay, a)
      ensures AttemptsLeft(timeout - (now - lastSuccessAt)) < AttemptsLeft(timeout - (old(now) - lastSuccessAt))
    {
      var remaining := timeout - (now - lastSuccessAt);
      JitterBounds(delay, a.jitter);
      var sleep := Min(delay * a.jitter, remaining);
      now := now + sleep + a.overslept;
      SleepUsesAttempts(remaining, sleep, timeout - (now - lastSuccessAt));
    }

    /** A log line joins the pending ones, cut to fit, and a progress report carries them; an empty one is ignored. */
    method SendLog(message: Line, a: Attempt) returns (r: Outcome)
      requires Valid() && Sane(a)
      modifies this
      ensures Valid() && (old(Traced()) ==> Traced()) && now >= old(now) && progress == old(progress)
      ensures message == [] ==> Delivery(r, old(book), old(steps))
      ensures message != [] ==>
        Delivery(r, PendingLogs.After(old(book), Note(Cut(message))), old(steps) + [Note(Cut(message))])
    {
      if message == [] {
        return Skipped;
      }
      ghost var steps0 := steps;
      LongestOfLast(pending + [Cut(message)]);
      pending := NewestWithinBytes(LastLines(pending + [Cut(message)]));
      Step(Note(Cut(message)));
      r := PutProgress(pending, a);
      StepTraced(EMPTY_BOOK, steps0, Note(Cut(message)));
      StepTraced(EMPTY_BOOK, steps0 + [Note(Cut(message))], Deliver);
    }

    /** `send`, after `wait` seconds without an event. */
    method Send(event: Event, wait: real, env: nat -> Attempt) returns (r: Outcome)
      requires Valid() && wait >= 0.0 && forall i: nat :: Sane(env(i))
      modifies this
      ensures Valid() && (old(Traced()) ==> Traced()) && now >= old(now) + wait
      ensures event.Progress? ==> progress >= old(progress)
      ensures event.Log? ==> progress == old(progress)
      ensures !event.Result? && old(progress) < 100.0 ==> progress < 100.0
      ensures event.Result? ==> progress == if event.completed then 100.0 else old(progress)
      ensures !(event.Log? && event.message != []) ==> Delivery(r, old(book), old(steps))
      ensures event.Log? && event.message != [] ==>
        Delivery(r, PendingLogs.After(old(book), Note(Cut(event.message))), old(steps) + [Note(Cut(event.message))])
    {
      ghost var steps0 := steps;
      now := now + wait;
      match event
      case Progress(percent) =>
        if percent.Some? {
          progress := Max(progress, Min(percent.value * 100.0, 99.9));
        }
        r := PutProgress(pending, env(0));
        StepTraced(EMPTY_BOOK, steps0, Deliver);
      case Log(message) =>
        r := SendLog(message, env(0));
      case Result(completed) =>
        if completed {
          progress := 100.0;
        }
        var attempts;
        r, attempts := PutTerminal(pending, env);
        StepTraced(EMPTY_BOOK, steps0, Deliver);
    }
  }

  /** How the attempt that ends a terminal report went. */
  ghost predicate Ends(r: Outcome, a: Attempt, timeout: real, lastSuccessAt: real, now: real) {
    (r.Reported? ==> a.answer.Accepted?) &&
    (r.LeaseExpired? ==> a.answer.Gone? || (a.answer.Failed? && now - lastSuccessAt >= timeout))
  }

  /** The delay after attempt `k` of a terminal report: it doubles from one second up to the cap. */
  function RetryDelay(k: nat): (d: real)
    ensures 1.0 <= d <= RETRY_BACKOFF_CAP
  {
    if k == 0 then 1.0 else Min(RetryDelay(k - 1) * 2.0, RETRY_BACKOFF_CAP)
  }

  /** When the next attempt starts after one that failed at `failed`. */
  function NextStart(failed: real, lastSuccessAt: real, timeout: real, delay: real, a: Attempt): real {
    failed + Min(delay * a.jitter, timeout - (failed - lastSuccessAt)) + a.overslept
  }

  /** When attempt `k` of a terminal report starts, if all before it failed. */
  function StartOf(env: nat -> Attempt, timeout: real, lastSuccessAt: real, now: real, k: nat): real {
    if k == 0 then now
    else
      var failed := StartOf(env, timeout, lastSuccessAt, now, k - 1) + env(k - 1).seconds;
      NextStart(failed, lastSuccessAt, timeout, RetryDelay(k - 1), env(k - 1))
  }

  lemma StepTraced(b: Book, steps: seq<BookStep>, step: BookStep)
    ensures AfterAll(b, steps + [step]) == PendingLogs.After(AfterAll(b, steps), step)
  {
    assert (steps + [step])[..|steps|] == steps;
  }

  lemma JitterBounds(delay: real, jitter: real)
    requires delay >= 1.0 && 0.5 <= jitter <= 1.0
    ensures 0.5 * delay <= delay * jitter <= delay
  {
    assert delay * (jitter - 0.5) >= 0.0;
    assert delay * (1.0 - jitter) >= 0.0;
  }
}
