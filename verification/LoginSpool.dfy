/**
  The spool of sshd login lines: a live file, a rotated file the reader deletes once it has read it, and a
  count of the logins dropped while both together are full.
 */
module LoginSpool {
  import opened Common

  const ROTATE_BYTES: nat := 50 * 1024 * 1024
  const MAX_SPOOL_BYTES: nat := 2 * ROTATE_BYTES
  const MAX_PENDING: nat := 1000

  /** A login with the size of its written line. */
  datatype Login = Login(id: nat, size: nat)

  datatype Line =
    | Entry(login: Login)
    | DropNote(count: nat)
    | FullMarker

  type File = Option<seq<Line>>

  function Digits(n: nat): nat {
    if n < 10 then 1 else 1 + Digits(n / 10)
  }

  /** Bytes of a line: the notes are a 25-character time, a fixed text and the count. */
  function LineSize(l: Line): nat {
    match l
    case Entry(login) => login.size
    case DropNote(count) => 25 + 20 + Digits(count) + 41
    case FullMarker => 25 + 48
  }

  function Size(ls: seq<Line>): nat {
    if ls == [] then 0 else Size(ls[..|ls| - 1]) + LineSize(ls[|ls| - 1])
  }

  function FileSize(f: File): nat {
    if f.Some? then Size(f.value) else 0
  }

  function Content(f: File): seq<Line> {
    if f.Some? then f.value else []
  }

  // ---- What the queue tells of the logins --------------------------------------------------------------

  /** The logins the lines account for: an entry for one, a note for as many as it counts, in order. */
  ghost predicate Accounts(ls: seq<Line>, logins: seq<Login>)
    decreases |ls|
  {
    if ls == [] then logins == []
    else
      var init, last := ls[..|ls| - 1], ls[|ls| - 1];
      match last
      case Entry(login) => logins != [] && logins[|logins| - 1] == login && Accounts(init, logins[..|logins| - 1])
      case DropNote(count) => count <= |logins| && Accounts(init, logins[..|logins| - count])
      case FullMarker => Accounts(init, logins)
  }

  lemma AccountsEntry(ls: seq<Line>, logins: seq<Login>, login: Login)
    requires Accounts(ls, logins)
    ensures Accounts(ls + [Entry(login)], logins + [login])
  {
    assert (ls + [Entry(login)])[..|ls|] == ls && (logins + [login])[..|logins|] == logins;
  }

  lemma AccountsNote(ls: seq<Line>, logins: seq<Login>, count: nat)
    requires count <= |logins| && Accounts(ls, logins[..|logins| - count])
    ensures Accounts(ls + [DropNote(count)], logins)
  {
    assert (ls + [DropNote(count)])[..|ls|] == ls;
  }

  lemma AccountsMarker(ls: seq<Line>, logins: seq<Login>)
    requires Accounts(ls, logins)
    ensures Accounts(ls + [FullMarker], logins)
  {
    assert (ls + [FullMarker])[..|ls|] == ls;
  }

  lemma SizeAppend(ls: seq<Line>, l: Line)
    ensures Size(ls + [l]) == Size(ls) + LineSize(l)
  {
    assert (ls + [l])[..|ls|] == ls;
  }

  lemma {:induction false} SizeAppends(a: seq<Line>, b: seq<Line>)
    ensures Size(a + b) == Size(a) + Size(b)
    decreases |b|
  {
    if b == [] {
      assert a + b == a;
    } else {
      SizeAppends(a, b[..|b| - 1]);
      assert (a + b)[..|a + b| - 1] == a + b[..|b| - 1];
    }
  }

  lemma {:induction false} DigitsGrow(a: nat, b: nat)
    requires a <= b
    ensures Digits(a) <= Digits(b)
    decreases b
  {
    if b >= 10 && a >= 10 {
      DigitsGrow(a / 10, b / 10);
    }
  }

  /** The largest of the login lines. */
  ghost function Largest(logins: seq<Login>): nat {
    if logins == [] then 0
    else
      var rest, last := Largest(logins[..|logins| - 1]), logins[|logins| - 1].size;
      if last > rest then last else rest
  }

  lemma LargestGrows(logins: seq<Login>, login: Login)
    ensures Largest(logins + [login]) >= Largest(logins) && Largest(logins + [login]) >= login.size
  {
    assert (logins + [login])[..|logins|] == logins;
  }

  /** Each login is an entry of the queue, counted in one of its notes, or one of the `dropped` latest. */
  ghost predicate Counted(queue: seq<Line>, logins: seq<Login>, dropped: nat) {
    dropped <= |logins| && Accounts(queue, logins[..|logins| - dropped])
  }

  ghost predicate Bounded(bytes: nat, logins: seq<Login>, dropped: nat) {
    bytes <= MAX_SPOOL_BYTES + Largest(logins) + LineSize(DropNote(|logins|)) +
      if dropped > 0 then LineSize(FullMarker) else 0
  }

  /** A full spool gets one marker, and then nothing more. */
  lemma DropStaysBounded(bytes: nat, logins: seq<Login>, dropped: nat, login: Login)
    requires Bounded(bytes, logins, dropped)
    ensures Bounded(bytes + if dropped == 0 then LineSize(FullMarker) else 0, logins + [login], dropped + 1)
  {
    DigitsGrow(|logins|, |logins| + 1);
    LargestGrows(logins, login);
  }

  lemma WriteStaysBounded(bytes: nat, logins: seq<Login>, dropped: nat, login: Login)
    requires bytes < MAX_SPOOL_BYTES && dropped <= |logins|
    ensures Bounded(bytes + Size(LoginLines(dropped, login)), logins + [login], 0)
  {
    DigitsGrow(dropped, |logins| + 1);
    LargestGrows(logins, login);
    LoginLinesSize(dropped, login);
  }

  lemma DropStaysCounted(queue: seq<Line>, logins: seq<Login>, dropped: nat, login: Login)
    requires Counted(queue, logins, dropped)
    ensures Counted(queue + if dropped == 0 then [FullMarker] else [], logins + [login], dropped + 1)
  {
    var more := logins + [login];
    assert more[..|more| - (dropped + 1)] == logins[..|logins| - dropped];
    if dropped == 0 {
      AccountsMarker(queue, logins[..|logins| - dropped]);
    } else {
      assert queue + [] == queue;
    }
  }

  // ---- The receiver ------------------------------------------------------------------------------------

  /** What the disk does while a login is recorded. */
  datatype Disk = Disk(markerFails: bool, rotateFails: bool, writeFails: bool)

  class Spool {
    var live: File
    var old1: File
    var dropped: nat
    /** The lines the reader deleted, and the logins recorded. */
    ghost var read: seq<Line>
    ghost var logins: seq<Login>

    constructor ()
      ensures Valid() && read == [] && logins == [] && live.None? && old1.None? && dropped == 0
    {
      live, old1, dropped := None, None, 0;
      read, logins := [], [];
    }

    /** Everything ever written, oldest first. */
    ghost function Queue(): seq<Line>
      reads this
    {
      read + Content(old1) + Content(live)
    }

    /** Each login is a line of the queue or counted once, and the files stay within the cap and one line of each kind. */
    ghost predicate Valid()
      reads this
    {
      Counted(Queue(), logins, dropped) && Bounded(FileSize(live) + FileSize(old1), logins, dropped)
    }

    predicate Full()
      reads this
    {
      FileSize(live) + FileSize(old1) >= MAX_SPOOL_BYTES
    }

    /** The reader deletes the rotated file once its cursor has read all of it. */
    method DeleteRead()
      requires Valid()
      modifies this`old1, this`read
      ensures Valid() && Queue() == old(Queue()) && old1.None?
      ensures read == old(read) + Content(old(old1))
    {
      ghost var queue := Queue();
      read := read + Content(old1);
      old1 := None;
      assert Queue() == queue;
    }

    method Append(lines: seq<Line>)
      modifies this`live
      ensures Queue() == old(Queue()) + lines && FileSize(live) == old(FileSize(live)) + Size(lines)
    {
      SizeAppends(Content(live), lines);
      live := Some(Content(live) + lines);
    }

    /** `record` for a login line; false when a write raised, and then the login is not recorded. */
    method Record(login: Login, disk: Disk) returns (recorded: bool)
      requires Valid()
      modifies this
      ensures Valid()
      ensures old(Queue()) <= Queue() && read == old(read)
      ensures old(old1).Some? ==> old1 == old(old1)
      ensures logins == if recorded then old(logins) + [login] else old(logins)
      ensures !recorded ==> Queue() == old(Queue()) && dropped == old(dropped)
      ensures recorded && old(Full()) ==>
        dropped == old(dropped) + 1 && Queue() == old(Queue()) + if old(dropped) == 0 then [FullMarker] else []
      ensures recorded && !old(Full()) ==> dropped == 0 && Queue() == old(Queue()) + LoginLines(old(dropped), login)
      ensures !disk.markerFails && !disk.rotateFails && !disk.writeFails ==> recorded
      ensures old(old1).None? && old1.Some? ==> old1 == old(live) && old(FileSize(live)) > ROTATE_BYTES
      ensures recorded && !old(Full()) && old(old1).None? && old(FileSize(live)) > ROTATE_BYTES ==> old1 == old(live)
    {
      if FileSize(live) + FileSize(old1) >= MAX_SPOOL_BYTES {
        recorded := DropLogin(login, disk);
        return;
      }
      if live.Some? && FileSize(live) > ROTATE_BYTES && old1.None? {
        if disk.rotateFails {
          return false;
        }
        ghost var queue := Queue();
        old1, live := live, None;
        assert Queue() == queue;
      }
      if disk.writeFails {
        return false;
      }
      recorded := WriteLogin(login);
    }

    method DropLogin(login: Login, disk: Disk) returns (recorded: bool)
      requires Valid() && FileSize(live) + FileSize(old1) >= MAX_SPOOL_BYTES
      modifies this
      ensures Valid() && old1 == old(old1) && read == old(read)
      ensures logins == if recorded then old(logins) + [login] else old(logins)
      ensures Queue() == old(Queue()) + if recorded && old(dropped) == 0 then [FullMarker] else []
      ensures dropped == if recorded then old(dropped) + 1 else old(dropped)
      ensures !disk.markerFails ==> recorded
    {
      DropStaysCounted(Queue(), logins, dropped, login);
      DropStaysBounded(FileSize(live) + FileSize(old1), logins, dropped, login);
      if dropped == 0 {
        if disk.markerFails {
          return false;
        }
        assert Size([FullMarker]) == Size([]) + LineSize(FullMarker);
        Append([FullMarker]);
      } else {
        assert Queue() + [] == Queue();
      }
      logins := logins + [login];
      dropped := dropped + 1;
      return true;
    }

    method WriteLogin(login: Login) returns (recorded: bool)
      requires Valid() && FileSize(live) + FileSize(old1) < MAX_SPOOL_BYTES
      modifies this
      ensures Valid() && old1 == old(old1) && read == old(read) && recorded && dropped == 0
      ensures logins == old(logins) + [login]
      ensures Queue() == old(Queue()) + LoginLines(old(dropped), login)
    {
      WriteCounts(Queue(), logins, dropped, login);
      WriteStaysBounded(FileSize(live) + FileSize(old1), logins, dropped, login);
      Append(LoginLines(dropped, login));
      logins := logins + [login];
      dropped := 0;
      return true;
    }
  }

  /** `part` is `whole` with some logins left out: the rest are the same, in the same order. */
  ghost predicate LeftOut(part: seq<Login>, whole: seq<Login>)
    decreases |whole|
  {
    if whole == [] then part == []
    else
      var init, last := whole[..|whole| - 1], whole[|whole| - 1];
      LeftOut(part, init) || (part != [] && part[|part| - 1] == last && LeftOut(part[..|part| - 1], init))
  }

  lemma LeavesNoneOut(part: seq<Login>, whole: seq<Login>, login: Login)
    requires LeftOut(part, whole)
    ensures LeftOut(part + [login], whole + [login])
  {
    assert (whole + [login])[..|whole|] == whole && (part + [login])[..|part|] == part;
  }

  lemma {:induction false} LeavesMoreOut(part: seq<Login>, whole: seq<Login>, more: seq<Login>)
    requires LeftOut(part, whole)
    ensures LeftOut(part, whole + more)
    decreases |more|
  {
    if more == [] {
      assert whole + more == whole;
    } else {
      LeavesMoreOut(part, whole, more[..|more| - 1]);
      assert (whole + more)[..|whole + more| - 1] == whole + more[..|more| - 1];
    }
  }

  /** `received` splits into `gone` and `pending`, and `logins` is `gone` with `shed` left out. */
  ghost predicate Tracked(received: seq<Login>, gone: seq<Login>, pending: seq<Login>, logins: seq<Login>, shed: nat) {
    received == gone + pending && |gone| == |logins| + shed && LeftOut(logins, gone)
  }

  lemma RecordTracked(received: seq<Login>, gone: seq<Login>, pending: seq<Login>, logins: seq<Login>, shed: nat)
    requires Tracked(received, gone, pending, logins, shed) && pending != []
    ensures Tracked(received, gone + [pending[0]], pending[1..], logins + [pending[0]], shed)
  {
    LeavesNoneOut(logins, gone, pending[0]);
  }

  lemma ShedTracked(received: seq<Login>, gone: seq<Login>, pending: seq<Login>, logins: seq<Login>, shed: nat, k: nat)
    requires Tracked(received, gone, pending, logins, shed) && k <= |pending|
    ensures Tracked(received, gone + pending[..k], pending[k..], logins, shed + k)
  {
    LeavesMoreOut(logins, gone, pending[..k]);
    assert pending == pending[..k] + pending[k..];
  }

  /** With nothing left out the two are the same. */
  lemma {:induction false} NothingLeftOut(part: seq<Login>, whole: seq<Login>)
    requires LeftOut(part, whole)
    ensures |part| <= |whole| && (|part| == |whole| ==> part == whole)
    decreases |whole|
  {
    if whole != [] {
      var init := whole[..|whole| - 1];
      if LeftOut(part, init) {
        NothingLeftOut(part, init);
      } else {
        NothingLeftOut(part[..|part| - 1], init);
      }
    }
  }

  /** `serve`: logins wait here while the disk refuses them. */
  class Receiver {
    const spool: Spool
    var pending: seq<Login>
    /** Every login received; those no longer waiting; and how many of them were given up to keep the list short. */
    ghost var received: seq<Login>
    ghost var gone: seq<Login>
    ghost var shed: nat

    constructor (spool: Spool)
      requires spool.Valid() && spool.logins == []
      ensures Valid() && this.spool == spool && received == [] && shed == 0
    {
      this.spool := spool;
      pending, received, gone, shed := [], [], [], 0;
    }

    /**
      The waiting logins are the newest received, in order.  Those before them were recorded in the order they
      came, with exactly `shed` of them left out.
     */
    ghost predicate Waiting()
      reads this, spool
    {
      spool.Valid() && Tracked(received, gone, pending, spool.logins, shed)
    }

    ghost predicate Valid()
      reads this, spool
    {
      Waiting() && |pending| <= MAX_PENDING
    }

    /** While nothing was given up, the recorded and the waiting logins are all that were received. */
    lemma NoneShed()
      requires Waiting() && shed == 0
      ensures received == spool.logins + pending
    {
      NothingLeftOut(spool.logins, gone);
    }

    /** One message, or a timeout, and then as many records as the disk takes. */
    method Receive(message: Option<Login>, disk: nat -> Disk) returns (flushed: bool)
      requires Valid()
      modifies this, spool
      ensures Valid() && received == old(received) + if message.Some? then [message.value] else []
      ensures old(spool.Queue()) <= spool.Queue()
      ensures flushed ==> pending == [] && shed == old(shed)
      ensures shed > old(shed) ==> |pending| == MAX_PENDING
      ensures (forall i: nat :: Works(disk(i))) ==> flushed
    {
      if message.Some? {
        pending := pending + [message.value];
        received := received + [message.value];
        assert received == gone + pending;
      }
      flushed := Flush(disk);
      if !flushed && |pending| > MAX_PENDING {
        Shed();
      }
    }

    /** The oldest waiting logins are given up so that the newest fit the list. */
    method Shed()
      requires Waiting() && |pending| > MAX_PENDING
      modifies this
      ensures Valid() && received == old(received) && shed == old(shed) + |old(pending)| - MAX_PENDING
      ensures pending == old(pending)[|old(pending)| - MAX_PENDING..]
    {
      ghost var k := |pending| - MAX_PENDING;
      ShedTracked(received, gone, pending, spool.logins, shed, k);
      gone, shed := gone + pending[..k], shed + k;
      pending := pending[|pending| - MAX_PENDING..];
    }

    method Flush(disk: nat -> Disk) returns (flushed: bool)
      requires Waiting()
      modifies this, spool
      ensures Waiting() && received == old(received) && shed == old(shed) && |pending| <= |old(pending)|
      ensures old(spool.Queue()) <= spool.Queue()
      ensures flushed <==> pending == []
      ensures (forall i: nat :: Works(disk(i))) ==> flushed
    {
      var k: nat := 0;
      while pending != []
        invariant Waiting() && received == old(received) && shed == old(shed) && |pending| <= |old(pending)|
        invariant old(spool.Queue()) <= spool.Queue()
        decreases |pending|
      {
        var recorded := RecordFirst(disk(k));
        if !recorded {
          return false;
        }
        k := k + 1;
      }
      return true;
    }

    /** The oldest waiting login leaves the list only once it is recorded. */
    method RecordFirst(disk: Disk) returns (recorded: bool)
      requires Waiting() && pending != []
      modifies this, spool
      ensures Waiting() && received == old(received) && shed == old(shed)
      ensures pending == if recorded then old(pending)[1..] else old(pending)
      ensures old(spool.Queue()) <= spool.Queue()
      ensures Works(disk) ==> recorded
    {
      RecordTracked(received, gone, pending, spool.logins, shed);
      recorded := spool.Record(pending[0], disk);
      if recorded {
        gone := gone + [pending[0]];
        pending := pending[1..];
      }
    }
  }

  predicate Works(disk: Disk) {
    !disk.markerFails && !disk.rotateFails && !disk.writeFails
  }

  /** What a login writes: the count of those dropped before it, if any, then its own line. */
  function LoginLines(dropped: nat, login: Login): seq<Line> {
    (if dropped > 0 then [DropNote(dropped)] else []) + [Entry(login)]
  }

  lemma LoginLinesSize(dropped: nat, login: Login)
    ensures Size(LoginLines(dropped, login)) <= LineSize(DropNote(dropped)) + login.size
  {
    if dropped > 0 {
      SizeAppend([DropNote(dropped)], Entry(login));
      SizeAppend([], DropNote(dropped));
    } else {
      assert LoginLines(dropped, login) == [] + [Entry(login)];
      SizeAppend([], Entry(login));
    }
  }

  lemma WriteCounts(queue: seq<Line>, logins: seq<Login>, dropped: nat, login: Login)
    requires Counted(queue, logins, dropped)
    ensures Counted(queue + LoginLines(dropped, login), logins + [login], 0)
  {
    var more := logins + [login];
    assert logins[..|logins|] == logins && more[..|more| - 0] == more;
    if dropped > 0 {
      AccountsNote(queue, logins, dropped);
      AccountsEntry(queue + [DropNote(dropped)], logins, login);
      assert queue + LoginLines(dropped, login) == queue + [DropNote(dropped)] + [Entry(login)];
    } else {
      AccountsEntry(queue, logins, login);
      assert LoginLines(dropped, login) == [Entry(login)];
    }
  }
}
