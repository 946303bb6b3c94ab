/**
  Killing the process tree of a stale containerd task and starting the container it keeps down.
  The process table is an argument and may hold any parent links, cycles included.
 */
module StaleTask {
  import opened Common

  type Pid = nat

  datatype Process = Process(argv: seq<string>, cgroup: string, parent: Option<Pid>)

  type Table = map<Pid, Process>

  const SHIM := "containerd-shim"
  const ALREADY_EXISTS := "AlreadyExists: task "
  const ID_LENGTH: nat := 64

  // ---- Which processes hold the task -------------------------------------------------------------------

  function Basename(path: string): string {
    if path == [] then [] else if path[|path| - 1] == '/' then [] else Basename(path[..|path| - 1]) + [path[|path| - 1]]
  }

  /** The arguments that follow an `-id`. */
  function IdArgs(argv: seq<string>): set<string> {
    if |argv| < 2 then {} else (if argv[0] == "-id" then {argv[1]} else {}) + IdArgs(argv[1..])
  }

  predicate Contains(s: string, part: string) {
    part <= s || (s != [] && Contains(s[1..], part))
  }

  /** The shim that carries the task's id, or a process still in the task's cgroup. */
  predicate HoldsTask(p: Process, task: string) {
    (p.argv != [] && SHIM <= Basename(p.argv[0]) && task in IdArgs(p.argv)) || Contains(p.cgroup, task)
  }

  predicate IsChild(table: Table, pid: Pid, parent: Pid) {
    pid in table && table[pid].parent == Some(parent)
  }

  /** With every process the set has its children. */
  ghost predicate ClosedUnderChildren(table: Table, s: set<Pid>) {
    forall pid, parent :: parent in s && IsChild(table, pid, parent) ==> pid in s
  }

  ghost predicate HoldsSeeds(table: Table, task: string, s: set<Pid>) {
    forall pid :: pid in table && HoldsTask(table[pid], task) ==> pid in s
  }

  ghost function Members(pids: seq<Pid>): set<Pid> {
    set i | 0 <= i < |pids| :: pids[i]
  }

  /** A listing of the table: each process once. */
  ghost predicate Lists(pids: seq<Pid>, table: Table) {
    Distinct(pids) && Members(pids) == table.Keys
  }

  lemma MembersAppend(pids: seq<Pid>, pid: Pid)
    ensures Members(pids + [pid]) == Members(pids) + {pid}
  {
    var more := pids + [pid];
    assert more[|pids|] == pid;
    forall x | x in Members(pids) ensures x in Members(more) {
      var i :| 0 <= i < |pids| && pids[i] == x;
      assert more[i] == x;
    }
  }

  /** Every set that holds the seeds and is closed under children holds all of `found`. */
  ghost predicate Least(table: Table, task: string, found: set<Pid>) {
    forall s: set<Pid> :: HoldsSeeds(table, task, s) && ClosedUnderChildren(table, s) ==> found <= s
  }

  lemma {:induction false} DistinctCount(a: seq<Pid>, b: seq<Pid>)
    requires Distinct(a) && Members(a) <= Members(b)
    ensures |a| <= |b|
  {
    CardOf(a);
    CardBelow(b);
    SubsetCount(Members(a), Members(b));
  }

  lemma {:induction false} CardOf(a: seq<Pid>)
    requires Distinct(a)
    ensures |Members(a)| == |a|
    decreases |a|
  {
    if a != [] {
      var init, last := a[..|a| - 1], a[|a| - 1];
      CardOf(init);
      assert a == init + [last];
      MembersAppend(init, last);
      assert last !in Members(init);
    }
  }

  lemma {:induction false} CardBelow(a: seq<Pid>)
    ensures |Members(a)| <= |a|
    decreases |a|
  {
    if a != [] {
      var init, last := a[..|a| - 1], a[|a| - 1];
      CardBelow(init);
      assert a == init + [last];
      MembersAppend(init, last);
    }
  }

  method Seeds(task: string, pids: seq<Pid>, table: Table) returns (seeds: seq<Pid>)
    requires Lists(pids, table)
    ensures Distinct(seeds) && Members(seeds) == set pid | pid in table && HoldsTask(table[pid], task)
  {
    seeds := [];
    for k := 0 to |pids|
      invariant forall i :: 0 <= i < |pids| ==> pids[i] in Members(pids)
      invariant Distinct(seeds)
      invariant forall x :: x in Members(seeds) <==> exists i :: 0 <= i < k && pids[i] == x && HoldsTask(table[x], task)
    {
      MembersAppend(seeds, pids[k]);
      if HoldsTask(table[pids[k]], task) {
        assert pids[k] !in Members(seeds);
        assert forall i :: 0 <= i < |seeds| ==> seeds[i] in Members(seeds);
        seeds := seeds + [pids[k]];
      }
    }
    forall pid | pid in table && HoldsTask(table[pid], task) ensures pid in Members(seeds) {
      assert pid in Members(pids);
    }
  }

  /** The children of `parent` that are not in the list yet, appended in table order. */
  method AddChildren(pids: seq<Pid>, table: Table, parent: Pid, before: seq<Pid>) returns (found: seq<Pid>)
    requires Lists(pids, table) && Distinct(before)
    ensures before <= found && Distinct(found)
    ensures Members(found) == Members(before) + set pid | pid in table && IsChild(table, pid, parent)
  {
    found := before;
    for k := 0 to |pids|
      invariant before <= found && Distinct(found)
      invariant forall x :: x in Members(found) <==>
        x in Members(before) || exists i :: 0 <= i < k && pids[i] == x && IsChild(table, x, parent)
    {
      MembersAppend(found, pids[k]);
      if IsChild(table, pids[k], parent) && pids[k] !in found {
        assert pids[k] !in Members(found);
        found := found + [pids[k]];
      }
    }
    forall pid | pid in table && IsChild(table, pid, parent) ensures pid in Members(found) {
      assert pid in Members(pids);
    }
  }

  /**
    `shim_pids`: the list grows while it is walked.  The walk ends for every table and returns, without
    repeats, exactly the least set that holds the task's processes and is closed under children.
   */
  method ShimPids(task: string, pids: seq<Pid>, table: Table) returns (found: seq<Pid>)
    requires Lists(pids, table)
    ensures Distinct(found) && Members(found) <= table.Keys
    ensures HoldsSeeds(table, task, Members(found)) && ClosedUnderChildren(table, Members(found))
    ensures Least(table, task, Members(found))
  {
    found := Seeds(task, pids, table);
    DistinctCount(found, pids);
    var i := 0;
    while i < |found|
      invariant 0 <= i <= |found| <= |pids|
      invariant Distinct(found) && Members(found) <= table.Keys && HoldsSeeds(table, task, Members(found))
      invariant forall k, pid :: 0 <= k < i && IsChild(table, pid, found[k]) ==> pid in Members(found)
      invariant Least(table, task, Members(found))
      decreases |pids| - i
    {
      var parent := found[i];
      assert parent in Members(found);
      found := AddChildren(pids, table, parent, found);
      DistinctCount(found, pids);
      i := i + 1;
    }
  }

  // ---- One recovery pass -------------------------------------------------------------------------------

  predicate IsHexDigit(c: char) {
    '0' <= c <= '9' || 'a' <= c <= 'f'
  }

  predicate TaskAt(error: string, i: nat) {
    var start := i + |ALREADY_EXISTS|;
    start + ID_LENGTH <= |error| && error[i..start] == ALREADY_EXISTS &&
    forall k :: start <= k < start + ID_LENGTH ==> IsHexDigit(error[k])
  }

  /** A message stands at `k`, and none between `i` and `k`. */
  ghost predicate IsFirstTask(error: string, i: nat, k: nat) {
    i <= k && TaskAt(error, k) && forall j: nat :: i <= j < k ==> !TaskAt(error, j)
  }

  /** Where the first `AlreadyExists` message at or after `i` stands. */
  function FirstTask(error: string, i: nat): (r: Option<nat>)
    ensures r.Some? ==> IsFirstTask(error, i, r.value)
    ensures r.None? ==> forall k: nat :: i <= k ==> !TaskAt(error, k)
    decreases |error| - i
  {
    if i >= |error| then None else if TaskAt(error, i) then Some(i) else FirstTask(error, i + 1)
  }

  /** The id the message at `k` names. */
  function TaskId(error: string, k: nat): string
    requires TaskAt(error, k)
  {
    error[k + |ALREADY_EXISTS|..][..ID_LENGTH]
  }

  datatype State = State(status: string, error: string)

  /** `stale_task_id`: the container is down because its own old task still exists. */
  predicate IsStale(id: string, s: State) {
    (s.status == "exited" || s.status == "created") &&
    var first := FirstTask(s.error, 0);
    first.Some? && TaskId(s.error, first.value) == id
  }

  /** A container as listed, and as a reload finds it once the process table has been read. */
  datatype Container = Container(id: string, listed: State, reloaded: State)

  /** The state letters read for a process: before the kill, and in each second of the wait; None once it is gone. */
  datatype Watch = Watch(before: Pid -> Option<char>, during: (nat, Pid) -> Option<char>)

  predicate Gone(s: Option<char>) {
    s.None? || s.value == 'Z'
  }

  predicate AllGone(pids: seq<Pid>, w: Watch, second: nat) {
    forall i :: 0 <= i < |pids| ==> Gone(w.during(second, pids[i]))
  }

  predicate AnyBlocked(pids: seq<Pid>, w: Watch) {
    exists i :: 0 <= i < |pids| && w.before(pids[i]) == Some('D')
  }

  datatype Outcome = Nothing | Blocked | Survived | Started

  /** `tree` is the process tree of the task. */
  ghost predicate IsTree(table: Table, task: string, tree: set<Pid>) {
    tree <= table.Keys && HoldsSeeds(table, task, tree) && ClosedUnderChildren(table, tree) && Least(table, task, tree)
  }

  /** Waits until every process is gone or a zombie. */
  method WaitGone(tree: seq<Pid>, w: Watch, waitSeconds: nat) returns (gone: bool, second: nat)
    ensures gone ==> second < waitSeconds && AllGone(tree, w, second)
    ensures !gone ==> forall k: nat :: k < waitSeconds ==> !AllGone(tree, w, k)
  {
    for k := 0 to waitSeconds
      invariant forall i: nat :: i < k ==> !AllGone(tree, w, i)
    {
      if AllGone(tree, w, k) {
        return true, k;
      }
    }
    return false, 0;
  }

  /** What one container meets: the process table as it was scanned for it, and the states read afterwards. */
  datatype Scan = Scan(pids: seq<Pid>, table: Table, watch: Watch)

  ghost predicate ValidScan(s: Scan) {
    Lists(s.pids, s.table)
  }

  /** A container is held down by its own task, before and after the scan. */
  predicate StaysStale(isStale: (string, State) -> bool, c: Container) {
    isStale(c.id, c.listed) && isStale(c.id, c.reloaded)
  }

  /**
    What a pass over one container means.  It is started only when it is held down by its own task, before and
    after the process scan, no process of the task's whole tree was in uninterruptible IO, all of them were
    killed and each is gone or a zombie.  A tree in uninterruptible IO is not touched.
   */
  ghost predicate RecoveredOne(isStale: (string, State) -> bool, c: Container, s: Scan, waitSeconds: nat, r: Outcome,
                               killed: seq<Pid>)
  {
    match r
    case Nothing => !StaysStale(isStale, c) && killed == []
    case Blocked => isStale(c.id, c.listed) && killed == [] && TreeBlocked(s, c.id)
    case Started => StaysStale(isStale, c) && KilledTree(s, c.id, killed) && GoneWithin(killed, s.watch, waitSeconds)
    case Survived => StaysStale(isStale, c) && KilledTree(s, c.id, killed) && !GoneWithin(killed, s.watch, waitSeconds)
  }

  ghost predicate KilledTree(s: Scan, task: string, killed: seq<Pid>) {
    IsTree(s.table, task, Members(killed)) && !AnyBlocked(killed, s.watch)
  }

  /** A process of the task's tree is in uninterruptible IO. */
  ghost predicate TreeBlocked(s: Scan, task: string) {
    exists tree :: IsTree(s.table, task, Members(tree)) && AnyBlocked(tree, s.watch)
  }

  ghost predicate GoneWithin(killed: seq<Pid>, w: Watch, waitSeconds: nat) {
    exists second: nat :: second < waitSeconds && AllGone(killed, w, second)
  }

  /**
    `recover_stale_executor_task`: the process table is scanned again for each container, in order, and the pass
    ends at the first one it acts on, `which`; `killed` are the processes that got SIGKILL.
   */
  method RecoverStaleTask(containers: seq<Container>, scans: nat -> Scan, waitSeconds: nat)
    returns (r: Outcome, which: nat, killed: seq<Pid>)
    requires forall i: nat :: ValidScan(scans(i))
    ensures Recovery(IsStale, containers, scans, waitSeconds, r, which, killed)
  {
    r, which, killed := RecoverWith(IsStale, containers, scans, waitSeconds);
  }

  ghost predicate Recovery(isStale: (string, State) -> bool, containers: seq<Container>, scans: nat -> Scan,
                           waitSeconds: nat, r: Outcome, which: nat, killed: seq<Pid>)
  {
    if r.Nothing? then
      killed == [] && forall i :: 0 <= i < |containers| ==> !StaysStale(isStale, containers[i])
    else
      which < |containers| && RecoveredOne(isStale, containers[which], scans(which), waitSeconds, r, killed) &&
      forall i :: 0 <= i < which ==> !StaysStale(isStale, containers[i])
  }

  /** The pass, for a way to tell that a container is held down by its own task. */
  method RecoverWith(isStale: (string, State) -> bool, containers: seq<Container>, scans: nat -> Scan, waitSeconds: nat)
    returns (r: Outcome, which: nat, killed: seq<Pid>)
    requires forall i: nat :: ValidScan(scans(i))
    ensures Recovery(isStale, containers, scans, waitSeconds, r, which, killed)
  {
    for k := 0 to |containers|
      invariant forall i :: 0 <= i < k ==> !StaysStale(isStale, containers[i])
    {
      assert ValidScan(scans(k));
      r, killed := RecoverOne(isStale, containers[k], scans(k), waitSeconds);
      if !r.Nothing? {
        return r, k, killed;
      }
    }
    return Nothing, 0, [];
  }

  method RecoverOne(isStale: (string, State) -> bool, c: Container, s: Scan, waitSeconds: nat)
    returns (r: Outcome, killed: seq<Pid>)
    requires ValidScan(s)
    ensures RecoveredOne(isStale, c, s, waitSeconds, r, killed)
  {
    if !isStale(c.id, c.listed) {
      return Nothing, [];
    }
    var tree := ShimPids(c.id, s.pids, s.table);
    if AnyBlocked(tree, s.watch) {
      return Blocked, [];
    }
    if !isStale(c.id, c.reloaded) {
      return Nothing, [];
    }
    killed := [];
    for i := 0 to |tree|
      invariant killed == tree[..i]
    {
      killed := killed + [tree[i]];
    }
    assert killed == tree;
    var gone, second := WaitGone(killed, s.watch, waitSeconds);
    r := if gone then Started else Survived;
  }
}
