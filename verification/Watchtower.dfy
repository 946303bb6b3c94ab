/**
  Switching the executor runner to a new image, and repairing what an interrupted switch left behind.

  The Docker daemon is an object.  Each API call has a fate: it works, it raises before or after its effect,
  or the watchtower process dies before or after it.  The fates are fixed by `fate` in call order and the
  proofs hold for all of them.  `startable` says which containers the daemon can start at all.
 */
module Watchtower {
  import opened Common
  import opened RunnerNames

  const RUNNER_NAME := "executor-runner"

  type Id = nat

  datatype Container = Container(name: string, labelled: bool, running: bool)

  type Host = map<Id, Container>

  datatype Fate = Works | FailsBefore | FailsAfter | DiesBefore | DiesAfter

  datatype Reply<T> = Done(value: T) | Raised | Died {
    predicate IsFailure() { !Done? }
    function PropagateFailure<U>(): Reply<U>
      requires IsFailure()
    {
      if Raised? then Reply<U>.Raised else Reply<U>.Died
    }
    function Extract(): T
      requires Done?
    {
      value
    }
  }

  /** A container as a listing returned it: its name and status may be out of date by the time they are used. */
  datatype Handle = Handle(id: Id, name: string, labelled: bool, running: bool)

  predicate NameUsed(h: Host, name: string) {
    exists id :: id in h && h[id].name == name
  }

  /** Exactly `ids` carry the compose service label. */
  ghost predicate Only(h: Host, ids: set<Id>) {
    ids <= h.Keys && forall id :: id in h ==> (h[id].labelled <==> id in ids)
  }

  predicate IsRunnerName(name: string) {
    RUNNER_NAME <= name
  }

  /** A runner, under its own name or renamed aside: it carries the label, or it is the CVM one. */
  predicate IsRunner(c: Container) {
    c.labelled || IsRunnerName(c.name)
  }

  /** What is on both hosts keeps its label, and a runner stays one. */
  ghost predicate StillRunners(h: Host, g: Host) {
    forall id :: id in h && id in g ==> h[id].labelled == g[id].labelled && (IsRunner(h[id]) ==> IsRunner(g[id]))
  }

  /** The containers without the label are the same in both. */
  ghost predicate SameOthers(h: Host, g: Host) {
    (forall id :: id in h && !h[id].labelled ==> id in g && g[id] == h[id]) &&
    (forall id :: id in g && !g[id].labelled ==> id in h && h[id] == g[id])
  }

  class Docker {
    var host: Host
    var nextId: Id
    var calls: nat
    const fate: nat -> Fate
    const startable: Id -> bool
    const short: Id -> string
    /** The containers that have been started, or seen running. */
    ghost var proven: set<Id>

    constructor (host: Host, nextId: Id, fate: nat -> Fate, startable: Id -> bool, short: Id -> string)
      requires forall id :: id in host ==> id < nextId
      ensures Valid() && this.host == host && this.nextId == nextId && calls == 0
      ensures this.fate == fate && this.startable == startable && this.short == short && proven == {}
    {
      this.host := host;
      this.nextId := nextId;
      this.calls := 0;
      this.fate := fate;
      this.startable := startable;
      this.short := short;
      this.proven := {};
    }

    ghost predicate Valid()
      reads this
    {
      forall id :: id in host ==> id < nextId
    }

    /** Every call from here on works. */
    ghost predicate Clean()
      reads this
    {
      forall i: nat :: i >= calls ==> fate(i).Works?
    }

    ghost predicate HasRunner()
      reads this
    {
      exists id :: id in host && IsRunner(host[id])
    }

    /** A runner that has run is on the host. */
    ghost predicate HasProvenRunner()
      reads this
    {
      exists id :: id in host && IsRunner(host[id]) && id in proven
    }

    /** A labelled container that has run is on the host. */
    ghost predicate HasProven()
      reads this
    {
      exists id :: id in host && host[id].labelled && id in proven
    }

    // ---- API calls -----------------------------------------------------------------------------------

    /** One API call whose effect is to make the host `after`. */
    method Commit(after: Host) returns (r: Reply<()>)
      modifies this`host, this`calls
      ensures calls == old(calls) + 1
      ensures host == old(host) || host == after
      ensures r.Done? ==> host == after
      ensures fate(old(calls)).Works? ==> r.Done?
    {
      var f := fate(calls);
      calls := calls + 1;
      if f.Works? || f.FailsAfter? || f.DiesAfter? {
        host := after;
      }
      r := if f.Works? then Done(()) else if f.FailsBefore? || f.FailsAfter? then Raised else Died;
    }

    /** One API call the daemon refuses. */
    method Refuse() returns (r: Reply<()>)
      modifies this`calls
      ensures calls == old(calls) + 1 && !r.Done?
      ensures fate(old(calls)).Works? ==> r.Raised?
    {
      var f := fate(calls);
      calls := calls + 1;
      r := if f.DiesBefore? || f.DiesAfter? then Died else Raised;
    }

    predicate CanRename(id: Id, name: string)
      reads this
    {
      id in host && !NameUsed(host, name)
    }

    method Rename(id: Id, name: string) returns (r: Reply<()>)
      requires Valid()
      modifies this`host, this`calls
      ensures Valid() && calls == old(calls) + 1
      ensures host == old(host) ||
        (old(CanRename(id, name)) && host == old(host)[id := old(host)[id].(name := name)])
      ensures r.Done? ==> old(CanRename(id, name)) && host == old(host)[id := old(host)[id].(name := name)]
      ensures fate(old(calls)).Works? ==> (r.Done? <==> old(CanRename(id, name))) && !r.Died?
    {
      if CanRename(id, name) {
        r := Commit(host[id := host[id].(name := name)]);
      } else {
        r := Refuse();
      }
    }

    method Create(name: string, labelled: bool) returns (r: Reply<Id>)
      requires Valid()
      modifies this`host, this`calls, this`nextId
      ensures Valid() && calls == old(calls) + 1 && nextId == old(nextId) + 1
      ensures host == old(host) ||
        (!old(NameUsed(host, name)) && host == old(host)[old(nextId) := Container(name, labelled, false)])
      ensures r.Done? ==> r.value == old(nextId) && old(nextId) in host && !old(NameUsed(host, name))
      ensures fate(old(calls)).Works? ==> (r.Done? <==> !old(NameUsed(host, name))) && !r.Died?
    {
      var id := nextId;
      nextId := nextId + 1;
      var done: Reply<()>;
      if NameUsed(host, name) {
        done := Refuse();
      } else {
        done := Commit(host[id := Container(name, labelled, false)]);
      }
      r := if done.Done? then Done(id) else if done.Raised? then Raised else Died;
    }

    /** Stops a container, or starts one the daemon can start. */
    method Switch(id: Id, running: bool) returns (r: Reply<()>)
      requires Valid()
      modifies this`host, this`calls, this`proven
      ensures Valid() && calls == old(calls) + 1
      ensures host == old(host) || (id in old(host) && host == old(host)[id := old(host)[id].(running := running)])
      ensures proven == if r.Done? && running then old(proven) + {id} else old(proven)
      ensures r.Done? ==> id in old(host) && (running ==> startable(id))
      ensures r.Done? ==> host == old(host)[id := old(host)[id].(running := running)]
      ensures fate(old(calls)).Works? ==> (r.Done? <==> id in old(host) && (running ==> startable(id))) && !r.Died?
      ensures running && !startable(id) ==> host == old(host)
    {
      if id in host && (running ==> startable(id)) {
        r := Commit(host[id := host[id].(running := running)]);
        if r.Done? && running {
          proven := proven + {id};
        }
      } else {
        r := Refuse();
      }
    }

    /** Removes a container, running or not. */
    method Remove(id: Id) returns (r: Reply<()>)
      requires Valid()
      modifies this`host, this`calls
      ensures Valid() && calls == old(calls) + 1
      ensures host == old(host) || host == old(host) - {id}
      ensures r.Done? ==> host == old(host) - {id}
      ensures fate(old(calls)).Works? ==> (r.Done? <==> id in old(host)) && !r.Died?
    {
      if id in host {
        r := Commit(host - {id});
      } else {
        r := Refuse();
      }
    }

    // ---- The switch ----------------------------------------------------------------------------------

    /** One labelled container, under the runner's own name. */
    ghost predicate Whole(h: Host, name: string, id: Id) {
      Only(h, {id}) && h[id].name == name
    }

    /** One labelled container, renamed aside. */
    ghost predicate Aside(h: Host, name: string, old_: Id) {
      Only(h, {old_}) && h[old_].name == PreviousName(name, short(old_))
    }

    /** The old runner renamed aside and the new one under the runner's name. */
    ghost predicate Both(h: Host, name: string, old_: Id, new_: Id) {
      old_ != new_ && Only(h, {old_, new_}) && h[old_].name == PreviousName(name, short(old_)) && h[new_].name == name
    }

    ghost predicate Recoverable(name: string, old_: Id)
      reads this
    {
      Whole(host, name, old_) || Aside(host, name, old_) ||
      (exists n :: Both(host, name, old_, n)) || (exists n :: Whole(host, name, n) && n in proven)
    }

    /** Wherever a switch stops, the host is in one of the states the next lookup repairs. */
    lemma SwitchLeaves(before: Host, runner: Handle, new_: Id)
      requires var aside := PreviousName(runner.name, short(runner.id));
        InSwitch(before, host, runner, new_, aside) || (Over(before, host, runner, new_) && new_ in proven)
      requires new_ !in before && Whole(before, runner.name, runner.id) && runner.labelled
      ensures Recoverable(runner.name, runner.id) && SameOthers(before, host)
    {
      if Mid(before, host, runner, new_, PreviousName(runner.name, short(runner.id))) {
        assert Both(host, runner.name, runner.id, new_);
      } else if Over(before, host, runner, new_) && new_ in proven {
        assert Whole(host, runner.name, new_);
      }
    }

    /** `recreate_container`: rename aside, create, stop, start, and only then remove. */
    method Recreate(runner: Handle) returns (r: Reply<Id>)
      requires Valid()
      modifies this
      ensures Valid() && calls >= old(calls) && old(proven) <= proven
      ensures forall id :: id in old(host) && id != runner.id ==> id in host && host[id] == old(host[id])
      ensures runner.id in old(host) && runner.id in host ==> host[runner.id].labelled == old(host[runner.id].labelled)
      ensures runner.id in old(host) && runner.id !in host ==>
        old(nextId) in host && old(nextId) in proven &&
        host[old(nextId)].labelled == runner.labelled && host[old(nextId)].name == runner.name
      ensures runner.id in old(host) && runner.id in host ==>
        host[runner.id].name in {old(host[runner.id].name), runner.name, PreviousName(runner.name, short(runner.id))}
      ensures old(Whole(host, runner.name, runner.id)) && runner.labelled ==>
        Recoverable(runner.name, runner.id) && SameOthers(old(host), host)
      ensures NotBothRunning(host, runner.id, old(nextId))
      ensures r.Done? ==> r.value == old(nextId) && r.value in host && host[r.value].running && runner.id !in host
      ensures old(Clean()) && old(CanSwitch(runner, PreviousName(runner.name, short(runner.id)))) ==>
        if startable(old(nextId)) then r.Done?
        else host == old(host)[runner.id := old(host)[runner.id].(running := startable(runner.id))]
    {
      var aside := PreviousName(runner.name, short(runner.id));
      ghost var before, new_ := host, nextId;
      r := SwitchTo(runner, aside);
      if Whole(before, runner.name, runner.id) && runner.labelled {
        SwitchLeaves(before, runner, new_);
      }
    }

    /** The handle is up to date and its name aside is free. */
    ghost predicate CanSwitch(runner: Handle, aside: string)
      reads this
    {
      runner.id in host && host[runner.id].name == runner.name && aside != runner.name && !NameUsed(host, aside) &&
      forall id :: id in host && id != runner.id ==> host[id].name != runner.name
    }

    method SwitchTo(runner: Handle, aside: string) returns (r: Reply<Id>)
      requires Valid()
      modifies this
      ensures Valid() && calls >= old(calls) && old(proven) <= proven
      ensures InSwitch(old(host), host, runner, old(nextId), aside) ||
        (Over(old(host), host, runner, old(nextId)) && old(nextId) in proven)
      ensures r.Done? ==> r.value == old(nextId) && Over(old(host), host, runner, r.value) && host[r.value].running
      ensures old(Clean()) && old(CanSwitch(runner, aside)) ==>
        if startable(old(nextId)) then r.Done?
        else host == old(host)[runner.id := old(host)[runner.id].(running := startable(runner.id))]
    {
      ghost var before := host;
      var created := RenameAndCreate(runner, aside);
      if !created.Done? {
        return created;
      }
      var switched := SwitchOver(before, runner, aside, created.value);
      if !switched.Done? {
        return if switched.Raised? then Raised else Died;
      }
      var last := RemoveOld(before, runner, aside, created.value);
      return if last.Done? then Done(created.value) else if last.Raised? then Raised else Died;
    }

    /** The last steps: the new runner is up, so the old one goes. */
    method RemoveOld(ghost before: Host, runner: Handle, aside: string, new_: Id) returns (r: Reply<()>)
      requires Valid() && Mid(before, host, runner, new_, aside) && runner.id != new_ && host[new_].running
      modifies this`host, this`calls
      ensures Valid() && calls >= old(calls) && (old(Clean()) ==> r.Done?)
      ensures Mid(before, host, runner, new_, aside) || Over(before, host, runner, new_)
      ensures r.Done? ==> Over(before, host, runner, new_) && host[new_].running
    {
      r := Remove(runner.id);
      if r.Done? {
        r := Read();
      }
    }

    /** The two steps before the old runner stops; a failed create puts the old name back. */
    method RenameAndCreate(runner: Handle, aside: string) returns (r: Reply<Id>)
      requires Valid()
      modifies this`host, this`calls, this`nextId
      ensures Valid() && calls >= old(calls)
      ensures old(Clean()) && old(CanSwitch(runner, aside)) ==> r.Done?
      ensures r.Done? ==> r.value == old(nextId) && Mid(old(host), host, runner, r.value, aside)
      ensures r.Done? ==> host[runner.id] == old(host)[runner.id].(name := aside)
      ensures !r.Done? ==> InSwitch(old(host), host, runner, old(nextId), aside)
    {
      ghost var before := host;
      var renamed := Rename(runner.id, aside);
      if !renamed.Done? {
        return if renamed.Raised? then Raised else Died;
      }
      assert Away(before, host, runner, aside);
      r := Create(runner.name, runner.labelled);
      assert host == old(host) || Away(before, host, runner, aside) || Mid(before, host, runner, old(nextId), aside);
      if r.Raised? {
        var back := Rename(runner.id, runner.name);
        r := if back.Died? then Died else Raised;
      }
    }

    /** Stop the old runner and start the new one; a failure removes the new one and puts the old one back. */
    method SwitchOver(ghost before: Host, runner: Handle, aside: string, new_: Id) returns (r: Reply<()>)
      requires Valid() && Mid(before, host, runner, new_, aside) && new_ !in before
      modifies this`host, this`calls, this`proven
      ensures Valid() && calls >= old(calls) && old(proven) <= proven
      ensures r.Done? ==> Mid(before, host, runner, new_, aside) && new_ in proven && host[new_].running
      ensures InSwitch(before, host, runner, new_, aside)
      ensures old(Clean()) && startable(new_) ==> r.Done?
      ensures old(Clean()) && !startable(new_) && old(FreeBut(runner.name, new_) && host[runner.id].name != runner.name) ==>
        host == PutBackHost(old(host), runner, new_)
    {
      r := Switch(runner.id, false);
      if r.Done? {
        r := Switch(new_, true);
      }
      assert Mid(before, host, runner, new_, aside);
      if r.Raised? {
        r := RollBack(before, runner, aside, new_);
      }
    }

    /** The host once the new container is gone and the old one has its name back and was started if it can be. */
    ghost function PutBackHost(h: Host, runner: Handle, new_: Id): Host {
      if runner.id in h then
        (h - {new_})[runner.id := h[runner.id].(name := runner.name, running := startable(runner.id))]
      else h
    }

    ghost predicate FreeBut(name: string, new_: Id)
      reads this
    {
      forall id :: id in host && id != new_ ==> host[id].name != name
    }

    method RollBack(ghost before: Host, runner: Handle, aside: string, new_: Id) returns (r: Reply<()>)
      requires Valid() && Mid(before, host, runner, new_, aside) && new_ !in before
      modifies this`host, this`calls, this`proven
      ensures Valid() && calls >= old(calls) && old(proven) <= proven && !r.Done?
      ensures InSwitch(before, host, runner, new_, aside)
      ensures old(Clean()) && old(FreeBut(runner.name, new_)) && old(!host[runner.id].running) ==>
        host == PutBackHost(old(host), runner, new_)
    {
      var _ :- Remove(new_);
      r := PutBack(before, runner, aside);
    }

    /** The new container is gone: the old one gets its name back and is started again. */
    method PutBack(ghost before: Host, runner: Handle, aside: string) returns (r: Reply<()>)
      requires Valid() && Away(before, host, runner, aside)
      modifies this`host, this`calls, this`proven
      ensures Valid() && calls >= old(calls) && old(proven) <= proven && !r.Done?
      ensures Away(before, host, runner, aside) || Home(before, host, runner)
      ensures old(Clean()) && old(CanRename(runner.id, runner.name)) && old(!host[runner.id].running) ==>
        host == old(host)[runner.id := old(host)[runner.id].(name := runner.name, running := startable(runner.id))]
    {
      var _ :- Rename(runner.id, runner.name);
      assert Home(before, host, runner);
      var _ :- Switch(runner.id, true);
      return Raised;
    }

    ghost predicate TrueLabel(handle: Handle)
      reads this
    {
      handle.id in host && handle.labelled == host[handle.id].labelled && (handle.labelled || IsRunnerName(handle.name))
    }

    // ---- The lookup ----------------------------------------------------------------------------------

    /** A read-only call that works, raises or kills the process. */
    method Read() returns (r: Reply<()>)
      modifies this`calls
      ensures calls == old(calls) + 1
      ensures fate(old(calls)).Works? ==> r.Done?
    {
      var f := fate(calls);
      calls := calls + 1;
      r := if f.Works? then Done(()) else if f.FailsBefore? || f.FailsAfter? then Raised else Died;
    }

    /** `_clear_previous_runner`: start the runner if it was not running, then remove the leftover. */
    method ClearPrevious(leftover: Handle, runner: Handle) returns (r: Reply<()>)
      requires Valid() && leftover.id != runner.id && (runner.running ==> runner.id in proven)
      modifies this`host, this`calls, this`proven
      ensures Valid() && calls >= old(calls) && old(proven) <= proven && !r.Raised?
      ensures Shrinks(old(host), host, {leftover.id}, runner.id)
      ensures leftover.id in old(host) && leftover.id !in host ==> runner.id in proven
      ensures old(Clean()) ==> Clean() && r.Done?
      ensures old(Clean()) && runner.id in old(host) && (runner.running || startable(runner.id)) ==> leftover.id !in host
      ensures !runner.running && !startable(runner.id) ==> host == old(host)
    {
      if !runner.running {
        var started := Switch(runner.id, true);
        if started.Died? {
          return Died;
        }
        if started.Raised? {
          return Done(());
        }
      }
      var removed := Remove(leftover.id);
      return if removed.Died? then Died else Done(());
    }

    method ClearAll(leftovers: seq<Handle>, runner: Handle) returns (r: Reply<()>)
      requires Valid() && (runner.running ==> runner.id in proven) && runner.id !in Ids(leftovers)
      modifies this`host, this`calls, this`proven
      ensures Valid() && calls >= old(calls) && old(proven) <= proven && !r.Raised?
      ensures Shrinks(old(host), host, Ids(leftovers), runner.id)
      ensures forall id :: id in old(host) && id !in host ==> runner.id in proven
      ensures old(Clean()) ==> r.Done?
      ensures old(Clean()) && runner.id in old(host) && (runner.running || startable(runner.id)) ==>
        forall id :: id in Ids(leftovers) ==> id !in host
      ensures !runner.running && !startable(runner.id) ==> host == old(host)
    {
      for k := 0 to |leftovers|
        invariant Valid() && calls >= old(calls) && old(proven) <= proven
        invariant Shrinks(old(host), host, Ids(leftovers), runner.id)
        invariant forall id :: id in old(host) && id !in host ==> runner.id in proven
        invariant old(Clean()) ==> Clean()
        invariant old(Clean()) && runner.id in old(host) && (runner.running || startable(runner.id)) ==>
          forall i :: 0 <= i < k ==> leftovers[i].id !in host
        invariant !runner.running && !startable(runner.id) ==> host == old(host)
      {
        assert leftovers[k].id in Ids(leftovers);
        var _ :- ClearPrevious(leftovers[k], runner);
      }
      return Done(());
    }

    /** `_restore_previous_runner`: a leftover with no runner beside it is the runner. */
    method Restore(leftover: Handle) returns (r: Reply<Handle>)
      requires Valid() && IsPreviousName(leftover.name)
      modifies this`host, this`calls
      ensures Valid() && calls >= old(calls) && !r.Raised? && (old(Clean()) ==> r.Done?)
      ensures var name := RunnerName(leftover.name).value;
        host == old(host) ||
        (leftover.id in old(host) && host == old(host)[leftover.id := old(host)[leftover.id].(name := name)])
      ensures r.Done? ==> r.value in {leftover, leftover.(name := RunnerName(leftover.name).value)}
      ensures var name := RunnerName(leftover.name).value;
        old(Clean()) && old(CanRename(leftover.id, name)) ==>
          r == Done(leftover.(name := name)) && host == old(host)[leftover.id := old(host)[leftover.id].(name := name)]
    {
      var name := RunnerName(leftover.name).value;
      var renamed := Rename(leftover.id, name);
      if renamed.Died? {
        return Died;
      }
      if renamed.Raised? {
        return Done(leftover);
      }
      var reloaded := Read();
      if reloaded.Died? {
        return Died;
      }
      return Done(if reloaded.Done? then leftover.(name := name) else leftover);
    }

    /** `find_container_by_name` for the CVM runner: any error reads as not found. */
    method FindByName() returns (r: Reply<Option<Handle>>)
      modifies this`calls
      ensures calls == old(calls) + 1 && !r.Raised?
      ensures r.Done? && r.value.Some? ==>
        r.value.value.id in host && r.value.value == HandleOf(host, r.value.value.id) && r.value.value.name == RUNNER_NAME
      ensures old(Clean()) ==> r.Done? && (r.value.Some? <==> NameUsed(host, RUNNER_NAME))
    {
      var got := Read();
      if got.Died? {
        return Died;
      }
      if got.Raised? || !NameUsed(host, RUNNER_NAME) {
        return Done(None);
      }
      var id :| id in host && host[id].name == RUNNER_NAME;
      return Done(Some(HandleOf(host, id)));
    }

    /** The containers a listing returned as running count as seen running. */
    ghost method Observe(hs: seq<Handle>)
      modifies this`proven
      ensures proven == old(proven) + set i | 0 <= i < |hs| && hs[i].running :: hs[i].id
    {
      proven := proven + set i | 0 <= i < |hs| && hs[i].running :: hs[i].id;
    }

    /** `find_runner_container`. */
    method FindRunner(ghost name: string, ghost o: Id) returns (r: Reply<Option<Handle>>)
      requires Valid()
      modifies this`host, this`calls, this`proven
      ensures Valid() && old(proven) <= proven && calls > old(calls)
      ensures forall id :: id in old(host) && id !in host ==> HasProven()
      ensures old(HasProven()) ==> HasProven()
      ensures StillRunners(old(host), host)
      ensures old(Clean()) ==>
        !r.Died? && (r.Raised? <==> !old(NameUsed(host, RUNNER_NAME)) && Ambiguous(old(host), nextId))
      ensures old(Clean()) && !old(NameUsed(host, RUNNER_NAME)) && |Runners(old(host), nextId)| == 1 ==>
        var runner := Runners(old(host), nextId)[0];
        r == Done(Some(runner)) && Cleared(old(host), runner, Leftovers(old(host), nextId))
      ensures old(Clean()) && old(NameUsed(host, RUNNER_NAME)) ==>
        host == old(host) && r.Done? && r.value.Some? && r.value.value.name == RUNNER_NAME
      ensures r.Raised? ==> host == old(host)
      ensures r.Done? && r.value.None? ==> Only(old(host), {})
      ensures r.Done? && r.value.Some? ==> TrueLabel(r.value.value)
      ensures old(LabelOnly(name, o)) ==>
        LabelOnly(name, o) && SameOthers(old(host), host) && (old(Clean()) ==> Recovered(r, name, o))
      ensures old(Clean()) && old(LoneCvmLeftover(o)) ==> RenamedBack(r, old(host), o)
    {
      if LabelOnly(name, o) {
        NoCvmRunner(name, o);
      }
      var named :- FindByName();
      if named.Some? {
        return Done(named);
      }
      r := FindByLabel(name, o);
    }

    /** The leftover of an interrupted switch of the CVM runner, alone: nothing is labelled and its own name is free. */
    ghost predicate LoneCvmLeftover(o: Id)
      reads this
    {
      Only(host, {}) && o in host && IsCvmLeftover(host[o]) && !NameUsed(host, RUNNER_NAME) &&
      CanRename(o, RunnerName(host[o].name).value) &&
      forall id :: id in host && id != o ==> !IsCvmLeftover(host[id])
    }

    /** The leftover has its own name again, is returned under it, and nothing else changed. */
    ghost predicate RenamedBack(r: Reply<Option<Handle>>, before: Host, o: Id)
      reads this
    {
      o in before && IsPreviousName(before[o].name) &&
      var name := RunnerName(before[o].name).value;
      r == Done(Some(HandleOf(before, o).(name := name))) && host == before[o := before[o].(name := name)]
    }

    /** A host whose runner is found by label, before, during or after one interrupted switch of `o`. */
    ghost predicate LabelOnly(name: string, o: Id)
      reads this
    {
      Ordinary(name) && NoCvm(host, name) && IsHex(short(o)) && Recoverable(name, o)
    }

    lemma AsideNames(name: string, o: Id)
      requires name != [] && IsHex(short(o))
      ensures var aside := PreviousName(name, short(o));
        IsPreviousName(aside) && RunnerName(aside) == Some(name) && aside != RUNNER_NAME && aside != name
    {
      PreviousNameRoundTrip(name, short(o));
      CvmNameIsOrdinary();
      assert |PreviousName(name, short(o))| > |name|;
    }

    lemma NoCvmRunner(name: string, o: Id)
      requires LabelOnly(name, o)
      ensures !NameUsed(host, RUNNER_NAME)
    {
      AsideNames(name, o);
    }

    /** In each of the repairable states the two lists are what the repair expects. */
    lemma WholeLists(name: string, o: Id, x: Id)
      requires Valid() && LabelOnly(name, o) && Whole(host, name, x)
      ensures Runners(host, nextId) == [HandleOf(host, x)] && Picked(host, nextId, IsLeftover) == []
    {
      PickedOne(host, nextId, IsLive, x);
      PickedNone(host, nextId, IsLeftover);
    }

    lemma AsideLists(name: string, o: Id)
      requires Valid() && LabelOnly(name, o) && Aside(host, name, o)
      ensures Runners(host, nextId) == [] && Picked(host, nextId, IsLeftover) == [HandleOf(host, o)]
    {
      AsideNames(name, o);
      PickedOne(host, nextId, IsLeftover, o);
      PickedNone(host, nextId, IsLive);
    }

    lemma BothLists(name: string, o: Id, n: Id)
      requires Valid() && LabelOnly(name, o) && Both(host, name, o, n)
      ensures Runners(host, nextId) == [HandleOf(host, n)] && Picked(host, nextId, IsLeftover) == [HandleOf(host, o)]
    {
      AsideNames(name, o);
      PickedOne(host, nextId, IsLeftover, o);
      PickedOne(host, nextId, IsLive, n);
    }

    /** The two lists, in each of the repairable states. */
    ghost predicate ShapeListed(name: string, o: Id, runners: seq<Handle>, leftovers: seq<Handle>)
      reads this
    {
      || (Aside(host, name, o) && runners == [] && leftovers == [HandleOf(host, o)])
      || (|runners| == 1 && Both(host, name, o, runners[0].id) && leftovers == [HandleOf(host, o)])
      || (|runners| == 1 && Whole(host, name, runners[0].id) && leftovers == [])
    }

    lemma ShapeLists(name: string, o: Id)
      requires Valid() && LabelOnly(name, o)
      ensures ShapeListed(name, o, Runners(host, nextId), Leftovers(host, nextId))
    {
      NoCvmLeftovers(host, name, nextId);
      if Whole(host, name, o) {
        WholeLists(name, o, o);
      } else if Aside(host, name, o) {
        AsideLists(name, o);
      } else if n :| Both(host, name, o, n) {
        BothLists(name, o, n);
      } else {
        var n :| Whole(host, name, n) && n in proven;
        WholeLists(name, o, n);
      }
    }

    /** The runner under its own name is there: finish the switch that left the others behind. */
    method FinishSwitch(ghost name: string, ghost o: Id, runner: Handle, leftovers: seq<Handle>)
      returns (r: Reply<Option<Handle>>)
      requires Valid() && runner.id in host && runner == HandleOf(host, runner.id) && runner.labelled
      requires (runner.running ==> runner.id in proven) && runner.id !in Ids(leftovers)
      modifies this`host, this`calls, this`proven
      ensures !r.Raised? && (old(Clean()) ==> r == Done(Some(runner)) && Cleared(old(host), runner, leftovers))
      ensures Valid() && old(proven) <= proven && calls >= old(calls) && !(r.Done? && r.value.None?)
      ensures r.Done? ==> TrueLabel(r.value.value)
      ensures forall id :: id in old(host) && id !in host ==> HasProven()
      ensures old(HasProven()) ==> HasProven()
      ensures StillRunners(old(host), host)
      ensures old(LabelOnly(name, o)) && old(Both(host, name, o, runner.id)) && leftovers == [HandleOf(old(host), o)] ==>
        LabelOnly(name, o) && SameOthers(old(host), host) && (old(Clean()) ==> Recovered(r, name, o))
      ensures old(LabelOnly(name, o)) && old(Whole(host, name, runner.id)) && leftovers == [] ==>
        LabelOnly(name, o) && SameOthers(old(host), host) && (old(Clean()) ==> Recovered(r, name, o))
    {
      var cleared := ClearAll(leftovers, runner);
      if old(LabelOnly(name, o)) && old(Both(host, name, o, runner.id)) && leftovers == [HandleOf(old(host), o)] {
        assert leftovers[0].id in Ids(leftovers) && Ids(leftovers) == {o};
        assert if o in host then Both(host, name, o, runner.id) else Whole(host, name, runner.id);
      }
      r := if cleared.Done? then Done(Some(runner)) else Died;
    }

    /** The only container is a leftover: it is the runner. */
    method RestoreOnly(ghost name: string, ghost o: Id, leftover: Handle) returns (r: Reply<Option<Handle>>)
      requires Valid() && ListedAs(leftover, true) && (leftover.labelled || IsRunnerName(leftover.name))
      modifies this`host, this`calls, this`proven
      ensures !r.Raised? && (old(Clean()) ==> r.Done?)
      ensures Valid() && old(proven) <= proven && calls >= old(calls) && !(r.Done? && r.value.None?)
      ensures r.Done? ==> TrueLabel(r.value.value)
      ensures forall id :: id in old(host) ==> id in host
      ensures old(HasProven()) ==> HasProven()
      ensures StillRunners(old(host), host)
      ensures old(Clean()) && old(CanRename(leftover.id, RunnerName(leftover.name).value)) ==>
        RenamedBack(r, old(host), leftover.id)
      ensures old(LabelOnly(name, o)) && old(Aside(host, name, o)) && leftover.id == o ==>
        LabelOnly(name, o) && SameOthers(old(host), host) && (old(Clean()) ==> Recovered(r, name, o))
    {
      if LabelOnly(name, o) {
        AsideNames(name, o);
      }
      if IsRunnerName(leftover.name) {
        RestoredIsRunnerName(leftover.name);
      }
      var restored := Restore(leftover);
      if old(LabelOnly(name, o)) && old(Aside(host, name, o)) && leftover.id == o {
        assert Aside(host, name, o) || Whole(host, name, o);
      }
      r := if restored.Done? then Done(Some(restored.value)) else Died;
    }

    /** Beside a runner that runs or can be started no leftover stays; beside one that cannot be, nothing changes. */
    ghost predicate Cleared(before: Host, runner: Handle, leftovers: seq<Handle>)
      reads this
    {
      if runner.running || startable(runner.id) then forall id :: id in Ids(leftovers) ==> id !in host
      else host == before
    }

    /** What a lookup leaves when no call fails: one runner under its name, or both when the new one cannot start. */
    ghost predicate Recovered(r: Reply<Option<Handle>>, name: string, o: Id)
      reads this
    {
      r.Done? && r.value.Some? &&
      var id := r.value.value.id;
      Whole(host, name, id) || (Both(host, name, o, id) && !startable(id))
    }

    method FindByLabel(ghost name: string, ghost o: Id) returns (r: Reply<Option<Handle>>)
      requires Valid()
      modifies this`host, this`calls, this`proven
      ensures old(Clean()) ==> !r.Died? && (r.Raised? <==> Ambiguous(old(host), nextId))
      ensures old(Clean()) && |Runners(old(host), nextId)| == 1 ==>
        var runner := Runners(old(host), nextId)[0];
        r == Done(Some(runner)) && Cleared(old(host), runner, Leftovers(old(host), nextId))
      ensures Valid() && old(proven) <= proven && calls > old(calls)
      ensures forall id :: id in old(host) && id !in host ==> HasProven()
      ensures old(HasProven()) ==> HasProven()
      ensures StillRunners(old(host), host)
      ensures r.Raised? ==> host == old(host)
      ensures r.Done? && r.value.None? ==> Only(old(host), {})
      ensures r.Done? && r.value.Some? ==> TrueLabel(r.value.value)
      ensures old(LabelOnly(name, o)) ==>
        LabelOnly(name, o) && SameOthers(old(host), host) && (old(Clean()) ==> Recovered(r, name, o))
      ensures old(Clean()) && old(LoneCvmLeftover(o)) ==> RenamedBack(r, old(host), o)
    {
      var listed := ListAll(name, o);
      if !listed.Done? {
        return if listed.Died? then Died else Raised;
      }
      r := Repair(name, o, listed.value.0, listed.value.1);
    }

    /** The two listings, by label and by name, sorted into live runners and leftovers. */
    method ListAll(ghost name: string, ghost o: Id) returns (r: Reply<(seq<Handle>, seq<Handle>)>)
      requires Valid()
      modifies this`calls
      ensures calls > old(calls) && (old(Clean()) ==> r.Done?)
      ensures r.Done? ==> r.value == (Runners(host, nextId), Leftovers(host, nextId))
      ensures r.Done? ==> forall i :: 0 <= i < |r.value.0| ==> ListedAs(r.value.0[i], false) && r.value.0[i].labelled
      ensures r.Done? ==> forall i :: 0 <= i < |r.value.1| ==>
        ListedAs(r.value.1[i], true) && (r.value.1[i].labelled || IsRunnerName(r.value.1[i].name))
      ensures r.Done? && r.value.0 == [] && r.value.1 == [] ==> Only(host, {})
      ensures r.Done? && LabelOnly(name, o) ==> ShapeListed(name, o, r.value.0, r.value.1)
      ensures r.Done? && LoneCvmLeftover(o) ==> r.value == ([], [HandleOf(host, o)])
    {
      var listed := Read();
      if !listed.Done? {
        return if listed.Died? then Died else Raised;
      }
      listed := Read();
      if !listed.Done? {
        return if listed.Died? then Died else Raised;
      }
      if LabelOnly(name, o) {
        ShapeLists(name, o);
      }
      if LoneCvmLeftover(o) {
        LoneCvmListed(host, nextId, o);
      }
      if Runners(host, nextId) == [] && Leftovers(host, nextId) == [] {
        NothingListed(host, nextId);
      }
      ListsAreCurrent();
      return Done((Runners(host, nextId), Leftovers(host, nextId)));
    }

    lemma ListsAreCurrent()
      ensures var runners := Runners(host, nextId);
        forall i :: 0 <= i < |runners| ==> ListedAs(runners[i], false) && runners[i].labelled
      ensures var leftovers := Leftovers(host, nextId);
        forall i :: 0 <= i < |leftovers| ==>
          ListedAs(leftovers[i], true) && (leftovers[i].labelled || IsRunnerName(leftovers[i].name))
    {
    }

    method Repair(ghost name: string, ghost o: Id, runners: seq<Handle>, leftovers: seq<Handle>)
      returns (r: Reply<Option<Handle>>)
      requires Valid()
      requires forall i :: 0 <= i < |runners| ==> ListedAs(runners[i], false) && runners[i].labelled
      requires forall i :: 0 <= i < |leftovers| ==>
        ListedAs(leftovers[i], true) && (leftovers[i].labelled || IsRunnerName(leftovers[i].name))
      requires runners == [] && leftovers == [] ==> Only(host, {})
      requires LabelOnly(name, o) ==> ShapeListed(name, o, runners, leftovers)
      requires LoneCvmLeftover(o) ==> runners == [] && leftovers == [HandleOf(host, o)]
      modifies this`host, this`calls, this`proven
      ensures old(Clean()) ==> !r.Died? && (r.Raised? <==> |runners| > 1 || (runners == [] && |leftovers| > 1))
      ensures old(Clean()) && |runners| == 1 ==> r == Done(Some(runners[0])) && Cleared(old(host), runners[0], leftovers)
      ensures Valid() && old(proven) <= proven && calls >= old(calls)
      ensures forall id :: id in old(host) && id !in host ==> HasProven()
      ensures old(HasProven()) ==> HasProven()
      ensures StillRunners(old(host), host)
      ensures r.Raised? ==> host == old(host)
      ensures r.Done? && r.value.None? ==> Only(old(host), {})
      ensures r.Done? && r.value.Some? ==> TrueLabel(r.value.value)
      ensures old(LabelOnly(name, o)) ==>
        LabelOnly(name, o) && SameOthers(old(host), host) && (old(Clean()) ==> Recovered(r, name, o))
      ensures old(Clean()) && old(LoneCvmLeftover(o)) ==> RenamedBack(r, old(host), o)
    {
      Observe(runners);
      if |runners| > 1 {
        return Raised;
      }
      if |runners| == 1 {
        r := FinishSwitch(name, o, runners[0], leftovers);
        return;
      }
      if |leftovers| > 1 {
        return Raised;
      }
      if |leftovers| == 1 {
        r := RestoreOnly(name, o, leftovers[0]);
        return;
      }
      return Done(None);
    }

    /** The handle is up to date, and its name is of the `-previous-` form or not. */
    ghost predicate ListedAs(handle: Handle, previous: bool)
      reads this
    {
      handle.id in host && handle == HandleOf(host, handle.id) && IsPreviousName(handle.name) == previous
    }

    // ---- Whole runs ----------------------------------------------------------------------------------

    /**
      From one runner found by label: a switch that fails or dies anywhere, then any number of lookups that
      fail or die anywhere, then one lookup in which no call fails.
     */
    method SwitchThenLookUp(runner: Handle, lookups: nat) returns (r: Reply<Option<Handle>>, ghost last: nat)
      requires Valid() && Ordinary(runner.name) && NoCvm(host, runner.name) && IsHex(short(runner.id))
      requires Whole(host, runner.name, runner.id) && runner.labelled
      modifies this
      ensures LabelOnly(runner.name, runner.id) && SameOthers(old(host), host)
      ensures last >= old(calls) + lookups
      ensures (forall i: nat :: i >= last ==> fate(i).Works?) ==> Recovered(r, runner.name, runner.id)
    {
      ghost var before := host;
      var _ := Recreate(runner);
      SameOthersKeepsNoCvm(before, host, runner.name);
      var again := 0;
      while again < lookups
        invariant Valid() && LabelOnly(runner.name, runner.id) && SameOthers(before, host)
        invariant calls >= old(calls) + again && again <= lookups
      {
        var _ := FindRunner(runner.name, runner.id);
        again := again + 1;
      }
      last := calls;
      r := FindRunner(runner.name, runner.id);
    }

    /** Every runner of `before` is still there, or one that was started or seen running is. */
    ghost predicate RunnersKept(before: Host)
      reads this
    {
      forall id :: id in before && IsRunner(before[id]) && !(id in host && IsRunner(host[id])) ==> HasProvenRunner()
    }

    /** The same for those that carry the label. */
    ghost predicate LabelledKept(before: Host)
      reads this
    {
      forall id :: id in before && before[id].labelled && !(id in host && host[id].labelled) ==> HasProven()
    }

    /**
      The part of the update loop that touches the runner; a cycle ends early whenever a call raises or kills it.
      From any first state, a host with a runner never reaches a state with none: a runner goes only while one
      that was started or seen running stays.  The same holds of the labelled containers alone.
     */
    method Cycles(updates: seq<bool>)
      requires Valid() && HasRunner()
      modifies this
      ensures Valid() && HasRunner()
      ensures RunnersKept(old(host)) && LabelledKept(old(host))
      ensures (old(HasProven()) ==> HasProven()) && (old(HasProvenRunner()) ==> HasProvenRunner())
    {
      for k := 0 to |updates|
        invariant Valid() && HasRunner() && RunnersKept(old(host)) && LabelledKept(old(host))
        invariant (old(HasProven()) ==> HasProven()) && (old(HasProvenRunner()) ==> HasProvenRunner())
      {
        var found := LookUp();
        if found.Done? && updates[k] {
          found := LookUp();
          if found.Done? {
            Update(found.value);
          }
        }
      }
    }

    /** One lookup, whatever becomes of it. */
    method LookUp() returns (r: Reply<Option<Handle>>)
      requires Valid() && HasRunner()
      modifies this`host, this`calls, this`proven
      ensures Valid() && HasRunner() && RunnersKept(old(host)) && LabelledKept(old(host))
      ensures (old(HasProven()) ==> HasProven()) && (old(HasProvenRunner()) ==> HasProvenRunner())
      ensures r.Done? && r.value.Some? ==> TrueLabel(r.value.value)
    {
      r := FindRunner([], 0);
    }

    /** A switch of the container a lookup returned, or the creation of the CVM runner when it found none. */
    method Update(found: Option<Handle>)
      requires Valid() && HasRunner() && (found.Some? ==> TrueLabel(found.value))
      modifies this
      ensures Valid() && HasRunner() && RunnersKept(old(host)) && LabelledKept(old(host))
      ensures (old(HasProven()) ==> HasProven()) && (old(HasProvenRunner()) ==> HasProvenRunner())
    {
      if found.Some? {
        AsideIsRunnerName(found.value.name, short(found.value.id));
        var _ := Recreate(found.value);
      } else {
        FirstBoot();
      }
    }

    /** `containers.run` of a CVM runner: nothing on the host changes but that it may be added. */
    method FirstBoot()
      requires Valid()
      modifies this
      ensures Valid() && old(proven) <= proven
      ensures forall id :: id in old(host) ==> id in host && host[id] == old(host)[id]
      ensures forall id :: id in host && id !in old(host) ==> host[id].name == RUNNER_NAME && !old(NameUsed(host, RUNNER_NAME))
    {
      var created := Create(RUNNER_NAME, false);
      if created.Done? {
        var _ := Switch(created.value, true);
      }
    }
  }

  lemma AsideIsRunnerName(name: string, shortId: string)
    ensures IsRunnerName(name) ==> IsRunnerName(PreviousName(name, shortId))
  {
  }

  /** The CVM runner's own name holds no `-p`, so what is left of a name that starts with it still does. */
  lemma RestoredIsRunnerName(name: string)
    requires IsRunnerName(name) && IsPreviousName(name)
    ensures IsRunnerName(RunnerName(name).value)
  {
    var i := LastSuffix(name, |name|).value;
    SuffixStarts(name, i);
    assert forall k :: 0 <= k < |RUNNER_NAME| ==> name[k] == RUNNER_NAME[k];
    assert i >= |RUNNER_NAME|;
  }

  lemma SameOthersKeepsNoCvm(h: Host, g: Host, name: string)
    requires SameOthers(h, g) && NoCvm(h, name)
    ensures NoCvm(g, name)
  {
  }

  function HandleOf(h: Host, id: Id): Handle
    requires id in h
  {
    Handle(id, h[id].name, h[id].labelled, h[id].running)
  }

  /** The containers `pick` accepts with an id below `n`, newest first. */
  function Picked(h: Host, n: Id, pick: Container -> bool): (hs: seq<Handle>)
    ensures NewestFirst(hs)
    ensures forall i :: 0 <= i < |hs| ==>
      hs[i].id < n && hs[i].id in h && hs[i] == HandleOf(h, hs[i].id) && pick(h[hs[i].id])
  {
    if n == 0 then []
    else if n - 1 in h && pick(h[n - 1]) then [HandleOf(h, n - 1)] + Picked(h, n - 1, pick)
    else Picked(h, n - 1, pick)
  }

  /** A labelled container under an ordinary name. */
  predicate IsLive(c: Container) {
    c.labelled && !IsPreviousName(c.name)
  }

  /** A labelled container that was renamed aside. */
  predicate IsLeftover(c: Container) {
    c.labelled && IsPreviousName(c.name)
  }

  /** A CVM runner renamed aside: it has no label and is found by name. */
  predicate IsCvmLeftover(c: Container) {
    RUNNER_NAME + PREVIOUS_SUFFIX <= c.name && IsPreviousName(c.name)
  }

  function Runners(h: Host, n: Id): seq<Handle> {
    Picked(h, n, IsLive)
  }

  /** The leftovers found by label, then those found by name that are not among them. */
  function Leftovers(h: Host, n: Id): seq<Handle> {
    var labelled := Picked(h, n, IsLeftover);
    var seen := Names(labelled);
    labelled + Picked(h, n, c => IsCvmLeftover(c) && c.name !in seen)
  }

  /** More than one live runner, or more than one leftover and no live runner. */
  predicate Ambiguous(h: Host, n: Id) {
    |Runners(h, n)| > 1 || (Runners(h, n) == [] && |Leftovers(h, n)| > 1)
  }

  function Names(hs: seq<Handle>): set<string> {
    set i | 0 <= i < |hs| :: hs[i].name
  }

  /** A runner's own name: not of the `-previous-` form, and not the fixed CVM name. */
  predicate Ordinary(name: string) {
    name != [] && !IsPreviousName(name) && name != RUNNER_NAME
  }

  /** No container without the label has the runner's name, the CVM name or the name of a CVM leftover. */
  ghost predicate NoCvm(h: Host, name: string) {
    forall id :: id in h && !h[id].labelled ==>
      h[id].name != name && h[id].name != RUNNER_NAME &&
      !IsCvmLeftover(h[id])
  }

  ghost predicate NewestFirst(hs: seq<Handle>) {
    forall i, j :: 0 <= i < j < |hs| ==> hs[i].id > hs[j].id
  }

  lemma {:induction false} PickedNone(h: Host, n: Id, pick: Container -> bool)
    requires forall id :: id in h ==> !pick(h[id])
    ensures Picked(h, n, pick) == []
    decreases n
  {
    if n > 0 {
      PickedNone(h, n - 1, pick);
    }
  }

  lemma {:induction false} PickedOne(h: Host, n: Id, pick: Container -> bool, x: Id)
    requires x in h && pick(h[x]) && forall id :: id in h && id != x ==> !pick(h[id])
    ensures Picked(h, n, pick) == if x < n then [HandleOf(h, x)] else []
    decreases n
  {
    if n > 0 {
      PickedOne(h, n - 1, pick, x);
    }
  }

  lemma {:induction false} PickedAll(h: Host, n: Id, pick: Container -> bool, id: Id) returns (i: nat)
    requires id < n && id in h && pick(h[id])
    ensures i < |Picked(h, n, pick)| && Picked(h, n, pick)[i] == HandleOf(h, id)
    decreases n
  {
    if id == n - 1 {
      i := 0;
    } else {
      i := PickedAll(h, n - 1, pick, id);
      if n - 1 in h && pick(h[n - 1]) {
        i := i + 1;
      }
    }
  }

  lemma CvmNameIsOrdinary()
    ensures !IsPreviousName(RUNNER_NAME)
  {
    var found := LastSuffix(RUNNER_NAME, |RUNNER_NAME|);
    if found.Some? {
      SuffixStarts(RUNNER_NAME, found.value);
    }
  }

  /** Without CVM containers, the leftovers are the labelled ones. */
  lemma NoCvmLeftovers(h: Host, name: string, n: Id)
    requires NoCvm(h, name) && forall id :: id in h ==> id < n
    ensures Leftovers(h, n) == Picked(h, n, IsLeftover)
  {
    var labelled := Picked(h, n, IsLeftover);
    var seen := Names(labelled);
    forall id | id in h ensures !(IsCvmLeftover(h[id]) && h[id].name !in seen) {
      if h[id].labelled && IsLeftover(h[id]) {
        var i := PickedAll(h, n, IsLeftover, id);
        assert labelled[i].name in seen;
      }
    }
    PickedNone(h, n, c => IsCvmLeftover(c) && c.name !in seen);
  }

  /** A lone CVM leftover is the only container the two listings return. */
  lemma LoneCvmListed(h: Host, n: Id, o: Id)
    requires Only(h, {}) && o in h && o < n && IsCvmLeftover(h[o])
    requires forall id :: id in h && id != o ==> !IsCvmLeftover(h[id])
    ensures Runners(h, n) == [] && Leftovers(h, n) == [HandleOf(h, o)]
  {
    PickedNone(h, n, IsLive);
    PickedNone(h, n, IsLeftover);
    var seen := Names(Picked(h, n, IsLeftover));
    PickedOne(h, n, c => IsCvmLeftover(c) && c.name !in seen, o);
  }

  /** With neither runners nor leftovers listed, no container carries the label. */
  lemma NothingListed(h: Host, n: Id)
    requires Runners(h, n) == [] && Leftovers(h, n) == [] && forall id :: id in h ==> id < n
    ensures Only(h, {})
  {
    forall id | id in h ensures !h[id].labelled {
      if IsLive(h[id]) {
        var _ := PickedAll(h, n, IsLive, id);
      } else if IsLeftover(h[id]) {
        var _ := PickedAll(h, n, IsLeftover, id);
      }
    }
  }

  ghost function Ids(hs: seq<Handle>): set<Id> {
    set i | 0 <= i < |hs| :: hs[i].id
  }

  /** Only containers in `ids` may be gone, and nothing else changes but whether `runner` runs. */
  ghost predicate Shrinks(before: Host, h: Host, ids: set<Id>, runner: Id) {
    (forall id :: id in h ==> id in before && h[id].(running := before[id].running) == before[id]) &&
    (forall id :: id in h && id != runner ==> h[id] == before[id]) &&
    forall id :: id in before && id !in ids ==> id in h
  }

  // ---- Where a switch can be interrupted ---------------------------------------------------------------

  /** All but the named containers are as they were. */
  ghost predicate OthersKept(before: Host, h: Host, ids: set<Id>) {
    forall id :: id !in ids ==> (id in before <==> id in h) && (id in h ==> h[id] == before[id])
  }

  ghost predicate NamedOld(before: Host, h: Host, runner: Handle, name: string) {
    runner.id in before && runner.id in h && h[runner.id].labelled == before[runner.id].labelled &&
    h[runner.id].name == name
  }

  ghost predicate Away(before: Host, h: Host, runner: Handle, aside: string) {
    NamedOld(before, h, runner, aside) && OthersKept(before, h, {runner.id})
  }

  ghost predicate Home(before: Host, h: Host, runner: Handle) {
    NamedOld(before, h, runner, runner.name) && OthersKept(before, h, {runner.id})
  }

  ghost predicate Created(h: Host, runner: Handle, new_: Id) {
    new_ in h && h[new_].name == runner.name && h[new_].labelled == runner.labelled
  }

  ghost predicate Mid(before: Host, h: Host, runner: Handle, new_: Id, aside: string) {
    NamedOld(before, h, runner, aside) && OthersKept(before, h, {runner.id, new_}) && Created(h, runner, new_) &&
    NotBothRunning(h, runner.id, new_)
  }

  ghost predicate NotBothRunning(h: Host, a: Id, b: Id) {
    a in h && b in h && h[a].running ==> !h[b].running
  }

  ghost predicate Over(before: Host, h: Host, runner: Handle, new_: Id) {
    runner.id !in h && OthersKept(before, h, {runner.id, new_}) && Created(h, runner, new_)
  }

  ghost predicate InSwitch(before: Host, h: Host, runner: Handle, new_: Id, aside: string) {
    h == before || Away(before, h, runner, aside) || Home(before, h, runner) || Mid(before, h, runner, new_, aside)
  }
}
