/** The throwaway GPU probe container: at most one is ever on the host, however calls fail. */
module RuntimeProbe {
  import opened Common
  import opened Watchtower

  class ProbeHost {
    /** The containers that carry the probe label. */
    var probes: set<Id>
    var nextId: Id
    var calls: nat
    const fate: nat -> Fate
    /** What waiting for a started probe answers. */
    const exitStatus: Id -> Reply<nat>

    constructor (fate: nat -> Fate, exitStatus: Id -> Reply<nat>)
      ensures Valid() && probes == {} && this.fate == fate && this.exitStatus == exitStatus && calls == 0
    {
      this.probes := {};
      this.nextId := 0;
      this.calls := 0;
      this.fate := fate;
      this.exitStatus := exitStatus;
    }

    ghost predicate Valid()
      reads this
    {
      forall id :: id in probes ==> id < nextId
    }

    ghost predicate Clean()
      reads this
    {
      forall i: nat :: i >= calls ==> fate(i).Works?
    }

    /** One API call whose effect is to make the labelled set `after`. */
    method Commit(after: set<Id>) returns (r: Reply<()>)
      modifies this`probes, this`calls
      ensures calls == old(calls) + 1
      ensures probes == old(probes) || probes == after
      ensures r.Done? ==> probes == after
      ensures fate(old(calls)).Works? ==> r.Done?
    {
      var f := fate(calls);
      calls := calls + 1;
      if f.Works? || f.FailsAfter? || f.DiesAfter? {
        probes := after;
      }
      r := if f.Works? then Done(()) else if f.FailsBefore? || f.FailsAfter? then Raised else Died;
    }

    /** `remove_stale_probe_containers`: the first error ends it. */
    method RemoveStale() returns (r: Reply<()>)
      requires Valid()
      modifies this`probes, this`calls
      ensures Valid() && probes <= old(probes)
      ensures r.Done? ==> probes == {}
      ensures old(Clean()) ==> r.Done? && Clean()
    {
      var listed := Commit(probes);
      if !listed.Done? {
        return listed;
      }
      var stale := probes;
      while stale != {}
        invariant probes == stale <= old(probes) && (old(Clean()) ==> Clean())
        decreases stale
      {
        var id :| id in stale;
        var removed := Commit(probes - {id});
        if !removed.Done? {
          return removed;
        }
        stale := stale - {id};
      }
      return Done(());
    }

    /** `probe_nvidia_runtime`: true when the probe container exits 0. */
    method Probe() returns (r: Reply<bool>)
      requires Valid()
      modifies this`probes, this`calls, this`nextId
      ensures Valid()
      ensures |probes| <= 1 || probes <= old(probes)
      ensures old(Clean()) && !exitStatus(old(nextId)).Died? ==>
        probes == {} && r == Done(exitStatus(old(nextId)) == Done(0))
    {
      var cleared := RemoveStale();
      if !cleared.Done? {
        return if cleared.Died? then Died else Done(false);
      }
      var id := nextId;
      nextId := nextId + 1;
      var created := Commit(probes + {id});
      if !created.Done? {
        return if created.Died? then Died else Done(false);
      }
      var started := Commit(probes);
      if started.Died? || (started.Done? && exitStatus(id).Died?) {
        return Died;
      }
      var removed := Commit(probes - {id});
      if removed.Died? {
        return Died;
      }
      return Done(started.Done? && exitStatus(id) == Done(0));
    }

    /** Starting from no probe container, any number of probes leaves at most one. */
    method ProbeEachCycle(cycles: nat)
      requires Valid() && probes == {}
      modifies this`probes, this`calls, this`nextId
      ensures |probes| <= 1
    {
      for k := 0 to cycles
        invariant Valid() && |probes| <= 1
      {
        ghost var before := probes;
        var _ := Probe();
        if probes <= before {
          SubsetCount(probes, before);
        }
      }
    }
  }
}
