/**
  Pre-pulled images: which are evicted, and when.

  The tracked images are a dictionary in insertion order.  What the environment does between two steps of a
  sweep (disk readings, docker's refusals, the set of mandatory images another task overwrites) is an argument
  and may change at every step.
 */
module PrePull {
  import opened Common

  type Ref = string

  datatype Record = Record(pulledAt: Option<real>, lastUsedAt: Option<real>, digest: Option<string>,
                           unlistedSince: Option<real>)

  type Images = map<Ref, Record>

  /** Python's `a or b or 0` on two times. */
  function UsedAt(r: Record): real {
    if r.lastUsedAt.Some? && r.lastUsedAt.value != 0.0 then r.lastUsedAt.value
    else if r.pulledAt.Some? then r.pulledAt.value
    else 0.0
  }

  /** The dictionary's keys in insertion order. */
  ghost predicate IsOrder(order: seq<Ref>, images: Images) {
    Distinct(order) && forall ref :: ref in order <==> ref in images
  }

  function Time(images: Images, ref: Ref): real {
    if ref in images then UsedAt(images[ref]) else 0.0
  }

  /** The first image in `order`, of those not in `skip`, with the smallest last use. */
  function LruOf(order: seq<Ref>, images: Images, skip: set<Ref>): Option<Ref> {
    if order == [] then None
    else
      var best, last := LruOf(order[..|order| - 1], images, skip), order[|order| - 1];
      if last in skip then best
      else if best.None? || Time(images, last) < Time(images, best.value) then Some(last)
      else best
  }

  /** `PrePullState.lru`. */
  method Lru(order: seq<Ref>, images: Images, skip: set<Ref>) returns (v: Option<Ref>)
    ensures v == LruOf(order, images, skip)
  {
    v := None;
    for k := 0 to |order|
      invariant v == LruOf(order[..k], images, skip)
    {
      assert order[..k + 1][..k] == order[..k];
      if order[k] !in skip && (v.None? || Time(images, order[k]) < Time(images, v.value)) {
        v := Some(order[k]);
      }
    }
    assert order[..|order|] == order;
  }

  /** No image outside `skip` was used before the one at `i`, and those used as long ago come after it. */
  ghost predicate OldestAt(order: seq<Ref>, images: Images, skip: set<Ref>, i: nat) {
    i < |order| && order[i] !in skip &&
    forall j :: 0 <= j < |order| && order[j] !in skip ==>
      Time(images, order[i]) <= Time(images, order[j]) &&
      (Time(images, order[i]) == Time(images, order[j]) ==> i <= j)
  }

  ghost predicate Oldest(order: seq<Ref>, images: Images, skip: set<Ref>, a: Ref) {
    exists i: nat :: OldestAt(order, images, skip, i) && order[i] == a
  }

  lemma OldestStays(order: seq<Ref>, images: Images, skip: set<Ref>, i: nat)
    requires order != [] && OldestAt(order[..|order| - 1], images, skip, i)
    requires var last := order[|order| - 1]; last in skip || Time(images, order[i]) <= Time(images, last)
    ensures OldestAt(order, images, skip, i)
  {
    var init := order[..|order| - 1];
    assert forall j :: 0 <= j < |init| ==> init[j] == order[j];
  }

  lemma OldestNew(order: seq<Ref>, images: Images, skip: set<Ref>, i: nat)
    requires order != [] && OldestAt(order[..|order| - 1], images, skip, i)
    requires var last := order[|order| - 1]; last !in skip && Time(images, last) < Time(images, order[i])
    ensures OldestAt(order, images, skip, |order| - 1)
  {
    var init := order[..|order| - 1];
    assert forall j :: 0 <= j < |init| ==> init[j] == order[j];
  }

  /** The choice is the least recently used image, the first inserted among equals; none only when all are skipped. */
  lemma {:induction false} LruIsOldest(order: seq<Ref>, images: Images, skip: set<Ref>)
    ensures var v := LruOf(order, images, skip);
      if v.Some? then Oldest(order, images, skip, v.value) else forall j :: 0 <= j < |order| ==> order[j] in skip
    decreases |order|
  {
    if order != [] {
      var init, last := order[..|order| - 1], order[|order| - 1];
      LruIsOldest(init, images, skip);
      var best := LruOf(init, images, skip);
      if best.Some? {
        var i: nat :| OldestAt(init, images, skip, i) && init[i] == best.value;
        if last in skip || Time(images, order[i]) <= Time(images, last) {
          OldestStays(order, images, skip, i);
        } else {
          OldestNew(order, images, skip, i);
        }
      } else if last !in skip {
        assert OldestAt(order, images, skip, |order| - 1);
      }
    }
  }

  /** The environment at one step of an eviction. */
  datatype Tick = Tick(free: int, protected: set<Ref>, tagRemoved: bool, digestRemoved: bool)

  predicate Removes(r: Record, t: Tick) {
    t.tagRemoved && (r.digest.Some? ==> t.digestRemoved)
  }

  /** The order once the images in `gone` are forgotten. */
  function Without(order: seq<Ref>, gone: set<Ref>): seq<Ref> {
    if order == [] then []
    else Without(order[..|order| - 1], gone) + if order[|order| - 1] in gone then [] else [order[|order| - 1]]
  }

  lemma WithoutLast(init: seq<Ref>, last: Ref, gone: set<Ref>)
    ensures Without(init + [last], gone) == Without(init, gone) + if last in gone then [] else [last]
  {
    assert (init + [last])[..|init|] == init;
  }

  lemma {:induction false} WithoutKeeps(order: seq<Ref>, gone: set<Ref>)
    ensures forall x :: x in Without(order, gone) <==> x in order && x !in gone
    ensures Distinct(order) ==> Distinct(Without(order, gone))
    decreases |order|
  {
    if order != [] {
      WithoutKeeps(order[..|order| - 1], gone);
    }
  }

  lemma {:induction false} WithoutBoth(order: seq<Ref>, gone: set<Ref>, more: set<Ref>)
    ensures Without(Without(order, gone), more) == Without(order, gone + more)
    decreases |order|
  {
    if order != [] {
      var init, last := order[..|order| - 1], order[|order| - 1];
      WithoutBoth(init, gone, more);
      if last in gone {
        assert Without(order, gone) == Without(init, gone);
      } else {
        WithoutLast(Without(init, gone), last, more);
      }
    }
  }

  lemma {:induction false} LruIsNotSkipped(order: seq<Ref>, images: Images, skip: set<Ref>)
    ensures LruOf(order, images, skip).Some? ==> LruOf(order, images, skip).value !in skip
    decreases |order|
  {
    if order != [] {
      LruIsNotSkipped(order[..|order| - 1], images, skip);
    }
  }

  /** Forgetting skipped images does not change the choice. */
  lemma {:induction false} LruIgnoresSkipped(order: seq<Ref>, images: Images, gone: set<Ref>, skip: set<Ref>)
    requires gone <= skip
    ensures LruOf(Without(order, gone), images - gone, skip) == LruOf(order, images, skip)
    decreases |order|
  {
    if order != [] {
      var init, last := order[..|order| - 1], order[|order| - 1];
      LruIgnoresSkipped(init, images, gone, skip);
      LruIsNotSkipped(init, images, skip);
      if last in gone {
        assert Without(order, gone) == Without(init, gone);
      } else {
        assert (Without(init, gone) + [last])[..|Without(init, gone)|] == Without(init, gone);
      }
    }
  }

  // ---- Making room -------------------------------------------------------------------------------------

  ghost function Refs(victims: seq<Ref>): set<Ref> {
    set i | 0 <= i < |victims| :: victims[i]
  }

  /** Each victim was the least recently used image not skipped, not tried before and not mandatory at that moment. */
  ghost predicate Chosen(order: seq<Ref>, images: Images, skip: set<Ref>, need: int, floor: int, env: nat -> Tick,
                         victims: seq<Ref>)
  {
    forall i :: 0 <= i < |victims| ==>
      env(i).free - need < floor &&
      LruOf(order, images, skip + Refs(victims[..i]) + env(i).protected) == Some(victims[i])
  }

  /** The victims docker did remove. */
  ghost function Evicted(images: Images, env: nat -> Tick, victims: seq<Ref>): set<Ref> {
    set i | 0 <= i < |victims| && victims[i] in images && Removes(images[victims[i]], env(i)) :: victims[i]
  }

  class PrePuller {
    var images: Images
    var order: seq<Ref>
    /** The sweeps of this process so far, and the unlisted times the state file brought from before it. */
    ghost var history: seq<Sweep>
    ghost var inherited: map<Ref, real>

    constructor (order: seq<Ref>, images: Images)
      requires IsOrder(order, images)
      ensures Valid() && SinceValid() && this.order == order && this.images == images && history == []
    {
      this.order := order;
      this.images := images;
      this.history := [];
      this.inherited := map ref | ref in images && images[ref].unlistedSince.Some? :: images[ref].unlistedSince.value;
    }

    /** Each `unlisted_since` is the time of the first sweep of the image's current unlisted streak. */
    ghost predicate SinceValid()
      reads this
    {
      forall ref :: ref in images ==> SinceOk(history, inherited, ref, images[ref].unlistedSince)
    }

    ghost predicate Valid()
      reads this
    {
      IsOrder(order, images)
    }

    /** `forget`. */
    method Forget(ref: Ref)
      requires Valid()
      modifies this`images, this`order
      ensures Valid() && images == old(images) - {ref} && order == Without(old(order), {ref})
    {
      WithoutKeeps(order, {ref});
      images := images - {ref};
      order := Without(order, {ref});
    }

    /** `_remove_tracked_image`. */
    method RemoveTracked(ref: Ref, t: Tick) returns (removed: bool)
      requires Valid() && ref in images
      modifies this`images, this`order
      ensures Valid() && removed == Removes(old(images[ref]), t)
      ensures images == if removed then old(images) - {ref} else old(images)
      ensures order == if removed then Without(old(order), {ref}) else old(order)
    {
      removed := t.tagRemoved;
      if images[ref].digest.Some? {
        removed := t.digestRemoved && removed;
      }
      if removed {
        Forget(ref);
      }
    }

    /** `_make_room`; `victims` lists the images tried, in order. */
    method MakeRoom(keep: Ref, need: int, served: set<Ref>, floor: int, env: nat -> Tick)
      returns (room: bool, victims: seq<Ref>)
      requires Valid()
      modifies this`images, this`order
      ensures Valid()
      ensures Chosen(old(order), old(images), served + {keep}, need, floor, env, victims)
      ensures room <==> env(|victims|).free - need >= floor
      ensures !room ==> LruOf(old(order), old(images), served + {keep} + Refs(victims) + env(|victims|).protected).None?
      ensures AfterEvicting(old(order), old(images), Evicted(old(images), env, victims))
    {
      var skip := served + {keep};
      victims := [];
      WithoutNone(order);
      assert Evicted(images, env, []) == {};
      while true
        invariant Valid() && skip == served + {keep} + Refs(victims) && Evicted(old(images), env, victims) <= Refs(victims)
        invariant AfterEvicting(old(order), old(images), Evicted(old(images), env, victims))
        invariant Chosen(old(order), old(images), served + {keep}, need, floor, env, victims)
        decreases old(images).Keys - skip
      {
        var tick := env(|victims|);
        if tick.free - need >= floor {
          return true, victims;
        }
        ghost var gone := Evicted(old(images), env, victims);
        var victim := EvictOne(old(order), old(images), gone, skip, tick);
        if victim.None? {
          return false, victims;
        }
        skip := skip + {victim.value};
        VictimAdded(old(images), env, victims, victim.value);
        ChosenExtends(old(order), old(images), served + {keep}, need, floor, env, victims, victim.value);
        victims := victims + [victim.value];
      }
    }

    /** `_make_room` on a disk that follows a model: it evicts no more than it must. */
    method MakeRoomOnDisk(keep: Ref, need: int, served: set<Ref>, floor: int, env: nat -> Tick,
                          ghost free: int, ghost frees: Ref -> nat, ghost protected: set<Ref>)
      returns (room: bool, victims: seq<Ref>)
      requires Valid() && StaysPut(env, protected)
      requires DiskModel(env, LruOrder(order, images, served + {keep} + protected), free, frees)
      modifies this`images, this`order
      ensures Valid() && AfterEvicting(old(order), old(images), Evicted(old(images), env, victims))
      ensures IsShortestRun(free, frees, LruOrder(old(order), old(images), served + {keep} + protected), need, floor, room, victims)
    {
      room, victims := MakeRoom(keep, need, served, floor, env);
      ShortestRun(old(order), old(images), served + {keep}, need, floor, env, victims, room, free, frees, protected);
    }

    /** One victim: the mandatory set is read again for each. */
    method EvictOne(ghost order0: seq<Ref>, ghost images0: Images, ghost gone: set<Ref>, skip: set<Ref>, tick: Tick)
      returns (victim: Option<Ref>)
      requires Valid() && AfterEvicting(order0, images0, gone) && gone <= skip
      modifies this`images, this`order
      ensures Valid() && victim == LruOf(order0, images0, skip + tick.protected)
      ensures victim.None? ==> AfterEvicting(order0, images0, gone)
      ensures victim.Some? ==> victim.value in images0 && victim.value !in skip
      ensures victim.Some? ==>
        AfterEvicting(order0, images0, gone + if Removes(images0[victim.value], tick) then {victim.value} else {})
    {
      LruIgnoresSkipped(order0, images0, gone, skip + tick.protected);
      LruIsOldest(order, images, skip + tick.protected);
      victim := Lru(order, images, skip + tick.protected);
      if victim.Some? {
        EvictedMore(order0, images0, gone, victim.value);
        assert gone + {} == gone;
        var _ := RemoveTracked(victim.value, tick);
      }
    }

    // ---- Images no longer served -----------------------------------------------------------------------

    /**
      The first pass of `_evict_unlisted`: the clock of each tracked image starts at the first sweep that does
      not list it and is reset by one that does.  Returns the images whose time is up.
     */
    method MarkUnlisted(kept: set<Ref>, now: real, after: real) returns (due: seq<Ref>)
      requires Valid() && SinceValid()
      modifies this`images, this`history
      ensures Valid() && SinceValid() && order == old(order)
      ensures history == old(history) + [Sweep(now, old(images).Keys, kept)]
      ensures images == Marked(old(images), kept, now) && due == DueOf(order, images, kept, now, after)
    {
      ghost var sweep := Sweep(now, images.Keys, kept);
      forall ref | ref in images
        ensures SinceOk(history + [sweep], inherited, ref, Marked(images, kept, now)[ref].unlistedSince)
      {
        SinceAdvances(history, inherited, ref, images[ref].unlistedSince, sweep);
      }
      images, due := MarkPass(order, images, kept, now, after);
      history := history + [sweep];
    }

    /** The second pass: each image is checked again just before it is removed. */
    method RemoveDue(due: seq<Ref>, busy: nat -> bool, env: nat -> Tick)
      requires Valid() && Distinct(due) && forall i :: 0 <= i < |due| ==> due[i] in images
      modifies this`images, this`order
      ensures Valid() && images == old(images) - DueGone(old(images), due, busy, env, 0)
    {
      ghost var gone: set<Ref> := {};
      for k := 0 to |due|
        invariant Valid() && images == old(images) - gone
        invariant forall i :: k <= i < |due| ==> due[i] !in gone
        invariant gone + DueGone(old(images), due[k..], busy, env, k) == DueGone(old(images), due, busy, env, 0)
      {
        assert due[k..][1..] == due[k + 1..];
        if busy(k) {
          return;
        }
        if due[k] !in env(k).protected {
          var removed := RemoveTracked(due[k], env(k));
          if removed {
            gone := gone + {due[k]};
          }
        }
      }
    }

    /** `_evict_unlisted`; `busy` is a rental seen before the i-th removal. */
    method EvictUnlisted(kept: set<Ref>, now: real, after: real, busy: nat -> bool, env: nat -> Tick)
      requires Valid() && SinceValid()
      modifies this`images, this`order, this`history
      ensures Valid() && SinceValid()
      ensures history == old(history) + [Sweep(now, old(images).Keys, kept)]
      ensures var marked := Marked(old(images), kept, now);
        images == marked - DueGone(marked, DueOf(old(order), marked, kept, now, after), busy, env, 0)
      ensures forall ref :: ref in old(images) && ref !in images ==> LongUnlisted(history, inherited, ref, now, after)
    {
      var due := MarkUnlisted(kept, now, after);
      ghost var marked := images;
      DueMeans(order, marked, kept, now, after);
      DueDistinct(order, marked, kept, now, after);
      GoneAreDue(marked, due, busy, env, 0);
      RemoveDue(due, busy, env);
      forall ref | ref in old(images) && ref !in images ensures LongUnlisted(history, inherited, ref, now, after) {
        assert ref in due;
        assert SinceOk(history, inherited, ref, marked[ref].unlistedSince);
      }
    }

    // ---- A sweep ---------------------------------------------------------------------------------------

    /** `record_present`, for an image the sweep lists. */
    method RecordPresent(ref: Ref, digest: string, now: real)
      requires Valid() && SinceValid() && history != [] && ref in history[|history| - 1].kept
      modifies this`images, this`order
      ensures Valid() && SinceValid()
      ensures var before := if ref in old(images) then old(images)[ref] else Record(Some(now), None, None, None);
        images == old(images)[ref := before.(digest := Some(digest))]
    {
      if ref !in images {
        images := images[ref := Record(Some(now), None, None, None)];
        order := order + [ref];
      }
      images := images[ref := images[ref].(digest := Some(digest))];
    }

    /** `touch_used`. */
    method TouchUsed(refs: set<Ref>, now: real)
      requires Valid() && SinceValid()
      modifies this`images
      ensures Valid() && SinceValid()
      ensures images == map ref | ref in old(images) ::
        if ref in refs then old(images)[ref].(lastUsedAt := Some(now)) else old(images)[ref]
    {
      images := map ref | ref in images :: if ref in refs then images[ref].(lastUsedAt := Some(now)) else images[ref];
    }

    /** The mandatory images a sweep is given are no longer tracked. */
    method ForgetProtected(protected: set<Ref>)
      requires Valid() && SinceValid()
      modifies this`images, this`order
      ensures Valid() && SinceValid() && images == old(images) - protected
    {
      WithoutKeeps(order, protected);
      images := images - protected;
      order := Without(order, protected);
    }

    /**
      The part of `sweep` that changes the tracked images.  It starts one more sweep, leaves every clock at the
      start of its image's streak, and never gives up an image the backend serves and nothing made mandatory.
     */
    method SweepOnce(entries: seq<Entry>, protected: set<Ref>, after: real, floor: int, w: SweepEnv)
      requires Valid() && SinceValid()
      modifies this`images, this`order, this`history
      ensures Valid() && SinceValid()
      ensures |history| == |old(history)| + 1 && history[..|old(history)|] == old(history)
      ensures var sweep := history[|old(history)|];
        sweep.now == w.now && sweep.kept == Served(entries) + protected + w.mandatory &&
        sweep.tracked == old(images).Keys - protected
      ensures forall ref :: ref in old(images) && ref in Served(entries) && ref !in protected ==> ref in images
    {
      ForgetProtected(protected);
      var served := Served(entries);
      EvictUnlisted(served + protected + w.mandatory, w.now, after, w.busy, w.evictions);
      ServedStay(history, inherited, served);
      if entries == [] {
        return;
      }
      TouchUsed(w.rented, w.now);
      ghost var before := images.Keys;
      for k := 0 to |entries|
        invariant Valid() && SinceValid()
        invariant history == old(history) + [Sweep(w.now, old(images).Keys - protected, served + protected + w.mandatory)]
        invariant before <= images.Keys
      {
        var e := entries[k];
        assert e.ref in served;
        if e.digest.Some? {
          if w.present(e.ref) {
            RecordPresent(e.ref, e.digest.value, w.now);
          } else {
            if w.idle(e.ref) {
              PullOne(e, served, floor, w);
            }
            return;
          }
        }
      }
    }

    /** Make room for one image and pull it. */
    method PullOne(e: Entry, served: set<Ref>, floor: int, w: SweepEnv)
      requires Valid() && SinceValid() && e.digest.Some? && e.ref in served
      requires history != [] && e.ref in history[|history| - 1].kept
      modifies this`images, this`order
      ensures Valid() && SinceValid()
      ensures forall ref :: ref in old(images) && ref in served ==> ref in images
    {
      var room, victims := MakeRoom(e.ref, e.need, served, floor, w.room);
      EvictedUnserved(old(order), old(images), served + {e.ref}, e.need, floor, w.room, victims);
      if room && w.pulled {
        RecordPresent(e.ref, e.digest.value, w.now);
      }
    }

    /** The state once the images in `gone` are forgotten. */
    ghost predicate AfterEvicting(order0: seq<Ref>, images0: Images, gone: set<Ref>)
      reads this
    {
      images == images0 - gone && order == Without(order0, gone)
    }
  }

  lemma EvictedMore(order: seq<Ref>, images: Images, gone: set<Ref>, v: Ref)
    ensures images - gone - {v} == images - (gone + {v})
    ensures Without(Without(order, gone), {v}) == Without(order, gone + {v})
  {
    WithoutBoth(order, gone, {v});
  }

  datatype Entry = Entry(ref: Ref, digest: Option<string>, need: int)

  function Served(entries: seq<Entry>): set<Ref> {
    set i | 0 <= i < |entries| :: entries[i].ref
  }

  /** What one sweep meets: the time, the mandatory images, rentals, what is on disk, and whether a pull works. */
  datatype SweepEnv = SweepEnv(now: real, mandatory: set<Ref>, busy: nat -> bool, evictions: nat -> Tick,
                               rented: set<Ref>, present: Ref -> bool, idle: Ref -> bool, room: nat -> Tick, pulled: bool)

  lemma EvictedUnserved(order: seq<Ref>, images: Images, skip: set<Ref>, need: int, floor: int,
                        env: nat -> Tick, victims: seq<Ref>)
    requires IsOrder(order, images) && Chosen(order, images, skip, need, floor, env, victims)
    ensures Evicted(images, env, victims) !! skip
  {
    forall i | 0 <= i < |victims| ensures victims[i] !in skip {
      VictimsAreLeastRecent(order, images, skip, need, floor, env, victims, i);
    }
  }

  /** An image the last sweep kept is not unlisted at all. */
  lemma ServedStay(history: seq<Sweep>, inherited: map<Ref, real>, served: set<Ref>)
    requires history != [] && served <= history[|history| - 1].kept
    ensures forall ref, t :: ref in served ==> !SinceOk(history, inherited, ref, Some(t))
  {
    forall ref, t | ref in served ensures !SinceOk(history, inherited, ref, Some(t)) {
      assert !Unlisted(history[|history| - 1], ref);
    }
  }

  lemma {:induction false} WithoutNone(order: seq<Ref>)
    ensures Without(order, {}) == order
    decreases |order|
  {
    if order != [] {
      WithoutNone(order[..|order| - 1]);
    }
  }

  lemma VictimAdded(images: Images, env: nat -> Tick, victims: seq<Ref>, v: Ref)
    requires v in images
    ensures Refs(victims + [v]) == Refs(victims) + {v}
    ensures Evicted(images, env, victims + [v]) ==
      Evicted(images, env, victims) + if Removes(images[v], env(|victims|)) then {v} else {}
  {
    var more := victims + [v];
    assert more[|victims|] == v;
    assert forall i :: 0 <= i < |victims| ==> more[i] == victims[i];
    forall x | x in Evicted(images, env, victims) ensures x in Evicted(images, env, more) {
      var i :| 0 <= i < |victims| && victims[i] in images && Removes(images[victims[i]], env(i)) && x == victims[i];
      assert more[i] == x;
    }
    RefsAppend(victims, v);
  }

  lemma ChosenExtends(order: seq<Ref>, images: Images, skip: set<Ref>, need: int, floor: int, env: nat -> Tick,
                      victims: seq<Ref>, v: Ref)
    requires Chosen(order, images, skip, need, floor, env, victims)
    requires env(|victims|).free - need < floor
    requires LruOf(order, images, skip + Refs(victims) + env(|victims|).protected) == Some(v)
    ensures Chosen(order, images, skip, need, floor, env, victims + [v])
  {
    var more := victims + [v];
    forall i | 0 <= i < |more|
      ensures env(i).free - need < floor &&
        LruOf(order, images, skip + Refs(more[..i]) + env(i).protected) == Some(more[i])
    {
      assert more[..i] == if i < |victims| then victims[..i] else victims;
    }
  }

  // ---- How long an image has been unlisted ---------------------------------------------------------------

  /** One sweep: its time, the images tracked when it looked, and those it found served or mandatory. */
  datatype Sweep = Sweep(now: real, tracked: set<Ref>, kept: set<Ref>)

  ghost predicate Unlisted(s: Sweep, ref: Ref) {
    ref in s.tracked && ref !in s.kept
  }

  ghost predicate StreakFrom(history: seq<Sweep>, ref: Ref, i: nat) {
    forall j :: i <= j < |history| ==> Unlisted(history[j], ref)
  }

  /** Sweep `i` is the first of the unlisted streak the image is in. */
  ghost predicate StreakStarts(history: seq<Sweep>, inherited: map<Ref, real>, ref: Ref, i: nat) {
    i < |history| && StreakFrom(history, ref, i) && if i == 0 then ref !in inherited else !Unlisted(history[i - 1], ref)
  }

  ghost predicate SinceOk(history: seq<Sweep>, inherited: map<Ref, real>, ref: Ref, since: Option<real>) {
    match since
    case None => if history == [] then ref !in inherited else !Unlisted(history[|history| - 1], ref)
    case Some(t) =>
      (ref in inherited && inherited[ref] == t && StreakFrom(history, ref, 0)) ||
      exists i: nat :: StreakStarts(history, inherited, ref, i) && history[i].now == t
  }

  /** The image's unlisted streak, from its first sweep on or from before this process, has lasted `after`. */
  ghost predicate LongUnlisted(history: seq<Sweep>, inherited: map<Ref, real>, ref: Ref, now: real, after: real) {
    after > 0.0 && exists t :: SinceOk(history, inherited, ref, Some(t)) && now - t >= after
  }

  function Since(r: Record, kept: bool, now: real): Option<real> {
    if kept then None else if r.unlistedSince.Some? then r.unlistedSince else Some(now)
  }

  function Marked(images: Images, kept: set<Ref>, now: real): Images {
    map ref | ref in images :: images[ref].(unlistedSince := Since(images[ref], ref in kept, now))
  }

  predicate IsDue(marked: Images, ref: Ref, kept: set<Ref>, now: real, after: real) {
    ref in marked && ref !in kept && marked[ref].unlistedSince.Some? && after > 0.0 &&
    now - marked[ref].unlistedSince.value >= after
  }

  /** The images, in order, whose unlisted time is up. */
  function DueOf(order: seq<Ref>, marked: Images, kept: set<Ref>, now: real, after: real): seq<Ref> {
    if order == [] then []
    else
      var last := order[|order| - 1];
      DueOf(order[..|order| - 1], marked, kept, now, after) +
      if IsDue(marked, last, kept, now, after) then [last] else []
  }

  /** The images the second pass removes: it stops at a rental and passes over what became mandatory. */
  ghost function DueGone(marked: Images, due: seq<Ref>, busy: nat -> bool, env: nat -> Tick, k: nat): set<Ref> {
    if due == [] || busy(k) then {}
    else
      (if due[0] in marked && due[0] !in env(k).protected && Removes(marked[due[0]], env(k)) then {due[0]} else {}) +
      DueGone(marked, due[1..], busy, env, k + 1)
  }

  lemma SinceAdvances(history: seq<Sweep>, inherited: map<Ref, real>, ref: Ref, since: Option<real>, sweep: Sweep)
    requires SinceOk(history, inherited, ref, since) && ref in sweep.tracked
    ensures SinceOk(history + [sweep], inherited, ref,
      if ref in sweep.kept then None else if since.Some? then since else Some(sweep.now))
  {
    var more := history + [sweep];
    if ref !in sweep.kept {
      if since.None? {
        assert StreakStarts(more, inherited, ref, |history|);
      } else if i: nat :| StreakStarts(history, inherited, ref, i) && history[i].now == since.value {
        assert StreakStarts(more, inherited, ref, i) && more[i].now == since.value;
      }
    }
  }

  method MarkPass(order: seq<Ref>, images: Images, kept: set<Ref>, now: real, after: real)
    returns (marked: Images, due: seq<Ref>)
    requires IsOrder(order, images)
    ensures marked == Marked(images, kept, now) && due == DueOf(order, marked, kept, now, after)
  {
    due := [];
    marked := images;
    ghost var target := Marked(images, kept, now);
    for k := 0 to |order|
      invariant marked.Keys == images.Keys && due == DueOf(order[..k], target, kept, now, after)
      invariant forall i :: 0 <= i < k ==> order[i] in images && marked[order[i]] == target[order[i]]
      invariant forall i :: k <= i < |order| ==> order[i] in images && marked[order[i]] == images[order[i]]
    {
      var ref := order[k];
      DueLast(order, k, target, kept, now, after);
      var isDue;
      marked, isDue := MarkOne(marked, ref, kept, now, after);
      assert marked[ref] == target[ref];
      if isDue {
        due := due + [ref];
      }
    }
    assert order[..|order|] == order;
    AllMarked(order, images, marked, kept, now);
  }

  /** One image of the first pass: drop the clock, or start it if it is not running. */
  method MarkOne(images: Images, ref: Ref, kept: set<Ref>, now: real, after: real) returns (marked: Images, due: bool)
    requires ref in images
    ensures marked == images[ref := images[ref].(unlistedSince := Since(images[ref], ref in kept, now))]
    ensures due <==> IsDue(marked, ref, kept, now, after)
  {
    marked := images;
    if ref in kept {
      marked := marked[ref := marked[ref].(unlistedSince := None)];
      return marked, false;
    }
    if marked[ref].unlistedSince.None? {
      marked := marked[ref := marked[ref].(unlistedSince := Some(now))];
    }
    return marked, after > 0.0 && now - marked[ref].unlistedSince.value >= after;
  }

  lemma DueLast(order: seq<Ref>, k: nat, marked: Images, kept: set<Ref>, now: real, after: real)
    requires k < |order|
    ensures DueOf(order[..k + 1], marked, kept, now, after) ==
      DueOf(order[..k], marked, kept, now, after) + if IsDue(marked, order[k], kept, now, after) then [order[k]] else []
  {
    assert order[..k + 1][..k] == order[..k];
  }

  lemma {:induction false} GoneAreDue(marked: Images, due: seq<Ref>, busy: nat -> bool, env: nat -> Tick, k: nat)
    ensures forall ref :: ref in DueGone(marked, due, busy, env, k) ==> ref in due
    decreases |due|
  {
    if due != [] && !busy(k) {
      GoneAreDue(marked, due[1..], busy, env, k + 1);
    }
  }

  lemma AllMarked(order: seq<Ref>, images: Images, marked: Images, kept: set<Ref>, now: real)
    requires IsOrder(order, images) && marked.Keys == images.Keys
    requires forall i :: 0 <= i < |order| ==> order[i] in images && marked[order[i]] == Marked(images, kept, now)[order[i]]
    ensures marked == Marked(images, kept, now)
  {
    forall ref | ref in images ensures marked[ref] == Marked(images, kept, now)[ref] {
      var i :| 0 <= i < |order| && order[i] == ref;
    }
  }

  lemma {:induction false} DueMeans(order: seq<Ref>, marked: Images, kept: set<Ref>, now: real, after: real)
    ensures forall ref :: ref in DueOf(order, marked, kept, now, after) <==>
      ref in order && IsDue(marked, ref, kept, now, after)
    decreases |order|
  {
    if order != [] {
      DueMeans(order[..|order| - 1], marked, kept, now, after);
    }
  }

  lemma {:induction false} DueDistinct(order: seq<Ref>, marked: Images, kept: set<Ref>, now: real, after: real)
    requires Distinct(order)
    ensures Distinct(DueOf(order, marked, kept, now, after))
    decreases |order|
  {
    if order != [] {
      DueDistinct(order[..|order| - 1], marked, kept, now, after);
      DueMeans(order[..|order| - 1], marked, kept, now, after);
    }
  }

  // ---- What making room promises -----------------------------------------------------------------------

  /** Image `a` was used before `b`, or as long ago and inserted before it. */
  ghost predicate UsedBefore(order: seq<Ref>, images: Images, a: Ref, b: Ref) {
    Time(images, a) < Time(images, b) ||
    (Time(images, a) == Time(images, b) && exists i, j :: 0 <= i < j < |order| && order[i] == a && order[j] == b)
  }

  lemma OldestUsedBefore(order: seq<Ref>, images: Images, skip: set<Ref>, a: Ref, b: Ref)
    requires Oldest(order, images, skip, a) && b in order && b !in skip && b != a
    ensures UsedBefore(order, images, a, b)
  {
    var i: nat :| OldestAt(order, images, skip, i) && order[i] == a;
    var j :| 0 <= j < |order| && order[j] == b;
  }

  /**
    Whatever the disk reads, docker refuses or the loop makes mandatory: each image is tried at most once, is
    tracked, not served, not the one being pulled and not mandatory when it is chosen, and was used before every
    other image that could have been chosen.
   */
  lemma VictimsAreLeastRecent(order: seq<Ref>, images: Images, skip: set<Ref>, need: int, floor: int,
                              env: nat -> Tick, victims: seq<Ref>, i: nat)
    requires IsOrder(order, images) && Chosen(order, images, skip, need, floor, env, victims) && i < |victims|
    ensures victims[i] in images && victims[i] !in skip && victims[i] !in env(i).protected
    ensures victims[i] !in Refs(victims[..i])
    ensures forall b :: b in images && b != victims[i] && b !in skip + Refs(victims[..i]) + env(i).protected ==>
      UsedBefore(order, images, victims[i], b)
  {
    var skipped := skip + Refs(victims[..i]) + env(i).protected;
    LruIsOldest(order, images, skipped);
    forall b | b in images && b != victims[i] && b !in skipped ensures UsedBefore(order, images, victims[i], b) {
      OldestUsedBefore(order, images, skipped, victims[i], b);
    }
  }

  /** All images outside `skip`, least recently used first. */
  ghost function LruOrder(order: seq<Ref>, images: Images, skip: set<Ref>): seq<Ref>
    requires IsOrder(order, images)
    decreases images.Keys - skip
  {
    LruIsOldest(order, images, skip);
    match LruOf(order, images, skip)
    case None => []
    case Some(v) => [v] + LruOrder(order, images, skip + {v})
  }

  lemma RefsHead(v: Ref, rest: seq<Ref>)
    ensures Refs([v] + rest) == {v} + Refs(rest)
  {
    var all := [v] + rest;
    assert all[0] == v;
    forall x | x in Refs(rest) ensures x in Refs(all) {
      var i :| 0 <= i < |rest| && rest[i] == x;
      assert all[i + 1] == x;
    }
  }

  /** It holds exactly those images, each used before all that follow it. */
  lemma {:induction false} LruOrderIsSorted(order: seq<Ref>, images: Images, skip: set<Ref>)
    requires IsOrder(order, images)
    ensures var lru := LruOrder(order, images, skip);
      Refs(lru) == images.Keys - skip && forall i, j :: 0 <= i < j < |lru| ==> UsedBefore(order, images, lru[i], lru[j])
    decreases images.Keys - skip
  {
    LruIsOldest(order, images, skip);
    var v := LruOf(order, images, skip);
    if v.Some? {
      var rest := LruOrder(order, images, skip + {v.value});
      LruOrderIsSorted(order, images, skip + {v.value});
      RefsHead(v.value, rest);
      forall j | 0 <= j < |rest| ensures UsedBefore(order, images, v.value, rest[j]) {
        assert rest[j] in Refs(rest);
        OldestUsedBefore(order, images, skip, v.value, rest[j]);
      }
    }
  }

  /** Each of `victims` is the least recently used image outside `skip` and those before it. */
  ghost predicate Picks(order: seq<Ref>, images: Images, skip: set<Ref>, victims: seq<Ref>) {
    forall i :: 0 <= i < |victims| ==> LruOf(order, images, skip + Refs(victims[..i])) == Some(victims[i])
  }

  lemma ChosenPicks(order: seq<Ref>, images: Images, skip: set<Ref>, need: int, floor: int, env: nat -> Tick,
                    victims: seq<Ref>, protected: set<Ref>)
    requires Chosen(order, images, skip, need, floor, env, victims)
    requires StaysPut(env, protected)
    ensures Picks(order, images, skip + protected, victims)
  {
    forall i | 0 <= i < |victims|
      ensures LruOf(order, images, skip + protected + Refs(victims[..i])) == Some(victims[i])
    {
      assert skip + Refs(victims[..i]) + env(i).protected == skip + protected + Refs(victims[..i]);
    }
  }

  lemma PicksTail(order: seq<Ref>, images: Images, skip: set<Ref>, victims: seq<Ref>)
    requires victims != [] && Picks(order, images, skip, victims)
    ensures LruOf(order, images, skip) == Some(victims[0])
    ensures Picks(order, images, skip + {victims[0]}, victims[1..])
  {
    assert victims[..0] == [] && skip + Refs([]) == skip;
    var rest := victims[1..];
    forall i | 0 <= i < |rest|
      ensures LruOf(order, images, skip + {victims[0]} + Refs(rest[..i])) == Some(rest[i])
    {
      assert victims[..i + 1] == [victims[0]] + rest[..i];
      RefsHead(victims[0], rest[..i]);
      assert skip + {victims[0]} + Refs(rest[..i]) == skip + Refs(victims[..i + 1]);
    }
  }

  /** So they are the first in that order, and the order of what is left follows them. */
  lemma {:induction false} PicksFollowOrder(order: seq<Ref>, images: Images, skip: set<Ref>, victims: seq<Ref>)
    requires IsOrder(order, images) && Picks(order, images, skip, victims)
    ensures LruOrder(order, images, skip) == victims + LruOrder(order, images, skip + Refs(victims))
    decreases |victims|
  {
    if victims == [] {
      assert skip + Refs(victims) == skip;
    } else {
      PicksTail(order, images, skip, victims);
      PicksFollowOrder(order, images, skip + {victims[0]}, victims[1..]);
      assert victims == [victims[0]] + victims[1..];
      RefsHead(victims[0], victims[1..]);
      assert skip + {victims[0]} + Refs(victims[1..]) == skip + Refs(victims);
    }
  }

  ghost function Freed(frees: Ref -> nat, refs: seq<Ref>): nat {
    if refs == [] then 0 else Freed(frees, refs[..|refs| - 1]) + frees(refs[|refs| - 1])
  }

  lemma {:induction false} FreedGrows(frees: Ref -> nat, refs: seq<Ref>, k: nat)
    requires k <= |refs|
    ensures Freed(frees, refs[..k]) <= Freed(frees, refs)
    decreases |refs|
  {
    if k < |refs| {
      assert refs[..|refs| - 1][..k] == refs[..k];
      FreedGrows(frees, refs[..|refs| - 1], k);
    } else {
      assert refs[..k] == refs;
    }
  }

  /**
    A disk that gains what each image frees once it was tried (nothing when docker refuses), the evictable images
    being tried least recently used first.
   */
  ghost predicate DiskModel(env: nat -> Tick, lru: seq<Ref>, free: int, frees: Ref -> nat) {
    forall i: nat :: i <= |lru| ==> env(i).free == free + Freed(frees, lru[..i])
  }

  /** The mandatory set stays put. */
  ghost predicate StaysPut(env: nat -> Tick, protected: set<Ref>) {
    forall i: nat :: env(i).protected == protected
  }

  /** Enough is free once `refs` are gone. */
  ghost predicate MakesRoom(free: int, frees: Ref -> nat, refs: seq<Ref>, need: int, floor: int) {
    free + Freed(frees, refs) - need >= floor
  }

  /**
    On such a disk the images tried are the shortest run, least recently used first, that makes the room, and
    there is no room exactly when all evictable images together do not make it.
   */
  ghost predicate IsShortestRun(free: int, frees: Ref -> nat, lru: seq<Ref>, need: int, floor: int, room: bool,
                                victims: seq<Ref>)
  {
    victims <= lru && (forall k :: 0 <= k < |victims| ==> !MakesRoom(free, frees, lru[..k], need, floor)) &&
    (room <==> MakesRoom(free, frees, lru, need, floor)) &&
    (if room then MakesRoom(free, frees, victims, need, floor) else victims == lru)
  }

  lemma ShortestRun(order: seq<Ref>, images: Images, skip: set<Ref>, need: int, floor: int, env: nat -> Tick,
                    victims: seq<Ref>, room: bool, free: int, frees: Ref -> nat, protected: set<Ref>)
    requires IsOrder(order, images) && Chosen(order, images, skip, need, floor, env, victims)
    requires StaysPut(env, protected) && DiskModel(env, LruOrder(order, images, skip + protected), free, frees)
    requires room <==> env(|victims|).free - need >= floor
    requires !room ==> LruOf(order, images, skip + Refs(victims) + protected).None?
    ensures IsShortestRun(free, frees, LruOrder(order, images, skip + protected), need, floor, room, victims)
  {
    var lru := LruOrder(order, images, skip + protected);
    ChosenPicks(order, images, skip, need, floor, env, victims, protected);
    PicksFollowOrder(order, images, skip + protected, victims);
    if !room {
      assert skip + Refs(victims) + protected == skip + protected + Refs(victims);
    }
    RunIsShortest(env, lru, victims, need, floor, room, free, frees);
  }

  lemma RunIsShortest(env: nat -> Tick, lru: seq<Ref>, victims: seq<Ref>, need: int, floor: int, room: bool,
                      free: int, frees: Ref -> nat)
    requires DiskModel(env, lru, free, frees) && victims <= lru && (!room ==> victims == lru)
    requires forall k :: 0 <= k < |victims| ==> env(k).free - need < floor
    requires room <==> env(|victims|).free - need >= floor
    ensures IsShortestRun(free, frees, lru, need, floor, room, victims)
  {
    assert victims == lru[..|victims|];
    FreedGrows(frees, lru, |victims|);
  }

  lemma RefsAppend(victims: seq<Ref>, v: Ref)
    ensures Refs(victims + [v]) == Refs(victims) + {v}
  {
    var more := victims + [v];
    assert more[|victims|] == v;
    forall x | x in Refs(victims) ensures x in Refs(more) {
      var i :| 0 <= i < |victims| && victims[i] == x;
      assert more[i] == x;
    }
  }
}
