/** One slab of Allocators/ImplSlabMulti.h under concurrency: its owner pops and pushes `availible`
    without a lock, any number of other threads push freed indices to `foreigns` under the spin lock,
    and the owner merges the second list into the first, one element a step, under the same lock. */
module ForeignSlab {
  import opened Indices
  import SC = SlabCache

  /** Where a foreign thread is in Slab::deallocate. */
  datatype PC = Away | Waiting(idx: nat) | Holding(idx: nat) | Leaving

  datatype Lock = Unlocked | ByOwner | By(t: nat)

  /** Where the owner is in mergeForeigns: k elements are copied, or the list is cleared. */
  datatype Merge = NoMerge | Copying(k: nat) | Cleared

  /** live: the indices handed out and not yet pushed back to either list. */
  datatype State = State(count: nat, availible: seq<nat>, foreigns: seq<nat>, live: set<nat>,
                         lock: Lock, merge: Merge, threads: seq<PC>)

  datatype Action =
    | OwnerPop
    | OwnerPush(idx: nat)
    | MergeLock
    | MergeStep
    | ForeignFree(t: nat, idx: nat)
    | ForeignStep(t: nat)

  type Schedule = seq<Action>

  /** A thread has been given the index to free and has not pushed it yet. */
  predicate Carries(pc: PC, idx: nat) {
    pc == Waiting(idx) || pc == Holding(idx)
  }

  ghost predicate InFlight(s: State, idx: nat) {
    exists t: nat :: t < |s.threads| && Carries(s.threads[t], idx)
  }

  /** Clients free what they were given, once. */
  ghost predicate Enabled(s: State, a: Action) {
    match a
    case OwnerPop => s.merge.NoMerge? && s.availible != []
    case OwnerPush(idx) => s.merge.NoMerge? && idx in s.live && !InFlight(s, idx)
    case MergeLock => s.merge.NoMerge?
    case MergeStep => !s.merge.NoMerge?
    case ForeignFree(t, idx) => t < |s.threads| && s.threads[t].Away? && idx in s.live && !InFlight(s, idx)
    case ForeignStep(t) => t < |s.threads| && !s.threads[t].Away?
  }

  function Go(s: State, t: nat, pc: PC): State
    requires t < |s.threads|
  {
    s.(threads := s.threads[t := pc])
  }

  function ForeignNext(s: State, t: nat): State
    requires t < |s.threads|
  {
    match s.threads[t]
    case Away => s
    case Waiting(idx) => if s.lock.Unlocked? then Go(s.(lock := By(t)), t, Holding(idx)) else s
    case Holding(idx) => Go(s.(foreigns := s.foreigns + [idx], live := s.live - {idx}), t, Leaving)
    case Leaving => Go(s.(lock := Unlocked), t, Away)
  }

  function MergeNext(s: State): State {
    match s.merge
    case NoMerge => s
    case Copying(k) =>
      if k < |s.foreigns| then s.(availible := s.availible + [s.foreigns[k]], merge := Copying(k + 1))
      else s.(foreigns := [], merge := Cleared)
    case Cleared => s.(lock := Unlocked, merge := NoMerge)
  }

  /** One atomic step. */
  ghost function Next(s: State, a: Action): State
    requires Enabled(s, a)
  {
    match a
    case OwnerPop =>
      var last := |s.availible| - 1;
      s.(availible := s.availible[..last], live := s.live + {s.availible[last]})
    case OwnerPush(idx) => s.(availible := s.availible + [idx], live := s.live - {idx})
    case MergeLock => if s.lock.Unlocked? then s.(lock := ByOwner, merge := Copying(0)) else s
    case MergeStep => MergeNext(s)
    case ForeignFree(t, idx) => Go(s, t, Waiting(idx))
    case ForeignStep(t) => ForeignNext(s, t)
  }

  ghost predicate Reach(s: State, sched: Schedule, s': State)
    decreases |sched|
  {
    if sched == [] then s' == s
    else Enabled(s, sched[0]) && Reach(Next(s, sched[0]), sched[1..], s')
  }

  /** A slab fresh from its constructor. */
  function Init(indices: seq<nat>, threads: nat): State {
    State(|indices|, indices, [], {}, Unlocked, NoMerge, seq(threads, _ => Away))
  }

  // ----- what the states mean

  /** Each of 0 .. n-1 once. */
  function All(n: nat): (m: multiset<nat>)
    ensures forall i: nat :: m[i] == if i < n then 1 else 0
    ensures |m| == n
  {
    if n == 0 then multiset{} else All(n - 1) + multiset{n - 1}
  }

  /** The foreign indices that are not yet in availible. */
  function Rest(s: State): seq<nat> {
    if s.merge.Copying? && s.merge.k <= |s.foreigns| then s.foreigns[s.merge.k..] else s.foreigns
  }

  /** The two lists and the live set share no index, repeat none, and together are exactly 0 .. count-1. */
  ghost predicate Partition(count: nat, a: seq<nat>, f: seq<nat>, live: set<nat>) {
    && Distinct(a) && Distinct(f)
    && (forall i, j :: 0 <= i < |a| && 0 <= j < |f| ==> a[i] != f[j])
    && (forall i: nat :: i in a || i in f ==> i !in live)
    && (forall i: nat :: i < count <==> i in a || i in f || i in live)
  }

  predicate Locks(s: State, t: nat) {
    t < |s.threads| && (s.threads[t].Holding? || s.threads[t].Leaving?)
  }

  ghost predicate ThreadsOk(s: State) {
    && (forall t: nat :: s.lock == By(t) <==> Locks(s, t))
    && (forall t: nat, idx: nat :: t < |s.threads| && Carries(s.threads[t], idx) ==> idx in s.live)
    && (forall t: nat, u: nat, idx: nat ::
         (t < |s.threads| && u < |s.threads| && Carries(s.threads[t], idx) && Carries(s.threads[u], idx)) ==> t == u)
  }

  ghost predicate MergeOk(s: State) {
    && (s.lock.ByOwner? <==> !s.merge.NoMerge?)
    && (s.merge.Copying? ==> s.merge.k <= |s.foreigns|)
    && (s.merge.Cleared? ==> s.foreigns == [])
  }

  ghost predicate Counted(s: State) {
    multiset(s.availible) + multiset(Rest(s)) + multiset(s.live) == All(s.count)
  }

  ghost predicate Inv(s: State) {
    Counted(s) && ThreadsOk(s) && MergeOk(s)
  }

  // ----- counting and partitions

  /** The count of every index is one exactly when the lists and the live set are a partition. */
  lemma PartitionIff(count: nat, a: seq<nat>, f: seq<nat>, live: set<nat>)
    ensures multiset(a) + multiset(f) + multiset(live) == All(count) <==> Partition(count, a, f, live)
  {
    var m := multiset(a) + multiset(f) + multiset(live);
    if m == All(count) {
      CountsArePartition(count, a, f, live);
    }
    if Partition(count, a, f, live) {
      forall i: nat
        ensures m[i] == All(count)[i]
      {
        CountDistinct(a, i);
        CountDistinct(f, i);
      }
      assert m == All(count);
    }
  }

  lemma CountsArePartition(count: nat, a: seq<nat>, f: seq<nat>, live: set<nat>)
    requires multiset(a) + multiset(f) + multiset(live) == All(count)
    ensures Partition(count, a, f, live)
  {
    var m := multiset(a) + multiset(f) + multiset(live);
    assert forall i: nat :: m[i] == multiset(a)[i] + multiset(f)[i] + multiset(live)[i];
    DistinctIff(a);
    DistinctIff(f);
    assert forall i: nat :: i in a <==> multiset(a)[i] > 0;
    assert forall i: nat :: i in f <==> multiset(f)[i] > 0;
    assert forall i: nat :: i in live <==> multiset(live)[i] > 0;
    assert forall i: nat :: i < count <==> m[i] > 0;
    assert forall x: nat :: x in a ==> m[x] == 1 && x !in f && x !in live;
    forall i, j | 0 <= i < |a| && 0 <= j < |f|
      ensures a[i] != f[j]
    {
      assert a[i] in a && f[j] in f;
    }
  }

  // ----- every step keeps the invariant

  lemma PopCounts(s: State)
    requires Counted(s) && s.availible != []
    ensures var last := |s.availible| - 1;
            multiset(s.availible[..last]) + multiset(Rest(s)) + multiset(s.live + {s.availible[last]}) == All(s.count)
  {
    var last := |s.availible| - 1;
    var idx := s.availible[last];
    assert s.availible == s.availible[..last] + [idx];
    PartitionIff(s.count, s.availible, Rest(s), s.live);
    assert idx !in s.live;
    assert multiset(s.live + {idx}) == multiset(s.live) + multiset{idx};
  }

  lemma PushCounts(s: State, idx: nat)
    requires Counted(s) && idx in s.live
    ensures multiset(s.availible + [idx]) + multiset(Rest(s)) + multiset(s.live - {idx}) == All(s.count)
    ensures s.merge.NoMerge?
            ==> multiset(s.availible) + multiset(s.foreigns + [idx]) + multiset(s.live - {idx}) == All(s.count)
  {
    assert multiset(s.live - {idx}) == multiset(s.live) - multiset{idx};
  }

  lemma MergeCounts(s: State)
    requires Counted(s) && MergeOk(s)
    ensures Counted(MergeNext(s))
  {
    if s.merge.Copying? && s.merge.k < |s.foreigns| {
      assert Rest(s) == [s.foreigns[s.merge.k]] + s.foreigns[s.merge.k + 1..];
    }
  }

  lemma HolderPushesLive(s: State, t: nat)
    requires ThreadsOk(s) && MergeOk(s) && t < |s.threads| && s.threads[t].Holding?
    ensures s.threads[t].idx in s.live && s.merge.NoMerge?
  {
    assert Locks(s, t) && Carries(s.threads[t], s.threads[t].idx);
  }

  lemma CountedStep(s: State, a: Action)
    requires Inv(s) && Enabled(s, a)
    ensures Counted(Next(s, a))
  {
    hide InFlight, All, ThreadsOk;
    match a
    case OwnerPop =>
      PopCounts(s);
    case OwnerPush(idx) =>
      PushCounts(s, idx);
    case MergeLock =>
    case MergeStep =>
      MergeCounts(s);
    case ForeignFree(t, idx) =>
    case ForeignStep(t) =>
      if s.threads[t].Holding? {
        HolderPushesLive(s, t);
        PushCounts(s, s.threads[t].idx);
      }
  }

  lemma OwnerThreads(s: State, a: Action)
    requires Inv(s) && Enabled(s, a) && !a.ForeignFree? && !a.ForeignStep?
    ensures ThreadsOk(Next(s, a)) && MergeOk(Next(s, a))
  {
    hide Counted, All;
    var s' := Next(s, a);
    assert forall t: nat :: Locks(s', t) == Locks(s, t);
    if a.OwnerPush? {
      assert forall u: nat :: u < |s.threads| && Carries(s.threads[u], a.idx) ==> InFlight(s, a.idx);
    }
  }

  lemma ForeignThreads(s: State, t: nat)
    requires Inv(s) && t < |s.threads|
    ensures ThreadsOk(ForeignNext(s, t)) && MergeOk(ForeignNext(s, t))
  {
    hide Counted, All;
    var s' := ForeignNext(s, t);
    assert forall u: nat :: u != t ==> Locks(s', u) == Locks(s, u);
    assert forall u: nat, idx: nat :: u < |s.threads| && Carries(s'.threads[u], idx) ==> Carries(s.threads[u], idx);
    if s.threads[t].Holding? {
      assert Locks(s, t) && Carries(s.threads[t], s.threads[t].idx);
    }
    assert Locks(s, t) ==> s.lock == By(t);
  }

  lemma FreeThreads(s: State, t: nat, idx: nat)
    requires Inv(s) && Enabled(s, ForeignFree(t, idx))
    ensures ThreadsOk(Go(s, t, Waiting(idx))) && MergeOk(Go(s, t, Waiting(idx)))
  {
    hide Counted, All;
    var s' := Go(s, t, Waiting(idx));
    assert forall u: nat :: Locks(s', u) == Locks(s, u);
    assert forall u: nat :: u < |s.threads| && Carries(s.threads[u], idx) ==> InFlight(s, idx);
    assert forall u: nat, i: nat :: u < |s.threads| && u != t && Carries(s'.threads[u], i) ==> Carries(s.threads[u], i);
  }

  lemma ThreadsStep(s: State, a: Action)
    requires Inv(s) && Enabled(s, a)
    ensures ThreadsOk(Next(s, a)) && MergeOk(Next(s, a))
  {
    hide Inv, ThreadsOk, MergeOk;
    match a
    case ForeignFree(t, idx) => FreeThreads(s, t, idx);
    case ForeignStep(t) => ForeignThreads(s, t);
    case _ => OwnerThreads(s, a);
  }

  lemma Step(s: State, a: Action)
    requires Inv(s) && Enabled(s, a)
    ensures Inv(Next(s, a))
  {
    CountedStep(s, a);
    ThreadsStep(s, a);
  }

  lemma {:induction false} Run(s: State, sched: Schedule, s': State)
    requires Inv(s) && Reach(s, sched, s')
    ensures Inv(s') && s'.count == s.count
    decreases |sched|
  {
    if sched != [] {
      Step(s, sched[0]);
      Run(Next(s, sched[0]), sched[1..], s');
    }
  }

  /** Under any interleaving of owner pops and pushes, locked foreign pushes and merges, the available,
      the foreign (from the merge position on) and the live indices partition 0 .. count-1. */
  lemma AlwaysPartition(indices: seq<nat>, threads: nat, sched: Schedule, s: State)
    requires multiset(indices) == All(|indices|)
    requires Reach(Init(indices, threads), sched, s)
    ensures Partition(|indices|, s.availible, Rest(s), s.live)
    ensures s.lock != ByOwner ==> Partition(|indices|, s.availible, s.foreigns, s.live)
  {
    var s0 := Init(indices, threads);
    assert Rest(s0) == [] && Inv(s0);
    Run(s0, sched, s);
    PartitionIff(s.count, s.availible, Rest(s), s.live);
  }

  /** The stack a slab is made with holds every index once. */
  lemma StackHoldsAll(count: nat)
    requires count <= SC.INDEX_VALUES
    ensures multiset(SC.IndexStack(count)) == All(|SC.IndexStack(count)|)
  {
    var a := SC.IndexStack(count);
    SC.IndexStackIff(count);
    forall i: nat | i < count
      ensures i in a
    {
      assert a[count - 1 - i] == i;
    }
    assert Distinct(a) && Partition(count, a, [], {});
    PartitionIff(count, a, [], {});
    assert multiset(a) + multiset([]) + multiset({}) == multiset(a);
  }

  /** The same for a slab as the source makes it. */
  lemma AlwaysPartitionFromNew(count: nat, threads: nat, sched: Schedule, s: State)
    requires count <= SC.INDEX_VALUES && Reach(Init(SC.IndexStack(count), threads), sched, s)
    ensures Partition(count, s.availible, Rest(s), s.live)
    ensures s.lock != ByOwner ==> Partition(count, s.availible, s.foreigns, s.live)
  {
    StackHoldsAll(count);
    AlwaysPartition(SC.IndexStack(count), threads, sched, s);
  }

  /** What emptyAndSize computes under the lock is the number of live indices. */
  lemma SizeIsLive(s: State)
    requires Inv(s) && !s.lock.ByOwner?
    ensures s.count - (|s.availible| + |s.foreigns|) == |s.live|
    ensures |s.availible| + |s.foreigns| == s.count <==> s.live == {}
  {
    assert |multiset(s.availible) + multiset(Rest(s)) + multiset(s.live)| == |All(s.count)|;
    assert |s.live| == 0 ==> s.live == {};
  }

  // ----- one whole merge

  /** The merge that began with these two lists. */
  predicate InMerge(s: State, a0: seq<nat>, f0: seq<nat>) {
    match s.merge
    case NoMerge => false
    case Copying(k) => k <= |f0| && s.foreigns == f0 && s.availible == a0 + f0[..k]
    case Cleared => s.foreigns == [] && s.availible == a0 + f0
  }

  lemma MergeKeeps(s: State, a: Action, a0: seq<nat>, f0: seq<nat>)
    requires Inv(s) && Enabled(s, a) && InMerge(s, a0, f0)
    ensures InMerge(Next(s, a), a0, f0) || (s.merge.Cleared? && a.MergeStep?)
  {
    hide Counted, All, InFlight;
    if a.MergeStep? && s.merge.Copying? && s.merge.k < |f0| {
      assert f0[..s.merge.k + 1] == f0[..s.merge.k] + [f0[s.merge.k]];
    } else if a.MergeStep? && s.merge.Copying? {
      assert f0[..s.merge.k] == f0;
    } else if a.ForeignStep? {
      assert s.lock != By(a.t);
    }
  }

  /** s.merge has its value from the merge begun in s0 as long as no step of the schedule unlocks it. */
  ghost predicate StaysInMerge(s: State, sched: Schedule)
    decreases |sched|
  {
    sched == [] ||
    (Enabled(s, sched[0]) && !(s.merge.Cleared? && sched[0].MergeStep?) && StaysInMerge(Next(s, sched[0]), sched[1..]))
  }

  lemma {:induction false} MergeRun(s: State, sched: Schedule, s': State, a0: seq<nat>, f0: seq<nat>)
    requires Inv(s) && Reach(s, sched, s') && StaysInMerge(s, sched) && InMerge(s, a0, f0)
    ensures Inv(s') && InMerge(s', a0, f0)
    decreases |sched|
  {
    if sched != [] {
      Step(s, sched[0]);
      MergeKeeps(s, sched[0], a0, f0);
      MergeRun(Next(s, sched[0]), sched[1..], s', a0, f0);
    }
  }

  /** Whatever other threads do meanwhile, a merge appends the foreign indices, in order, to the
      available ones and leaves the foreign list empty: no index is lost or doubled. */
  lemma MergeConserves(s: State, sched: Schedule, s': State)
    requires Inv(s) && s.merge.NoMerge? && s.lock.Unlocked?
    requires Reach(Next(s, MergeLock), sched, s') && StaysInMerge(Next(s, MergeLock), sched) && s'.merge.Cleared?
    ensures s'.availible == s.availible + s.foreigns && s'.foreigns == []
  {
    Step(s, MergeLock);
    MergeRun(Next(s, MergeLock), sched, s', s.availible, s.foreigns);
  }
}
