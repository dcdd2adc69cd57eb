/** No call on a slab is stuck: the spin lock comes free, a free by another thread gets its index into `foreigns`, and a
    merge ends with all foreign indices in `availible`. */
module ForeignSlabProgress {
  import opened ForeignSlab

  lemma {:induction false} ReachTrans(s: State, x: Schedule, mid: State, y: Schedule, s': State)
    requires Reach(s, x, mid) && Reach(mid, y, s')
    ensures Reach(s, x + y, s')
    decreases |x|
  {
    if x == [] {
      assert x + y == y;
    } else {
      ReachTrans(Next(s, x[0]), x[1..], mid, y, s');
      assert (x + y)[1..] == x[1..] + y;
    }
  }

  /** One more step at the end of a run; the invariant is kept. */
  lemma Extend(s0: State, sched: Schedule, s: State, a: Action) returns (sched': Schedule, s': State)
    requires Reach(s0, sched, s) && Inv(s) && Enabled(s, a)
    ensures sched' == sched + [a] && s' == Next(s, a)
    ensures Reach(s0, sched', s') && Inv(s')
  {
    sched', s' := sched + [a], Next(s, a);
    Step(s, a);
    hide Inv, Next, Enabled;
    assert [a][1..] == [] && Reach(s', [a][1..], s');
    ReachTrans(s0, sched, s, [a], s');
  }

  /** A merge under way ends after one step for each index it has still to copy and two more. */
  lemma {:induction false} MergeEnds(s: State) returns (sched: Schedule, s': State)
    requires Inv(s) && !s.merge.NoMerge?
    ensures Reach(s, sched, s') && Inv(s') && |sched| <= |s.foreigns| + 2
    ensures |sched| <= (if s.merge.Copying? then |s.foreigns| - s.merge.k + 2 else 1)
    ensures s'.merge.NoMerge? && s'.lock.Unlocked? && s'.foreigns == []
    ensures s'.availible == s.availible + Rest(s)
    ensures s'.live == s.live && s'.threads == s.threads
    decreases if s.merge.Copying? then |s.foreigns| - s.merge.k + 2 else 1
  {
    hide Counted, ThreadsOk, InFlight;
    sched, s' := Extend(s, [], s, MergeStep);
    if s.merge.Copying? {
      assert s.merge.k < |s.foreigns| ==> Rest(s) == [s.foreigns[s.merge.k]] + Rest(s');
      var rest, end := MergeEnds(s');
      ReachTrans(s, sched, s', rest, end);
      sched, s' := sched + rest, end;
    }
  }

  /** Whoever has the spin lock lets it go, after at most foreigns + 2 steps; all other threads stay where they are. */
  lemma LockComesFree(s: State) returns (sched: Schedule, s': State)
    requires Inv(s)
    ensures Reach(s, sched, s') && Inv(s') && |sched| <= |s.foreigns| + 2
    ensures s'.lock.Unlocked? && s'.merge.NoMerge?
    ensures |s'.threads| == |s.threads|
    ensures forall u: nat :: u < |s.threads| && !Locks(s, u) ==> s'.threads[u] == s.threads[u]
  {
    hide Counted, InFlight;
    sched, s' := [], s;
    if s.lock.ByOwner? {
      sched, s' := MergeEnds(s);
    } else if s.lock.By? {
      var t := s.lock.t;
      assert Locks(s, t);
      sched, s' := Extend(s, sched, s, ForeignStep(t));
      if s.threads[t].Holding? {
        sched, s' := Extend(s, sched, s', ForeignStep(t));
      }
    }
  }

  /** A free by another thread comes to its end, with the index in `foreigns` and no longer live. */
  lemma ForeignFreeEnds(s: State, t: nat, idx: nat) returns (sched: Schedule, s': State)
    requires Inv(s) && t < |s.threads| && s.threads[t] == Waiting(idx)
    ensures Reach(s, sched, s') && Inv(s') && |sched| <= |s.foreigns| + 5
    ensures t < |s'.threads| && s'.threads[t].Away? && s'.lock.Unlocked?
    ensures idx in s'.foreigns && idx !in s'.live
  {
    hide Counted, InFlight, ThreadsOk;
    var wait, s1 := LockComesFree(s);
    var x, s2 := Extend(s, wait, s1, ForeignStep(t));
    var y, s3 := Extend(s, x, s2, ForeignStep(t));
    sched, s' := Extend(s, y, s3, ForeignStep(t));
    assert s'.foreigns == s1.foreigns + [idx];
  }

  /** A merge that is due is made: some run empties the foreign list. */
  lemma MergeIsMade(s: State) returns (sched: Schedule, s': State)
    requires Inv(s)
    ensures Reach(s, sched, s') && Inv(s') && s'.merge.NoMerge? && s'.lock.Unlocked? && s'.foreigns == []
  {
    hide Counted, InFlight, ThreadsOk;
    var wait, s1 := LockComesFree(s);
    var x, s2 := Extend(s, wait, s1, MergeLock);
    var rest, end := MergeEnds(s2);
    ReachTrans(s, x, s2, rest, end);
    sched, s' := x + rest, end;
  }

  /** The index the owner gives back is the one it takes next, and the two leave the slab as it was. */
  lemma OwnerTakesBack(s: State, idx: nat)
    requires Inv(s) && Enabled(s, OwnerPush(idx))
    ensures var s1 := Next(s, OwnerPush(idx)); Enabled(s1, OwnerPop) && Next(s1, OwnerPop) == s
  {
    hide Inv, InFlight;
    assert (s.availible + [idx])[..|s.availible|] == s.availible;
    assert s.live - {idx} + {idx} == s.live;
  }
}
