/** lock_shared of the recursive mutex, called by a thread that is already inside a section: from the moment of
    the call, when it returns and when it may wait for its own unlock. */
module RecursiveMutexCalls {
  import opened Indices
  import opened RecursiveMutex
  import opened RecursiveMutexNesting

  /** With a slot, the call comes back if and only if the thread is nested in sections entered through it. */
  lemma SlottedCallReturnsIff(s: State, t: nat)
    requires Inv(s) && (InExclusive(s, t) || InSharedSection(s, t))
    requires s.threads[t].pc.Outside? && s.threads[t].index.Slot?
    ensures Enabled(s, t, LockShared)
    ensures CanReturn(Next(s, t, LockShared), t) <==> s.threads[t].slotDepth > 0
  {
    assert LocalOk(s.slots, s.threads[t]);
    Step(s, t, LockShared);
    NestedSharedReturnsIff(Next(s, t, LockShared), t);
  }

  // ----- without a slot

  predicate Announcing(pc: PC) {
    pc.LoadDepth? || pc.Announce? || pc.Recheck? || pc.Retreat? || pc.Spin?
  }

  /** While another thread holds want_x_lock, a thread here keeps its slot: it waits for the flag, in
      lock_shared or in lock. */
  predicate Stuck(l: Local) {
    l.index.Slot? && (l.pc.XOwner? || l.pc.XCas? || (l.slotDepth == 0 && Announcing(l.pc)))
  }

  ghost predicate SlotStuck(s: State, i: nat) {
    exists u: nat :: Owns(s, u, i) && Stuck(s.threads[u])
  }

  ghost predicate AllStuck(s: State) {
    forall i: nat :: i < |s.slots| ==> SlotStuck(s, i)
  }

  /** A run in which thread t does not leave the call it is in. */
  ghost predicate ReachInCall(s: State, t: nat, sched: Schedule, s': State)
    decreases |sched|
  {
    && t < |s.threads| && !s.threads[t].pc.Outside?
    && if sched == [] then s' == s
       else Enabled(s, sched[0].0, sched[0].1) && ReachInCall(Next(s, sched[0].0, sched[0].1), t, sched[1..], s')
  }

  /** In some run of the call thread t takes a slot and then waits for itself. */
  ghost predicate MayWait(s: State, t: nat) {
    exists sched: Schedule, s' :: ReachInCall(s, t, sched, s') && WaitsForItself(s', t)
  }

  lemma MayWaitBefore(s: State, t: nat, u: nat, a: Action)
    requires t < |s.threads| && !s.threads[t].pc.Outside? && Enabled(s, u, a) && MayWait(Next(s, u, a), t)
    ensures MayWait(s, t)
  {
    hide Next, Enabled;
    var sched: Schedule, s' :| ReachInCall(Next(s, u, a), t, sched, s') && WaitsForItself(s', t);
    assert ([(u, a)] + sched)[1..] == sched;
    assert ReachInCall(s, t, [(u, a)] + sched, s');
  }

  /** Thread t holds the flag, has no slot and is in lock_shared. */
  predicate Asking(s: State, t: nat) {
    && t < |s.threads|
    && var l := s.threads[t];
       && l.index.NoSlot? && l.xDepth + l.spillDepth > 0
       && (l.pc.UseCount? || l.pc.TrySlot? || l.pc.TakeSlot? || l.pc.SpillOwner? || l.pc.SpillCount?)
  }

  // ----- all slots stuck: they stay so until the call is over

  lemma AskingStep(s: State, t: nat, a: Action)
    requires Inv(s) && AllStuck(s) && Asking(s, t) && Enabled(s, t, a)
    ensures var s' := Next(s, t, a);
            && |s'.threads| == |s.threads| && s'.slots == s.slots && s'.threads == s.threads[t := s'.threads[t]]
            && s'.threads[t].index.NoSlot?
            && (Asking(s', t) || s'.threads[t].pc.Outside?)
  {
    assert LocalOk(s.slots, s.threads[t]);
    RecordFitsAll(s, t);
    if s.threads[t].pc.TakeSlot? {
      StuckIsTaken(s, s.threads[t].pc.i);
    }
  }

  lemma StuckIsTaken(s: State, i: nat)
    requires Inv(s) && i < |s.slots| && SlotStuck(s, i)
    ensures s.slots[i] >= 1
  {
    var u: nat :| Owns(s, u, i) && Stuck(s.threads[u]);
    assert LocalOk(s.slots, s.threads[u]) && SlotFits(s.threads[u], s.slots[i]);
  }

  lemma StuckStep(s: State, t: nat, u: nat, a: Action)
    requires Inv(s) && Asking(s, t) && u != t && Enabled(s, u, a) && Stuck(s.threads[u])
    ensures var s' := Next(s, u, a);
            |s'.threads| == |s.threads| && Stuck(s'.threads[u]) && s'.threads[u].index == s.threads[u].index
  {
    assert LocalOk(s.slots, s.threads[u]) && LocalOk(s.slots, s.threads[t]);
    RecordFitsAll(s, t);
    assert Holds(s, t) && s.want && s.owner == OwnedBy(t);
  }

  /** A thread without a slot gets none while all are taken. */
  lemma UnslottedStep(s: State, u: nat, a: Action)
    requires Inv(s) && AllStuck(s) && Enabled(s, u, a) && s.threads[u].index.NoSlot?
    ensures |Next(s, u, a).threads| == |s.threads| && Next(s, u, a).threads[u].index.NoSlot?
  {
    assert LocalOk(s.slots, s.threads[u]);
    if s.threads[u].pc.TakeSlot? {
      StuckIsTaken(s, s.threads[u].pc.i);
    }
  }

  lemma AllStuckStep(s: State, t: nat, u: nat, a: Action)
    requires Inv(s) && AllStuck(s) && Asking(s, t) && Enabled(s, u, a)
    ensures var s' := Next(s, u, a);
            AllStuck(s') && (Asking(s', t) || (t < |s'.threads| && s'.threads[t].pc.Outside?))
  {
    var s' := Next(s, u, a);
    OnlyOwnThread(s, u, a);
    if u == t {
      AskingStep(s, t, a);
    } else if s.threads[u].index.Slot? {
      OwnerIsStuck(s, u);
      StuckStep(s, t, u, a);
    } else {
      UnslottedStep(s, u, a);
    }
    hide Next, Inv;
    forall i: nat | i < |s'.slots|
      ensures SlotStuck(s', i)
    {
      assert SlotStuck(s, i);
      var v: nat :| Owns(s, v, i) && Stuck(s.threads[v]);
      assert Owns(s', v, i) && Stuck(s'.threads[v]);
    }
  }

  lemma OwnerIsStuck(s: State, u: nat)
    requires Inv(s) && AllStuck(s) && u < |s.threads| && s.threads[u].index.Slot?
    ensures Stuck(s.threads[u])
  {
    var i := s.threads[u].index.i;
    assert LocalOk(s.slots, s.threads[u]) && SlotStuck(s, i) && Owns(s, u, i);
  }

  lemma {:induction false} NeverTakesSlot(s: State, t: nat, sched: Schedule, s': State)
    requires Inv(s) && AllStuck(s) && Asking(s, t) && ReachInCall(s, t, sched, s')
    ensures !WaitsForItself(s', t)
    decreases |sched|
  {
    if sched != [] {
      hide AllStuck, Inv, Next;
      AllStuckStep(s, t, sched[0].0, sched[0].1);
      Step(s, sched[0].0, sched[0].1);
      NeverTakesSlot(Next(s, sched[0].0, sched[0].1), t, sched[1..], s');
    }
  }

  // ----- some slot not stuck: its owner can leave it

  /** Steps an owner that is not stuck has left before its slot is 0. */
  function Left(l: Local): int {
    match l.pc
    case LoadDepth => 4 * l.slotDepth + 8
    case Deepen(_) => 4 * l.slotDepth + 7
    case LoadHeld => 4 * l.slotDepth + 5
    case Shallow(_) => 4 * l.slotDepth + 4
    case Outside => 4 * l.slotDepth + 2
    case _ => 1
  }

  function Leaving(l: Local): Action {
    if !l.pc.Outside? then Advance else if l.slotDepth > 0 then UnlockShared else Exit
  }

  lemma OwnerLeaves(s: State, t: nat, u: nat, i: nat)
    requires Inv(s) && Asking(s, t) && Owns(s, u, i) && u != t && !Stuck(s.threads[u])
    ensures Enabled(s, u, Leaving(s.threads[u]))
    ensures var s' := Next(s, u, Leaving(s.threads[u]));
            && |s'.threads| == |s.threads| && |s'.slots| == |s.slots| && s'.threads[t] == s.threads[t] && i < |s'.slots|
            && (s'.slots[i] == 0
                || (Owns(s', u, i) && !Stuck(s'.threads[u]) && 0 < Left(s'.threads[u]) < Left(s.threads[u])))
  {
    assert LocalOk(s.slots, s.threads[u]) && LocalOk(s.slots, s.threads[t]);
    assert SlotFits(s.threads[u], s.slots[i]);
    RecordFitsAll(s, t);
    assert Holds(s, t) && !Holds(s, u);
  }

  /** The owner leaves its sections and ends; then its slot is free. */
  lemma {:induction false} OwnerFreesSlot(s: State, t: nat, u: nat, i: nat) returns (s': State)
    requires Inv(s) && Asking(s, t) && Owns(s, u, i) && u != t && !Stuck(s.threads[u])
    ensures Inv(s') && Asking(s', t) && s'.threads[t] == s.threads[t]
    ensures i < |s'.slots| && s'.slots[i] == 0
    ensures MayWait(s', t) ==> MayWait(s, t)
    decreases Left(s.threads[u])
  {
    hide Next, Inv, MayWait;
    OwnerLeaves(s, t, u, i);
    var a := Leaving(s.threads[u]);
    Step(s, u, a);
    s' := Next(s, u, a);
    if s'.slots[i] != 0 {
      s' := OwnerFreesSlot(s', t, u, i);
    }
    if MayWait(s', t) {
      MayWaitBefore(s, t, u, a);
    }
  }

  // ----- a free slot: the use count lets the thread try, and it takes one

  function Taken(threads: seq<Local>): set<nat> {
    if threads == [] then {}
    else (if threads[0].index.Slot? then {threads[0].index.i} else {}) + Taken(threads[1..])
  }

  lemma {:induction false} TakenIff(threads: seq<Local>, i: nat)
    ensures i in Taken(threads) <==> exists u: nat :: u < |threads| && threads[u].index == Slot(i)
  {
    if threads != [] {
      TakenIff(threads[1..], i);
      if i in Taken(threads[1..]) {
        var u: nat :| u < |threads[1..]| && threads[1..][u].index == Slot(i);
        assert threads[u + 1].index == Slot(i);
      }
      if u: nat :| u < |threads| && threads[u].index == Slot(i) {
        assert u > 0 ==> threads[1..][u - 1].index == Slot(i);
      }
    }
  }

  lemma {:induction false} TakenCount(threads: seq<Local>)
    requires forall u: nat, v: nat :: u < v < |threads| && threads[u].index.Slot? ==> threads[u].index != threads[v].index
    ensures |Taken(threads)| == Registered(threads)
  {
    if threads != [] {
      var rest := threads[1..];
      assert forall u: nat :: u < |rest| ==> rest[u] == threads[u + 1];
      TakenCount(rest);
      if threads[0].index.Slot? {
        TakenIff(rest, threads[0].index.i);
      }
    }
  }

  /** With a slot at 0 the slot array has more slots than registered threads. */
  lemma UseCountAllows(s: State, i: nat)
    requires Inv(s) && i < |s.slots| && s.slots[i] == 0
    ensures 1 + Registered(s.threads) <= |s.slots|
  {
    forall u: nat, v: nat | u < v < |s.threads| && s.threads[u].index.Slot?
      ensures s.threads[u].index != s.threads[v].index
    {
      var k := s.threads[u].index.i;
      assert Owns(s, u, k);
      assert s.threads[v].index == Slot(k) ==> Owns(s, v, k);
    }
    TakenCount(s.threads);
    forall x | x in Taken(s.threads)
      ensures x < |s.slots| && x != i
    {
      TakenIff(s.threads, x);
      var u: nat :| u < |s.threads| && s.threads[u].index == Slot(x);
      assert LocalOk(s.slots, s.threads[u]) && SlotFits(s.threads[u], s.slots[x]);
    }
    SubsetCard(Taken(s.threads) + {i}, Below(|s.slots|));
  }

  lemma {:induction false} ScanTakesSlot(s: State, t: nat, k: nat, i: nat)
    requires Inv(s) && Asking(s, t) && s.threads[t].pc == TrySlot(k) && k <= i < |s.slots| && s.slots[i] == 0
    ensures MayWait(s, t)
    decreases i - k
  {
    hide Inv, MayWait;
    TryStep(s, t, k);
    Step(s, t, Advance);
    var s1 := Next(s, t, Advance);
    if s.slots[k] == 0 {
      TakeStep(s1, t, k);
      WaitsNow(Next(s1, t, Advance), t);
      MayWaitBefore(s1, t, t, Advance);
    } else {
      ScanTakesSlot(s1, t, k + 1, i);
    }
    MayWaitBefore(s, t, t, Advance);
  }

  lemma TryStep(s: State, t: nat, k: nat)
    requires Inv(s) && Asking(s, t) && s.threads[t].pc == TrySlot(k) && k < |s.slots|
    ensures Enabled(s, t, Advance)
    ensures Next(s, t, Advance) == Go(s, t, if s.slots[k] == 0 then TakeSlot(k) else TrySlot(k + 1))
  {}

  lemma TakeStep(s: State, t: nat, k: nat)
    requires Asking(s, t) && s.threads[t].pc == TakeSlot(k) && k < |s.slots| && s.slots[k] == 0
    requires Inv(s)
    ensures Enabled(s, t, Advance) && WaitsForItself(Next(s, t, Advance), t)
  {
    assert LocalOk(s.slots, s.threads[t]);
  }

  lemma WaitsNow(s: State, t: nat)
    requires WaitsForItself(s, t)
    ensures MayWait(s, t)
  {
    assert ReachInCall(s, t, [], s);
  }

  lemma FreeSlotTaken(s: State, t: nat, i: nat)
    requires Inv(s) && Asking(s, t) && s.threads[t].pc.UseCount? && i < |s.slots| && s.slots[i] == 0
    ensures MayWait(s, t)
  {
    UseCountAllows(s, i);
    Step(s, t, Advance);
    var s1 := Next(s, t, Advance);
    assert s1 == Go(s, t, TrySlot(0));
    hide Inv, MayWait, Next;
    ScanTakesSlot(s1, t, 0, i);
    MayWaitBefore(s, t, t, Advance);
  }

  /** Without a slot, some run of the call takes one and waits for itself if and only if, at the call, some slot is
      not held by a thread that waits for the flag: it is free, or its owner can still leave it. */
  lemma UnslottedCallMayWaitIff(s: State, t: nat)
    requires Inv(s) && (InExclusive(s, t) || InSharedSection(s, t))
    requires s.threads[t].pc.Outside? && s.threads[t].index.NoSlot?
    ensures Enabled(s, t, LockShared)
    ensures MayWait(Next(s, t, LockShared), t) <==> !AllStuck(s)
  {
    assert LocalOk(s.slots, s.threads[t]);
    var s1 := Next(s, t, LockShared);
    assert s1 == Go(s, t, UseCount);
    Step(s, t, LockShared);
    SameStuck(s, t);
    hide Next, Enabled;
    if AllStuck(s1) {
      forall sched: Schedule, e | ReachInCall(s1, t, sched, e)
        ensures !WaitsForItself(e, t)
      {
        NeverTakesSlot(s1, t, sched, e);
      }
    } else {
      var i: nat :| i < |s1.slots| && !SlotStuck(s1, i);
      if s1.slots[i] == 0 {
        FreeSlotTaken(s1, t, i);
      } else {
        var u: nat :| Owns(s1, u, i);
        var s2 := OwnerFreesSlot(s1, t, u, i);
        FreeSlotTaken(s2, t, i);
      }
    }
  }

  lemma SameStuck(s: State, t: nat)
    requires t < |s.threads| && s.threads[t].index.NoSlot?
    ensures AllStuck(Go(s, t, UseCount)) <==> AllStuck(s)
  {
    var s1 := Go(s, t, UseCount);
    forall i: nat | i < |s.slots|
      ensures SlotStuck(s1, i) <==> SlotStuck(s, i)
    {
      if SlotStuck(s, i) {
        var u: nat :| Owns(s, u, i) && Stuck(s.threads[u]);
        assert Owns(s1, u, i) && Stuck(s1.threads[u]);
      }
      if SlotStuck(s1, i) {
        var u: nat :| Owns(s1, u, i) && Stuck(s1.threads[u]);
        assert Owns(s, u, i) && Stuck(s.threads[u]);
      }
    }
  }
}
