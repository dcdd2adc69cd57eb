/** Which nested calls of the recursive mutex come back. The header of TMP.h (line 78)
    promises X->X, X->S and S->S recursion. The last two hold with exceptions: lock_shared tries
    to register on every call, and a thread that gets a slot while it holds want_x_lock itself
    waits for its own unlock (lines 173-195). */
module RecursiveMutexNesting {
  import opened RecursiveMutex

  /** Some run lets thread t finish the call it is in. */
  ghost predicate CanReturn(s: State, t: nat) {
    exists sched: Schedule, s' :: Reach(s, sched, s') && t < |s'.threads| && s'.threads[t].pc.Outside?
  }

  /** A thread that waits, in its own slot, for the flag it has set itself. */
  predicate WaitsForItself(s: State, t: nat) {
    && t < |s.threads|
    && var l := s.threads[t];
       && InSlotPath(l.pc) && l.index.Slot?
       && l.slotDepth == 0 && l.xDepth + l.spillDepth > 0
  }

  lemma WaitsOn(s: State, t: nat, u: nat, a: Action)
    requires Inv(s) && WaitsForItself(s, t) && Enabled(s, u, a)
    ensures WaitsForItself(Next(s, u, a), t)
  {
    OnlyOwnThread(s, u, a);
    assert LocalOk(s.slots, s.threads[t]) && Holds(s, t) && s.want;
    if u == t {
      assert SlotFits(s.threads[t], s.slots[s.threads[t].index.i]);
    }
  }

  lemma {:induction false} WaitsForever(s: State, t: nat, sched: Schedule, s': State)
    requires Inv(s) && WaitsForItself(s, t) && Reach(s, sched, s')
    ensures WaitsForItself(s', t)
    decreases |sched|
  {
    if sched != [] {
      WaitsOn(s, t, sched[0].0, sched[0].1);
      Step(s, sched[0].0, sched[0].1);
      WaitsForever(Next(s, sched[0].0, sched[0].1), t, sched[1..], s');
    }
  }

  /** A thread inside a section of its own is in lock_shared and has finished register_thread. The call
      can come back if and only if the thread has no slot or is nested in sections entered through the slot. */
  lemma NestedSharedReturnsIff(s: State, t: nat)
    requires Inv(s) && (InExclusive(s, t) || InSharedSection(s, t))
    requires s.threads[t].pc.LoadDepth? || s.threads[t].pc.SpillOwner?
    ensures CanReturn(s, t) <==> (s.threads[t].index.NoSlot? || s.threads[t].slotDepth > 0)
  {
    var l := s.threads[t];
    assert LocalOk(s.slots, l);
    if l.index.NoSlot? || l.slotDepth > 0 {
      RecordFitsAll(s, t);
      var sched, s1 := Extend(s, [], s, t, Advance);
      sched, s1 := Extend(s, sched, s1, t, Advance);
      assert s1.threads[t].pc.Outside?;
    } else {
      assert WaitsForItself(s, t);
      forall sched: Schedule, s' | Reach(s, sched, s')
        ensures WaitsForItself(s', t)
      {
        WaitsForever(s, t, sched, s');
      }
    }
  }

  /** X->X: two steps of its own, taken in a row, finish a nested lock one level deeper. */
  lemma NestedLockReturns(s: State, t: nat)
    requires Inv(s) && InExclusive(s, t) && s.threads[t].pc.XOwner?
    ensures Enabled(s, t, Advance)
    ensures var s1 := Next(s, t, Advance);
            && Enabled(s1, t, Advance)
            && var s2 := Next(s1, t, Advance);
               && s2.threads[t].pc.Outside? && s2.threads[t].xDepth == s.threads[t].xDepth + 1
               && s2.count == s.count + 1
  {
    assert LocalOk(s.slots, s.threads[t]);
    RecordFitsAll(s, t);
  }

  predicate NoStepOf(sched: Schedule, t: nat) {
    forall k :: 0 <= k < |sched| ==> sched[k].0 != t
  }

  /** Steps of the others leave a thread's own record alone. */
  lemma {:induction false} OthersRun(s: State, t: nat, sched: Schedule, s': State)
    requires Inv(s) && t < |s.threads| && Reach(s, sched, s') && NoStepOf(sched, t)
    ensures Inv(s') && |s'.threads| == |s.threads| && |s'.slots| == |s.slots| && s'.threads[t] == s.threads[t]
    decreases |sched|
  {
    if sched != [] {
      hide Inv, Next;
      assert sched[0].0 != t;
      OnlyOwnThread(s, sched[0].0, sched[0].1);
      Step(s, sched[0].0, sched[0].1);
      assert NoStepOf(sched[1..], t);
      OthersRun(Next(s, sched[0].0, sched[0].1), t, sched[1..], s');
    }
  }

  /** A nested lock takes two steps of its own; before, between and after them the others may do anything. */
  lemma NestedLockReturnsAlways(s: State, t: nat, x: Schedule, s1: State, y: Schedule, s2: State)
    requires Inv(s) && InExclusive(s, t) && s.threads[t].pc.XOwner?
    requires Reach(s, x, s1) && NoStepOf(x, t)
    requires Enabled(s1, t, Advance) ==> Reach(Next(s1, t, Advance), y, s2) && NoStepOf(y, t)
    ensures Enabled(s1, t, Advance)
    ensures t < |s2.threads| && s2.threads[t].pc == XScan(|s2.slots|) && Enabled(s2, t, Advance)
    ensures var s3 := Next(s2, t, Advance);
            && s3.threads[t].pc.Outside? && s3.threads[t].xDepth == s.threads[t].xDepth + 1
            && s3.count == s.threads[t].xDepth + 1
  {
    OthersRun(s, t, x, s1);
    NestedLockReturns(s1, t);
    Step(s1, t, Advance);
    FirstStepOfLock(s1, t);
    OthersRun(Next(s1, t, Advance), t, y, s2);
    SecondStepOfLock(s2, t);
  }

  lemma FirstStepOfLock(s: State, t: nat)
    requires Inv(s) && InExclusive(s, t) && s.threads[t].pc.XOwner?
    ensures Enabled(s, t, Advance)
    ensures var s1 := Next(s, t, Advance);
            |s1.threads| == |s.threads| && |s1.slots| == |s.slots|
            && s1.threads[t] == s.threads[t].(pc := XScan(|s1.slots|))
  {
    assert LocalOk(s.slots, s.threads[t]);
    RecordFitsAll(s, t);
  }

  lemma SecondStepOfLock(s: State, t: nat)
    requires Inv(s) && InExclusive(s, t) && s.threads[t].pc == XScan(|s.slots|)
    ensures Enabled(s, t, Advance)
    ensures var s3 := Next(s, t, Advance);
            && s3.threads[t].pc.Outside? && s3.threads[t].xDepth == s.threads[t].xDepth + 1
            && s3.count == s.threads[t].xDepth + 1
  {
    assert LocalOk(s.slots, s.threads[t]);
    RecordFitsAll(s, t);
  }

  // ----- concrete runs in which a promised recursion does not come back

  function Idle(index: Index, slotDepth: int, spillDepth: int, xDepth: int): Local {
    Local(Outside, index, slotDepth, spillDepth, xDepth)
  }

  /** A call of lock by a thread that holds nothing, over one free slot: it takes the flag ... */
  lemma RunTakeFlag(s0: State, x: Schedule, s: State) returns (sched: Schedule, s': State)
    requires Reach(s0, x, s) && s == State(false, NoOwner, 0, [0], [Idle(NoSlot, 0, 0, 0)])
    ensures Reach(s0, sched, s')
    ensures s' == State(true, NoOwner, 0, [0], [Local(XStore, NoSlot, 0, 0, 0)])
  {
    sched, s' := Extend(s0, x, s, 0, Lock);
    assert s'.threads[0].pc == XOwner;
    sched, s' := Extend(s0, sched, s', 0, Advance);
    assert s'.threads[0].pc == XCas;
    sched, s' := Extend(s0, sched, s', 0, Advance);
  }

  /** ... and scans the slot. */
  lemma RunLock(s0: State, x: Schedule, s: State) returns (sched: Schedule, s': State)
    requires Reach(s0, x, s) && s == State(false, NoOwner, 0, [0], [Idle(NoSlot, 0, 0, 0)])
    ensures Reach(s0, sched, s') && s' == State(true, OwnedBy(0), 1, [0], [Idle(NoSlot, 0, 0, 1)])
  {
    sched, s' := RunTakeFlag(s0, x, s);
    sched, s' := Extend(s0, sched, s', 0, Advance);
    assert s'.threads[0].pc == XScan(0);
    sched, s' := Extend(s0, sched, s', 0, Advance);
    assert s'.threads[0].pc == XScan(1);
    sched, s' := Extend(s0, sched, s', 0, Advance);
  }

  /** lock_shared by thread t up to the point where it has taken the one slot there is. */
  lemma RunRegister(s0: State, x: Schedule, s: State, t: nat) returns (sched: Schedule, s': State)
    requires Reach(s0, x, s) && s.slots == [0] && t < |s.threads|
    requires s.threads[t].pc.Outside? && s.threads[t].index.NoSlot? && Registered(s.threads) == 0
    ensures Reach(s0, sched, s')
    ensures s' == s.(slots := [1], threads := s.threads[t := s.threads[t].(pc := LoadDepth, index := Slot(0))])
  {
    sched, s' := Extend(s0, x, s, t, LockShared);
    RegisteredAfterCall(s.threads, t, UseCount);
    sched, s' := Extend(s0, sched, s', t, Advance);
    assert s'.threads[t].pc == TrySlot(0);
    sched, s' := Extend(s0, sched, s', t, Advance);
    assert s'.threads[t].pc == TakeSlot(0);
    sched, s' := Extend(s0, sched, s', t, Advance);
  }

  lemma {:induction false} RegisteredAfterCall(threads: seq<Local>, t: nat, pc: PC)
    requires t < |threads|
    ensures Registered(threads[t := threads[t].(pc := pc)]) == Registered(threads)
  {
    if t > 0 {
      RegisteredAfterCall(threads[1..], t - 1, pc);
      assert threads[t := threads[t].(pc := pc)][1..] == threads[1..][t - 1 := threads[t].(pc := pc)];
    } else {
      assert threads[t := threads[t].(pc := pc)][1..] == threads[1..];
    }
  }

  /** X->S does not come back: one slot, one thread whose first call is lock and whose second is lock_shared. */
  lemma ExclusiveThenSharedWaits() returns (sched: Schedule, s: State)
    ensures Reach(Init(1, 1), sched, s)
    ensures InExclusive(s, 0) && s.threads[0].pc.LoadDepth? && !CanReturn(s, 0)
  {
    sched, s := [], State(false, NoOwner, 0, [0], [Idle(NoSlot, 0, 0, 0)]);
    assert s == Init(1, 1);
    sched, s := RunLock(Init(1, 1), sched, s);
    sched, s := RunRegister(Init(1, 1), sched, s, 0);
    InitInv(1, 1);
    Run(Init(1, 1), sched, s);
    NestedSharedReturnsIff(s, 0);
  }

  /** The first reader takes the slot and goes in. */
  lemma RunFirstReader(s0: State, x: Schedule, s: State) returns (sched: Schedule, s': State)
    requires Reach(s0, x, s) && s == State(false, NoOwner, 0, [0], [Idle(NoSlot, 0, 0, 0), Idle(NoSlot, 0, 0, 0)])
    ensures Reach(s0, sched, s')
    ensures s' == State(false, NoOwner, 0, [2], [Idle(Slot(0), 1, 0, 0), Idle(NoSlot, 0, 0, 0)])
  {
    assert Registered(s.threads) == Registered(s.threads[1..]) == 0;
    sched, s' := RunRegister(s0, x, s, 0);
    sched, s' := Extend(s0, sched, s', 0, Advance);
    assert s'.threads[0].pc == Announce(1);
    sched, s' := Extend(s0, sched, s', 0, Advance);
    assert s'.threads[0].pc == Recheck(1);
    sched, s' := Extend(s0, sched, s', 0, Advance);
  }

  /** The second finds no slot and goes in through the flag. */
  lemma RunSpillReader(s0: State, x: Schedule, s: State) returns (sched: Schedule, s': State)
    requires Reach(s0, x, s) && s == State(false, NoOwner, 0, [2], [Idle(Slot(0), 1, 0, 0), Idle(NoSlot, 0, 0, 0)])
    ensures Reach(s0, sched, s')
    ensures s' == State(true, OwnedBy(1), 1, [2], [Idle(Slot(0), 1, 0, 0), Idle(NoSlot, 0, 1, 0)])
  {
    sched, s' := Extend(s0, x, s, 1, LockShared);
    assert Registered(s'.threads) == 1 + Registered(s'.threads[1..]);
    sched, s' := Extend(s0, sched, s', 1, Advance);
    assert s'.threads[1].pc == SpillOwner;
    sched, s' := Extend(s0, sched, s', 1, Advance);
    assert s'.threads[1].pc == SpillCas;
    sched, s' := Extend(s0, sched, s', 1, Advance);
    assert s'.threads[1].pc == SpillStore;
    sched, s' := Extend(s0, sched, s', 1, Advance);
    assert s'.threads[1].pc == SpillCount;
    sched, s' := Extend(s0, sched, s', 1, Advance);
  }

  /** The first reader leaves and its thread ends, which frees the slot. */
  lemma RunFirstReaderEnds(s0: State, x: Schedule, s: State) returns (sched: Schedule, s': State)
    requires Reach(s0, x, s)
    requires s == State(true, OwnedBy(1), 1, [2], [Idle(Slot(0), 1, 0, 0), Idle(NoSlot, 0, 1, 0)])
    ensures Reach(s0, sched, s')
    ensures s' == State(true, OwnedBy(1), 1, [0], [Local(Gone, NoSlot, 0, 0, 0), Idle(NoSlot, 0, 1, 0)])
  {
    sched, s' := Extend(s0, x, s, 0, UnlockShared);
    assert s'.threads[0].pc == LoadHeld;
    sched, s' := Extend(s0, sched, s', 0, Advance);
    assert s'.threads[0].pc == Shallow(2);
    sched, s' := Extend(s0, sched, s', 0, Advance);
    assert s'.threads[0].pc == Outside;
    sched, s' := Extend(s0, sched, s', 0, Exit);
    assert s'.threads[0].pc == Unregister(true);
    sched, s' := Extend(s0, sched, s', 0, Advance);
  }

  /** S->S does not come back either once a slot is freed in between: one slot, thread 0 registers
      and ends, thread 1 meanwhile got in through the flag and asks again. */
  lemma SharedThenSharedWaits() returns (sched: Schedule, s: State)
    ensures Reach(Init(1, 2), sched, s)
    ensures InSharedSection(s, 1) && s.threads[1].pc.LoadDepth? && !CanReturn(s, 1)
  {
    sched, s := [], State(false, NoOwner, 0, [0], [Idle(NoSlot, 0, 0, 0), Idle(NoSlot, 0, 0, 0)]);
    assert s == Init(1, 2);
    sched, s := RunFirstReader(Init(1, 2), sched, s);
    sched, s := RunSpillReader(Init(1, 2), sched, s);
    sched, s := RunFirstReaderEnds(Init(1, 2), sched, s);
    assert Registered(s.threads) == Registered(s.threads[1..]) == 0;
    sched, s := RunRegister(Init(1, 2), sched, s, 1);
    InitInv(1, 2);
    Run(Init(1, 2), sched, s);
    NestedSharedReturnsIff(s, 1);
  }
}
