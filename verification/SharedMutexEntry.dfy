/** That calls of the contention-free lock come back, under either reader entry: with the spill lock free, by a
    bounded number of the thread's own steps; otherwise by some run in which the holder leaves first. And what
    registration and the ends of sections leave behind. */
module SharedMutexEntry {
  import opened SharedMutex
  import opened SharedMutexProgress

  predicate Entering(s: State, t: nat) {
    EnteringShared(s, t) || EnteringExclusive(s, t)
  }

  predicate Alone(sched: Schedule, t: nat) {
    forall k :: 0 <= k < |sched| ==> sched[k] == (t, Advance)
  }

  /** The own steps a thread has left before it is in, if nobody holds spLock. */
  function StepsLeft(slots: nat, pc: PC): int {
    match pc
    case RegCas(i) => slots - i + 4
    case Retreat => 4
    case Spin => 3
    case Announce => 2
    case _ => 1
  }

  /** A call is under way after its first step. */
  lemma CallBegins(p: Protocol, s: State, t: nat)
    requires BaseInv(s) && t < |s.threads| && s.threads[t].pc.Outside?
    ensures Enabled(s, t, LockShared) && EnteringShared(Next(p, s, t, LockShared), t)
    ensures Enabled(s, t, Lock) && EnteringExclusive(Next(p, s, t, Lock), t)
  {
    assert LocalOk(s.flags, s.threads[t]);
  }

  // ----- with spLock false

  lemma EntryStep(p: Protocol, s: State, t: nat)
    requires BaseInv(s) && Entering(s, t) && !s.spLock
    ensures Enabled(s, t, Advance)
    ensures var s' := Next(p, s, t, Advance);
            && |s'.flags| == |s.flags| && |s'.threads| == |s.threads|
            && StepsLeft(|s.flags|, s.threads[t].pc) >= 1
            && if s.threads[t].pc.XCas? then s'.threads[t].pc == XScan(0)
               else s'.threads[t].pc.InShared?
                    || (EnteringShared(s', t) && !s'.spLock
                        && StepsLeft(|s.flags|, s'.threads[t].pc) < StepsLeft(|s.flags|, s.threads[t].pc))
  {
    assert LocalOk(s.flags, s.threads[t]);
  }

  /** While spLock is false a thread in lock_shared is in after at most slots + 4 steps of its own, and one that
      waits for spLock in lock scans after one. */
  lemma {:induction false} OwnStepsEnter(p: Protocol, s: State, t: nat) returns (sched: Schedule, s': State)
    requires BaseInv(s) && Entering(s, t) && !s.spLock
    ensures Reach(p, s, sched, s') && BaseInv(s') && Alone(sched, t) && |sched| <= |s.flags| + 4
    ensures |sched| <= StepsLeft(|s.flags|, s.threads[t].pc)
    ensures t < |s'.threads| && |s'.flags| == |s.flags|
    ensures if s.threads[t].pc.XCas? then |sched| == 1 && s'.threads[t].pc == XScan(0) else s'.threads[t].pc.InShared?
    decreases StepsLeft(|s.flags|, s.threads[t].pc)
  {
    hide BaseInv, Next, Enabled;
    EntryStep(p, s, t);
    BaseStep(p, s, t, Advance);
    var s1 := Next(p, s, t, Advance);
    sched, s' := [(t, Advance)], s1;
    assert Reach(p, s1, sched[1..], s1);
    if EnteringShared(s1, t) {
      var rest: Schedule;
      rest, s' := OwnStepsEnter(p, s1, t);
      sched := [(t, Advance)] + rest;
      assert sched[1..] == rest;
    }
  }

  // ----- with spLock held

  /** Whoever holds spLock can leave, and while it does nobody who is entering gets in. */
  lemma HolderCanLeave(p: Protocol, s: State) returns (sched: Schedule, s': State)
    requires BaseInv(s) && s.spLock
    ensures Reach(p, s, sched, s') && BaseInv(s') && !s'.spLock && StillEntering(s, s')
    ensures |sched| <= 3 * |s.flags| + 1 && |s'.flags| == |s.flags|
  {
    var h: nat :| Holds(s, h);
    var scan: Schedule, s1 := [], s;
    if s.threads[h].pc.XScan? {
      scan, s1 := WriterCanEnter(p, s, h);
    }
    assert Holds(s1, h);
    LeaveStep(p, s1, h);
    BaseStep(p, s1, h, Advance);
    StepLetsNobodyIn(p, s1, h);
    sched, s' := Extend(p, s, scan, s1, h, Advance);
  }

  /** lock_shared and lock come back, whatever state they are in: from every state in which a thread is in
      lock_shared some run brings it into its section, and from every state in which it waits in lock some run
      makes it the writer that scans; in both the holder of spLock, if there is one, leaves first. */
  lemma CallReturns(p: Protocol, s: State, t: nat) returns (sched: Schedule, s': State)
    requires BaseInv(s) && Entering(s, t)
    ensures Reach(p, s, sched, s') && BaseInv(s') && t < |s'.threads|
    ensures |sched| <= 4 * |s.flags| + 5
    ensures if s.threads[t].pc.XCas? then s'.threads[t].pc == XScan(0) else s'.threads[t].pc.InShared?
  {
    var wait: Schedule, s1 := [], s;
    if s.spLock {
      wait, s1 := HolderCanLeave(p, s);
    }
    var enter: Schedule;
    enter, s' := OwnStepsEnter(p, s1, t);
    ReachTrans(p, s, wait, s1, enter, s');
    sched := wait + enter;
  }

  /** Some run brings a thread that is in lock into its exclusive section. */
  lemma LockReturns(p: Protocol, s: State, t: nat) returns (sched: Schedule, s': State)
    requires BaseInv(s) && t < |s.threads| && (s.threads[t].pc.XCas? || s.threads[t].pc.XScan?)
    ensures Reach(p, s, sched, s') && BaseInv(s') && InExclusive(s', t)
  {
    var take: Schedule, s1 := [], s;
    if s.threads[t].pc.XCas? {
      take, s1 := CallReturns(p, s, t);
    }
    var scan: Schedule;
    scan, s' := WriterCanEnter(p, s1, t);
    ReachTrans(p, s, take, s1, scan, s');
    sched := take + scan;
  }

  // ----- leaving

  /** One step ends a section: a reader's slot is Registered again, or spLock is free. */
  lemma LeaveStep(p: Protocol, s: State, t: nat)
    requires BaseInv(s) && (InSharedSection(s, t) || InExclusive(s, t))
    ensures Enabled(s, t, Advance)
    ensures var s', l := Next(p, s, t, Advance), s.threads[t];
            && |s'.threads| == |s.threads| && s'.threads[t] == l.(pc := Outside)
            && if l.pc.InShared? && l.index.Slot? then
                 l.index.i < |s.flags| && s'.flags == s.flags[l.index.i := Registered] && s'.spLock == s.spLock
               else s'.flags == s.flags && !s'.spLock
  {
    assert LocalOk(s.flags, s.threads[t]);
  }

  /** A thread that ends outside all sections gives its slot back, in two steps of its own. */
  lemma ExitFreesSlot(p: Protocol, s: State, t: nat)
    requires BaseInv(s) && t < |s.threads| && s.threads[t].pc.Outside? && s.threads[t].index.Slot?
    ensures Enabled(s, t, Exit) && Enabled(Next(p, s, t, Exit), t, Advance)
    ensures var s' := Next(p, Next(p, s, t, Exit), t, Advance);
            && |s'.threads| == |s.threads| && s'.threads[t].pc.Gone?
            && s.threads[t].index.i < |s.flags| && s'.flags == s.flags[s.threads[t].index.i := Unregistered]
  {
    assert LocalOk(s.flags, s.threads[t]);
  }

  // ----- registration

  predicate FirstFree(flags: seq<Flag>, i: nat, k: nat) {
    i <= k < |flags| && flags[k].Unregistered? && forall m :: i <= m < k ==> !flags[m].Unregistered?
  }

  /** From slot i on, a thread's own steps take the first free slot there is; if none is free it stays without one. */
  lemma {:induction false} ScanRegisters(p: Protocol, s: State, t: nat, i: nat) returns (sched: Schedule, s': State)
    requires BaseInv(s) && t < |s.threads| && s.threads[t] == Local(RegCas(i), Unslotted) && i <= |s.flags|
    ensures Reach(p, s, sched, s') && Alone(sched, t) && |sched| <= |s.flags| - i + 1
    ensures t < |s'.threads| && s'.spLock == s.spLock && (EnteringShared(s', t) && !s'.threads[t].pc.RegCas?)
    ensures match s'.threads[t].index
            case Slot(k) => FirstFree(s.flags, i, k) && s'.flags == s.flags[k := Registered]
            case Unslotted => s'.flags == s.flags && forall k :: i <= k < |s.flags| ==> !s.flags[k].Unregistered?
            case NoEntry => false
    decreases |s.flags| - i
  {
    BaseStep(p, s, t, Advance);
    var s1 := Next(p, s, t, Advance);
    sched, s' := [(t, Advance)], s1;
    assert Reach(p, s1, sched[1..], s1);
    if i < |s.flags| && !s.flags[i].Unregistered? {
      hide BaseInv;
      var rest: Schedule;
      rest, s' := ScanRegisters(p, s1, t, i + 1);
      sched := [(t, Advance)] + rest;
      assert sched[1..] == rest;
    }
  }

  /** The first lock_shared of a thread: it gets a slot if and only if one is free, and then the first one. */
  lemma FirstCallRegistersIff(p: Protocol, s: State, t: nat) returns (sched: Schedule, s': State)
    requires BaseInv(s) && t < |s.threads| && s.threads[t] == Local(Outside, NoEntry)
    ensures Enabled(s, t, LockShared) && Reach(p, Next(p, s, t, LockShared), sched, s') && Alone(sched, t)
    ensures t < |s'.threads| && Settled(s', t) && EnteringShared(s', t)
    ensures forall k: nat :: s'.threads[t].index == Slot(k) <==> FirstFree(s.flags, 0, k)
  {
    BaseStep(p, s, t, LockShared);
    var s1 := Next(p, s, t, LockShared);
    sched, s' := ScanRegisters(p, s1, t, 0);
  }
}
