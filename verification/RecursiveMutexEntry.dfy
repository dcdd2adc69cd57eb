/** When the first call of a thread of the recursive mutex, made outside all sections, comes back: by a bounded
    number of its own steps while want_x_lock is false, and otherwise if and only if the holder of the flag does
    not wait for itself. */
module RecursiveMutexEntry {
  import opened RecursiveMutex
  import opened RecursiveMutexNesting
  import opened RecursiveMutexCalls

  predicate OutsideAll(l: Local) {
    l.slotDepth == 0 && l.spillDepth == 0 && l.xDepth == 0
  }

  predicate Registering(pc: PC) {
    pc.UseCount? || pc.TrySlot? || pc.TakeSlot?
  }

  /** In lock_shared or in lock, want_x_lock not set by this thread. */
  predicate Waiting(s: State, t: nat) {
    && t < |s.threads| && OutsideAll(s.threads[t])
    && var pc := s.threads[t].pc;
       Registering(pc) || Announcing(pc) || pc.SpillOwner? || pc.SpillCas? || pc.XOwner? || pc.XCas?
  }

  /** In lock_shared or in lock, want_x_lock set by this thread. */
  predicate HasFlag(s: State, t: nat) {
    && t < |s.threads| && OutsideAll(s.threads[t])
    && var pc := s.threads[t].pc; pc.SpillStore? || pc.SpillCount? || pc.XStore? || pc.XScan?
  }

  /** In a call of lock_shared or lock made outside all sections. */
  predicate FirstCall(s: State, t: nat) {
    Waiting(s, t) || HasFlag(s, t)
  }

  predicate InLock(pc: PC) {
    pc.XOwner? || pc.XCas? || pc.XStore? || pc.XScan?
  }

  lemma CallBegins(s: State, t: nat)
    requires Inv(s) && t < |s.threads| && s.threads[t].pc.Outside? && OutsideAll(s.threads[t])
    ensures Enabled(s, t, LockShared) && Waiting(Next(s, t, LockShared), t)
    ensures !InLock(Next(s, t, LockShared).threads[t].pc)
    ensures Enabled(s, t, Lock) && Waiting(Next(s, t, Lock), t) && InLock(Next(s, t, Lock).threads[t].pc)
  {
    assert LocalOk(s.slots, s.threads[t]);
  }

  // ----- the flag is free, or this thread's

  predicate Alone(sched: Schedule, t: nat) {
    forall k :: 0 <= k < |sched| ==> sched[k] == (t, Advance)
  }

  /** The own steps left before the thread is back, or scans. */
  function StepsLeft(slots: nat, pc: PC): int {
    match pc
    case UseCount => 2 * slots + 6
    case TrySlot(i) => 2 * (slots - i) + 5
    case TakeSlot(i) => 2 * (slots - i) + 4
    case SpillOwner => 4
    case Retreat(_) => 4
    case LoadDepth => 3
    case Spin(_) => 3
    case SpillCas => 3
    case XOwner => 3
    case Announce(_) => 2
    case SpillStore => 2
    case XCas => 2
    case XScan(_) => 0
    case _ => 1
  }

  /** What such a step of thread t leads to. */
  predicate StepsOn(s: State, s': State, t: nat)
    requires t < |s.threads|
  {
    && |s'.slots| == |s.slots| && |s'.threads| == |s.threads|
    && (InLock(s'.threads[t].pc) <==> InLock(s.threads[t].pc))
    && if s'.threads[t].pc.Outside? then s'.threads[t].slotDepth + s'.threads[t].spillDepth == 1
       else FirstCall(s', t) && (s'.want ==> HasFlag(s', t))
            && StepsLeft(|s.slots|, s'.threads[t].pc) < StepsLeft(|s.slots|, s.threads[t].pc)
            && (s'.threads[t].pc.XScan? ==> s'.threads[t].pc.j == 0)
  }

  /** In the step lemmas below: nobody else holds the flag. */
  predicate CanStep(s: State, t: nat) {
    && FirstCall(s, t) && LocalOk(s.slots, s.threads[t]) && RecordFits(s, t)
    && (s.want ==> HasFlag(s, t)) && !s.threads[t].pc.XScan?
  }

  lemma OwnStepRegistering(s: State, t: nat)
    requires CanStep(s, t) && Registering(s.threads[t].pc)
    ensures Enabled(s, t, Advance) && StepsOn(s, Next(s, t, Advance), t)
  {}

  lemma OwnStepAnnouncing(s: State, t: nat)
    requires CanStep(s, t) && Announcing(s.threads[t].pc)
    ensures Enabled(s, t, Advance) && StepsOn(s, Next(s, t, Advance), t)
  {}

  lemma OwnStepFlag(s: State, t: nat)
    requires CanStep(s, t) && !Registering(s.threads[t].pc) && !Announcing(s.threads[t].pc)
    ensures Enabled(s, t, Advance) && StepsOn(s, Next(s, t, Advance), t)
  {}

  lemma OwnStep(s: State, t: nat)
    requires Inv(s) && FirstCall(s, t) && (s.want ==> HasFlag(s, t)) && !s.threads[t].pc.XScan?
    ensures StepsLeft(|s.slots|, s.threads[t].pc) >= 1
    ensures Enabled(s, t, Advance) && StepsOn(s, Next(s, t, Advance), t)
  {
    assert LocalOk(s.slots, s.threads[t]);
    RecordFitsAll(s, t);
    hide Inv, Next, Enabled, StepsOn, RecordFits;
    if Registering(s.threads[t].pc) {
      OwnStepRegistering(s, t);
    } else if Announcing(s.threads[t].pc) {
      OwnStepAnnouncing(s, t);
    } else {
      OwnStepFlag(s, t);
    }
  }

  /** While want_x_lock is false, a first lock_shared is back after at most 2 * slots + 6 steps of the thread's
      own, and a first lock scans after at most three. */
  lemma {:induction false} OwnStepsReturn(s: State, t: nat) returns (sched: Schedule, s': State)
    requires Inv(s) && FirstCall(s, t) && (s.want ==> HasFlag(s, t)) && !s.threads[t].pc.XScan?
    ensures Reach(s, sched, s') && Inv(s') && Alone(sched, t) && |sched| <= StepsLeft(|s.slots|, s.threads[t].pc)
    ensures |sched| <= if InLock(s.threads[t].pc) then 3 else 2 * |s.slots| + 6
    ensures t < |s'.threads| && |s'.slots| == |s.slots|
    ensures if InLock(s.threads[t].pc) then s'.threads[t].pc == XScan(0)
            else s'.threads[t].pc.Outside? && s'.threads[t].slotDepth + s'.threads[t].spillDepth == 1
    decreases StepsLeft(|s.slots|, s.threads[t].pc)
  {
    hide Inv, Next, Enabled;
    OwnStep(s, t);
    Step(s, t, Advance);
    var s1 := Next(s, t, Advance);
    sched, s' := [(t, Advance)], s1;
    assert Reach(s1, sched[1..], s1);
    if !s1.threads[t].pc.Outside? && !s1.threads[t].pc.XScan? {
      var rest: Schedule;
      rest, s' := OwnStepsReturn(s1, t);
      sched := [(t, Advance)] + rest;
      assert sched[1..] == rest;
    }
  }

  // ----- the flag is another thread's: who waits goes on waiting

  ghost predicate StillWaiting(s: State, s': State) {
    forall t: nat :: Waiting(s, t) ==> Waiting(s', t) && (InLock(s'.threads[t].pc) <==> InLock(s.threads[t].pc))
  }

  lemma WaitingStep(s: State, u: nat, a: Action)
    requires Inv(s) && s.want && Enabled(s, u, a)
    ensures StillWaiting(s, Next(s, u, a))
  {
    OnlyOwnThread(s, u, a);
    RecordFitsAll(s, u);
    assert LocalOk(s.slots, s.threads[u]);
    if Waiting(s, u) {
      WaiterStep(s, u, a);
    }
  }

  lemma WaiterStep(s: State, u: nat, a: Action)
    requires Enabled(s, u, a) && LocalOk(s.slots, s.threads[u]) && RecordFits(s, u) && s.want && Waiting(s, u)
    ensures Waiting(Next(s, u, a), u)
    ensures InLock(Next(s, u, a).threads[u].pc) <==> InLock(s.threads[u].pc)
  {}

  // ----- readers leave the slots of a scanning writer

  /** The next step of a thread that leaves its sections. */
  function LeaveAction(l: Local): Action {
    if !l.pc.Outside? then Advance else if l.xDepth > 0 then Unlock else UnlockShared
  }

  /** Steps the reader of a slot has left before the slot is at most 1. */
  function ReaderLeft(l: Local): int {
    match l.pc
    case LoadDepth => 4 * l.slotDepth + 8
    case Deepen(_) => 4 * l.slotDepth + 7
    case LoadHeld => 4 * l.slotDepth + 5
    case Shallow(_) => 4 * l.slotDepth + 4
    case Outside => 4 * l.slotDepth + 2
    case Recheck(_) => 2
    case _ => 1
  }

  lemma ReaderStep(s: State, h: nat, u: nat, j: nat)
    requires Inv(s) && Holds(s, h) && u != h && Owns(s, u, j) && j < |s.slots| && s.slots[j] > 1
    ensures Enabled(s, u, LeaveAction(s.threads[u])) && ReaderLeft(s.threads[u]) >= 1
    ensures var s' := Next(s, u, LeaveAction(s.threads[u]));
            && |s'.slots| == |s.slots| && |s'.threads| == |s.threads| && h < |s.threads| && s'.threads[h] == s.threads[h]
            && (s'.slots[j] <= 1 || (Owns(s', u, j) && ReaderLeft(s'.threads[u]) < ReaderLeft(s.threads[u])))
  {
    assert LocalOk(s.slots, s.threads[u]);
    RecordFitsAll(s, h);
    RecordFitsAll(s, u);
  }

  /** The reader of a slot leaves its sections, or takes back its announcement, by steps of its own. */
  lemma {:induction false} ReaderLeaves(s: State, h: nat, u: nat, j: nat) returns (sched: Schedule, s': State)
    requires Inv(s) && Holds(s, h) && u != h && Owns(s, u, j) && j < |s.slots| && s.slots[j] > 1
    ensures Reach(s, sched, s') && Inv(s') && StillWaiting(s, s')
    ensures |s'.slots| == |s.slots| && h < |s'.threads| && s'.threads[h] == s.threads[h] && s'.slots[j] <= 1
    decreases ReaderLeft(s.threads[u])
  {
    var a := LeaveAction(s.threads[u]);
    ReaderStep(s, h, u, j);
    RecordFitsAll(s, h);
    Step(s, u, a);
    WaitingStep(s, u, a);
    hide Inv, Next, Enabled, Waiting;
    var s1 := Next(s, u, a);
    sched, s' := [(u, a)], s1;
    assert Reach(s1, sched[1..], s1);
    if s1.slots[j] > 1 {
      var rest: Schedule;
      rest, s' := ReaderLeaves(s1, h, u, j);
      sched := [(u, a)] + rest;
      assert sched[1..] == rest;
    }
  }

  lemma ScanStep(s: State, h: nat)
    requires Inv(s) && h < |s.threads| && s.threads[h].pc.XScan?
    requires s.threads[h].pc.j == |s.slots| || s.slots[s.threads[h].pc.j] <= 1
    ensures s.threads[h].pc.j <= |s.slots| && Enabled(s, h, Advance)
    ensures var s', l := Next(s, h, Advance), s.threads[h];
            && Inv(s') && StillWaiting(s, s') && |s'.slots| == |s.slots| && h < |s'.threads|
            && s'.threads[h] == if l.pc.j == |s.slots| then l.(pc := Outside, xDepth := l.xDepth + 1)
                                else l.(pc := XScan(l.pc.j + 1))
  {
    assert LocalOk(s.slots, s.threads[h]);
    RecordFitsAll(s, h);
    Step(s, h, Advance);
    WaitingStep(s, h, Advance);
  }

  /** The slot the writer looks at can be cleared, if there is one. */
  lemma SlotClears(s: State, h: nat) returns (sched: Schedule, s': State)
    requires Inv(s) && h < |s.threads| && s.threads[h].pc.XScan?
    ensures Reach(s, sched, s') && Inv(s') && StillWaiting(s, s')
    ensures |s'.slots| == |s.slots| && h < |s'.threads| && s'.threads[h] == s.threads[h]
    ensures var j := s.threads[h].pc.j; j == |s.slots| || (j < |s.slots| && s'.slots[j] <= 1)
  {
    var j := s.threads[h].pc.j;
    assert LocalOk(s.slots, s.threads[h]);
    sched, s' := [], s;
    if j < |s.slots| && s.slots[j] > 1 {
      var u: nat :| Owns(s, u, j);
      hide Inv, LocalOk;
      sched, s' := ReaderLeaves(s, h, u, j);
    }
  }

  lemma StillTrans(s: State, s1: State, s2: State)
    requires StillWaiting(s, s1) && StillWaiting(s1, s2)
    ensures StillWaiting(s, s2)
  {}

  /** No deadlock: a writer that scans finishes its lock in some run, one level deeper. */
  lemma {:induction false} ScanEnds(s: State, h: nat) returns (sched: Schedule, s': State)
    requires Inv(s) && h < |s.threads| && s.threads[h].pc.XScan?
    ensures Reach(s, sched, s') && Inv(s') && StillWaiting(s, s') && |s'.slots| == |s.slots| && h < |s'.threads|
    ensures s'.threads[h] == s.threads[h].(pc := Outside, xDepth := s.threads[h].xDepth + 1)
    decreases |s.slots| - s.threads[h].pc.j
  {
    hide Inv, Next, Enabled, StillWaiting;
    var clear, s1 := SlotClears(s, h);
    ScanStep(s1, h);
    sched, s' := Extend(s, clear, s1, h, Advance);
    StillTrans(s, s1, s');
    if s.threads[h].pc.j < |s.slots| {
      var rest, s2 := ScanEnds(s', h);
      ReachTrans(s, sched, s', rest, s2);
      StillTrans(s, s', s2);
      sched, s' := sched + rest, s2;
    }
  }

  // ----- the holder leaves

  /** The holder, unless it registers in a nested lock_shared or waits for itself. */
  predicate Leaves(s: State, h: nat) {
    Holds(s, h) && !Registering(s.threads[h].pc) && !WaitsForItself(s, h)
  }

  /** Steps the holder has left before it sets want_x_lock back, a scan counted as one. */
  function HolderLeft(l: Local): int {
    var depth := l.xDepth + l.spillDepth;
    match l.pc
    case SpillStore => 8 * depth + 10
    case SpillOwner => 8 * depth + 10
    case XOwner => 8 * depth + 10
    case XStore => 8 * depth + 10
    case SpillCount => 8 * depth + 9
    case XScan(_) => 8 * depth + 9
    case Drop => 8 * depth + 4
    case ClearOwner => 8 * depth + 3
    case ClearWant => 8 * depth + 2
    case LoadHeld => 8 * depth + 2
    case Outside => 8 * depth
    case _ => 8 * depth + 1
  }

  ghost predicate Lowers(s: State, s': State, h: nat)
    requires h < |s.threads|
  {
    s'.want ==> Leaves(s', h) && HolderLeft(s'.threads[h]) < HolderLeft(s.threads[h])
  }

  lemma HolderStepCall(s: State, h: nat)
    requires Leaves(s, h) && LocalOk(s.slots, s.threads[h]) && RecordFits(s, h) && s.threads[h].pc.Outside?
    ensures Enabled(s, h, LeaveAction(s.threads[h]))
    ensures Lowers(s, Next(s, h, LeaveAction(s.threads[h])), h)
  {}

  lemma HolderStepExit(s: State, h: nat)
    requires Leaves(s, h) && LocalOk(s.slots, s.threads[h]) && RecordFits(s, h) && InExit(s.threads[h].pc)
    ensures Enabled(s, h, Advance) && Lowers(s, Next(s, h, Advance), h)
  {}

  lemma HolderStepEnter(s: State, h: nat)
    requires Leaves(s, h) && LocalOk(s.slots, s.threads[h]) && RecordFits(s, h)
    requires !s.threads[h].pc.Outside? && !InExit(s.threads[h].pc) && !s.threads[h].pc.XScan?
    ensures Enabled(s, h, Advance) && Lowers(s, Next(s, h, Advance), h)
  {}

  lemma HolderStepLowers(s: State, h: nat)
    requires Inv(s) && Leaves(s, h) && !s.threads[h].pc.XScan?
    ensures s.want && HolderLeft(s.threads[h]) >= 0
    ensures Enabled(s, h, LeaveAction(s.threads[h]))
    ensures Lowers(s, Next(s, h, LeaveAction(s.threads[h])), h)
  {
    assert LocalOk(s.slots, s.threads[h]);
    RecordFitsAll(s, h);
    hide Inv, Next, Enabled, Lowers;
    if s.threads[h].pc.Outside? {
      HolderStepCall(s, h);
    } else if InExit(s.threads[h].pc) {
      HolderStepExit(s, h);
    } else {
      HolderStepEnter(s, h);
    }
  }

  lemma ScanLowers(s: State, h: nat) returns (sched: Schedule, s': State)
    requires Inv(s) && h < |s.threads| && s.threads[h].pc.XScan?
    ensures Reach(s, sched, s') && Inv(s') && StillWaiting(s, s')
    ensures Leaves(s', h) && 0 <= HolderLeft(s'.threads[h]) < HolderLeft(s.threads[h])
  {
    assert LocalOk(s.slots, s.threads[h]);
    sched, s' := ScanEnds(s, h);
  }

  /** A holder that does not register and does not wait for itself can leave all its sections, and nobody who
      waits gets in before. */
  lemma {:induction false} HolderLeavesAll(s: State, h: nat) returns (sched: Schedule, s': State)
    requires Inv(s) && Leaves(s, h)
    ensures Reach(s, sched, s') && Inv(s') && StillWaiting(s, s') && !s'.want
    decreases HolderLeft(s.threads[h])
  {
    hide Inv, Next, Enabled, StillWaiting, HolderLeft, WaitsForItself;
    var first: Schedule, s1: State;
    if s.threads[h].pc.XScan? {
      first, s1 := ScanLowers(s, h);
    } else {
      HolderStepLowers(s, h);
      var a := LeaveAction(s.threads[h]);
      Step(s, h, a);
      WaitingStep(s, h, a);
      first, s1 := [(h, a)], Next(s, h, a);
      assert Reach(s1, first[1..], s1);
    }
    sched, s' := first, s1;
    if s1.want {
      var rest: Schedule;
      rest, s' := HolderLeavesAll(s1, h);
      ReachTrans(s, first, s1, rest, s');
      StillTrans(s, s1, s');
      sched := first + rest;
    }
  }

  // ----- the holder is in a nested lock_shared

  predicate InNestedShared(s: State, h: nat) {
    && h < |s.threads|
    && var l := s.threads[h];
       && l.xDepth + l.spillDepth > 0
       && (Registering(l.pc) || InSlotPath(l.pc) || l.pc.SpillOwner? || l.pc.SpillCount?)
  }

  lemma NestedStep(s: State, h: nat, u: nat, a: Action)
    requires Inv(s) && InNestedShared(s, h) && Enabled(s, u, a)
    ensures var s' := Next(s, u, a);
            && s.want && Holds(s', h)
            && (InNestedShared(s', h) || (s'.threads[h].pc.Outside? && s'.threads[h].spillDepth > 0))
  {
    OnlyOwnThread(s, u, a);
    RecordFitsAll(s, h);
    assert LocalOk(s.slots, s.threads[h]);
  }

  lemma CanReturnBefore(s: State, t: nat, u: nat, a: Action)
    requires Enabled(s, u, a) && CanReturn(Next(s, u, a), t)
    ensures CanReturn(s, t)
  {
    hide Next, Enabled;
    var s1 := Next(s, u, a);
    var sched: Schedule, s' :| Reach(s1, sched, s') && t < |s'.threads| && s'.threads[t].pc.Outside?;
    assert ([(u, a)] + sched)[1..] == sched;
    assert Reach(s, [(u, a)] + sched, s');
  }

  lemma ReturnedNow(s: State, t: nat)
    requires t < |s.threads| && s.threads[t].pc.Outside?
    ensures CanReturn(s, t)
  {
    assert Reach(s, [], s);
  }

  /** If it can return, it does so while it still holds the flag and whoever waits goes on waiting. */
  lemma {:induction false} NestedReturns(s: State, h: nat, sched: Schedule, end: State) returns (x: Schedule, s': State)
    requires Inv(s) && InNestedShared(s, h) && Reach(s, sched, end)
    requires h < |end.threads| && end.threads[h].pc.Outside?
    ensures Reach(s, x, s') && Inv(s') && StillWaiting(s, s') && Leaves(s', h)
    decreases |sched|
  {
    x, s' := [], s;
    if sched != [] {
      var u, a := sched[0].0, sched[0].1;
      NestedStep(s, h, u, a);
      Step(s, u, a);
      WaitingStep(s, u, a);
      hide Inv, Next, Enabled, StillWaiting;
      var s1 := Next(s, u, a);
      x, s' := [(u, a)], s1;
      assert Reach(s1, x[1..], s1);
      if InNestedShared(s1, h) {
        var rest: Schedule;
        rest, s' := NestedReturns(s1, h, sched[1..], end);
        x := [(u, a)] + rest;
        assert x[1..] == rest;
        StillTrans(s, s1, s');
      }
    }
  }

  /** If it cannot, nobody who waits ever gets in. */
  lemma {:induction false} WaitsBehind(s: State, h: nat, t: nat, sched: Schedule, s': State)
    requires Inv(s) && InNestedShared(s, h) && !CanReturn(s, h) && Waiting(s, t) && Reach(s, sched, s')
    ensures Waiting(s', t)
    decreases |sched|
  {
    if sched != [] {
      var u, a := sched[0].0, sched[0].1;
      var s1 := Next(s, u, a);
      NestedStep(s, h, u, a);
      Step(s, u, a);
      WaitingStep(s, u, a);
      hide Inv, Next, Enabled, CanReturn;
      if CanReturn(s1, h) {
        CanReturnBefore(s, h, u, a);
      }
      if s1.threads[h].pc.Outside? {
        ReturnedNow(s1, h);
      }
      WaitsBehind(s1, h, t, sched[1..], s');
    }
  }

  lemma SelfWaiterStays(s: State, h: nat)
    requires Inv(s) && WaitsForItself(s, h)
    ensures InNestedShared(s, h) && !CanReturn(s, h)
  {
    forall sched: Schedule, s' | Reach(s, sched, s')
      ensures WaitsForItself(s', h)
    {
      WaitsForever(s, h, sched, s');
    }
  }

  // ----- when a first call comes back

  /** The holder h can get to its unlock. */
  ghost predicate Yields(s: State, h: nat)
    requires h < |s.threads|
  {
    if Registering(s.threads[h].pc) then CanReturn(s, h) else !WaitsForItself(s, h)
  }

  /** Then every waiting thread sees want_x_lock false in some run. */
  lemma FlagComesFree(s: State, h: nat) returns (sched: Schedule, s': State)
    requires Inv(s) && Holds(s, h) && Yields(s, h)
    ensures Reach(s, sched, s') && Inv(s') && StillWaiting(s, s') && !s'.want
  {
    var first: Schedule, s1 := [], s;
    if Registering(s.threads[h].pc) {
      var x: Schedule, end :| Reach(s, x, end) && h < |end.threads| && end.threads[h].pc.Outside?;
      hide Inv, StillWaiting, Leaves;
      first, s1 := NestedReturns(s, h, x, end);
    }
    hide Inv, StillWaiting, CanReturn;
    var rest: Schedule;
    rest, s' := HolderLeavesAll(s1, h);
    ReachTrans(s, first, s1, rest, s');
    StillTrans(s, s1, s');
    sched := first + rest;
  }

  lemma FreeCallReturns(s0: State, x: Schedule, s: State, t: nat)
    requires Reach(s0, x, s) && Inv(s) && FirstCall(s, t) && (s.want ==> HasFlag(s, t))
    ensures CanReturn(s0, t)
  {
    var own: Schedule, s1 := [], s;
    hide Inv, Next, Enabled;
    assert x + own == x;
    if !s.threads[t].pc.XScan? {
      own, s1 := OwnStepsReturn(s, t);
      ReachTrans(s0, x, s, own, s1);
    }
    if s1.threads[t].pc.XScan? {
      var scan, s2 := ScanEnds(s1, t);
      ReachTrans(s0, x + own, s1, scan, s2);
      assert x + own + scan == x + (own + scan);
    }
  }

  /** A first call of lock_shared or lock comes back in some run if and only if another thread that holds the
      flag, if there is one, can get to its unlock: if it is registering in a nested lock_shared, that call can
      come back, and otherwise it does not wait for itself. */
  lemma FirstCallReturnsIff(s: State, t: nat)
    requires Inv(s) && FirstCall(s, t)
    ensures CanReturn(s, t) <==> forall h: nat :: h != t && Holds(s, h) ==> Yields(s, h)
  {
    RecordFitsAll(s, t);
    if HasFlag(s, t) || !s.want {
      FreeCallReturns(s, [], s, t);
    } else {
      var h: nat :| Holds(s, h);
      WaiterReturnsIff(s, t, h);
    }
  }

  lemma WaiterReturnsIff(s: State, t: nat, h: nat)
    requires Inv(s) && Waiting(s, t) && Holds(s, h)
    ensures h != t
    ensures CanReturn(s, t) <==> Yields(s, h)
  {
    if Yields(s, h) {
      hide Inv;
      var x, s1 := FlagComesFree(s, h);
      FreeCallReturns(s, x, s1, t);
    } else {
      if WaitsForItself(s, h) {
        SelfWaiterStays(s, h);
      }
      RecordFitsAll(s, h);
      assert LocalOk(s.slots, s.threads[h]);
      hide Inv;
      forall sched: Schedule, s' | Reach(s, sched, s')
        ensures Waiting(s', t)
      {
        WaitsBehind(s, h, t, sched, s');
      }
    }
  }

  // ----- registration

  predicate FirstFree(slots: seq<int>, i: nat, k: nat) {
    i <= k < |slots| && slots[k] == 0 && forall m :: i <= m < k ==> slots[m] != 0
  }

  lemma TryOne(s: State, t: nat, i: nat)
    requires Inv(s) && t < |s.threads| && s.threads[t].pc == TrySlot(i)
    ensures i <= |s.slots| && Enabled(s, t, Advance)
    ensures Next(s, t, Advance)
            == Go(s, t, if i == |s.slots| then SpillOwner else if s.slots[i] == 0 then TakeSlot(i) else TrySlot(i + 1))
    ensures s.threads[t].index.NoSlot?
  {
    assert LocalOk(s.slots, s.threads[t]);
  }

  lemma TakeOne(s: State, t: nat, i: nat)
    requires Inv(s) && t < |s.threads| && s.threads[t].pc == TakeSlot(i) && i < |s.slots| && s.slots[i] == 0
    ensures Enabled(s, t, Advance)
    ensures Next(s, t, Advance) == StoreSlot(Put(s, t, s.threads[t].(pc := LoadDepth, index := Slot(i))), i, 1)
  {
    assert LocalOk(s.slots, s.threads[t]);
  }

  /** register_thread, from slot i on, by the thread's own steps: it takes the first free slot; if none is free
      it goes on without one. */
  lemma {:induction false} ScanRegisters(s: State, t: nat, i: nat) returns (sched: Schedule, s': State)
    requires Inv(s) && t < |s.threads| && s.threads[t].pc == TrySlot(i)
    ensures Reach(s, sched, s') && Inv(s') && Alone(sched, t) && t < |s'.threads|
    ensures var l, l' := s.threads[t], s'.threads[t];
            match l'.index
            case Slot(k) => FirstFree(s.slots, i, k) && l' == l.(pc := LoadDepth, index := Slot(k))
                            && s'.slots == s.slots[k := 1]
            case NoSlot => l' == l.(pc := SpillOwner) && s'.slots == s.slots
                           && forall k :: i <= k < |s.slots| ==> s.slots[k] != 0
    decreases |s.slots| - i
  {
    hide Inv, Next, Enabled;
    TryOne(s, t, i);
    Step(s, t, Advance);
    sched, s' := Extend(s, [], s, t, Advance);
    if i < |s.slots| && s.slots[i] == 0 {
      TakeOne(s', t, i);
      Step(s', t, Advance);
      sched, s' := Extend(s, sched, s', t, Advance);
    } else if i < |s.slots| {
      var rest, s2 := ScanRegisters(s', t, i + 1);
      ReachTrans(s, sched, s', rest, s2);
      sched, s' := sched + rest, s2;
    }
  }

  /** A thread without a slot that calls lock_shared and is not interrupted gets a slot if and only if one is free,
      and then the first one. */
  lemma CallRegistersIff(s: State, t: nat) returns (sched: Schedule, s': State)
    requires Inv(s) && t < |s.threads| && s.threads[t].pc.UseCount?
    ensures Reach(s, sched, s') && Inv(s') && Alone(sched, t) && t < |s'.threads|
    ensures var l, l' := s.threads[t], s'.threads[t];
            l' == l.(pc := if l'.index.Slot? then LoadDepth else SpillOwner, index := l'.index)
    ensures forall k: nat :: s'.threads[t].index == Slot(k) <==> FirstFree(s.slots, 0, k)
  {
    assert LocalOk(s.slots, s.threads[t]);
    Step(s, t, Advance);
    hide Inv, LocalOk, Registered;
    sched, s' := Extend(s, [], s, t, Advance);
    forall k: nat | FirstFree(s.slots, 0, k)
      ensures 1 + Registered(s.threads) <= |s.slots|
    {
      UseCountAllows(s, k);
    }
    if s'.threads[t].pc.TrySlot? {
      var rest, s2 := ScanRegisters(s', t, 0);
      ReachTrans(s, sched, s', rest, s2);
      sched, s' := sched + rest, s2;
    }
  }

  predicate NoneFreeAhead(s: State, h: nat) {
    && h < |s.threads|
    && forall k: nat :: k < |s.slots| ==>
         match s.threads[h].pc
         case TrySlot(i) => k < i || s.slots[k] != 0
         case TakeSlot(i) => k < i || s.slots[k] != 0
         case _ => s.slots[k] != 0
  }

  lemma ReturnsAfter(s: State, x: Schedule, s1: State, t: nat)
    requires Reach(s, x, s1) && CanReturn(s1, t)
    ensures CanReturn(s, t)
  {
    var y: Schedule, s2 :| Reach(s1, y, s2) && t < |s2.threads| && s2.threads[t].pc.Outside?;
    ReachTrans(s, x, s1, y, s2);
  }

  lemma TakeFails(s: State, t: nat, i: nat)
    requires Inv(s) && t < |s.threads| && s.threads[t].pc == TakeSlot(i)
    ensures i < |s.slots| && Enabled(s, t, Advance)
    ensures s.slots[i] != 0 ==> Next(s, t, Advance) == Go(s, t, TrySlot(i + 1))
  {
    assert LocalOk(s.slots, s.threads[t]);
  }

  lemma NestedInside(s: State, h: nat)
    requires Inv(s) && InNestedShared(s, h)
    ensures InExclusive(s, h) || InSharedSection(s, h)
  {
    assert LocalOk(s.slots, s.threads[h]);
  }

  /** A holder that registers in a nested lock_shared while no slot is free from its place on gets back: it
      finds none and goes in through the flag it has. */
  lemma NoneFreeYields(s: State, h: nat)
    requires Inv(s) && InNestedShared(s, h) && Registering(s.threads[h].pc) && NoneFreeAhead(s, h)
    ensures CanReturn(s, h)
  {
    NestedInside(s, h);
    hide Inv, CanReturn, Next, Enabled;
    var pc := s.threads[h].pc;
    var x: Schedule, s1: State;
    if pc.UseCount? {
      x, s1 := CallRegistersIff(s, h);
    } else if pc.TrySlot? {
      x, s1 := ScanRegisters(s, h, pc.i);
    } else {
      TakeFails(s, h, pc.i);
      Step(s, h, Advance);
      var y, s0 := Extend(s, [], s, h, Advance);
      x, s1 := ScanRegisters(s0, h, pc.i + 1);
      ReachTrans(s, y, s0, x, s1);
      x := y + x;
    }
    assert s1.threads[h].index.NoSlot?;
    NestedSharedReturnsIff(s1, h);
    ReturnsAfter(s, x, s1, h);
  }

  /** unregister_thread gives the slot back if and only if the thread is in no shared section entered through it. */
  lemma UnregisterIff(s: State, t: nat)
    requires Inv(s) && t < |s.threads| && s.threads[t].pc.Outside? && s.threads[t].index.Slot?
    ensures Enabled(s, t, UnregisterThread)
    ensures var s1 := Next(s, t, UnregisterThread);
            if s.threads[t].slotDepth > 0 then s1 == s
            else Enabled(s1, t, Advance)
                 && var s2 := Next(s1, t, Advance);
                    s2.threads == s.threads[t := s.threads[t].(index := NoSlot)]
                    && s.threads[t].index.i < |s.slots| && s2.slots == s.slots[s.threads[t].index.i := 0]
  {
    assert LocalOk(s.slots, s.threads[t]);
  }

  // ----- an input on which a first call never comes back

  /** Thread 0 of two calls lock and takes the flag ... */
  lemma RunTakesFlag() returns (sched: Schedule, s: State)
    ensures Reach(Init(1, 2), sched, s)
    ensures s == State(true, NoOwner, 0, [0], [Local(XStore, NoSlot, 0, 0, 0), Idle(NoSlot, 0, 0, 0)])
  {
    sched, s := [], State(false, NoOwner, 0, [0], [Idle(NoSlot, 0, 0, 0), Idle(NoSlot, 0, 0, 0)]);
    assert s == Init(1, 2);
    sched, s := Extend(Init(1, 2), sched, s, 0, Lock);
    assert s.threads[0].pc == XOwner;
    sched, s := Extend(Init(1, 2), sched, s, 0, Advance);
    assert s.threads[0].pc == XCas;
    sched, s := Extend(Init(1, 2), sched, s, 0, Advance);
  }

  /** ... and gets in. */
  lemma RunLocks() returns (sched: Schedule, s: State)
    ensures Reach(Init(1, 2), sched, s)
    ensures s == State(true, OwnedBy(0), 1, [0], [Idle(NoSlot, 0, 0, 1), Idle(NoSlot, 0, 0, 0)])
  {
    sched, s := RunTakesFlag();
    sched, s := Extend(Init(1, 2), sched, s, 0, Advance);
    assert s.threads[0].pc == XScan(0);
    sched, s := Extend(Init(1, 2), sched, s, 0, Advance);
    assert s.threads[0].pc == XScan(1);
    sched, s := Extend(Init(1, 2), sched, s, 0, Advance);
  }

  /** One slot, two threads: thread 0 takes the exclusive lock and then asks for the shared one, for which it gets the
      slot; thread 1 then calls lock_shared for the first time and never gets in. */
  lemma FirstCallWaits() returns (sched: Schedule, s: State)
    ensures Reach(Init(1, 2), sched, s) && FirstCall(s, 1) && !CanReturn(s, 1)
  {
    sched, s := RunLocks();
    assert Registered(s.threads) == Registered(s.threads[1..]) == 0;
    sched, s := RunRegister(Init(1, 2), sched, s, 0);
    sched, s := Extend(Init(1, 2), sched, s, 1, LockShared);
    InitInv(1, 2);
    Run(Init(1, 2), sched, s);
    assert WaitsForItself(s, 0) && Waiting(s, 1);
    WaiterReturnsIff(s, 1, 0);
  }
}
