/** How long a writer waits: while it scans, the other threads of the handshake protocol can only take a
    bounded number of steps that change anything, and under either protocol it can be let in from every state. */
module SharedMutexProgress {
  import opened SharedMutex

  /** How many state-changing steps a thread has left before it can only spin, while
      another thread holds spLock: in section > outside > announced > retreated > spinning. */
  function Rank(slots: nat, pc: PC): nat {
    match pc
    case InShared(_) => slots + 7
    case Outside => slots + 6
    case RegCas(i) => if i <= slots then 4 + slots - i else 0
    case Announce => 3
    case Recheck => 2
    case Retreat => 1
    case Exiting => 1
    case _ => 0
  }

  function Total(slots: nat, threads: seq<Local>): nat {
    if threads == [] then 0 else Rank(slots, threads[0].pc) + Total(slots, threads[1..])
  }

  lemma {:induction false} TotalUpdate(slots: nat, threads: seq<Local>, t: nat, l: Local)
    requires t < |threads|
    ensures Total(slots, threads[t := l]) + Rank(slots, threads[t].pc)
            == Total(slots, threads) + Rank(slots, l.pc)
  {
    if t > 0 {
      TotalUpdate(slots, threads[1..], t - 1, l);
      assert threads[t := l][1..] == threads[1..][t - 1 := l];
    } else {
      assert threads[t := l][1..] == threads[1..];
    }
  }

  lemma {:induction false} TotalBound(slots: nat, threads: seq<Local>)
    ensures Total(slots, threads) <= |threads| * (slots + 7)
  {
    if threads != [] {
      TotalBound(slots, threads[1..]);
      assert |threads| * (slots + 7) == (slots + 7) + |threads[1..]| * (slots + 7);
    }
  }

  predicate Scanning(s: State, h: nat) {
    h < |s.threads| && s.threads[h].pc.XScan? && s.threads[h].pc.j < |s.flags|
  }

  /** While a writer holds spLock, a step of another thread moves only that thread: it spins or its rank drops. */
  lemma OtherStepMoves(s: State, h: nat, t: nat, a: Action)
    requires HandshakeInv(s) && Scanning(s, h) && t != h && Enabled(s, t, a)
    ensures var s' := Next(Handshake, s, t, a);
            && |s'.flags| == |s.flags| && |s'.threads| == |s.threads|
            && s'.threads == s.threads[t := s'.threads[t]]
            && (s' == s || Rank(|s.flags|, s'.threads[t].pc) < Rank(|s.flags|, s.threads[t].pc))
  {
    assert Holds(s, h) && !Holds(s, t) && s.spLock;
    assert LocalOk(s.flags, s.threads[t]);
  }

  /** While a writer holds spLock, a step of another thread changes nothing (it spins)
      or lowers the total rank; either way the writer's position stays. */
  lemma OtherStepLowersRank(s: State, h: nat, t: nat, a: Action)
    requires HandshakeInv(s) && Scanning(s, h) && t != h && Enabled(s, t, a)
    ensures var s' := Next(Handshake, s, t, a);
            && |s'.threads| == |s.threads| && s'.threads[h] == s.threads[h] && |s'.flags| == |s.flags|
            && (s' == s || Total(|s.flags|, s'.threads) < Total(|s.flags|, s.threads))
  {
    OtherStepMoves(s, h, t, a);
    TotalUpdate(|s.flags|, s.threads, t, Next(Handshake, s, t, a).threads[t]);
  }

  /** The writer's own step while scanning: it stays on a slot that is SharedLock or moves to the next. */
  lemma ScanStep(s: State, h: nat)
    requires Scanning(s, h) && Enabled(s, h, Advance)
    ensures var s' := Next(Handshake, s, h, Advance);
            && |s'.flags| == |s.flags|
            && Total(|s.flags|, s'.threads) == Total(|s.flags|, s.threads)
            && (s' == s || s'.threads[h].pc == XScan(s.threads[h].pc.j + 1))
  {
    TotalUpdate(|s.flags|, s.threads, h, Next(Handshake, s, h, Advance).threads[h]);
  }

  /** The schedule runs with thread h scanning at each of its steps. */
  ghost predicate WaitsThrough(s: State, sched: Schedule, h: nat)
    decreases |sched|
  {
    sched == [] ||
    (Scanning(s, h) && Enabled(s, sched[0].0, sched[0].1)
     && WaitsThrough(Next(Handshake, s, sched[0].0, sched[0].1), sched[1..], h))
  }

  /** The steps of a schedule that change the state, those of h and those of the others. */
  ghost function Changes(s: State, sched: Schedule, h: nat): nat
    requires WaitsThrough(s, sched, h)
    decreases |sched|
  {
    if sched == [] then 0
    else
      var s' := Next(Handshake, s, sched[0].0, sched[0].1);
      (if s' == s then 0 else 1) + Changes(s', sched[1..], h)
  }

  lemma {:induction false} ChangesBounded(s: State, sched: Schedule, h: nat)
    requires HandshakeInv(s) && h < |s.threads| && s.threads[h].pc.XScan?
    requires WaitsThrough(s, sched, h)
    ensures Changes(s, sched, h) <= Total(|s.flags|, s.threads) + |s.flags| - s.threads[h].pc.j
    decreases |sched|
  {
    assert LocalOk(s.flags, s.threads[h]);
    if sched != [] {
      var t, a := sched[0].0, sched[0].1;
      var s' := Next(Handshake, s, t, a);
      HandshakeStep(s, t, a);
      if t == h {
        ScanStep(s, h);
      } else {
        OtherStepLowersRank(s, h, t, a);
      }
      ChangesBounded(s', sched[1..], h);
    }
  }

  /** Writer progress: however the threads are scheduled while a writer scans, at most
      (threads + 1) * (slots + 7) steps change anything before it is in; every other step is a spin. */
  lemma WriterWaitsBounded(s: State, sched: Schedule, h: nat)
    requires HandshakeInv(s) && h < |s.threads| && s.threads[h].pc.XScan?
    requires WaitsThrough(s, sched, h)
    ensures Changes(s, sched, h) <= (|s.threads| + 1) * (|s.flags| + 7)
  {
    ChangesBounded(s, sched, h);
    TotalBound(|s.flags|, s.threads);
    assert (|s.threads| + 1) * (|s.flags| + 7) == |s.threads| * (|s.flags| + 7) + |s.flags| + 7;
  }

  // ----- letting the writer in

  /** In lock_shared, not yet in the section. */
  predicate EnteringShared(s: State, t: nat) {
    t < |s.threads| &&
    var pc := s.threads[t].pc;
    pc.RegCas? || pc.SpillCas? || pc.Announce? || pc.Recheck? || pc.Retreat? || pc.Spin?
  }

  /** In lock, spLock not yet taken. */
  predicate EnteringExclusive(s: State, t: nat) {
    t < |s.threads| && s.threads[t].pc.XCas?
  }

  /** Threads in lock_shared or before the first access of lock are still there. */
  ghost predicate StillEntering(s: State, s': State) {
    forall t: nat :: (EnteringShared(s, t) ==> EnteringShared(s', t))
                     && (EnteringExclusive(s, t) ==> EnteringExclusive(s', t))
  }

  /** A step of a writer, or of a thread whose slot is SharedLock while spLock is set, lets nobody in. */
  lemma StepLetsNobodyIn(p: Protocol, s: State, u: nat)
    requires BaseInv(s) && s.spLock && Enabled(s, u, Advance)
    requires var pc := s.threads[u].pc; pc.XScan? || pc.InShared? || pc.Recheck? || pc.Retreat?
    ensures StillEntering(s, Next(p, s, u, Advance))
  {
    assert LocalOk(s.flags, s.threads[u]);
  }

  /** The owner of a slot that blocks the writer can clear it in at most two of its own steps. */
  lemma OwnerClears(p: Protocol, s: State, h: nat) returns (sched: Schedule, s': State)
    requires BaseInv(s) && Scanning(s, h) && s.flags[s.threads[h].pc.j].SharedLock?
    ensures Reach(p, s, sched, s') && BaseInv(s') && |sched| <= 2 && StillEntering(s, s')
    ensures |s'.threads| == |s.threads| && s'.threads[h] == s.threads[h] && |s'.flags| == |s.flags|
    ensures !s'.flags[s.threads[h].pc.j].SharedLock?
  {
    var j := s.threads[h].pc.j;
    var u: nat :| Owns(s, u, j);
    assert LocalOk(s.flags, s.threads[u]) && LocalOk(s.flags, s.threads[h]);
    assert Holds(s, h);
    BaseStep(p, s, u, Advance);
    StepLetsNobodyIn(p, s, u);
    sched, s' := Extend(p, s, [], s, u, Advance);
    if s.threads[u].pc.Recheck? {
      BaseStep(p, s', u, Advance);
      StepLetsNobodyIn(p, s', u);
      sched, s' := Extend(p, s, sched, s', u, Advance);
    }
  }

  lemma SlotPassed(p: Protocol, s: State, h: nat)
    requires BaseInv(s) && Scanning(s, h) && !s.flags[s.threads[h].pc.j].SharedLock?
    ensures Enabled(s, h, Advance)
    ensures var s' := Next(p, s, h, Advance);
            && BaseInv(s') && StillEntering(s, s') && |s'.flags| == |s.flags| && |s'.threads| == |s.threads|
            && s'.threads[h].pc == XScan(s.threads[h].pc.j + 1)
  {
    assert LocalOk(s.flags, s.threads[h]) && Holds(s, h);
    BaseStep(p, s, h, Advance);
    StepLetsNobodyIn(p, s, h);
  }

  /** No deadlock, under either protocol: from every state in which a writer scans there is a run that lets it
      in, with at most three steps for each slot it has still to pass; nobody else gets in before. */
  lemma {:induction false} WriterCanEnter(p: Protocol, s: State, h: nat) returns (sched: Schedule, s': State)
    requires BaseInv(s) && h < |s.threads| && s.threads[h].pc.XScan?
    ensures Reach(p, s, sched, s') && BaseInv(s') && InExclusive(s', h) && StillEntering(s, s')
    ensures |sched| <= 3 * (|s.flags| - s.threads[h].pc.j) && |s'.flags| == |s.flags|
    decreases |s.flags| - s.threads[h].pc.j
  {
    assert LocalOk(s.flags, s.threads[h]);
    if s.threads[h].pc.j == |s.flags| {
      sched, s' := [], s;
      return;
    }
    var clear: Schedule, s1 := [], s;
    if s.flags[s.threads[h].pc.j].SharedLock? {
      clear, s1 := OwnerClears(p, s, h);
    }
    hide BaseInv, Next, Enabled;
    SlotPassed(p, s1, h);
    var scan, s2 := Extend(p, s, clear, s1, h, Advance);
    var rest: Schedule;
    rest, s' := WriterCanEnter(p, s2, h);
    ReachTrans(p, s, scan, s2, rest, s');
    sched := scan + rest;
  }
}
