/** A scanning writer gets in under every fair schedule: in rounds in which each thread that is inside a call or
    a section takes a turn (a reader's turn is to leave), their number bounded by the threads and slots. */
module SharedMutexFairness {
  import opened SharedMutex
  import opened SharedMutexProgress

  /** Every step of the schedule can be taken in turn. */
  ghost predicate CanRun(s: State, sched: Schedule)
    decreases |sched|
  {
    sched == []
    || (Enabled(s, sched[0].0, sched[0].1) && CanRun(Next(Handshake, s, sched[0].0, sched[0].1), sched[1..]))
  }

  ghost function End(s: State, sched: Schedule): State
    requires CanRun(s, sched)
    decreases |sched|
  {
    if sched == [] then s else End(Next(Handshake, s, sched[0].0, sched[0].1), sched[1..])
  }

  /** Thread h is in its exclusive section at some point of the schedule. */
  ghost predicate EntersIn(s: State, sched: Schedule, h: nat)
    requires CanRun(s, sched)
    decreases |sched|
  {
    InExclusive(s, h)
    || (sched != [] && EntersIn(Next(Handshake, s, sched[0].0, sched[0].1), sched[1..], h))
  }

  /** A thread that is inside a call or a section when the schedule starts takes its next step in it. */
  predicate HasTurn(s: State, sched: Schedule, t: nat)
    requires t < |s.threads|
  {
    s.threads[t].pc.Outside? || s.threads[t].pc.Gone? || (t, Advance) in sched
  }

  predicate Round(s: State, sched: Schedule) {
    forall t: nat :: t < |s.threads| ==> HasTurn(s, sched, t)
  }

  ghost predicate FairRun(s: State, rounds: seq<Schedule>)
    decreases |rounds|
  {
    rounds == []
    || (CanRun(s, rounds[0]) && Round(s, rounds[0]) && FairRun(End(s, rounds[0]), rounds[1..]))
  }

  ghost predicate EntersInRounds(s: State, rounds: seq<Schedule>, h: nat)
    requires FairRun(s, rounds)
    decreases |rounds|
  {
    rounds != [] && (EntersIn(s, rounds[0], h) || EntersInRounds(End(s, rounds[0]), rounds[1..], h))
  }

  /** What is left of the other threads' steps and of the scan. */
  function Measure(s: State, h: nat): int
    requires h < |s.threads| && s.threads[h].pc.XScan?
  {
    Total(|s.flags|, s.threads) + |s.flags| - s.threads[h].pc.j
  }

  /** A writer that does not enter scans throughout, and every change lowers the measure. */
  lemma {:induction false} WaitingLowers(s: State, sched: Schedule, h: nat)
    requires HandshakeInv(s) && h < |s.threads| && s.threads[h].pc.XScan?
    requires CanRun(s, sched) && !EntersIn(s, sched, h)
    ensures WaitsThrough(s, sched, h)
    ensures var e := End(s, sched);
            && HandshakeInv(e) && |e.threads| == |s.threads| && |e.flags| == |s.flags|
            && e.threads[h].pc.XScan? && e.threads[h].pc.j <= |e.flags|
            && Measure(e, h) + Changes(s, sched, h) <= Measure(s, h)
    decreases |sched|
  {
    hide Next, Total, HandshakeInv, InExclusive;
    ScanWithin(s, h);
    if sched != [] {
      OneStepLowers(s, h, sched[0].0, sched[0].1);
      WaitingLowers(Next(Handshake, s, sched[0].0, sched[0].1), sched[1..], h);
    }
  }

  lemma ScanWithin(s: State, h: nat)
    requires HandshakeInv(s) && h < |s.threads| && s.threads[h].pc.XScan?
    ensures s.threads[h].pc.j <= |s.flags|
    ensures !InExclusive(s, h) ==> Scanning(s, h)
  {
    assert LocalOk(s.flags, s.threads[h]);
  }

  lemma OneStepLowers(s: State, h: nat, t: nat, a: Action)
    requires HandshakeInv(s) && Scanning(s, h) && Enabled(s, t, a)
    ensures var s' := Next(Handshake, s, t, a);
            && HandshakeInv(s') && |s'.threads| == |s.threads| && |s'.flags| == |s.flags|
            && s'.threads[h].pc.XScan?
            && Measure(s', h) <= Measure(s, h) - (if s' == s then 0 else 1)
  {
    HandshakeStep(s, t, a);
    if t == h {
      ScanStep(s, h);
    } else {
      OtherStepLowersRank(s, h, t, a);
    }
  }

  // ----- a round changes something

  lemma {:induction false} NoChangeStays(s: State, sched: Schedule, h: nat, k: nat)
    requires WaitsThrough(s, sched, h) && Changes(s, sched, h) == 0 && k < |sched|
    ensures Enabled(s, sched[k].0, sched[k].1) && Next(Handshake, s, sched[k].0, sched[k].1) == s
    decreases |sched|
  {
    if k > 0 {
      NoChangeStays(s, sched[1..], h, k - 1);
    }
  }

  /** If nothing moved in a whole round, the writer is stopped by a slot whose owner had a turn and did not move. */
  lemma RoundChanges(s: State, sched: Schedule, h: nat)
    requires HandshakeInv(s) && Scanning(s, h) && WaitsThrough(s, sched, h) && Round(s, sched)
    ensures Changes(s, sched, h) >= 1
  {
    if Changes(s, sched, h) == 0 {
      TurnStays(s, sched, h, h);
      var j := s.threads[h].pc.j;
      assert s.flags[j].SharedLock?;
      var u: nat :| Owns(s, u, j);
      assert LocalOk(s.flags, s.threads[u]);
      TurnStays(s, sched, h, u);
    }
  }

  lemma TurnStays(s: State, sched: Schedule, h: nat, t: nat)
    requires WaitsThrough(s, sched, h) && Changes(s, sched, h) == 0 && Round(s, sched)
    requires t < |s.threads| && !s.threads[t].pc.Outside? && !s.threads[t].pc.Gone?
    ensures Enabled(s, t, Advance) && Next(Handshake, s, t, Advance) == s
  {
    assert HasTurn(s, sched, t);
    var k :| 0 <= k < |sched| && sched[k] == (t, Advance);
    NoChangeStays(s, sched, h, k);
  }

  lemma {:induction false} EntersByMeasure(s: State, rounds: seq<Schedule>, h: nat)
    requires HandshakeInv(s) && h < |s.threads| && s.threads[h].pc.XScan?
    requires FairRun(s, rounds) && |rounds| > Measure(s, h)
    ensures EntersInRounds(s, rounds, h)
    decreases |rounds|
  {
    ScanWithin(s, h);
    hide HandshakeInv, Round, Total;
    if rounds != [] && !EntersIn(s, rounds[0], h) {
      WaitingLowers(s, rounds[0], h);
      RoundChanges(s, rounds[0], h);
      EntersByMeasure(End(s, rounds[0]), rounds[1..], h);
    }
  }

  /** Under every fair schedule a scanning writer is in its section within (threads + 1) * (slots + 7) + 1 rounds,
      whatever calls the other threads make meanwhile. */
  lemma FairScheduleEnters(s: State, rounds: seq<Schedule>, h: nat)
    requires HandshakeInv(s) && h < |s.threads| && s.threads[h].pc.XScan?
    requires FairRun(s, rounds) && |rounds| > (|s.threads| + 1) * (|s.flags| + 7)
    ensures EntersInRounds(s, rounds, h)
  {
    TotalBound(|s.flags|, s.threads);
    ScanWithin(s, h);
    assert (|s.threads| + 1) * (|s.flags| + 7) == |s.threads| * (|s.flags| + 7) + |s.flags| + 7;
    EntersByMeasure(s, rounds, h);
  }
}
