/** The reader entry that is compiled (Allocators/SharedMutex.h, lines 93-96): load spLock,
    then store the slot. It does not keep exclusion; this module gives a bad run and says
    exactly which store a writer can overlap. */
module SharedMutexLive {
  import opened SharedMutex

  /** The compiled protocol never visits the recheck of the handshake. */
  ghost predicate LiveInv(s: State) {
    && BaseInv(s)
    && forall t :: 0 <= t < |s.threads| ==> !s.threads[t].pc.Recheck? && !s.threads[t].pc.Retreat?
  }

  lemma LiveStep(s: State, t: nat, a: Action)
    requires LiveInv(s) && Enabled(s, t, a)
    ensures LiveInv(Next(Live, s, t, a))
  {
    BaseStep(Live, s, t, a);
  }

  lemma {:induction false} LiveRun(s: State, sched: Schedule, s': State)
    requires LiveInv(s) && Reach(Live, s, sched, s')
    ensures LiveInv(s')
    decreases |sched|
  {
    if sched != [] {
      LiveStep(s, sched[0].0, sched[0].1);
      LiveRun(Next(Live, s, sched[0].0, sched[0].1), sched[1..], s');
    }
  }

  predicate NoStepOf(sched: Schedule, t: nat) {
    forall k :: 0 <= k < |sched| ==> sched[k].0 != t
  }

  /** A writer other than t has scanned past slot i. */
  ghost predicate WriterPast(s: State, t: nat, i: nat) {
    exists w: nat :: w != t && w < |s.threads| && s.threads[w].pc.XScan? && s.threads[w].pc.j > i
  }

  /** Some run in which reader t stays where it is brings another thread into the exclusive section. */
  ghost predicate CanBeOverlapped(s: State, t: nat) {
    exists sched: Schedule, s', w: nat ::
      Reach(Live, s, sched, s') && NoStepOf(sched, t) && w != t && InExclusive(s', w)
  }

  /** Reader t sits in its section with slot i announced. */
  predicate ReaderIn(s: State, t: nat, i: nat) {
    t < |s.threads| && s.threads[t] == Local(InShared(true), Slot(i)) && i < |s.flags|
  }

  /** Once announced with no writer past the slot, the slot stops every writer for as long as the reader stays. */
  lemma {:induction false} AnnouncedSlotStopsWriters(s: State, sched: Schedule, s': State, t: nat, i: nat)
    requires LiveInv(s) && ReaderIn(s, t, i) && !WriterPast(s, t, i)
    requires Reach(Live, s, sched, s') && NoStepOf(sched, t)
    ensures ReaderIn(s', t, i) && !WriterPast(s', t, i)
    decreases |sched|
  {
    if sched != [] {
      var u, a := sched[0].0, sched[0].1;
      var s1 := Next(Live, s, u, a);
      LiveStep(s, u, a);
      assert sched[0].0 != t;
      assert LocalOk(s.flags, s.threads[t]) && LocalOk(s.flags, s.threads[u]);
      assert u < |s.threads| && !(s.threads[u].pc.XScan? && s.threads[u].pc.j > i);
      assert NoStepOf(sched[1..], t);
      AnnouncedSlotStopsWriters(s1, sched[1..], s', t, i);
    }
  }

  /** A reader that a scanning writer meets can leave its section in one step. */
  lemma OtherReaderLeaves(s: State, t: nat, i: nat, w: nat) returns (u: nat)
    requires LiveInv(s) && ReaderIn(s, t, i)
    requires w != t && w < |s.threads| && s.threads[w].pc.XScan? && i < s.threads[w].pc.j < |s.flags|
    requires s.flags[s.threads[w].pc.j].SharedLock?
    ensures u != t && Enabled(s, u, Advance)
    ensures var s' := Next(Live, s, u, Advance);
            && LiveInv(s') && ReaderIn(s', t, i) && |s'.flags| == |s.flags| && |s'.threads| == |s.threads|
            && s'.threads[w] == s.threads[w] && !s'.flags[s.threads[w].pc.j].SharedLock?
  {
    u :| Owns(s, u, s.threads[w].pc.j);
    assert LocalOk(s.flags, s.threads[u]) && LocalOk(s.flags, s.threads[w]);
    LiveStep(s, u, Advance);
  }

  lemma ScanPasses(s: State, t: nat, i: nat, w: nat)
    requires LiveInv(s) && ReaderIn(s, t, i)
    requires w != t && w < |s.threads| && s.threads[w].pc.XScan? && i < s.threads[w].pc.j < |s.flags|
    requires !s.flags[s.threads[w].pc.j].SharedLock?
    ensures Enabled(s, w, Advance)
    ensures var s' := Next(Live, s, w, Advance);
            && LiveInv(s') && ReaderIn(s', t, i) && |s'.flags| == |s.flags| && |s'.threads| == |s.threads|
            && s'.threads[w].pc == XScan(s.threads[w].pc.j + 1)
  {
    assert LocalOk(s.flags, s.threads[w]);
    LiveStep(s, w, Advance);
  }

  /** A writer past the slot of reader t can finish its scan while t stays in its section:
      every other reader it meets can leave. */
  lemma {:induction false} WriterFinishes(s: State, t: nat, i: nat, w: nat) returns (sched: Schedule, s': State)
    requires LiveInv(s) && ReaderIn(s, t, i)
    requires w != t && w < |s.threads| && s.threads[w].pc.XScan? && s.threads[w].pc.j > i
    ensures Reach(Live, s, sched, s') && NoStepOf(sched, t) && InExclusive(s', w)
    decreases |s.flags| - s.threads[w].pc.j
  {
    assert LocalOk(s.flags, s.threads[w]);
    if s.threads[w].pc.j == |s.flags| {
      sched, s' := [], s;
      return;
    }
    var first: Schedule, s1 := [], s;
    if s.flags[s.threads[w].pc.j].SharedLock? {
      var u := OtherReaderLeaves(s, t, i, w);
      first, s1 := Extend(Live, s, first, s, u, Advance);
    }
    ScanPasses(s1, t, i, w);
    var scan, s2 := Extend(Live, s, first, s1, w, Advance);
    var rest: Schedule;
    rest, s' := WriterFinishes(s2, t, i, w);
    ReachTrans(Live, s, scan, s2, rest, s');
    sched := scan + rest;
  }

  /** Exactly when the compiled store is unsafe. Reader t is about to store SharedLock in its slot.
      Afterwards it is in its section, and a writer can join it there if and only if, at the
      moment of the store, some writer had already scanned past that slot. */
  lemma OverlapIff(s: State, t: nat)
    requires LiveInv(s) && Enabled(s, t, Advance) && s.threads[t].pc.Announce?
    ensures CanBeOverlapped(Next(Live, s, t, Advance), t)
            <==> WriterPast(s, t, s.threads[t].index.i)
  {
    var i := s.threads[t].index.i;
    var s1 := Next(Live, s, t, Advance);
    LiveStep(s, t, Advance);
    assert LocalOk(s.flags, s.threads[t]);
    if WriterPast(s, t, i) {
      var w: nat :| w != t && w < |s.threads| && s.threads[w].pc.XScan? && s.threads[w].pc.j > i;
      assert s1.threads[w] == s.threads[w];
      var sched, s2 := WriterFinishes(s1, t, i, w);
    } else {
      assert !WriterPast(s1, t, i);
      forall sched: Schedule, s2, w: nat | Reach(Live, s1, sched, s2) && NoStepOf(sched, t) && w != t
        ensures !InExclusive(s2, w)
      {
        AnnouncedSlotStopsWriters(s1, sched, s2, t, i);
        assert i < |s2.flags|;
      }
    }
  }

  /** The same for every state the compiled lock can get into. */
  lemma OverlapIffReachable(slots: nat, threads: nat, sched: Schedule, s: State, t: nat)
    requires Reach(Live, Init(slots, threads), sched, s)
    requires Enabled(s, t, Advance) && s.threads[t].pc.Announce?
    ensures CanBeOverlapped(Next(Live, s, t, Advance), t)
            <==> WriterPast(s, t, s.threads[t].index.i)
  {
    InitInv(slots, threads);
    LiveRun(Init(slots, threads), sched, s);
    OverlapIff(s, t);
  }

  // ----- whole runs

  /** Thread t's next step stores SharedLock in a slot that some writer has already passed. */
  ghost predicate LateStore(s: State, t: nat) {
    t < |s.threads| && s.threads[t].pc.Announce? && s.threads[t].index.Slot? && WriterPast(s, t, s.threads[t].index.i)
  }

  lemma LiveReaderStep(s: State, t: nat, a: Action)
    requires Enabled(s, t, a) && LocalOk(s.flags, s.threads[t]) && !s.threads[t].pc.Recheck?
    ensures var l, l' := s.threads[t], Next(Live, s, t, a).threads[t];
            l'.pc.InShared? && l'.index.Slot? <==> l.pc.Announce?
  {}

  lemma LiveWriterStep(s: State, t: nat, a: Action)
    requires Enabled(s, t, a) && LocalOk(s.flags, s.threads[t])
    ensures var l, l' := s.threads[t], Next(Live, s, t, a).threads[t];
            l'.pc.XScan? && l'.pc.j > 0 ==>
              l.pc.XScan? && (l'.pc.j == l.pc.j
                              || (l'.pc.j == l.pc.j + 1 && l.pc.j < |s.flags| && !s.flags[l.pc.j].SharedLock?))
  {}

  /** One step of the compiled lock keeps writers off the readers' slots exactly when it is no late store. */
  lemma PastStepIff(s: State, t: nat, a: Action)
    requires LiveInv(s) && PastExcludes(s) && Enabled(s, t, a)
    ensures PastExcludes(Next(Live, s, t, a)) <==> !LateStore(s, t)
  {
    hide Next, SlotsOwned, SpillOwned;
    var s' := Next(Live, s, t, a);
    OnlyOwnThread(Live, s, t, a);
    LiveReaderStep(s, t, a);
    LiveWriterStep(s, t, a);
    if LateStore(s, t) {
      var i := s.threads[t].index.i;
      var w: nat :| w != t && w < |s.threads| && s.threads[w].pc.XScan? && s.threads[w].pc.j > i;
      StoreStays(s, t, a);
      assert s'.threads[w] == s.threads[w];
    } else {
      forall w, r | 0 <= w < |s'.threads| && 0 <= r < |s'.threads| && s'.threads[w].pc.XScan?
                    && s'.threads[r].pc.InShared? && s'.threads[r].index.Slot?
        ensures s'.threads[w].pc.j <= s'.threads[r].index.i
      {
        assert LocalOk(s.flags, s.threads[r]);
        if r == t {
          StoreStays(s, t, a);
        }
      }
    }
  }

  lemma StoreStays(s: State, t: nat, a: Action)
    requires Enabled(s, t, a) && s.threads[t].pc.Announce? && LocalOk(s.flags, s.threads[t])
    ensures Next(Live, s, t, a).threads[t] == Local(InShared(true), s.threads[t].index)
  {}

  ghost predicate NoLateStore(s: State, sched: Schedule)
    decreases |sched|
  {
    sched == [] || (
      && Enabled(s, sched[0].0, sched[0].1) && !LateStore(s, sched[0].0)
      && NoLateStore(Next(Live, s, sched[0].0, sched[0].1), sched[1..]))
  }

  ghost predicate PastThroughout(s: State, sched: Schedule)
    decreases |sched|
  {
    PastExcludes(s) && (sched == [] || (
      Enabled(s, sched[0].0, sched[0].1) && PastThroughout(Next(Live, s, sched[0].0, sched[0].1), sched[1..])))
  }

  ghost predicate ExclusionThroughout(s: State, sched: Schedule)
    decreases |sched|
  {
    Exclusion(s) && (sched == [] || (
      Enabled(s, sched[0].0, sched[0].1) && ExclusionThroughout(Next(Live, s, sched[0].0, sched[0].1), sched[1..])))
  }

  lemma {:induction false} PastThroughoutIff(s: State, sched: Schedule, s': State)
    requires LiveInv(s) && PastExcludes(s) && Reach(Live, s, sched, s')
    ensures PastThroughout(s, sched) <==> NoLateStore(s, sched)
    ensures NoLateStore(s, sched) ==> ExclusionThroughout(s, sched)
    decreases |sched|
  {
    hide PastExcludes, Next, LateStore, Exclusion, LiveInv;
    ExcludedNow(s);
    if sched != [] {
      var s1 := Next(Live, s, sched[0].0, sched[0].1);
      LiveStep(s, sched[0].0, sched[0].1);
      PastStepIff(s, sched[0].0, sched[0].1);
      if PastExcludes(s1) {
        PastThroughoutIff(s1, sched[1..], s');
      }
    }
  }

  lemma ExcludedNow(s: State)
    requires LiveInv(s) && PastExcludes(s)
    ensures Exclusion(s)
  {
    InvExcludes(s);
  }

  /** A run of the compiled lock keeps every writer off the slots of the readers inside, at each of its points, if
      and only if no slot is stored after a writer has passed it; nobody is then ever inside with a writer. */
  lemma LiveSafeIff(slots: nat, threads: nat, sched: Schedule, s: State)
    requires Reach(Live, Init(slots, threads), sched, s)
    ensures PastThroughout(Init(slots, threads), sched) <==> NoLateStore(Init(slots, threads), sched)
    ensures NoLateStore(Init(slots, threads), sched) ==> ExclusionThroughout(Init(slots, threads), sched)
  {
    InitInv(slots, threads);
    PastThroughoutIff(Init(slots, threads), sched, s);
  }

  /** The bad run with one slot, a reader (thread 0) and a writer (thread 1): the reader loads
      spLock as false, the writer takes it and scans the slot, the reader stores and goes in. */
  lemma BadRun() returns (sched: Schedule, s: State)
    ensures Reach(Live, Init(1, 2), sched, s)
    ensures InSharedSection(s, 0) && InExclusive(s, 1) && !Exclusion(s)
  {
    sched, s := [], State(false, [Unregistered], [Local(Outside, NoEntry), Local(Outside, NoEntry)]);
    assert Init(1, 2) == s;
    sched, s := Extend(Live, Init(1, 2), sched, s, 0, LockShared);
    sched, s := Extend(Live, Init(1, 2), sched, s, 0, Advance);
    assert s == State(false, [Registered], [Local(Spin, Slot(0)), Local(Outside, NoEntry)]);
    sched, s := Extend(Live, Init(1, 2), sched, s, 0, Advance);
    sched, s := Extend(Live, Init(1, 2), sched, s, 1, Lock);
    assert s == State(false, [Registered], [Local(Announce, Slot(0)), Local(XCas, NoEntry)]);
    sched, s := Extend(Live, Init(1, 2), sched, s, 1, Advance);
    sched, s := Extend(Live, Init(1, 2), sched, s, 1, Advance);
    sched, s := Extend(Live, Init(1, 2), sched, s, 0, Advance);
    assert s == State(true, [SharedLock], [Local(InShared(true), Slot(0)), Local(XScan(1), NoEntry)]);
    var reader: nat, writer: nat := 0, 1;
    assert InExclusive(s, writer) && InSharedSection(s, reader);
  }
}
