/** The contention-free reader/writer lock of Allocators/SharedMutex.h as a
    sequentially consistent transition system: one atomic load, store or
    compare-exchange per step, any number of threads, any number of slots. */
module SharedMutex {

  // ContentionFreeFlag::Flags
  datatype Flag = Unregistered | Registered | PrepareLock | SharedLock

  /** The two reader entry protocols of lock_shared: the store-then-recheck handshake
      (lines 82-91) and the load-then-store sequence that is compiled (lines 93-96). */
  datatype Protocol = Handshake | Live

  /** A thread's entry in its thread-local map: none yet, an entry that got no slot, a slot. */
  datatype Index = NoEntry | Unslotted | Slot(i: nat)

  /** Where a thread is. The name says which atomic access the thread performs next. */
  datatype PC =
    | Outside                   // in no call and holding nothing
    | RegCas(i: nat)            // registerThread: compare-exchange on slot i
    | Announce                  // store SharedLock in the own slot
    | Recheck                   // load spLock after announcing
    | Retreat                   // store PrepareLock in the own slot
    | Spin                      // load spLock until it is false
    | SpillCas                  // lock_shared without a slot: compare-exchange on spLock
    | InShared(viaSlot: bool)   // in a shared section, entered through the slot or the spill lock
    | XCas                      // lock: compare-exchange on spLock
    | XScan(j: nat)             // lock: load slot j; past the last slot means in the section
    | Exiting                   // ~ThreadRegister: compare-exchange the own slot back
    | Gone                      // the thread has ended

  datatype Local = Local(pc: PC, index: Index)

  datatype State = State(spLock: bool, flags: seq<Flag>, threads: seq<Local>)

  /** A call made by a thread that is outside, its next atomic access, or a
      weak compare-exchange that fails although it could have succeeded. */
  datatype Action = LockShared | Lock | Exit | Advance | CasFails

  type Schedule = seq<(nat, Action)>

  function Init(slots: nat, threads: nat): State {
    State(false, seq(slots, _ => Unregistered), seq(threads, _ => Local(Outside, NoEntry)))
  }

  predicate Enabled(s: State, t: nat, a: Action) {
    t < |s.threads| &&
    var l := s.threads[t];
    (l.index.Slot? ==> l.index.i < |s.flags|) &&
    match l.pc
    case Outside => a.LockShared? || a.Lock? || a.Exit?
    case RegCas(i) => a.Advance? && i <= |s.flags|
    case Announce => a.Advance? && l.index.Slot?
    case Recheck => a.Advance?
    case Retreat => a.Advance? && l.index.Slot?
    case Spin => a.Advance?
    case SpillCas => a.Advance? || a.CasFails?
    case InShared(_) => a.Advance?
    case XCas => a.Advance? || a.CasFails?
    case XScan(j) => a.Advance? && j <= |s.flags|
    case Exiting => (a.Advance? || a.CasFails?) && l.index.Slot?
    case Gone => false
  }

  function Go(s: State, t: nat, pc: PC): State
    requires t < |s.threads|
  {
    s.(threads := s.threads[t := s.threads[t].(pc := pc)])
  }

  function StoreFlag(s: State, i: nat, f: Flag): State
    requires i < |s.flags|
  {
    s.(flags := s.flags[i := f])
  }

  /** Where lock_shared goes once the thread has a slot. */
  function Enter(p: Protocol): PC {
    if p.Handshake? then Announce else Spin
  }

  /** One atomic step of thread t. */
  function Next(p: Protocol, s: State, t: nat, a: Action): State
    requires Enabled(s, t, a)
  {
    var l := s.threads[t];
    match l.pc
    case Outside =>
      (match a
       case LockShared =>
         (match l.index
          case NoEntry => s.(threads := s.threads[t := Local(RegCas(0), Unslotted)])
          case Unslotted => Go(s, t, SpillCas)
          case Slot(_) => Go(s, t, Enter(p)))
       case Lock => Go(s, t, XCas)
       case _ => Go(s, t, if l.index.Slot? then Exiting else Gone))
    case RegCas(i) =>
      if i == |s.flags| then Go(s, t, SpillCas)
      else if s.flags[i].Unregistered? then
        StoreFlag(s.(threads := s.threads[t := Local(Enter(p), Slot(i))]), i, Registered)
      else Go(s, t, RegCas(i + 1))
    case Announce =>
      Go(StoreFlag(s, l.index.i, SharedLock), t, if p.Handshake? then Recheck else InShared(true))
    case Recheck => Go(s, t, if s.spLock then Retreat else InShared(true))
    case Retreat => Go(StoreFlag(s, l.index.i, PrepareLock), t, Spin)
    case Spin => if s.spLock then s else Go(s, t, Announce)
    case SpillCas =>
      if a.CasFails? || s.spLock then s else Go(s.(spLock := true), t, InShared(false))
    case InShared(_) =>
      // unlock_shared looks its index up again and goes by that
      if l.index.Slot? then Go(StoreFlag(s, l.index.i, Registered), t, Outside)
      else Go(s.(spLock := false), t, Outside)
    case XCas => if a.CasFails? || s.spLock then s else Go(s.(spLock := true), t, XScan(0))
    case XScan(j) =>
      if j == |s.flags| then Go(s.(spLock := false), t, Outside)
      else if s.flags[j].SharedLock? then s
      else Go(s, t, XScan(j + 1))
    case Exiting =>
      if a.CasFails? || !s.flags[l.index.i].Registered? then s
      else Go(StoreFlag(s, l.index.i, Unregistered), t, Gone)
  }

  /** s' is reached from s by the given schedule. */
  ghost predicate Reach(p: Protocol, s: State, sched: Schedule, s': State)
    decreases |sched|
  {
    if sched == [] then s' == s
    else Enabled(s, sched[0].0, sched[0].1) && Reach(p, Next(p, s, sched[0].0, sched[0].1), sched[1..], s')
  }

  lemma {:induction false} ReachTrans(p: Protocol, s: State, x: Schedule, mid: State, y: Schedule, s': State)
    requires Reach(p, s, x, mid) && Reach(p, mid, y, s')
    ensures Reach(p, s, x + y, s')
    decreases |x|
  {
    if x == [] {
      assert x + y == y;
    } else {
      ReachTrans(p, Next(p, s, x[0].0, x[0].1), x[1..], mid, y, s');
      assert (x + y)[1..] == x[1..] + y;
    }
  }

  /** One more step at the end of a run. */
  lemma Extend(p: Protocol, s0: State, sched: Schedule, s: State, t: nat, a: Action)
    returns (sched': Schedule, s': State)
    requires Reach(p, s0, sched, s) && Enabled(s, t, a)
    ensures sched' == sched + [(t, a)] && s' == Next(p, s, t, a)
    ensures Reach(p, s0, sched', s')
  {
    sched', s' := sched + [(t, a)], Next(p, s, t, a);
    assert Reach(p, s', [(t, a)][1..], s');
    ReachTrans(p, s0, sched, s, [(t, a)], s');
  }

  // ----- what the states mean

  predicate InExclusive(s: State, t: nat) {
    t < |s.threads| && s.threads[t].pc == XScan(|s.flags|)
  }

  predicate InSharedSection(s: State, t: nat) {
    t < |s.threads| && s.threads[t].pc.InShared?
  }

  /** Nobody is in a section while another thread is in an exclusive one. */
  ghost predicate Exclusion(s: State) {
    forall t: nat, u: nat :: t != u && InExclusive(s, t) ==> !InExclusive(s, u) && !InSharedSection(s, u)
  }

  predicate Owns(s: State, t: nat, i: nat) {
    t < |s.threads| && s.threads[t].index == Slot(i) && !s.threads[t].pc.Gone?
  }

  /** The threads that have set spLock: a scanning or running writer, a spill reader. */
  predicate Holds(s: State, t: nat) {
    t < |s.threads| && (s.threads[t].pc.XScan? || s.threads[t].pc == InShared(false))
  }

  predicate FlagFits(pc: PC, f: Flag) {
    match pc
    case Announce => f.Registered? || f.PrepareLock?
    case Spin => f.Registered? || f.PrepareLock?
    case Recheck => f.SharedLock?
    case Retreat => f.SharedLock?
    case InShared(_) => f.SharedLock?
    case _ => f.Registered?
  }

  /** What a thread's position says about its map entry and its slot. */
  predicate LocalOk(flags: seq<Flag>, l: Local) {
    && (l.pc.XScan? ==> l.pc.j <= |flags|)
    && (l.pc.Exiting? ==> l.index.Slot?)
    && match l.index
       case NoEntry => l.pc.Outside? || l.pc.XCas? || l.pc.XScan? || l.pc.Gone?
       case Unslotted =>
         && (l.pc.RegCas? ==> l.pc.i <= |flags|)
         && (l.pc.Outside? || l.pc.RegCas? || l.pc.SpillCas? || l.pc == InShared(false)
             || l.pc.XCas? || l.pc.XScan? || l.pc.Gone?)
       case Slot(i) =>
         && i < |flags|
         && !l.pc.RegCas? && !l.pc.SpillCas? && l.pc != InShared(false)
         && (!l.pc.Gone? ==> FlagFits(l.pc, flags[i]))
  }

  /** Each slot that is not Unregistered belongs to exactly one thread. */
  ghost predicate SlotsOwned(s: State) {
    && (forall i :: 0 <= i < |s.flags| && !s.flags[i].Unregistered? ==> exists t: nat :: Owns(s, t, i))
    && (forall t: nat, u: nat, i: nat :: Owns(s, t, i) && Owns(s, u, i) ==> t == u)
  }

  /** spLock is set exactly when one thread holds it. */
  ghost predicate SpillOwned(s: State) {
    && (s.spLock <==> exists t: nat :: Holds(s, t))
    && (forall t: nat, u: nat :: Holds(s, t) && Holds(s, u) ==> t == u)
  }

  /** The part of the invariant both protocols keep. */
  ghost predicate BaseInv(s: State) {
    && (forall t :: 0 <= t < |s.threads| ==> LocalOk(s.flags, s.threads[t]))
    && SlotsOwned(s)
    && SpillOwned(s)
  }

  /** No writer has scanned past the slot of a reader that is in its section. */
  ghost predicate PastExcludes(s: State) {
    forall w, r :: 0 <= w < |s.threads| && 0 <= r < |s.threads| && s.threads[w].pc.XScan?
                   && s.threads[r].pc.InShared? && s.threads[r].index.Slot?
                   ==> s.threads[w].pc.j <= s.threads[r].index.i
  }

  ghost predicate HandshakeInv(s: State) {
    BaseInv(s) && PastExcludes(s)
  }

  // ----- every step keeps the base invariant, under either protocol

  lemma LocalsStep(p: Protocol, s: State, t: nat, a: Action)
    requires BaseInv(s) && Enabled(s, t, a)
    ensures var s' := Next(p, s, t, a);
            && |s'.threads| == |s.threads| && |s'.flags| == |s.flags|
            && forall u :: 0 <= u < |s'.threads| ==> LocalOk(s'.flags, s'.threads[u])
  {
    var s' := Next(p, s, t, a);
    forall u | 0 <= u < |s'.threads|
      ensures LocalOk(s'.flags, s'.threads[u])
    {
      assert LocalOk(s.flags, s.threads[u]) && LocalOk(s.flags, s.threads[t]);
      if u != t && s.threads[u].index.Slot? && !s.threads[u].pc.Gone? {
        assert Owns(s, u, s.threads[u].index.i);
        if s.threads[t].index.Slot? && !s.threads[t].pc.Gone? {
          assert Owns(s, t, s.threads[t].index.i);
        }
      }
    }
  }

  lemma OnlyOwnThread(p: Protocol, s: State, t: nat, a: Action)
    requires Enabled(s, t, a) && LocalOk(s.flags, s.threads[t])
    ensures var s' := Next(p, s, t, a);
            && |s'.threads| == |s.threads| && |s'.flags| == |s.flags|
            && forall u :: 0 <= u < |s.threads| && u != t ==> s'.threads[u] == s.threads[u]
  {}

  /** A step keeps the thread's slot, takes an Unregistered one, or leaves its own slot Unregistered;
      no other slot starts or stops being Unregistered. */
  lemma OwnStep(p: Protocol, s: State, t: nat, a: Action, i: nat)
    requires Enabled(s, t, a) && LocalOk(s.flags, s.threads[t]) && i < |s.flags|
    ensures var s' := Next(p, s, t, a);
            && i < |s'.flags|
            && (Owns(s', t, i) && !Owns(s, t, i) ==> s.flags[i].Unregistered?)
            && (Owns(s, t, i) && !Owns(s', t, i) ==> s'.flags[i].Unregistered?)
            && (!s'.flags[i].Unregistered? ==> !s.flags[i].Unregistered? || Owns(s', t, i))
  {}

  lemma OwnedSlotRegistered(s: State, u: nat, i: nat)
    requires BaseInv(s) && Owns(s, u, i)
    ensures i < |s.flags| && !s.flags[i].Unregistered?
  {
    assert LocalOk(s.flags, s.threads[u]);
  }

  lemma SlotsStep(p: Protocol, s: State, t: nat, a: Action)
    requires BaseInv(s) && Enabled(s, t, a)
    ensures SlotsOwned(Next(p, s, t, a))
  {
    hide Next, LocalOk;
    var s' := Next(p, s, t, a);
    assert LocalOk(s.flags, s.threads[t]);
    OnlyOwnThread(p, s, t, a);
    forall i: nat | i < |s'.flags| && !s'.flags[i].Unregistered?
      ensures exists u: nat :: Owns(s', u, i)
    {
      OwnStep(p, s, t, a, i);
      if !Owns(s', t, i) {
        var u: nat :| Owns(s, u, i);
        assert Owns(s', u, i);
      }
    }
    forall u: nat, v: nat, i: nat | Owns(s', u, i) && Owns(s', v, i)
      ensures u == v
    {
      OneOwner(p, s, t, a, u, v, i);
    }
  }

  lemma NotTaken(p: Protocol, s: State, t: nat, a: Action, u: nat, i: nat)
    requires BaseInv(s) && Enabled(s, t, a) && u != t && Owns(s, u, i)
    ensures !Owns(Next(p, s, t, a), t, i)
  {
    hide Next, LocalOk;
    assert LocalOk(s.flags, s.threads[t]);
    OwnedSlotRegistered(s, u, i);
    OwnStep(p, s, t, a, i);
    assert !Owns(s, t, i);
  }

  lemma OneOwner(p: Protocol, s: State, t: nat, a: Action, u: nat, v: nat, i: nat)
    requires BaseInv(s) && Enabled(s, t, a)
    requires Owns(Next(p, s, t, a), u, i) && Owns(Next(p, s, t, a), v, i)
    ensures u == v
  {
    hide Next, LocalOk;
    assert LocalOk(s.flags, s.threads[t]);
    OnlyOwnThread(p, s, t, a);
    assert forall w: nat :: w != t && Owns(Next(p, s, t, a), w, i) ==> Owns(s, w, i);
    if u != t {
      NotTaken(p, s, t, a, u, i);
    } else if v != t {
      NotTaken(p, s, t, a, v, i);
    }
  }

  lemma SpillStep(p: Protocol, s: State, t: nat, a: Action)
    requires BaseInv(s) && Enabled(s, t, a)
    ensures SpillOwned(Next(p, s, t, a))
  {
    var s' := Next(p, s, t, a);
    assert LocalOk(s.flags, s.threads[t]);
    assert forall u: nat :: u != t ==> (Holds(s', u) <==> Holds(s, u));
    forall u: nat, v: nat | Holds(s', u) && Holds(s', v)
      ensures u == v
    {
      assert u != t ==> Holds(s, u);
      assert v != t ==> Holds(s, v);
      if !Holds(s, t) && (u == t || v == t) {
        assert !s.spLock;
      }
    }
    if s'.spLock {
      if s.spLock {
        var u: nat :| Holds(s, u);
        assert Holds(s', u);
      } else {
        assert Holds(s', t);
      }
    } else if s.spLock {
      assert Holds(s, t) && !Holds(s', t);
    } else {
      assert !Holds(s, t) && !Holds(s', t);
    }
  }

  lemma BaseStep(p: Protocol, s: State, t: nat, a: Action)
    requires BaseInv(s) && Enabled(s, t, a)
    ensures BaseInv(Next(p, s, t, a))
  {
    LocalsStep(p, s, t, a);
    SlotsStep(p, s, t, a);
    SpillStep(p, s, t, a);
  }

  // ----- handshake safety

  /** A thread is a slot reader only by having read spLock as false, or because it was one. */
  lemma ReaderStep(s: State, t: nat, a: Action)
    requires Enabled(s, t, a) && LocalOk(s.flags, s.threads[t])
    ensures var l, l' := s.threads[t], Next(Handshake, s, t, a).threads[t];
            l'.pc.InShared? && l'.index.Slot? ==> l'.index == l.index && (l.pc.InShared? || !s.spLock)
  {}

  /** A scan passes slot j only by having read another value than SharedLock there. */
  lemma WriterStep(s: State, t: nat, a: Action)
    requires Enabled(s, t, a) && LocalOk(s.flags, s.threads[t])
    ensures var l, l' := s.threads[t], Next(Handshake, s, t, a).threads[t];
            l'.pc.XScan? && l'.pc.j > 0 ==>
              l.pc.XScan? && (l'.pc.j == l.pc.j
                              || (l'.pc.j == l.pc.j + 1 && l.pc.j < |s.flags| && !s.flags[l.pc.j].SharedLock?))
  {}

  lemma NoHolder(s: State, w: nat)
    requires SpillOwned(s)
    ensures !s.spLock ==> !Holds(s, w)
  {}

  lemma HandshakeStep(s: State, t: nat, a: Action)
    requires HandshakeInv(s) && Enabled(s, t, a)
    ensures HandshakeInv(Next(Handshake, s, t, a))
  {
    hide Next, SlotsOwned;
    BaseStep(Handshake, s, t, a);
    var s' := Next(Handshake, s, t, a);
    OnlyOwnThread(Handshake, s, t, a);
    ReaderStep(s, t, a);
    WriterStep(s, t, a);
    forall w, r | 0 <= w < |s'.threads| && 0 <= r < |s'.threads| && s'.threads[w].pc.XScan?
                  && s'.threads[r].pc.InShared? && s'.threads[r].index.Slot?
      ensures s'.threads[w].pc.j <= s'.threads[r].index.i
    {
      assert LocalOk(s.flags, s.threads[r]);
      NoHolder(s, w);
    }
  }

  lemma InitInv(slots: nat, threads: nat)
    ensures HandshakeInv(Init(slots, threads))
  {}

  lemma {:induction false} HandshakeRun(s: State, sched: Schedule, s': State)
    requires HandshakeInv(s) && Reach(Handshake, s, sched, s')
    ensures HandshakeInv(s')
    decreases |sched|
  {
    if sched != [] {
      HandshakeStep(s, sched[0].0, sched[0].1);
      HandshakeRun(Next(Handshake, s, sched[0].0, sched[0].1), sched[1..], s');
    }
  }

  lemma InvExcludes(s: State)
    requires HandshakeInv(s)
    ensures Exclusion(s)
  {
    forall t: nat, u: nat | t != u && InExclusive(s, t)
      ensures !InExclusive(s, u) && !InSharedSection(s, u)
    {
      assert Holds(s, t) && !Holds(s, u);
      assert u < |s.threads| ==> LocalOk(s.flags, s.threads[u]);
    }
  }

  /** Handshake safety: in every run of any number of threads over any number of slots, with
      threads registering and exiting at any time, no thread is in a section while another is
      in an exclusive one, and a writer past slot i excludes the reader of slot i. */
  lemma HandshakeSafety(slots: nat, threads: nat, sched: Schedule, s: State)
    requires Reach(Handshake, Init(slots, threads), sched, s)
    ensures Exclusion(s)
    ensures PastExcludes(s)
  {
    InitInv(slots, threads);
    HandshakeRun(Init(slots, threads), sched, s);
    InvExcludes(s);
  }

  // ----- slot ownership

  lemma {:induction false} BaseRun(p: Protocol, s: State, sched: Schedule, s': State)
    requires BaseInv(s) && Reach(p, s, sched, s')
    ensures BaseInv(s')
    decreases |sched|
  {
    if sched != [] {
      BaseStep(p, s, sched[0].0, sched[0].1);
      BaseRun(p, Next(p, s, sched[0].0, sched[0].1), sched[1..], s');
    }
  }

  /** Slot ownership, under either protocol: every slot that is not Unregistered belongs to exactly
      one thread, and a thread in a shared section leaves it by the path it came in by. */
  lemma SlotOwnership(p: Protocol, slots: nat, threads: nat, sched: Schedule, s: State)
    requires Reach(p, Init(slots, threads), sched, s)
    ensures SlotsOwned(s)
    ensures forall t :: 0 <= t < |s.threads| && s.threads[t].pc.InShared?
                        ==> (s.threads[t].pc.viaSlot <==> s.threads[t].index.Slot?)
  {
    InitInv(slots, threads);
    BaseRun(p, Init(slots, threads), sched, s);
    forall t | 0 <= t < |s.threads| && s.threads[t].pc.InShared?
      ensures s.threads[t].pc.viaSlot <==> s.threads[t].index.Slot?
    {
      assert LocalOk(s.flags, s.threads[t]);
    }
  }

  /** The thread's one registration attempt is over. */
  predicate Settled(s: State, t: nat) {
    t < |s.threads| && !s.threads[t].index.NoEntry? && !s.threads[t].pc.RegCas?
  }

  /** Once its registration attempt is over, a thread's index never changes again. */
  lemma {:induction false} IndexNeverChanges(p: Protocol, s: State, sched: Schedule, s': State, t: nat)
    requires Reach(p, s, sched, s') && Settled(s, t)
    ensures Settled(s', t) && s'.threads[t].index == s.threads[t].index
    decreases |sched|
  {
    if sched != [] {
      IndexNeverChanges(p, Next(p, s, sched[0].0, sched[0].1), sched[1..], s', t);
    }
  }
}
