/** The recursive contention-free shared mutex of Allocators/TMP.h as a sequentially
    consistent transition system: one atomic access per step, any number of threads.
    Slot values: 0 unregistered, 1 registered and free, 2 and more held that deep. */
module RecursiveMutex {

  datatype Owner = NoOwner | OwnedBy(t: nat)

  datatype Index = NoSlot | Slot(i: nat)

  /** Where a thread is; the name says which access it performs next. */
  datatype PC =
    | Outside            // between calls
    | UseCount           // register_thread: load the reference count of the slot array
    | TrySlot(i: nat)    // register_thread: load slot i
    | TakeSlot(i: nat)   // register_thread: compare-exchange slot i from 0 to 1
    | LoadDepth          // lock_shared: load the own slot
    | Deepen(d: int)     // lock_shared, nested: store d + 1
    | Announce(d: int)   // lock_shared, first: store d + 1
    | Recheck(d: int)    // load want_x_lock after announcing
    | Retreat(d: int)    // store d
    | Spin(d: int)       // load want_x_lock until it is false
    | SpillOwner         // lock_shared without a slot: load owner_thread_id
    | SpillCas           // compare-exchange want_x_lock
    | SpillStore         // store owner_thread_id
    | SpillCount         // ++recursive_xlock_count
    | LoadHeld           // unlock_shared: load the own slot
    | Shallow(d: int)    // unlock_shared: store d - 1
    | XOwner             // lock: load owner_thread_id
    | XCas               // compare-exchange want_x_lock
    | XStore             // store owner_thread_id
    | XScan(j: nat)      // load slot j; past the last slot: ++recursive_xlock_count
    | Drop               // --recursive_xlock_count
    | ClearOwner         // store owner_thread_id back to none
    | ClearWant          // store want_x_lock := false
    | Unregister(exits: bool)   // ~unregister_t: decrement the own slot
    | Gone

  /** A thread: its position, its slot, and how often it is inside each kind of section. */
  datatype Local = Local(pc: PC, index: Index, slotDepth: int, spillDepth: int, xDepth: int)

  datatype State = State(want: bool, owner: Owner, count: int, slots: seq<int>, threads: seq<Local>)

  datatype Action = LockShared | UnlockShared | Lock | Unlock | UnregisterThread | Exit | Advance | CasFails

  type Schedule = seq<(nat, Action)>

  function Init(slots: nat, threads: nat): State {
    State(false, NoOwner, 0, seq(slots, _ => 0), seq(threads, _ => Local(Outside, NoSlot, 0, 0, 0)))
  }

  /** The calls of a well-formed client: unlocks match locks, a thread inside a shared
      section does not ask for the exclusive lock, and a thread ends outside all sections. */
  predicate Enabled(s: State, t: nat, a: Action) {
    t < |s.threads| &&
    var l := s.threads[t];
    (l.index.Slot? ==> l.index.i < |s.slots|) &&
    match l.pc
    case Outside =>
      (match a
       case LockShared => true
       case UnlockShared => l.slotDepth + l.spillDepth > 0
       case Lock => l.slotDepth + l.spillDepth == 0
       case Unlock => l.xDepth > 0
       case UnregisterThread => l.index.Slot?
       case Exit => l.slotDepth + l.spillDepth == 0 && l.xDepth == 0
       case _ => false)
    case UseCount => a.Advance?
    case TrySlot(i) => a.Advance? && i <= |s.slots|
    case TakeSlot(i) => a.Advance? && i < |s.slots|
    case LoadDepth => a.Advance? && l.index.Slot?
    case Deepen(_) => a.Advance? && l.index.Slot?
    case Announce(_) => a.Advance? && l.index.Slot?
    case Recheck(_) => a.Advance?
    case Retreat(_) => a.Advance? && l.index.Slot?
    case Spin(_) => a.Advance?
    case SpillCas => a.Advance? || a.CasFails?
    case XCas => a.Advance? || a.CasFails?
    case LoadHeld => a.Advance? && l.index.Slot?
    case Shallow(_) => a.Advance? && l.index.Slot?
    case XScan(j) => a.Advance? && j <= |s.slots|
    case Unregister(_) => a.Advance? && l.index.Slot?
    case Gone => false
    case _ => a.Advance?
  }

  /** The slot array is shared by the mutex and by every registered thread's map entry. */
  function Registered(threads: seq<Local>): nat {
    if threads == [] then 0
    else (if threads[0].index.Slot? then 1 else 0) + Registered(threads[1..])
  }

  function Put(s: State, t: nat, l: Local): State
    requires t < |s.threads|
  {
    s.(threads := s.threads[t := l])
  }

  function Go(s: State, t: nat, pc: PC): State
    requires t < |s.threads|
  {
    Put(s, t, s.threads[t].(pc := pc))
  }

  function StoreSlot(s: State, i: nat, v: int): State
    requires i < |s.slots|
  {
    s.(slots := s.slots[i := v])
  }

  /** The calls: what happens up to the first access to shared state. */
  function Call(s: State, t: nat, a: Action): State
    requires Enabled(s, t, a) && s.threads[t].pc.Outside?
  {
    var l := s.threads[t];
    match a
    case LockShared => Go(s, t, if l.index.Slot? then LoadDepth else UseCount)
    case UnlockShared =>
      if l.index.Slot? then Put(s, t, l.(pc := LoadHeld, slotDepth := l.slotDepth - 1))
      else Put(s, t, l.(pc := Drop, spillDepth := l.spillDepth - 1))
    case Lock => Go(s, t, XOwner)
    case Unlock => Put(s, t, l.(pc := Drop, xDepth := l.xDepth - 1))
    case UnregisterThread => if s.slots[l.index.i] == 1 then Go(s, t, Unregister(false)) else s
    case _ => Go(s, t, if l.index.Slot? then Unregister(true) else Gone)
  }

  /** One atomic step of thread t. */
  function Next(s: State, t: nat, a: Action): State
    requires Enabled(s, t, a)
  {
    var l := s.threads[t];
    match l.pc
    case Outside => Call(s, t, a)
    case UseCount => Go(s, t, if 1 + Registered(s.threads) <= |s.slots| then TrySlot(0) else SpillOwner)
    case TrySlot(i) =>
      Go(s, t, if i == |s.slots| then SpillOwner else if s.slots[i] == 0 then TakeSlot(i) else TrySlot(i + 1))
    case TakeSlot(i) =>
      if s.slots[i] == 0 then StoreSlot(Put(s, t, l.(pc := LoadDepth, index := Slot(i))), i, 1)
      else Go(s, t, TrySlot(i + 1))
    case LoadDepth =>
      var d := s.slots[l.index.i];
      Go(s, t, if d > 1 then Deepen(d) else Announce(d))
    case Deepen(d) => StoreSlot(Put(s, t, l.(pc := Outside, slotDepth := l.slotDepth + 1)), l.index.i, d + 1)
    case Announce(d) => StoreSlot(Go(s, t, Recheck(d)), l.index.i, d + 1)
    case Recheck(d) =>
      if s.want then Go(s, t, Retreat(d)) else Put(s, t, l.(pc := Outside, slotDepth := l.slotDepth + 1))
    case Retreat(d) => StoreSlot(Go(s, t, Spin(d)), l.index.i, d)
    case Spin(d) => if s.want then s else Go(s, t, Announce(d))
    case SpillOwner => Go(s, t, if s.owner == OwnedBy(t) then SpillCount else SpillCas)
    case SpillCas => if a.CasFails? || s.want then s else Go(s.(want := true), t, SpillStore)
    case SpillStore => Go(s.(owner := OwnedBy(t)), t, SpillCount)
    case SpillCount => Put(s, t, l.(pc := Outside, spillDepth := l.spillDepth + 1)).(count := s.count + 1)
    case LoadHeld => Go(s, t, Shallow(s.slots[l.index.i]))
    case Shallow(d) => StoreSlot(Go(s, t, Outside), l.index.i, d - 1)
    case XOwner => Go(s, t, if s.owner == OwnedBy(t) then XScan(|s.slots|) else XCas)
    case XCas => if a.CasFails? || s.want then s else Go(s.(want := true), t, XStore)
    case XStore => Go(s.(owner := OwnedBy(t)), t, XScan(0))
    case XScan(j) =>
      if j == |s.slots| then Put(s, t, l.(pc := Outside, xDepth := l.xDepth + 1)).(count := s.count + 1)
      else if s.slots[j] > 1 then s
      else Go(s, t, XScan(j + 1))
    case Drop => Go(s, t, if s.count == 1 then ClearOwner else Outside).(count := s.count - 1)
    case ClearOwner => Go(s.(owner := NoOwner), t, ClearWant)
    case ClearWant => Go(s.(want := false), t, Outside)
    case Unregister(exits) =>
      StoreSlot(Put(s, t, l.(pc := if exits then Gone else Outside, index := NoSlot)),
                l.index.i, s.slots[l.index.i] - 1)
  }

  ghost predicate Reach(s: State, sched: Schedule, s': State)
    decreases |sched|
  {
    if sched == [] then s' == s
    else Enabled(s, sched[0].0, sched[0].1) && Reach(Next(s, sched[0].0, sched[0].1), sched[1..], s')
  }

  lemma {:induction false} ReachTrans(s: State, x: Schedule, mid: State, y: Schedule, s': State)
    requires Reach(s, x, mid) && Reach(mid, y, s')
    ensures Reach(s, x + y, s')
    decreases |x|
  {
    if x == [] {
      assert x + y == y;
    } else {
      ReachTrans(Next(s, x[0].0, x[0].1), x[1..], mid, y, s');
      assert (x + y)[1..] == x[1..] + y;
    }
  }

  /** One more step at the end of a run. */
  lemma Extend(s0: State, sched: Schedule, s: State, t: nat, a: Action) returns (sched': Schedule, s': State)
    requires Reach(s0, sched, s) && Enabled(s, t, a)
    ensures sched' == sched + [(t, a)] && s' == Next(s, t, a)
    ensures Reach(s0, sched', s')
  {
    sched', s' := sched + [(t, a)], Next(s, t, a);
    assert Reach(s', [(t, a)][1..], s');
    ReachTrans(s0, sched, s, [(t, a)], s');
  }

  // ----- what the states mean

  predicate InExclusive(s: State, t: nat) {
    t < |s.threads| && s.threads[t].xDepth > 0
  }

  predicate InSharedSection(s: State, t: nat) {
    t < |s.threads| && s.threads[t].slotDepth + s.threads[t].spillDepth > 0
  }

  ghost predicate Exclusion(s: State) {
    forall t: nat, u: nat :: t != u && InExclusive(s, t) ==> !InExclusive(s, u) && !InSharedSection(s, u)
  }

  predicate Owns(s: State, t: nat, i: nat) {
    t < |s.threads| && s.threads[t].index == Slot(i)
  }

  predicate HoldsLocal(l: Local) {
    || l.xDepth + l.spillDepth > 0
    || l.pc.SpillStore? || l.pc.SpillCount? || l.pc.XStore? || l.pc.XScan?
    || l.pc.Drop? || l.pc.ClearOwner? || l.pc.ClearWant?
  }

  /** The threads that have set want_x_lock. */
  predicate Holds(s: State, t: nat) {
    t < |s.threads| && HoldsLocal(s.threads[t])
  }

  /** How many slots a thread has scanned as a writer. */
  function Past(s: State, t: nat): nat
    requires t < |s.threads|
  {
    if s.threads[t].xDepth > 0 then |s.slots|
    else if s.threads[t].pc.XScan? then s.threads[t].pc.j
    else 0
  }

  /** The value in a thread's own slot. */
  predicate SlotFits(l: Local, v: int) {
    match l.pc
    case Deepen(d) => l.slotDepth > 0 && d == v == 1 + l.slotDepth
    case Announce(d) => l.slotDepth == 0 && d == v == 1
    case Spin(d) => l.slotDepth == 0 && d == v == 1
    case Recheck(d) => l.slotDepth == 0 && d == 1 && v == 2
    case Retreat(d) => l.slotDepth == 0 && d == 1 && v == 2
    case LoadHeld => v == 2 + l.slotDepth
    case Shallow(d) => d == v == 2 + l.slotDepth
    case Unregister(_) => v == 1 && l.slotDepth == 0
    case _ => v == 1 + l.slotDepth
  }

  predicate InSlotPath(pc: PC) {
    pc.LoadDepth? || pc.Deepen? || pc.Announce? || pc.Recheck? || pc.Retreat? || pc.Spin?
  }

  predicate LocalOk(slots: seq<int>, l: Local) {
    && l.slotDepth >= 0 && l.spillDepth >= 0 && l.xDepth >= 0
    && (l.slotDepth > 0 ==> l.xDepth == 0 && l.spillDepth == 0)
    && (l.pc.TrySlot? ==> l.pc.i <= |slots|)
    && (l.pc.TakeSlot? ==> l.pc.i < |slots|)
    && (l.pc.XScan? ==> l.pc.j <= |slots| && (l.pc.j < |slots| ==> l.xDepth == 0))
    && (l.pc.XOwner? || l.pc.XCas? || l.pc.XStore? || l.pc.XScan? ==> l.slotDepth + l.spillDepth == 0)
    && (l.pc.XCas? || l.pc.XStore? || l.pc.SpillCas? || l.pc.SpillStore? || l.pc.ClearOwner? || l.pc.ClearWant?
        ==> l.xDepth + l.spillDepth == 0)
    && (l.pc.Unregister? && l.pc.exits ==> l.xDepth == 0)
    && (l.pc.Gone? ==> l.xDepth + l.spillDepth == 0 && l.index.NoSlot?)
    && match l.index
       case NoSlot =>
         && l.slotDepth == 0
         && !InSlotPath(l.pc) && !l.pc.LoadHeld? && !l.pc.Shallow? && !l.pc.Unregister?
       case Slot(i) =>
         && i < |slots| && SlotFits(l, slots[i])
         && (l.spillDepth > 0 ==> InSlotPath(l.pc))
         && !l.pc.UseCount? && !l.pc.TrySlot? && !l.pc.TakeSlot?
         && !l.pc.SpillOwner? && !l.pc.SpillCas? && !l.pc.SpillStore? && !l.pc.SpillCount?
  }

  ghost predicate SlotsOwned(s: State) {
    && (forall i :: 0 <= i < |s.slots| && s.slots[i] != 0 ==> exists t: nat :: Owns(s, t, i))
    && (forall t: nat, u: nat, i: nat :: Owns(s, t, i) && Owns(s, u, i) ==> t == u)
  }

  /** want_x_lock, owner_thread_id and recursive_xlock_count describe the one holder, if any:
      the count is the holder's nesting depth. */
  ghost predicate HolderOk(s: State) {
    && (s.want <==> exists t: nat :: Holds(s, t))
    && (forall t: nat, u: nat :: Holds(s, t) && Holds(s, u) ==> t == u)
    && (!s.want ==> s.count == 0 && s.owner == NoOwner)
    && (forall t: nat :: Holds(s, t) ==>
         var l := s.threads[t];
         && s.count == l.xDepth + l.spillDepth + (if l.pc.Drop? then 1 else 0)
         && s.owner == (if l.pc.SpillStore? || l.pc.XStore? || l.pc.ClearWant? then NoOwner else OwnedBy(t)))
  }

  predicate DeepIn(l: Local) {
    l.slotDepth > 0 && l.index.Slot?
  }

  /** A writer past slot i, up to its last unlock, excludes the reader of slot i. */
  ghost predicate PastExcludes(s: State) {
    forall w: nat, r: nat :: w < |s.threads| && r < |s.threads| && DeepIn(s.threads[r])
      ==> Past(s, w) <= s.threads[r].index.i
  }

  ghost predicate Inv(s: State) {
    && (forall t :: 0 <= t < |s.threads| ==> LocalOk(s.slots, s.threads[t]))
    && SlotsOwned(s)
    && HolderOk(s)
    && PastExcludes(s)
  }

  // ----- every step keeps the invariant

  lemma OnlyOwnThread(s: State, t: nat, a: Action)
    requires Enabled(s, t, a)
    ensures var s' := Next(s, t, a);
            && |s'.threads| == |s.threads| && |s'.slots| == |s.slots|
            && (forall u :: 0 <= u < |s.threads| && u != t ==> s'.threads[u] == s.threads[u])
            && (forall i :: 0 <= i < |s.slots| && s'.slots[i] != s.slots[i]
                            ==> s.threads[t].index == Slot(i) || (s.slots[i] == 0 && s'.threads[t].index == Slot(i)))
  {}

  /** What the holder's record says about thread t alone. */
  predicate RecordFits(s: State, t: nat)
    requires t < |s.threads|
  {
    var l := s.threads[t];
    if HoldsLocal(l) then
      && s.want
      && s.count == l.xDepth + l.spillDepth + (if l.pc.Drop? then 1 else 0)
      && s.owner == (if l.pc.SpillStore? || l.pc.XStore? || l.pc.ClearWant? then NoOwner else OwnedBy(t))
    else
      s.owner != OwnedBy(t)
  }

  lemma RecordFitsAll(s: State, t: nat)
    requires Inv(s) && t < |s.threads|
    ensures RecordFits(s, t)
    ensures HoldsLocal(s.threads[t]) ==> forall u: nat :: u != t ==> !Holds(s, u)
    ensures !s.want ==> forall u: nat :: !Holds(s, u)
  {
    if Holds(s, t) {
    } else if s.want {
      var u: nat :| Holds(s, u);
    }
  }

  lemma LocalStepCall(s: State, t: nat, a: Action)
    requires Enabled(s, t, a) && LocalOk(s.slots, s.threads[t]) && RecordFits(s, t)
    requires s.threads[t].pc.Outside?
    ensures LocalOk(Next(s, t, a).slots, Next(s, t, a).threads[t])
  {}

  lemma LocalStepSlot(s: State, t: nat, a: Action)
    requires Enabled(s, t, a) && LocalOk(s.slots, s.threads[t]) && RecordFits(s, t)
    requires InSlotPath(s.threads[t].pc) || s.threads[t].pc.LoadHeld? || s.threads[t].pc.Shallow?
    ensures LocalOk(Next(s, t, a).slots, Next(s, t, a).threads[t])
  {}

  predicate InExclusivePath(pc: PC) {
    pc.XOwner? || pc.XCas? || pc.XStore? || pc.XScan?
  }

  predicate InExit(pc: PC) {
    pc.Drop? || pc.ClearOwner? || pc.ClearWant? || pc.Unregister?
  }

  lemma LocalStepExclusive(s: State, t: nat, a: Action)
    requires Enabled(s, t, a) && LocalOk(s.slots, s.threads[t]) && RecordFits(s, t)
    requires InExclusivePath(s.threads[t].pc)
    ensures LocalOk(Next(s, t, a).slots, Next(s, t, a).threads[t])
  {}

  lemma LocalStepExit(s: State, t: nat, a: Action)
    requires Enabled(s, t, a) && LocalOk(s.slots, s.threads[t]) && RecordFits(s, t)
    requires InExit(s.threads[t].pc)
    ensures LocalOk(Next(s, t, a).slots, Next(s, t, a).threads[t])
  {}

  lemma LocalStepSpill(s: State, t: nat, a: Action)
    requires Enabled(s, t, a) && LocalOk(s.slots, s.threads[t]) && RecordFits(s, t)
    requires !s.threads[t].pc.Outside? && !InSlotPath(s.threads[t].pc) && !InExclusivePath(s.threads[t].pc)
    requires !InExit(s.threads[t].pc)
    requires !s.threads[t].pc.LoadHeld? && !s.threads[t].pc.Shallow?
    ensures LocalOk(Next(s, t, a).slots, Next(s, t, a).threads[t])
  {}

  lemma LocalStep(s: State, t: nat, a: Action)
    requires Enabled(s, t, a) && LocalOk(s.slots, s.threads[t]) && RecordFits(s, t)
    ensures LocalOk(Next(s, t, a).slots, Next(s, t, a).threads[t])
  {
    var pc := s.threads[t].pc;
    if pc.Outside? {
      LocalStepCall(s, t, a);
    } else if InSlotPath(pc) || pc.LoadHeld? || pc.Shallow? {
      LocalStepSlot(s, t, a);
    } else if InExclusivePath(pc) {
      LocalStepExclusive(s, t, a);
    } else if InExit(pc) {
      LocalStepExit(s, t, a);
    } else {
      LocalStepSpill(s, t, a);
    }
  }

  lemma LocalsStep(s: State, t: nat, a: Action)
    requires Inv(s) && Enabled(s, t, a)
    ensures var s' := Next(s, t, a);
            forall u :: 0 <= u < |s'.threads| ==> LocalOk(s'.slots, s'.threads[u])
  {
    var s' := Next(s, t, a);
    OnlyOwnThread(s, t, a);
    RecordFitsAll(s, t);
    LocalStep(s, t, a);
    forall u | 0 <= u < |s'.threads| && u != t
      ensures LocalOk(s'.slots, s'.threads[u])
    {
      assert LocalOk(s.slots, s.threads[u]);
      if s.threads[u].index.Slot? {
        assert Owns(s, u, s.threads[u].index.i);
        assert !Owns(s, t, s.threads[u].index.i);
      }
    }
  }

  /** A step keeps the thread's slot, takes a free slot, or gives the slot back as 0. */
  lemma IndexStep(s: State, t: nat, a: Action)
    requires Enabled(s, t, a) && LocalOk(s.slots, s.threads[t])
    ensures var s' := Next(s, t, a);
            && |s'.threads| == |s.threads| && |s'.slots| == |s.slots|
            && var i, i' := s.threads[t].index, s'.threads[t].index;
               || i' == i
               || (i.NoSlot? && i'.Slot? && i'.i < |s.slots| && s.slots[i'.i] == 0)
               || (i.Slot? && i'.NoSlot? && i.i < |s.slots| && s'.slots[i.i] == 0)
  {}

  lemma SlotsStep(s: State, t: nat, a: Action)
    requires Inv(s) && Enabled(s, t, a)
    ensures SlotsOwned(Next(s, t, a))
  {
    var s' := Next(s, t, a);
    assert LocalOk(s.slots, s.threads[t]);
    OnlyOwnThread(s, t, a);
    IndexStep(s, t, a);
    SlotsOwnedStep(s, s', t);
  }

  lemma SlotsOwnedStep(s: State, s': State, t: nat)
    requires SlotsOwned(s) && t < |s.threads| == |s'.threads| && |s'.slots| == |s.slots|
    requires forall u :: 0 <= u < |s.threads| ==> LocalOk(s.slots, s.threads[u])
    requires forall u :: 0 <= u < |s.threads| && u != t ==> s'.threads[u] == s.threads[u]
    requires forall i :: 0 <= i < |s.slots| && s'.slots[i] != s.slots[i]
                         ==> s.threads[t].index == Slot(i) || (s.slots[i] == 0 && s'.threads[t].index == Slot(i))
    requires var i, i' := s.threads[t].index, s'.threads[t].index;
             || i' == i
             || (i.NoSlot? && i'.Slot? && i'.i < |s.slots| && s.slots[i'.i] == 0)
             || (i.Slot? && i'.NoSlot? && i.i < |s.slots| && s'.slots[i.i] == 0)
    ensures SlotsOwned(s')
  {
    assert forall u: nat, i: nat :: u != t ==> (Owns(s', u, i) <==> Owns(s, u, i));
    forall u: nat, i: nat | Owns(s, u, i)
      ensures i < |s.slots| && s.slots[i] >= 1
    {
      assert LocalOk(s.slots, s.threads[u]) && SlotFits(s.threads[u], s.slots[i]);
    }
    hide LocalOk;
    assert forall u: nat, i: nat :: Owns(s', u, i) && !Owns(s, u, i) ==> u == t && i < |s.slots| && s.slots[i] == 0;
    forall u: nat, v: nat, i: nat | Owns(s', u, i) && Owns(s', v, i)
      ensures u == v
    {
      assert Owns(s, u, i) || Owns(s, v, i) ==> i < |s.slots|;
    }
    forall i: nat | i < |s'.slots| && s'.slots[i] != 0
      ensures exists u: nat :: Owns(s', u, i)
    {
      assert s.slots[i] == 0 ==> Owns(s, t, i) || Owns(s', t, i);
      if !Owns(s', t, i) {
        var u: nat :| Owns(s, u, i);
        assert Owns(s', u, i);
      }
    }
  }

  /** What a step may do to the record of the holder. */
  ghost predicate RecordMoves(s: State, s': State, t: nat)
    requires t < |s.threads| && t < |s'.threads|
  {
    && RecordFits(s', t)
    && (HoldsLocal(s.threads[t]) && !HoldsLocal(s'.threads[t]) ==> !s'.want && s'.count == 0 && s'.owner == NoOwner)
    && (!HoldsLocal(s.threads[t]) && HoldsLocal(s'.threads[t]) ==> !s.want)
    && (!HoldsLocal(s.threads[t]) && !HoldsLocal(s'.threads[t])
        ==> s'.want == s.want && s'.count == s.count && s'.owner == s.owner)
  }

  lemma RecordStepSlot(s: State, t: nat, a: Action)
    requires Enabled(s, t, a) && LocalOk(s.slots, s.threads[t]) && RecordFits(s, t)
    requires !s.want ==> s.count == 0 && s.owner == NoOwner
    requires var pc := s.threads[t].pc; InSlotPath(pc) || pc.LoadHeld? || pc.Shallow? || pc.Outside?
    ensures t < |Next(s, t, a).threads| && RecordMoves(s, Next(s, t, a), t)
  {}

  lemma RecordStepFlag(s: State, t: nat, a: Action)
    requires Enabled(s, t, a) && LocalOk(s.slots, s.threads[t]) && RecordFits(s, t)
    requires !s.want ==> s.count == 0 && s.owner == NoOwner
    requires InExclusivePath(s.threads[t].pc) || InExit(s.threads[t].pc)
    ensures t < |Next(s, t, a).threads| && RecordMoves(s, Next(s, t, a), t)
  {}

  lemma RecordStepSpill(s: State, t: nat, a: Action)
    requires Enabled(s, t, a) && LocalOk(s.slots, s.threads[t]) && RecordFits(s, t)
    requires !s.want ==> s.count == 0 && s.owner == NoOwner
    requires var pc := s.threads[t].pc; !InSlotPath(pc) && !pc.LoadHeld? && !pc.Shallow? && !pc.Outside?
    requires !InExclusivePath(s.threads[t].pc) && !InExit(s.threads[t].pc)
    ensures t < |Next(s, t, a).threads| && RecordMoves(s, Next(s, t, a), t)
  {}

  /** The same, for the thread that moves. */
  lemma RecordStep(s: State, t: nat, a: Action)
    requires Enabled(s, t, a) && LocalOk(s.slots, s.threads[t]) && RecordFits(s, t)
    requires !s.want ==> s.count == 0 && s.owner == NoOwner
    ensures t < |Next(s, t, a).threads| && RecordMoves(s, Next(s, t, a), t)
  {
    hide Next, RecordMoves, LocalOk, RecordFits;
    var pc := s.threads[t].pc;
    if InSlotPath(pc) || pc.LoadHeld? || pc.Shallow? || pc.Outside? {
      RecordStepSlot(s, t, a);
    } else if InExclusivePath(pc) || InExit(pc) {
      RecordStepFlag(s, t, a);
    } else {
      RecordStepSpill(s, t, a);
    }
  }

  lemma HolderStep(s: State, t: nat, a: Action)
    requires Inv(s) && Enabled(s, t, a)
    ensures HolderOk(Next(s, t, a))
  {
    var s' := Next(s, t, a);
    OnlyOwnThread(s, t, a);
    RecordFitsAll(s, t);
    assert LocalOk(s.slots, s.threads[t]);
    RecordStep(s, t, a);
    assert forall u: nat :: u != t ==> (Holds(s', u) <==> Holds(s, u));
    if HoldsLocal(s'.threads[t]) {
      assert Holds(s', t);
    } else if HoldsLocal(s.threads[t]) {
      assert !s'.want;
    } else if s.want {
      var u: nat :| Holds(s, u);
      assert Holds(s', u);
    }
  }

  /** A thread's scan advances only over a slot it has read as at most 1, or when it already has the lock. */
  lemma PastGrows(s: State, t: nat, a: Action)
    requires Enabled(s, t, a) && LocalOk(s.slots, s.threads[t]) && RecordFits(s, t)
    ensures var s' := Next(s, t, a);
            && |s'.slots| == |s.slots| && |s'.threads| == |s.threads|
            && (Past(s', t) <= Past(s, t)
                || (Past(s', t) == Past(s, t) + 1 && Past(s, t) < |s.slots| && s.slots[Past(s, t)] <= 1))
  {}

  lemma DeepGrows(s: State, t: nat, a: Action)
    requires Enabled(s, t, a) && LocalOk(s.slots, s.threads[t]) && RecordFits(s, t)
    ensures var s' := Next(s, t, a);
            |s'.threads| == |s.threads| &&
            (DeepIn(s'.threads[t]) ==> s'.threads[t].index == s.threads[t].index
                                       && (DeepIn(s.threads[t]) || (!s.want && !HoldsLocal(s'.threads[t]))))
  {}

  lemma PastStep(s: State, t: nat, a: Action)
    requires Inv(s) && Enabled(s, t, a)
    ensures PastExcludes(Next(s, t, a))
  {
    hide Next;
    var s' := Next(s, t, a);
    OnlyOwnThread(s, t, a);
    RecordFitsAll(s, t);
    LocalStep(s, t, a);
    assert LocalOk(s.slots, s.threads[t]);
    PastGrows(s, t, a);
    DeepGrows(s, t, a);
    forall w: nat, r: nat | w < |s'.threads| && r < |s'.threads| && DeepIn(s'.threads[r])
      ensures Past(s', w) <= s'.threads[r].index.i
    {
      assert LocalOk(s.slots, s.threads[r]);
      assert !Holds(s, w) ==> Past(s, w) == 0;
      if DeepIn(s.threads[r]) {
        assert Past(s, w) <= s.threads[r].index.i;
      } else {
        assert r == t && !Holds(s, w);
      }
    }
  }

  lemma Step(s: State, t: nat, a: Action)
    requires Inv(s) && Enabled(s, t, a)
    ensures Inv(Next(s, t, a))
  {
    LocalsStep(s, t, a);
    SlotsStep(s, t, a);
    HolderStep(s, t, a);
    PastStep(s, t, a);
  }

  lemma InitInv(slots: nat, threads: nat)
    ensures Inv(Init(slots, threads))
  {}

  lemma {:induction false} Run(s: State, sched: Schedule, s': State)
    requires Inv(s) && Reach(s, sched, s')
    ensures Inv(s')
    decreases |sched|
  {
    if sched != [] {
      Step(s, sched[0].0, sched[0].1);
      Run(Next(s, sched[0].0, sched[0].1), sched[1..], s');
    }
  }

  lemma InvExcludes(s: State)
    requires Inv(s)
    ensures Exclusion(s)
  {
    forall t: nat, u: nat | t != u && InExclusive(s, t)
      ensures !InExclusive(s, u) && !InSharedSection(s, u)
    {
      assert Holds(s, t) && !Holds(s, u);
      if u < |s.threads| {
        assert LocalOk(s.slots, s.threads[u]);
        assert Past(s, t) == |s.slots|;
      }
    }
  }

  /** Recursive lock safety, in every run of any number of threads over any number of slots: no
      thread is inside an exclusive section while another is inside any section; between calls
      recursive_xlock_count is the holder's nesting depth (0 when the lock is not wanted) and a
      registered thread's slot holds 1 plus its own shared nesting depth. */
  lemma RecursiveSafety(slots: nat, threads: nat, sched: Schedule, s: State)
    requires Reach(Init(slots, threads), sched, s)
    ensures Exclusion(s)
    ensures forall t: nat :: Holds(s, t) && s.threads[t].pc.Outside? ==>
              s.count == s.threads[t].xDepth + s.threads[t].spillDepth && s.owner == OwnedBy(t)
    ensures !s.want ==> s.count == 0
    ensures forall t :: 0 <= t < |s.threads| && s.threads[t].pc.Outside? && s.threads[t].index.Slot? ==>
              s.threads[t].index.i < |s.slots| && s.slots[s.threads[t].index.i] == 1 + s.threads[t].slotDepth
  {
    InitInv(slots, threads);
    Run(Init(slots, threads), sched, s);
    InvExcludes(s);
    forall t | 0 <= t < |s.threads| && s.threads[t].pc.Outside? && s.threads[t].index.Slot?
      ensures s.threads[t].index.i < |s.slots| && s.slots[s.threads[t].index.i] == 1 + s.threads[t].slotDepth
    {
      assert LocalOk(s.slots, s.threads[t]);
    }
  }
}
