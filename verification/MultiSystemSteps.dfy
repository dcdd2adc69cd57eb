/** The caches of all threads at once, with calls overlapping on every one of them: each step is a step of one
    cache. Which thread is at work in which cache is left open, so a thread may be in several at a time. */
module MultiSystemSteps {
  import opened Common
  import opened Dispatcher
  import opened MultiCache
  import opened MultiCacheProofs
  import opened MultiSystem
  import Steps = MultiCacheSteps
  import Proofs = MultiCacheStepProofs
  import Inter = MultiCacheInterleavings
  import Interface = MultiInterface
  import CacheRuns = MultiCacheRuns

  /** A thread's bucket, each of its caches with the calls under way on it. */
  datatype Owner = Owner(id: nat, worlds: seq<Steps.World>)

  /** A step of cache i of bucket b, or the registration of a thread, with the blocks its caches get. */
  datatype Action = In(b: nat, i: nat, a: Steps.Action) | Register(id: nat, mems: seq<int>, threads: nat)

  /** handed: the blocks that the dispatcher has given out. */
  datatype System = System(owners: seq<Owner>, handed: multiset<int>)

  ghost predicate WorldsOk(o: Owner) {
    |o.worlds| == NUM_CACHES && forall i :: 0 <= i < NUM_CACHES ==> Steps.SectionOk(o.worlds[i])
  }

  /** The bucket with every section completed and every call counted. */
  ghost function SettledBucket(o: Owner): (r: Bucket)
    requires WorldsOk(o)
    ensures r.id == o.id && |r.caches| == NUM_CACHES
    ensures forall i :: 0 <= i < NUM_CACHES ==> r.caches[i] == Steps.Settled(o.worlds[i])
  {
    Bucket(o.id, seq(NUM_CACHES, i requires 0 <= i < NUM_CACHES => Steps.Settled(o.worlds[i])))
  }

  ghost predicate AllOk(os: seq<Owner>) {
    forall b :: 0 <= b < |os| ==> WorldsOk(os[b])
  }

  ghost function SettledAll(os: seq<Owner>): (r: seq<Bucket>)
    requires AllOk(os)
    ensures |r| == |os| && forall b :: 0 <= b < |r| ==> r[b] == SettledBucket(os[b])
  {
    seq(|os|, b requires 0 <= b < |os| => SettledBucket(os[b]))
  }

  ghost predicate Good(s: System) {
    && AllOk(s.owners)
    && (forall b, i :: 0 <= b < |s.owners| && 0 <= i < NUM_CACHES ==> Steps.Good(s.owners[b].worlds[i]))
    && SystemOk(SettledAll(s.owners), s.handed)
  }

  ghost predicate LiveNow(s: System, p: int)
    requires AllOk(s.owners)
  {
    SystemLive(SettledAll(s.owners), p)
  }

  predicate Place(s: System, b: nat, i: nat) {
    b < |s.owners| && i < |s.owners[b].worlds|
  }

  /** Whether a step asks the dispatcher for a block. */
  predicate Asks(w: Steps.World, a: Steps.Action) {
    a.Refill? && Shape(w.cache) && Steps.Adds(w.cache)
  }

  ghost predicate Enabled(s: System, a: Action) {
    match a
    case In(b, i, act) => Place(s, b, i) && Steps.Enabled(s.owners[b].worlds[i], act)
    case Register(id, mems, _) => |mems| == NUM_CACHES && forall b :: 0 <= b < |s.owners| ==> s.owners[b].id != id
  }

  /** Clients free live blocks; the dispatcher gives out blocks that are not out and overlap none. */
  ghost predicate Legal(s: System, a: Action)
    requires Enabled(s, a)
  {
    match a
    case In(b, i, act) =>
      var w := s.owners[b].worlds[i];
      && (Asks(w, act) ==> HandedOk(s.handed + multiset{act.mem}))
      && (act.Dealloc? && Shape(w.cache) && Find(w.cache, act.p, 0).Some? ==> Live(w.cache, act.p))
    case Register(_, mems, _) => HandedOk(s.handed + multiset(mems))
  }

  function NewOwner(id: nat, mems: seq<int>, threads: nat): Owner
    requires |mems| == NUM_CACHES
  {
    Tables();
    Owner(id, seq(NUM_CACHES, i requires 0 <= i < NUM_CACHES =>
                    Steps.Start(BLOCKS_PER_SLAB[i], CACHE_SIZES[i], mems[i], threads)))
  }

  function PutWorld(os: seq<Owner>, b: nat, i: nat, w: Steps.World): seq<Owner>
    requires b < |os| && i < |os[b].worlds|
  {
    os[b := os[b].(worlds := os[b].worlds[i := w])]
  }

  ghost function Next(s: System, a: Action): Option<System>
    requires Enabled(s, a)
  {
    match a
    case In(b, i, act) =>
      var w := s.owners[b].worlds[i];
      (match Steps.Next(w, act)
       case None => None
       case Some(w') =>
         Some(System(PutWorld(s.owners, b, i, w'),
                     if Asks(w, act) then s.handed + multiset{act.mem} else s.handed)))
    case Register(id, mems, threads) =>
      Some(System(s.owners + [NewOwner(id, mems, threads)], s.handed + multiset(mems)))
  }

  /** The condition of the step of the one cache. */
  ghost predicate Fits(s: System, a: Action)
    requires Enabled(s, a)
  {
    a.In? ==> Steps.Fits(s.owners[a.b].worlds[a.i], a.a)
  }

  /** The live blocks of all caches after a step: with the one whose address allocate computed, when it pops; without
      the one freed, when its owner was found. */
  ghost predicate LiveFollows(s: System, a: Action, s': System)
    requires Enabled(s, a) && AllOk(s.owners) && AllOk(s'.owners)
  {
    if a.In? && a.a.Dealloc? then
      var w := s.owners[a.b].worlds[a.i];
      forall q :: LiveNow(s', q) <==> LiveNow(s, q) && !(q == a.a.p && Shape(w.cache) && Find(w.cache, a.a.p, 0).Some?)
    else if a.In? && a.a.Advance? && s.owners[a.b].worlds[a.i].threads[a.a.t].Last? then
      var w := s.owners[a.b].worlds[a.i];
      var p := w.threads[a.a.t].mem + w.threads[a.a.t].idx * w.cache.blockSize;
      !LiveNow(s, p) && forall q :: LiveNow(s', q) <==> LiveNow(s, q) || q == p
    else
      forall q :: LiveNow(s', q) <==> LiveNow(s, q)
  }

  // ----- what a step of one cache does to its memory

  /** The blocks a cache manages after a step: those before, and the one asked for. */
  ghost predicate PtrsFollow(w: Steps.World, a: Steps.Action, w': Steps.World)
    requires Steps.SectionOk(w) && Steps.SectionOk(w')
  {
    multiset(Steps.Settled(w').ptrs)
    <= multiset(Steps.Settled(w).ptrs) + if Asks(w, a) then multiset{a.mem} else multiset{}
  }

  lemma RefillPtrs(w: Steps.World, mem: int, moved: bool)
    requires Steps.Good(w) && Steps.Enabled(w, Steps.Refill(mem, moved)) && Shape(w.cache)
    requires Steps.SectionOk(Steps.RefillStep(w, mem, moved))
    ensures PtrsFollow(w, Steps.Refill(mem, moved), Steps.RefillStep(w, mem, moved))
  {
    hide Inv;
    var s := w.cache;
    if Steps.Adds(s) {
      var s1 := AddCache(s, mem);
      SwapElements(s1.ptrs, 0, |s1.ptrs| - 1);
    }
    hide Swap;
  }

  lemma ExclusivePtrs(w: Steps.World, t: nat)
    requires Steps.Good(w) && Steps.Enabled(w, Steps.Advance(t)) && Steps.WantsExclusive(w.threads[t])
    requires Steps.AdvanceStep(w, t).Some? && Steps.Good(Steps.AdvanceStep(w, t).value)
    ensures PtrsFollow(w, Steps.Advance(t), Steps.AdvanceStep(w, t).value)
  {
    hide Inv, Rotate, SwapPop, Removed, Steps.Underway, Steps.CompletedBy;
    Proofs.GoodShapes(w);
    var s, it := w.cache, w.threads[t].it;
    if w.threads[t].Moving? {
      Proofs.SpliceAtStart(s, it, Steps.NOTHING, 0);
      RotateElements(s.ptrs, s.actMem, it);
    } else {
      Proofs.GiveAtStart(s, it, Steps.NOTHING, 0);
      SwapPopElements(s.ptrs, it);
      RemoveElements(s.ptrs, it);
    }
  }

  lemma SamePtrs(w: Steps.World, w': Steps.World)
    requires Steps.SectionOk(w) && Steps.SectionOk(w') && w'.section == w.section && w'.cache.ptrs == w.cache.ptrs
    ensures Steps.Settled(w').ptrs == Steps.Settled(w).ptrs
  {}

  lemma StepPtrs(w: Steps.World, a: Steps.Action)
    requires Steps.Good(w) && Steps.Enabled(w, a) && Steps.Next(w, a).Some? && Steps.Good(Steps.Next(w, a).value)
    ensures PtrsFollow(w, a, Steps.Next(w, a).value)
  {
    hide Inv, Steps.Settled, Steps.Underway, Steps.RefillStep, Push, Find, Steps.PopAt;
    var w' := Steps.Next(w, a).value;
    if a.Refill? {
      RefillPtrs(w, a.mem, a.moved);
    } else if a.Advance? && Steps.WantsExclusive(w.threads[a.t]) {
      ExclusivePtrs(w, a.t);
    } else if a.Advance? && w.threads[a.t].Inside? {
      Proofs.InsideStepKeeps(w, a.t);
    } else {
      OtherStep(w, a);
      SamePtrs(w, w');
    }
  }

  lemma OtherStep(w: Steps.World, a: Steps.Action)
    requires Steps.Enabled(w, a) && Steps.Next(w, a).Some? && !a.Refill?
    requires a.Advance? ==> !Steps.WantsExclusive(w.threads[a.t]) && !w.threads[a.t].Inside?
    ensures var w' := Steps.Next(w, a).value; w'.section == w.section && w'.cache.ptrs == w.cache.ptrs
  {
    hide Find;
  }

  // ----- what it does to the system

  lemma SettledPut(os: seq<Owner>, b: nat, i: nat, w: Steps.World)
    requires AllOk(os) && b < |os| && i < NUM_CACHES && Steps.SectionOk(w)
    ensures AllOk(PutWorld(os, b, i, w))
    ensures SettledAll(PutWorld(os, b, i, w)) == PutCache(SettledAll(os), b, i, Steps.Settled(w))
  {
    hide Steps.SectionOk, Steps.Settled;
    var os' := PutWorld(os, b, i, w);
    assert forall d :: 0 <= d < |os| && d != b ==> os'[d] == os[d];
    assert WorldsOk(os'[b]);
    assert SettledBucket(os'[b]).caches == SettledBucket(os[b]).caches[i := Steps.Settled(w)];
    forall d | 0 <= d < |os|
      ensures SettledAll(os')[d] == PutCache(SettledAll(os), b, i, Steps.Settled(w))[d]
    {}
  }

  lemma BlockIsNew(handed: multiset<int>, mem: int)
    requires HandedOk(handed + multiset{mem})
    ensures forall x :: x in handed ==> BlocksApart(x, mem)
  {
    var all := handed + multiset{mem};
    assert all[mem] == handed[mem] + 1;
    forall x | x in handed
      ensures BlocksApart(x, mem)
    {
      assert x in all && mem in all;
    }
  }

  /** The step of the one cache is legal there. */
  lemma LegalThere(s: System, b: nat, i: nat, act: Steps.Action)
    requires Good(s) && Enabled(s, In(b, i, act)) && Legal(s, In(b, i, act))
    ensures i < NUM_CACHES && Steps.Good(s.owners[b].worlds[i]) && Steps.Legal(s.owners[b].worlds[i], act)
  {
    hide Steps.Good, SystemOk, Live, Fresh, HandedOk, Steps.Settled;
    var w := s.owners[b].worlds[i];
    assert WorldsOk(s.owners[b]);
    if Asks(w, act) {
      BlockIsNew(s.handed, act.mem);
      NextBlockFresh(SettledAll(s.owners), s.handed, b, i, act.mem);
      Proofs.FreshSettled(w, act.mem);
    }
  }

  /** The whole system after the step of one cache that kept that cache good. */
  lemma InKeeps(s: System, b: nat, i: nat, act: Steps.Action, w': Steps.World, handed': multiset<int>)
    requires Good(s) && Enabled(s, In(b, i, act)) && i < NUM_CACHES
    requires Steps.Good(w') && PtrsFollow(s.owners[b].worlds[i], act, w')
    requires w'.cache.count == s.owners[b].worlds[i].cache.count
    requires w'.cache.blockSize == s.owners[b].worlds[i].cache.blockSize
    requires HandedOk(handed')
    requires handed' == if Asks(s.owners[b].worlds[i], act) then s.handed + multiset{act.mem} else s.handed
    ensures Good(System(PutWorld(s.owners, b, i, w'), handed'))
  {
    hide Inv, HandedOk, SystemPtrs, Steps.SectionOk, Steps.Settled;
    var w := s.owners[b].worlds[i];
    var bs, c' := SettledAll(s.owners), Steps.Settled(w');
    SettledPut(s.owners, b, i, w');
    SettledSizes(w);
    SettledSizes(w');
    assert BucketOk(bs[b]);
    assert multiset(c'.ptrs) - multiset(bs[b].caches[i].ptrs) <= handed' - s.handed;
    PutCacheKeeps(bs, s.handed, b, i, c', handed');
  }

  lemma SettledSizes(w: Steps.World)
    requires Steps.SectionOk(w)
    ensures Steps.Settled(w).count == w.cache.count && Steps.Settled(w).blockSize == w.cache.blockSize
  {}

  /** The live blocks of the system follow those of the one cache: no other cache holds the address. */
  lemma InLive(s: System, b: nat, i: nat, act: Steps.Action, s': System, w': Steps.World)
    requires Good(s) && Enabled(s, In(b, i, act)) && Legal(s, In(b, i, act)) && i < NUM_CACHES
    requires Good(s') && s'.owners == PutWorld(s.owners, b, i, w')
    requires Steps.Good(s.owners[b].worlds[i]) && Proofs.Keeps(s.owners[b].worlds[i], act, w')
    ensures LiveFollows(s, In(b, i, act), s')
  {
    hide Inv, HandedOk, SystemPtrs, CachesPtrs, Steps.SectionOk, Steps.Settled, Live, Find, Holds;
    var w := s.owners[b].worlds[i];
    var bs, bs' := SettledAll(s.owners), SettledAll(s'.owners);
    var c, c' := Steps.Settled(w), Steps.Settled(w');
    SettledPut(s.owners, b, i, w');
    GoodIsInv(w);
    GoodIsInv(w');
    SettledSizes(w);
    forall q
      ensures LiveNow(s', q) <==> Steps.LiveIn(w', q) || exists d: nat, j: nat :: (d != b || j != i) && LiveAt(bs, d, j, q)
      ensures LiveNow(s, q) <==> Steps.LiveIn(w, q) || exists d: nat, j: nat :: (d != b || j != i) && LiveAt(bs, d, j, q)
    {
      PutCacheLive(bs, b, i, c', q);
    }
    if act.Dealloc? && Shape(w.cache) && Find(w.cache, act.p, 0).Some? {
      Proofs.LiveSettled(w);
      NowhereElse(bs, s.handed, b, i, act.p);
    } else if act.Advance? && w.threads[act.t].Last? {
      var p := w.threads[act.t].mem + w.threads[act.t].idx * w.cache.blockSize;
      assert Live(c', p);
      NowhereElse(bs', s'.handed, b, i, p);
      assert forall d: nat, j: nat :: d != b || j != i ==> LiveAt(bs', d, j, p) == LiveAt(bs, d, j, p);
    }
  }

  lemma GoodIsInv(w: Steps.World)
    requires Steps.Good(w)
    ensures Steps.SectionOk(w) && Inv(Steps.Settled(w)) && Shape(Steps.Settled(w))
  {}

  // ----- a new thread

  lemma {:induction false} NewCachesPtrs(cs: seq<State>, mems: seq<int>)
    requires |cs| == |mems| && forall i :: 0 <= i < |cs| ==> cs[i].ptrs == [mems[i]]
    ensures CachesPtrs(cs) == multiset(mems)
  {
    if cs != [] {
      NewCachesPtrs(cs[1..], mems[1..]);
      assert mems == [mems[0]] + mems[1..];
    }
  }

  lemma StartSettled(i: nat, mem: int, threads: nat)
    requires i < NUM_CACHES
    ensures |CACHE_SIZES| == NUM_CACHES == |BLOCKS_PER_SLAB|
    ensures var w := Steps.Start(BLOCKS_PER_SLAB[i], CACHE_SIZES[i], mem, threads);
            && Steps.Good(w) && Steps.Settled(w) == Initial(BLOCKS_PER_SLAB[i], CACHE_SIZES[i], mem)
  {
    Tables();
    var w := Steps.Start(BLOCKS_PER_SLAB[i], CACHE_SIZES[i], mem, threads);
    Inter.StartGood(BLOCKS_PER_SLAB[i], CACHE_SIZES[i], mem, threads);
    Proofs.QuietBalance(threads);
    hide Inv, Initial, BLOCKS_PER_SLAB, CACHE_SIZES;
    assert Steps.Settled(w) == w.cache;
  }

  lemma RegisterKeeps(s: System, id: nat, mems: seq<int>, threads: nat)
    requires Good(s) && Enabled(s, Register(id, mems, threads)) && Legal(s, Register(id, mems, threads))
    ensures var s' := Next(s, Register(id, mems, threads)).value;
            Good(s') && LiveFollows(s, Register(id, mems, threads), s')
  {
    hide Inv, Initial, HandedOk, SystemPtrs, CachesPtrs, Live, Steps.Start, Steps.Settled, Steps.SectionOk;
    var o := NewOwner(id, mems, threads);
    var s' := Next(s, Register(id, mems, threads)).value;
    NewOwnerOk(id, mems, threads);
    var x := SettledBucket(o);
    var bs := SettledAll(s.owners);
    assert AllOk(s'.owners);
    assert SettledAll(s'.owners) == bs + [x];
    Interface.NewBucket(bs, s.handed, x, s'.handed);
  }

  lemma NewOwnerOk(id: nat, mems: seq<int>, threads: nat)
    requires |mems| == NUM_CACHES
    ensures var o := NewOwner(id, mems, threads);
            && o.id == id && WorldsOk(o) && (forall i :: 0 <= i < NUM_CACHES ==> Steps.Good(o.worlds[i]))
            && BucketOk(SettledBucket(o))
            && (forall i :: 0 <= i < NUM_CACHES ==> Interface.NoneLive(SettledBucket(o).caches[i]))
            && CachesPtrs(SettledBucket(o).caches) == multiset(mems)
  {
    hide Inv, Initial, CachesPtrs, Interface.NoneLive, Steps.Start, Steps.Settled;
    Tables();
    var o := NewOwner(id, mems, threads);
    forall i | 0 <= i < NUM_CACHES
      ensures Steps.Good(o.worlds[i]) && Steps.SectionOk(o.worlds[i])
      ensures Steps.Settled(o.worlds[i]) == Initial(BLOCKS_PER_SLAB[i], CACHE_SIZES[i], mems[i])
      ensures CacheOk(Initial(BLOCKS_PER_SLAB[i], CACHE_SIZES[i], mems[i]), i)
      ensures Interface.NoneLive(Initial(BLOCKS_PER_SLAB[i], CACHE_SIZES[i], mems[i]))
      ensures Initial(BLOCKS_PER_SLAB[i], CACHE_SIZES[i], mems[i]).ptrs == [mems[i]]
    {
      StartSettled(i, mems[i], threads);
      GoodIsInv(o.worlds[i]);
      Interface.NewCache(i, mems[i]);
      Interface.NewPtrs(i, mems[i]);
    }
    NewCachesPtrs(SettledBucket(o).caches, mems);
  }

  // ----- every step, every run

  /** The cache that stepped is as its call is to leave it. */
  ghost predicate KeepsThere(s: System, a: Action)
    requires Good(s) && Enabled(s, a)
  {
    a.In? ==>
      var w := s.owners[a.b].worlds[a.i];
      && a.i < NUM_CACHES && Steps.Good(w)
      && Steps.Next(w, a.a).Some? && Proofs.Keeps(w, a.a, Steps.Next(w, a.a).value)
  }

  /** A step keeps its cache as it is to be exactly when its condition holds; all caches are then good, over memory
      that no two share, and the live blocks of all of them follow the one call. */
  lemma SystemStepKeepsIff(s: System, a: Action)
    requires Good(s) && Enabled(s, a) && Legal(s, a)
    ensures Fits(s, a) <==> Next(s, a).Some? && KeepsThere(s, a)
    ensures Fits(s, a) ==> Good(Next(s, a).value) && LiveFollows(s, a, Next(s, a).value)
  {
    hide Good, Legal, LiveFollows, Steps.Good, Steps.Fits, Steps.Legal, Proofs.Keeps, Steps.Next, HandedOk;
    match a
    case Register(id, mems, threads) =>
      RegisterKeeps(s, id, mems, threads);
    case In(b, i, act) =>
      LegalThere(s, b, i, act);
      var w := s.owners[b].worlds[i];
      Inter.StepKeepsIff(w, act);
      if Steps.Fits(w, act) {
        InStep(s, b, i, act, Steps.Next(w, act).value);
      }
  }

  lemma InStep(s: System, b: nat, i: nat, act: Steps.Action, w': Steps.World)
    requires Good(s) && Enabled(s, In(b, i, act)) && Legal(s, In(b, i, act)) && i < NUM_CACHES
    requires Steps.Good(s.owners[b].worlds[i]) && Proofs.Keeps(s.owners[b].worlds[i], act, w')
    requires Steps.Next(s.owners[b].worlds[i], act) == Some(w')
    ensures Next(s, In(b, i, act)).Some? && Good(Next(s, In(b, i, act)).value)
    ensures LiveFollows(s, In(b, i, act), Next(s, In(b, i, act)).value)
  {
    hide Good, LiveFollows, Steps.Good, Steps.Next, Proofs.LiveFollows, HandedOk, Steps.SectionOk;
    var w := s.owners[b].worlds[i];
    var s' := Next(s, In(b, i, act)).value;
    GoodIsInv(w);
    GoodIsInv(w');
    StepPtrs(w, act);
    HandedStays(s);
    InKeeps(s, b, i, act, w', s'.handed);
    InLive(s, b, i, act, s', w');
  }

  lemma HandedStays(s: System)
    requires Good(s)
    ensures AllOk(s.owners) && HandedOk(s.handed)
  {}

  ghost predicate Runs(s: System, sched: seq<Action>)
    decreases |sched|
  {
    sched == [] || (
      && Enabled(s, sched[0]) && Legal(s, sched[0])
      && (Next(s, sched[0]).Some? ==> Runs(Next(s, sched[0]).value, sched[1..])))
  }

  ghost predicate FitsThroughout(s: System, sched: seq<Action>)
    decreases |sched|
  {
    sched == [] || (
      && Enabled(s, sched[0]) && Fits(s, sched[0])
      && (Next(s, sched[0]).Some? ==> FitsThroughout(Next(s, sched[0]).value, sched[1..])))
  }

  ghost predicate GoodThroughout(s: System, sched: seq<Action>)
    decreases |sched|
  {
    Good(s) && (sched == [] || (
      && Enabled(s, sched[0]) && Next(s, sched[0]).Some? && KeepsThere(s, sched[0])
      && Good(Next(s, sched[0]).value) && LiveFollows(s, sched[0], Next(s, sched[0]).value)
      && GoodThroughout(Next(s, sched[0]).value, sched[1..])))
  }

  lemma {:induction false} GoodIffFits(s: System, sched: seq<Action>)
    requires Good(s) && Runs(s, sched)
    ensures GoodThroughout(s, sched) <==> FitsThroughout(s, sched)
    decreases |sched|
  {
    if sched != [] {
      hide Good, Next, Enabled, Legal, Fits, KeepsThere, LiveFollows;
      SystemStepKeepsIff(s, sched[0]);
      if Fits(s, sched[0]) {
        GoodIffFits(Next(s, sched[0]).value, sched[1..]);
      }
    }
  }

  /** From no threads at all: threads register, their calls overlap on all caches in any way. Every cache is good, no
      two manage the same memory, and the live blocks are what the calls say, at every moment, if and only if the
      condition of each step holds when it is taken. */
  lemma AllSystemRuns(handed: multiset<int>, sched: seq<Action>)
    requires HandedOk(handed) && Runs(System([], handed), sched)
    ensures GoodThroughout(System([], handed), sched) <==> FitsThroughout(System([], handed), sched)
  {
    hide HandedOk, Runs, GoodThroughout, FitsThroughout;
    GoodIffFits(System([], handed), sched);
  }

  /** In a good system at most one of all caches will hold an address once the sections under way are completed. */
  lemma OneHolderNow(s: System, b: nat, i: nat, d: nat, j: nat, p: int)
    requires Good(s) && b < |s.owners| && d < |s.owners| && i < NUM_CACHES && j < NUM_CACHES
    requires Holds(SettledAll(s.owners)[b].caches[i], p) && Holds(SettledAll(s.owners)[d].caches[j], p)
    ensures b == d && i == j
  {
    hide Holds, SystemOk;
    OneHolder(SettledAll(s.owners), s.handed, b, i, d, j, p);
  }
}
