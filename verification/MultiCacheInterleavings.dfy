/** All interleavings of the per-thread cache: a run is good throughout exactly when the condition of each step
    holds when it is taken. Calls that do not overlap are the steps of MultiCacheRuns. */
module MultiCacheInterleavings {
  import opened Common
  import opened MultiCache
  import opened MultiCacheProofs
  import opened MultiCacheSteps
  import opened MultiCacheStepProofs
  import SC = SlabCache
  import CacheRuns = MultiCacheRuns

  // ----- every step, every run

  /** A step leaves the cache good, with the live blocks that the call is to leave, exactly when its condition holds. */
  lemma StepKeepsIff(w: World, a: Action)
    requires Good(w) && Enabled(w, a) && Legal(w, a)
    ensures Fits(w, a) <==> Next(w, a).Some? && Keeps(w, a, Next(w, a).value)
  {
    hide Inv, Keeps, RefillStep, DeallocStep, Legal, Underway;
    GoodShapes(w);
    match a
    case Alloc =>
      QuietKeeps(w, Next(w, a).value, a, 0, Placed(w.cache.actBlock), w.cache.size);
    case Refill(mem, moved) =>
      RefillStepKeeps(w, mem, moved);
    case Dealloc(t, p) =>
      DeallocStepKeeps(w, t, p);
    case Advance(t) =>
      AdvanceKeepsIff(w, t);
  }

  lemma AdvanceKeepsIff(w: World, t: nat)
    requires Good(w) && Enabled(w, Advance(t))
    ensures Fits(w, Advance(t)) <==> AdvanceStep(w, t).Some? && Keeps(w, Advance(t), AdvanceStep(w, t).value)
  {
    hide Inv, Keeps, MoveStep, ReleaseStep, InsideStep, MoveFits, ReleaseFits, PopFits, Underway, PopAt;
    match w.threads[t]
    case Moving(it, gen) =>
      MoveStepKeepsIff(w, t);
      KeepsIsGood(w, Advance(t), AdvanceStep(w, t));
    case Releasing(it, gen) =>
      ReleaseStepKeepsIff(w, t);
      KeepsIsGood(w, Advance(t), AdvanceStep(w, t));
    case Inside =>
      InsideStepKeeps(w, t);
    case Last(b, mem, idx) =>
      PopStepKeepsIff(w, t, b, mem, idx);
    case _ =>
      QuietStepKeepsIff(w, t);
  }

  lemma KeepsIsGood(w: World, a: Action, w': Option<World>)
    requires Good(w)
    ensures w'.Some? && Keeps(w, a, w'.value) ==> Good(w'.value)
  {}

  /** The steps of a call that change nothing but a counter and where the thread is. */
  lemma QuietStepKeepsIff(w: World, t: nat)
    requires Good(w) && Enabled(w, Advance(t)) && !WantsExclusive(w.threads[t])
    requires !w.threads[t].Inside? && !w.threads[t].Last?
    ensures Fits(w, Advance(t)) <==> AdvanceStep(w, t).Some? && Keeps(w, Advance(t), AdvanceStep(w, t).value)
  {
    hide Inv, Keeps, Underway, Settled, SectionOk;
    if AdvanceStep(w, t).Some? {
      var w' := AdvanceStep(w, t).value;
      QuietKeeps(w, w', Advance(t), t, w'.threads[t], w'.cache.size);
    }
  }

  /** Every step of the schedule, as far as it gets, is one that threads and clients can take. */
  ghost predicate Runs(w: World, sched: Schedule)
    decreases |sched|
  {
    sched == [] || (
      && Enabled(w, sched[0]) && Legal(w, sched[0])
      && (Next(w, sched[0]).Some? ==> Runs(Next(w, sched[0]).value, sched[1..])))
  }

  /** Every step is defined, leaves a good world, and changes the live blocks as its call is to. */
  ghost predicate GoodThroughout(w: World, sched: Schedule)
    decreases |sched|
  {
    Good(w) && (sched == [] || (
      && Enabled(w, sched[0]) && Next(w, sched[0]).Some? && Keeps(w, sched[0], Next(w, sched[0]).value)
      && GoodThroughout(Next(w, sched[0]).value, sched[1..])))
  }

  ghost predicate FitsThroughout(w: World, sched: Schedule)
    decreases |sched|
  {
    sched == [] || (
      && Enabled(w, sched[0]) && Fits(w, sched[0])
      && (Next(w, sched[0]).Some? ==> FitsThroughout(Next(w, sched[0]).value, sched[1..])))
  }

  /** From a good world, any schedule of any calls: the run is good throughout if and only if each step's condition
      holds when it is taken. */
  lemma {:induction false} GoodIffFits(w: World, sched: Schedule)
    requires Good(w) && Runs(w, sched)
    ensures GoodThroughout(w, sched) <==> FitsThroughout(w, sched)
    decreases |sched|
  {
    if sched != [] {
      hide Good, Next, Enabled, Legal, Fits, Keeps;
      StepKeepsIff(w, sched[0]);
      KeepsIsGood(w, sched[0], Next(w, sched[0]));
      if Fits(w, sched[0]) {
        GoodIffFits(Next(w, sched[0]).value, sched[1..]);
      }
    }
  }

  lemma StartGood(count: nat, blockSize: nat, mem: int, n: nat)
    requires 1 <= count <= SC.INDEX_VALUES && blockSize > 0
    ensures Good(Start(count, blockSize, mem, n))
  {
    hide Inv, Initial;
    CacheRuns.InitialKeeps(count, blockSize, mem);
    QuietBalance(n);
    var w := Start(count, blockSize, mem, n);
    assert Settled(w) == w.cache;
  }

  /** The same from a new cache: any number of threads, every interleaving of their accesses, effects and locks. */
  lemma AllInterleavings(count: nat, blockSize: nat, mem: int, n: nat, sched: Schedule)
    requires 1 <= count <= SC.INDEX_VALUES && blockSize > 0
    requires Runs(Start(count, blockSize, mem, n), sched)
    ensures GoodThroughout(Start(count, blockSize, mem, n), sched)
            <==> FitsThroughout(Start(count, blockSize, mem, n), sched)
  {
    hide *;
    StartGood(count, blockSize, mem, n);
    GoodIffFits(Start(count, blockSize, mem, n), sched);
  }

  // ----- when a recorded place fits

  /** Deciding to move records a place that fits. */
  lemma DecidedMoveFits(w: World, t: nat)
    requires Good(w) && Enabled(w, Advance(t)) && w.threads[t].Sized?
    ensures var w' := Decided(w, t, w.threads[t].it, w.threads[t].used);
            w'.threads[t].Moving? ==> MoveFits(w', w'.threads[t].it, w'.threads[t].gen)
  {}

  /** Deciding to release records a place that fits exactly when the slab is still as empty as it was read. */
  lemma DecidedReleaseFitsIff(w: World, t: nat)
    requires Good(w) && Enabled(w, Advance(t)) && w.threads[t].Sized?
    ensures var w' := Decided(w, t, w.threads[t].it, w.threads[t].used);
            w'.threads[t].Releasing? ==>
              (ReleaseFits(w', w'.threads[t].it, w'.threads[t].gen) <==> InUse(w.cache, w.threads[t].it) == 0)
  {}

  /** Steps that take the exclusive lock. */
  predicate Exclusive(w: World, a: Action)
    requires Enabled(w, a)
  {
    a.Refill? || (a.Advance? && WantsExclusive(w.threads[a.t]))
  }

  /** A place that fits for a move goes on fitting until another thread takes the exclusive lock. */
  lemma MoveStaysFit(w: World, a: Action, it: nat, gen: nat)
    requires Good(w) && w.section.Unheld? && Enabled(w, a) && !Exclusive(w, a) && MoveFits(w, it, gen)
    ensures Next(w, a).Some? ==> Next(w, a).value.section.Unheld? && MoveFits(Next(w, a).value, it, gen)
  {
    hide Inv, Find, Push;
  }

  /** A place that fits for a release goes on fitting until another thread takes the exclusive lock or the owner
      pops that slab. */
  lemma ReleaseStaysFit(w: World, a: Action, it: nat, gen: nat)
    requires Good(w) && w.section.Unheld? && Enabled(w, a) && Legal(w, a) && !Exclusive(w, a) && ReleaseFits(w, it, gen)
    requires !(a.Advance? && w.threads[a.t].Last? && w.threads[a.t].b == it)
    ensures Next(w, a).Some? ==> Next(w, a).value.section.Unheld? && ReleaseFits(Next(w, a).value, it, gen)
  {
    hide SC.Disjoint, Find, Push, FreeTotal, SC.LiveAmong;
    if a.Dealloc? && Find(w.cache, a.p, 0).Some? {
      UnusedHoldsNothing(w, a.p, it);
    }
  }

  lemma UnusedHoldsNothing(w: World, p: int, it: nat)
    requires Good(w) && w.section.Unheld? && Shape(w.cache) && it < |w.cache.slabs| && InUse(w.cache, it) == 0
    requires Live(w.cache, p) && Find(w.cache, p, 0).Some?
    ensures Find(w.cache, p, 0).value != it
  {
    hide SC.Disjoint, Find, FreeTotal, SC.LiveIn;
    var s := Settled(w);
    SameFind(w, p);
    LiveSettled(w);
    var c, idx: nat :| SC.LiveIn(s.count, s.blockSize, View(s), p, c, idx);
    FindsOwner(s, p, c, idx);
    NotUnused(s, p, c, idx);
  }

  lemma NotUnused(s: State, p: int, c: SC.Slab, idx: nat)
    requires Inv(s) && SC.LiveIn(s.count, s.blockSize, View(s), p, c, idx)
    ensures |c.availible| != s.count
  {
    if |c.availible| == s.count {
      NoLiveInUnused(s, c, idx);
    }
  }

  // ----- when a pop fits

  /** What the owner has read is what it would read now. */
  predicate UpToDate(w: World, b: nat, mem: int, idx: nat) {
    && b == w.cache.actBlock && w.cache.actMem < |w.cache.ptrs| && mem == w.cache.ptrs[w.cache.actMem]
    && Poppable(w.cache, b) && idx == LastOf(w.cache.slabs[b].availible)
  }

  /** While no thread is under the exclusive lock, a pop of what is up to date fits. */
  lemma PopOutsideFits(w: World, b: nat, mem: int, idx: nat)
    requires Good(w) && w.section.Unheld? && UpToDate(w, b, mem, idx)
    ensures PopFits(w, b, mem, idx)
  {
    GoodShapes(w);
  }

  /** And what is up to date stays so through the steps of other threads, until one takes the exclusive lock. */
  lemma StaysUpToDate(w: World, a: Action, b: nat, mem: int, idx: nat)
    requires Good(w) && w.section.Unheld? && UpToDate(w, b, mem, idx)
    requires Enabled(w, a) && !Exclusive(w, a)
    requires match a case Dealloc(t, _) => t != 0 case Advance(t) => !w.threads[t].Last? case _ => true
    ensures Next(w, a).Some? ==> Next(w, a).value.section.Unheld? && UpToDate(Next(w, a).value, b, mem, idx)
  {
    hide Inv, Find;
  }

  /** Inside spliceBoth, a pop of what is up to date fits except at three points: after the memmove, which has copied
      the active slab away from under it; after the placement new, when the slab there is the moved one and the memory
      still the active one's; and after the pointer is placed, when it is the other way round. */
  lemma PopInsideSpliceIff(w: World, b: nat, mem: int, idx: nat)
    requires Good(w) && w.section.Held? && w.section.job.Splice? && w.section.job.a < w.section.job.it
    requires UpToDate(w, b, mem, idx)
    ensures PopFits(w, b, mem, idx) <==> w.section.done != 2 && w.section.done != 3 && w.section.done != 6
  {
    hide FreeTotal, SC.AllOk, SC.Disjoint, Pairs;
    var a, it := w.section.job.a, w.section.job.it;
    GoodShapes(w);
    SectionFacts(w);
    Neighbours(w, a);
    if w.section.done < 5 {
      RotateAt(w.cache.ptrs, a, it, a);
      RotateAt(w.cache.ptrs, a, it, a + 1);
    }
    hide Rotate;
  }

  lemma Neighbours(w: World, a: nat)
    requires Good(w) && a + 1 < |Completed(w).slabs|
    ensures |Completed(w).ptrs| == |Completed(w).slabs| && Completed(w).ptrs[a] != Completed(w).ptrs[a + 1]
  {
    hide FreeTotal, SC.AllOk, Completed;
    SectionFacts(w);
    SlabsApart(Settled(w), a, a + 1);
  }

  /** Inside the branch of memToDispatch for a slab behind the active one, it always fits. */
  lemma PopInsideGiveBehindFits(w: World, b: nat, mem: int, idx: nat)
    requires Good(w) && w.section.Held? && w.section.job.GiveBehind? && UpToDate(w, b, mem, idx)
    ensures PopFits(w, b, mem, idx)
  {
    hide FreeTotal, SC.AllOk, SC.Disjoint, Pairs;
    GoodShapes(w);
  }
}
