/** Three runs of overlapping calls, from a new cache of the largest class, in which something that was read without
    the exclusive lock no longer fits when it is used. Thread 0 owns the cache. */
module MultiCacheOverlaps {
  import opened Common
  import opened MultiCache
  import opened MultiCacheProofs
  import opened MultiCacheSteps
  import opened MultiCacheStepProofs
  import opened MultiCacheInterleavings
  import opened MultiCacheSerial
  import opened MultiCacheDepartures
  import CacheRuns = MultiCacheRuns
  import SC = SlabCache

  /** Three threads over a cache of two slabs, nobody under the exclusive lock. */
  function W(slabs: seq<Slab>, ptrs: seq<int>, act: nat, size: int, t0: Phase, t1: Phase, t2: Phase): World {
    World(Two(slabs, ptrs, act, size), 0, [t0, t1, t2], Unheld)
  }

  lemma QuietThree()
    ensures Quiet(3) == [Idle, Idle, Idle]
  {}

  lemma Updates(a: Phase, b: Phase, c: Phase, x: Phase)
    ensures [a, b, c][0 := x] == [x, b, c] && [a, b, c][1 := x] == [a, x, c] && [a, b, c][2 := x] == [a, b, x]
  {}

  lemma InitialGood()
    ensures Inv(Initial(2, 8192, 0))
  {
    CacheRuns.InitialKeeps(2, 8192, 0);
  }

  /** Allocations from a new cache, with nobody else under way. */
  lemma Allocated(calls: seq<CacheRuns.Call>, slabs: seq<Slab>, ptrs: seq<int>, size: int) returns (sched: Schedule)
    requires CacheRuns.Reach(Initial(2, 8192, 0), calls, Two(slabs, ptrs, 0, size))
    ensures Reach(MultiCacheSteps.Start(2, 8192, 0, 3), sched, W(slabs, ptrs, 0, size, Idle, Idle, Idle))
  {
    hide CacheRuns.Reach, Inv, Reach, Initial;
    InitialGood();
    QuietThree();
    sched := SerialRun(Initial(2, 8192, 0), calls, Two(slabs, ptrs, 0, size), 0, 3);
  }

  lemma TwoAllocations()
    ensures CacheRuns.Reach(Initial(2, 8192, 0), [CacheRuns.Alloc(16384), CacheRuns.Alloc(16384)],
                            Two([UNUSED, USED], [16384, 0], 0, 2))
  {
    hide CacheRuns.Apply, CacheRuns.Legal;
    var A, end := CacheRuns.Alloc(16384), Two([UNUSED, USED], [16384, 0], 0, 2);
    MultiCacheDepartures.Start();
    FirstAlloc();
    SecondAlloc();
    OneMore(Two([Slab([1], [])], [0], 0, 1), A, [], end);
    OneMore(Two([UNUSED], [0], 0, 0), A, [A], end);
    assert [A] + [A] == [A, A];
  }

  lemma ThreeAllocations()
    ensures CacheRuns.Reach(Initial(2, 8192, 0),
                            [CacheRuns.Alloc(16384), CacheRuns.Alloc(16384), CacheRuns.Alloc(16384)],
                            Two([Slab([1], []), USED], [16384, 0], 0, 3))
  {
    hide CacheRuns.Apply, CacheRuns.Legal;
    var A, end := CacheRuns.Alloc(16384), Two([Slab([1], []), USED], [16384, 0], 0, 3);
    MultiCacheDepartures.Start();
    FirstAlloc();
    SecondAlloc();
    ThirdAlloc();
    OneMore(Two([UNUSED, USED], [16384, 0], 0, 2), A, [], end);
    OneMore(Two([Slab([1], [])], [0], 0, 1), A, [A], end);
    OneMore(Two([UNUSED], [0], 0, 0), A, [A, A], end);
    assert [A] + [A, A] == [A, A, A];
  }

  lemma AfterOneFree()
    ensures CacheRuns.Reach(Initial(2, 8192, 0),
                            [CacheRuns.Alloc(16384), CacheRuns.Alloc(16384), CacheRuns.Dealloc(0, false)],
                            Two([UNUSED, HALF], [16384, 0], 0, 1))
  {
    hide CacheRuns.Apply, CacheRuns.Legal;
    var A, D, end := CacheRuns.Alloc(16384), CacheRuns.Dealloc(0, false), Two([UNUSED, HALF], [16384, 0], 0, 1);
    MultiCacheDepartures.Start();
    FirstAlloc();
    SecondAlloc();
    FirstForeignFree();
    OneMore(Two([UNUSED, USED], [16384, 0], 0, 2), D, [], end);
    OneMore(Two([Slab([1], [])], [0], 0, 1), A, [D], end);
    OneMore(Two([UNUSED], [0], 0, 0), A, [A, D], end);
    assert [A] + [A, D] == [A, A, D];
  }

  const HALF := Slab([], [0])
  const FREED := Slab([], [0, 1])

  // ----- two threads free the two blocks of the full slab, and both decide to move it

  lemma TheyPush()
    ensures var w := W([UNUSED, USED], [16384, 0], 0, 2, Idle, Idle, Idle);
            var w1 := W([UNUSED, HALF], [16384, 0], 0, 2, Idle, Pushed(1), Idle);
            && Legal(w, Dealloc(1, 0)) && Next(w, Dealloc(1, 0)) == Some(w1)
            && Legal(w1, Dealloc(2, 8192)) && Next(w1, Dealloc(2, 8192)) == Some(Back(Pushed(1), Pushed(1)))
  {
    var s, s1 := Two([UNUSED, USED], [16384, 0], 0, 2), Two([UNUSED, HALF], [16384, 0], 0, 2);
    LiveByPlace(s, 1, 0, 0);
    LiveByPlace(s1, 1, 1, 8192);
    FoundSecond(s, 0);
    FoundSecond(s1, 8192);
    PushesToSecond(s, 0, 0);
    PushesToSecond(s1, 8192, 1);
    assert [] + [0] == [0] && [0] + [1] == [0, 1];
    Updates(Idle, Idle, Idle, Pushed(1));
    Updates(Idle, Pushed(1), Idle, Pushed(1));
    hide Find, Live, Push;
  }

  /** The full slab has both blocks back; threads 1 and 2 are at the given places. */
  function Back(t1: Phase, t2: Phase): World {
    W([UNUSED, FREED], [16384, 0], 0, 2, Idle, t1, t2)
  }

  lemma TheyDecide()
    ensures var p, z, m := Pushed(1), Sized(1, 0), Moving(1, 0);
            && Next(Back(p, p), Advance(1)) == Some(Back(z, p))
            && Next(Back(z, p), Advance(2)) == Some(Back(z, z))
            && Next(Back(z, z), Advance(1)) == Some(Back(m, z))
            && Next(Back(m, z), Advance(2)) == Some(Back(m, m))
  {
    var z, m := Sized(1, 0), Moving(1, 0);
    Updates(Idle, Pushed(1), Pushed(1), z);
    Updates(Idle, z, Pushed(1), z);
    Updates(Idle, z, z, m);
    Updates(Idle, m, z, m);
  }

  lemma BothMove() returns (sched: Schedule)
    ensures Reach(Back(Moving(1, 0), Moving(1, 0)), sched,
                  W([FREED, UNUSED], [0, 16384], 2, 2, Idle, CountingDown(false), CountingDown(false)))
  {
    var m, c := Moving(1, 0), CountingDown(false);
    var w1 := W([FREED, UNUSED], [0, 16384], 1, 2, Idle, c, m);
    Updates(Idle, m, m, c);
    Updates(Idle, c, m, c);
    RotateTwo([UNUSED, FREED]);
    RotateTwo([16384, 0]);
    assert Rotate([FREED, UNUSED], 1, 1) == [FREED, UNUSED] && Rotate([0, 16384], 1, 1) == [0, 16384];
    hide Rotate, Reach;
    var x := RunsMove(Back(m, m), 1, 1);
    var y := RunsMove(w1, 2, 1);
    ReachTrans(Back(m, m), x, w1, y, W([FREED, UNUSED], [0, 16384], 2, 2, Idle, c, c));
    sched := x + y;
  }

  lemma StaleMoves() returns (sched: Schedule)
    ensures Reach(W([UNUSED, USED], [16384, 0], 0, 2, Idle, Idle, Idle), sched,
                  W([FREED, UNUSED], [0, 16384], 2, 2, Idle, CountingDown(false), CountingDown(false)))
  {
    hide Next, Legal, Reach;
    var p, z, m := Pushed(1), Sized(1, 0), Moving(1, 0);
    var w, w1 := W([UNUSED, USED], [16384, 0], 0, 2, Idle, Idle, Idle), W([UNUSED, HALF], [16384, 0], 0, 2, Idle, p, Idle);
    var end := W([FREED, UNUSED], [0, 16384], 2, 2, Idle, CountingDown(false), CountingDown(false));
    TheyPush();
    TheyDecide();
    sched := BothMove();
    sched := Before(Back(m, z), Advance(2), Back(m, m), sched, end);
    sched := Before(Back(z, z), Advance(1), Back(m, z), sched, end);
    sched := Before(Back(z, p), Advance(2), Back(z, z), sched, end);
    sched := Before(Back(p, p), Advance(1), Back(z, p), sched, end);
    sched := Before(w1, Dealloc(2, 8192), Back(p, p), sched, end);
    sched := Before(w, Dealloc(1, 0), w1, sched, end);
  }

  lemma StaleMovePrefix() returns (sched: Schedule)
    ensures Reach(MultiCacheSteps.Start(2, 8192, 0, 3), sched,
                  W([FREED, UNUSED], [0, 16384], 2, 2, Idle, CountingDown(false), CountingDown(false)))
  {
    hide *;
    TwoAllocations();
    var first := Allocated([CacheRuns.Alloc(16384), CacheRuns.Alloc(16384)], [UNUSED, USED], [16384, 0], 2);
    var more := StaleMoves();
    ReachTrans(MultiCacheSteps.Start(2, 8192, 0, 3), first,
               W([UNUSED, USED], [16384, 0], 0, 2, Idle, Idle, Idle), more,
               W([FREED, UNUSED], [0, 16384], 2, 2, Idle, CountingDown(false), CountingDown(false)));
    sched := first + more;
  }

  /** After the second move the active place is past the end, and the next allocate uses it. */
  lemma StaleMoveRun() returns (sched: Schedule, w: World)
    ensures Reach(MultiCacheSteps.Start(2, 8192, 0, 3), sched, w)
    ensures w.cache.actBlock == |w.cache.slabs| && w.section.Unheld? && !Good(w)
    ensures Enabled(w, Action.Alloc) && Next(w, Action.Alloc).Some?
    ensures Enabled(Next(w, Action.Alloc).value, Advance(0)) && Next(Next(w, Action.Alloc).value, Advance(0)) == None
  {
    hide Live, Initial, Reach, Good;
    sched := StaleMovePrefix();
    w := W([FREED, UNUSED], [0, 16384], 2, 2, Idle, CountingDown(false), CountingDown(false));
    PastTheEnd(w);
  }

  lemma PastTheEnd(w: World)
    requires w.section.Unheld? && w.cache.actBlock >= |w.cache.slabs|
    ensures !Good(w)
  {}

  // ----- the owner takes a block from a slab that another thread has decided to give up

  lemma ItDecidesToRelease()
    ensures var s, s1, p := [Slab([1], []), USED], [Slab([1], [0]), USED], [16384, 0];
            var w := W(s, p, 0, 3, Idle, Idle, Idle);
            var w1, w2 := W(s1, p, 0, 3, Idle, Pushed(0), Idle), W(s1, p, 0, 3, Idle, Sized(0, 0), Idle);
            && Legal(w, Dealloc(1, 16384)) && Next(w, Dealloc(1, 16384)) == Some(w1)
            && Next(w1, Advance(1)) == Some(w2)
            && Next(w2, Advance(1)) == Some(W(s1, p, 0, 3, Idle, Releasing(0, 0), Idle))
  {
    var s := Two([Slab([1], []), USED], [16384, 0], 0, 3);
    LiveByPlace(s, 0, 0, 16384);
    assert Find(s, 16384, 0) == Some(0);
    assert [] + [0] == [0];
    assert Push(s, 0, 16384, false).slabs == [Slab([1], [0]), USED];
    Updates(Idle, Idle, Idle, Pushed(0));
    Updates(Idle, Pushed(0), Idle, Sized(0, 0));
    Updates(Idle, Sized(0, 0), Idle, Releasing(0, 0));
    hide Find, Live, Push;
  }

  lemma TheOwnerPops()
    ensures var s1, s2, p, r := [Slab([1], [0]), USED], [Slab([], [0]), USED], [16384, 0], Releasing(0, 0);
            && Next(W(s1, p, 0, 3, Idle, r, Idle), Action.Alloc) == Some(W(s1, p, 0, 3, Placed(0), r, Idle))
            && Next(W(s1, p, 0, 3, Placed(0), r, Idle), Advance(0)) == Some(W(s1, p, 0, 3, Read(0, 16384), r, Idle))
            && Next(W(s1, p, 0, 3, Read(0, 16384), r, Idle), Advance(0)) == Some(W(s1, p, 0, 3, Last(0, 16384, 1), r, Idle))
            && Next(W(s1, p, 0, 3, Last(0, 16384, 1), r, Idle), Advance(0)) == Some(W(s2, p, 0, 3, Popped(0), r, Idle))
  {
    var r := Releasing(0, 0);
    Updates(Idle, r, Idle, Placed(0));
    Updates(Placed(0), r, Idle, Read(0, 16384));
    Updates(Read(0, 16384), r, Idle, Last(0, 16384, 1));
    Updates(Last(0, 16384, 1), r, Idle, Popped(0));
    assert [1][..0] == [];
    assert PopAt(Two([Slab([1], [0]), USED], [16384, 0], 0, 3), 0).slabs == [Slab([], [0]), USED];
  }

  lemma OwnerTakesItsBlock() returns (sched: Schedule)
    ensures Reach(W([Slab([1], []), USED], [16384, 0], 0, 3, Idle, Idle, Idle), sched,
                  W([Slab([], [0]), USED], [16384, 0], 0, 3, Popped(0), Releasing(0, 0), Idle))
  {
    hide Next, Legal;
    var s, s1, p, r := [Slab([1], []), USED], [Slab([1], [0]), USED], [16384, 0], Releasing(0, 0);
    var end := W([Slab([], [0]), USED], p, 0, 3, Popped(0), r, Idle);
    var w, w1 := W(s, p, 0, 3, Idle, Idle, Idle), W(s1, p, 0, 3, Idle, Pushed(0), Idle);
    var w2, w3 := W(s1, p, 0, 3, Idle, Sized(0, 0), Idle), W(s1, p, 0, 3, Idle, r, Idle);
    var w4, w5 := W(s1, p, 0, 3, Placed(0), r, Idle), W(s1, p, 0, 3, Read(0, 16384), r, Idle);
    var w6 := W(s1, p, 0, 3, Last(0, 16384, 1), r, Idle);
    ItDecidesToRelease();
    TheOwnerPops();
    sched := Before(w6, Advance(0), end, [], end);
    sched := Before(w5, Advance(0), w6, sched, end);
    sched := Before(w4, Advance(0), w5, sched, end);
    sched := Before(w3, Action.Alloc, w4, sched, end);
    sched := Before(w2, Advance(1), w3, sched, end);
    sched := Before(w1, Advance(1), w2, sched, end);
    sched := Before(w, Dealloc(1, 16384), w1, sched, end);
  }

  lemma StaleReleasePrefix() returns (sched: Schedule)
    ensures Reach(MultiCacheSteps.Start(2, 8192, 0, 3), sched,
                  W([Slab([], [0]), USED], [16384, 0], 0, 3, Popped(0), Releasing(0, 0), Idle))
  {
    hide *;
    ThreeAllocations();
    var first := Allocated([CacheRuns.Alloc(16384), CacheRuns.Alloc(16384), CacheRuns.Alloc(16384)],
                           [Slab([1], []), USED], [16384, 0], 3);
    var more := OwnerTakesItsBlock();
    ReachTrans(MultiCacheSteps.Start(2, 8192, 0, 3), first,
               W([Slab([1], []), USED], [16384, 0], 0, 3, Idle, Idle, Idle), more,
               W([Slab([], [0]), USED], [16384, 0], 0, 3, Popped(0), Releasing(0, 0), Idle));
    sched := first + more;
  }

  lemma ItReleases() returns (sched: Schedule)
    ensures Reach(W([Slab([], [0]), USED], [16384, 0], 0, 3, Popped(0), Releasing(0, 0), Idle), sched,
                  W([USED], [0], 0, 3, Popped(0), CountingDown(false), Idle))
  {
    Updates(Popped(0), Releasing(0, 0), Idle, CountingDown(false));
    assert SwapPop([Slab([], [0]), USED], 0) == [USED] && SwapPop([16384, 0], 0) == [0];
    hide Reach, SwapPop;
    sched := RunsRelease(W([Slab([], [0]), USED], [16384, 0], 0, 3, Popped(0), Releasing(0, 0), Idle), 1, 0);
  }

  /** The block that the owner has just taken is live before the release, and its memory is gone after it. */
  lemma StaleReleaseRun() returns (x: Schedule, v: World, y: Schedule, w: World)
    ensures Reach(MultiCacheSteps.Start(2, 8192, 0, 3), x, v) && Reach(v, y, w)
    ensures v.section.Unheld? && |v.cache.slabs| == |v.cache.ptrs| && Live(v.cache, 24576)
    ensures w.section.Unheld? && |w.cache.slabs| == |w.cache.ptrs| && !Live(w.cache, 24576)
  {
    hide Next, Live, Initial, Reach;
    v := W([Slab([], [0]), USED], [16384, 0], 0, 3, Popped(0), Releasing(0, 0), Idle);
    w := W([USED], [0], 0, 3, Popped(0), CountingDown(false), Idle);
    x := StaleReleasePrefix();
    y := ItReleases();
    LiveByPlace(v.cache, 0, 1, 24576);
    NotInSecond();
  }

  lemma NotInSecond()
    ensures !Live(Two([USED], [0], 0, 3), 24576)
  {
    var s := Two([USED], [0], 0, 3);
    assert Views(s.slabs, s.ptrs) == [ViewOf(USED, 0)];
    assert forall c :: c in View(s) ==> c == ViewOf(USED, 0);
  }

  // ----- the owner pops while another thread is moving a slab

  /** Thread 1 is under the exclusive lock, has taken the slab out and moved the active one up. */
  function Mid(slabs: seq<Slab>, size: int, t0: Phase): World {
    World(Two(slabs, [16384, 0], 0, size), 0, [t0, Inside, Idle], Held(1, Splice(0, 1), 2, FREED, 0))
  }

  lemma ItDecidesToMove()
    ensures var w, p := W([UNUSED, HALF], [16384, 0], 0, 1, Idle, Idle, Idle), [16384, 0];
            var s := [UNUSED, FREED];
            && Legal(w, Dealloc(1, 8192)) && Next(w, Dealloc(1, 8192)) == Some(W(s, p, 0, 1, Idle, Pushed(1), Idle))
            && Next(W(s, p, 0, 1, Idle, Pushed(1), Idle), Advance(1)) == Some(W(s, p, 0, 1, Idle, Sized(1, 0), Idle))
            && Next(W(s, p, 0, 1, Idle, Sized(1, 0), Idle), Advance(1)) == Some(W(s, p, 0, 1, Idle, Moving(1, 0), Idle))
  {
    var s := Two([UNUSED, HALF], [16384, 0], 0, 1);
    LiveByPlace(s, 1, 1, 8192);
    FoundSecond(s, 8192);
    PushesToSecond(s, 8192, 1);
    assert [0] + [1] == [0, 1];
    Updates(Idle, Idle, Idle, Pushed(1));
    Updates(Idle, Pushed(1), Idle, Sized(1, 0));
    Updates(Idle, Sized(1, 0), Idle, Moving(1, 0));
    hide Find, Live, Push;
  }

  lemma ItBegins() returns (sched: Schedule)
    ensures Reach(W([UNUSED, FREED], [16384, 0], 0, 1, Idle, Moving(1, 0), Idle), sched, Mid([UNUSED, UNUSED], 1, Idle))
  {
    var c := Two([UNUSED, FREED], [16384, 0], 0, 1);
    var w := W([UNUSED, FREED], [16384, 0], 0, 1, Idle, Moving(1, 0), Idle);
    var w1 := World(c, 0, [Idle, Inside, Idle], Held(1, Splice(0, 1), 0, NOTHING, 0));
    var w2 := World(Two([UNUSED, NOTHING], [16384, 0], 0, 1), 0, [Idle, Inside, Idle], Held(1, Splice(0, 1), 1, FREED, 0));
    var end := Mid([UNUSED, UNUSED], 1, Idle);
    Updates(Idle, Moving(1, 0), Idle, Inside);
    assert [UNUSED, FREED][1 := NOTHING] == [UNUSED, NOTHING];
    assert Shifted([UNUSED, NOTHING], 0, 1) == [UNUSED, UNUSED];
    hide Reach, Legal;
    EmptyRun(end);
    sched := Before(w2, Advance(1), end, [], end);
    sched := Before(w1, Advance(1), w2, sched, end);
    sched := Before(w, Advance(1), w1, sched, end);
  }

  lemma EmptyRun(w: World)
    ensures Reach(w, [], w)
  {}

  lemma OwnerReads()
    ensures var s := [UNUSED, UNUSED];
            && Next(Mid(s, 1, Idle), Action.Alloc) == Some(Mid(s, 1, Placed(0)))
            && Next(Mid(s, 1, Placed(0)), Advance(0)) == Some(Mid(s, 1, Read(0, 16384)))
            && Next(Mid(s, 1, Read(0, 16384)), Advance(0)) == Some(Mid(s, 1, Last(0, 16384, 0)))
  {
    Updates(Idle, Inside, Idle, Placed(0));
    Updates(Placed(0), Inside, Idle, Read(0, 16384));
    Updates(Read(0, 16384), Inside, Idle, Last(0, 16384, 0));
  }

  lemma OwnerPops()
    ensures var s, s1 := [UNUSED, UNUSED], [Slab([1], []), UNUSED];
            && Next(Mid(s, 1, Last(0, 16384, 0)), Advance(0)) == Some(Mid(s1, 1, Popped(0)))
            && Next(Mid(s1, 1, Popped(0)), Advance(0)) == Some(Mid(s1, 1, CountingUp))
            && Next(Mid(s1, 1, CountingUp), Advance(0)) == Some(Mid(s1, 2, Idle))
  {
    Updates(Last(0, 16384, 0), Inside, Idle, Popped(0));
    Updates(Popped(0), Inside, Idle, CountingUp);
    Updates(CountingUp, Inside, Idle, Idle);
    assert [1, 0][..1] == [1];
    assert PopAt(Two([UNUSED, UNUSED], [16384, 0], 0, 1), 0).slabs == [Slab([1], []), UNUSED];
  }

  /** The rest of the move writes over the slab that was popped. */
  lemma ItFinishes() returns (sched: Schedule)
    ensures Reach(Mid([Slab([1], []), UNUSED], 2, Idle), sched, W([FREED, UNUSED], [0, 16384], 1, 1, Idle, Idle, Idle))
  {
    var m := Mid([Slab([1], []), UNUSED], 2, Idle);
    var end := W([FREED, UNUSED], [0, 16384], 1, 1, Idle, Idle, Idle);
    var c := CountingDown(false);
    var w := W([FREED, UNUSED], [0, 16384], 1, 2, Idle, c, Idle);
    RotateTwo([16384, 0]);
    Updates(Idle, Inside, Idle, c);
    Updates(Idle, c, Idle, Idle);
    assert [Slab([1], []), UNUSED][0 := FREED] == [FREED, UNUSED];
    assert CompletedBy(m.cache, Splice(0, 1), 2, FREED, 0) == w.cache;
    hide Reach, Rotate, Legal, CompletedBy;
    var x := FinishesSection(m);
    EmptyRun(end);
    sched := Before(w, Advance(1), end, [], end);
    ReachTrans(m, x, w, sched, end);
    sched := x + sched;
  }

  lemma OwnerReadsAgain()
    ensures var s, p := [FREED, UNUSED], [0, 16384];
            && Next(W(s, p, 1, 1, Idle, Idle, Idle), Action.Alloc) == Some(W(s, p, 1, 1, Placed(1), Idle, Idle))
            && Next(W(s, p, 1, 1, Placed(1), Idle, Idle), Advance(0)) == Some(W(s, p, 1, 1, Read(1, 16384), Idle, Idle))
            && Next(W(s, p, 1, 1, Read(1, 16384), Idle, Idle), Advance(0))
               == Some(W(s, p, 1, 1, Last(1, 16384, 0), Idle, Idle))
  {
    Updates(Idle, Idle, Idle, Placed(1));
    Updates(Placed(1), Idle, Idle, Read(1, 16384));
    Updates(Read(1, 16384), Idle, Idle, Last(1, 16384, 0));
  }

  lemma PopInsidePrefix() returns (sched: Schedule)
    ensures Reach(MultiCacheSteps.Start(2, 8192, 0, 3), sched, Mid([UNUSED, UNUSED], 1, Last(0, 16384, 0)))
  {
    hide Next, Legal, Reach, Initial, CacheRuns.Reach;
    var s, p, u := [UNUSED, FREED], [16384, 0], [UNUSED, UNUSED];
    var w := W([UNUSED, HALF], p, 0, 1, Idle, Idle, Idle);
    var w1, w2 := W(s, p, 0, 1, Idle, Pushed(1), Idle), W(s, p, 0, 1, Idle, Sized(1, 0), Idle);
    var w3, end := W(s, p, 0, 1, Idle, Moving(1, 0), Idle), Mid(u, 1, Last(0, 16384, 0));
    AfterOneFree();
    var first := Allocated([CacheRuns.Alloc(16384), CacheRuns.Alloc(16384), CacheRuns.Dealloc(0, false)],
                           [UNUSED, HALF], p, 1);
    ItDecidesToMove();
    OwnerReads();
    EmptyRun(end);
    sched := Before(Mid(u, 1, Read(0, 16384)), Advance(0), end, [], end);
    sched := Before(Mid(u, 1, Placed(0)), Advance(0), Mid(u, 1, Read(0, 16384)), sched, end);
    sched := Before(Mid(u, 1, Idle), Action.Alloc, Mid(u, 1, Placed(0)), sched, end);
    var begins := ItBegins();
    ReachTrans(w3, begins, Mid(u, 1, Idle), sched, end);
    sched := Before(w2, Advance(1), w3, begins + sched, end);
    sched := Before(w1, Advance(1), w2, sched, end);
    sched := Before(w, Dealloc(1, 8192), w1, sched, end);
    ReachTrans(MultiCacheSteps.Start(2, 8192, 0, 3), first, w, sched, end);
    sched := first + sched;
  }

  lemma PopInsideRest() returns (sched: Schedule)
    ensures Reach(Mid([UNUSED, UNUSED], 1, Last(0, 16384, 0)), sched,
                  W([FREED, UNUSED], [0, 16384], 1, 1, Last(1, 16384, 0), Idle, Idle))
  {
    hide Next, Legal, Reach;
    var s, s1, t, p := [UNUSED, UNUSED], [Slab([1], []), UNUSED], [FREED, UNUSED], [0, 16384];
    var w, end := W(t, p, 1, 1, Idle, Idle, Idle), W(t, p, 1, 1, Last(1, 16384, 0), Idle, Idle);
    var w1, w2 := W(t, p, 1, 1, Placed(1), Idle, Idle), W(t, p, 1, 1, Read(1, 16384), Idle, Idle);
    OwnerPops();
    OwnerReadsAgain();
    EmptyRun(end);
    sched := Before(w2, Advance(0), end, [], end);
    sched := Before(w1, Advance(0), w2, sched, end);
    sched := Before(w, Action.Alloc, w1, sched, end);
    var finishes := ItFinishes();
    ReachTrans(Mid(s1, 2, Idle), finishes, w, sched, end);
    sched := Before(Mid(s1, 1, CountingUp), Advance(0), Mid(s1, 2, Idle), finishes + sched, end);
    sched := Before(Mid(s1, 1, Popped(0)), Advance(0), Mid(s1, 1, CountingUp), sched, end);
    sched := Before(Mid(s, 1, Last(0, 16384, 0)), Advance(0), Mid(s1, 1, Popped(0)), sched, end);
  }

  /** The owner pops the active slab between the memmove and the placement new, so the pop is lost: its next allocate
      computes the same address again. */
  lemma PopInsideRun() returns (x: Schedule, v: World, y: Schedule, w: World)
    ensures Reach(MultiCacheSteps.Start(2, 8192, 0, 3), x, v) && Reach(v, y, w)
    ensures v.section.Held? && v.threads == [Last(0, 16384, 0), Inside, Idle] && UpToDate(v, 0, 16384, 0)
    ensures w.section.Unheld? && w.threads == [Last(1, 16384, 0), Idle, Idle] && UpToDate(w, 1, 16384, 0)
    ensures !Good(w)
  {
    hide Next, Live, Initial, Reach;
    v := Mid([UNUSED, UNUSED], 1, Last(0, 16384, 0));
    w := W([FREED, UNUSED], [0, 16384], 1, 1, Last(1, 16384, 0), Idle, Idle);
    x := PopInsidePrefix();
    y := PopInsideRest();
    CountsOff();
  }

  lemma CountsOff()
    ensures !Good(W([FREED, UNUSED], [0, 16384], 1, 1, Last(1, 16384, 0), Idle, Idle))
  {
    var w := W([FREED, UNUSED], [0, 16384], 1, 1, Last(1, 16384, 0), Idle, Idle);
    OneSlab(UNUSED);
    assert w.cache.slabs[1..] == [UNUSED];
    assert FreeTotal(w.cache.slabs) == Free(FREED) + FreeTotal([UNUSED]);
    assert w.threads[1..] == [Idle, Idle] && [Idle, Idle][1..] == [Idle];
    assert Balance(w.threads) == 0;
  }
}
