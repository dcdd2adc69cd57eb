/** Two short runs after which the per-thread cache, as written, pops an empty vector. */
module MultiCacheDepartures {
  import opened Common
  import opened MultiCache
  import opened MultiCacheRuns
  import SC = SlabCache

  /** A cache of the largest class, two blocks of 8192 bytes a slab, with the counters that go with its slabs. */
  function Two(slabs: seq<Slab>, ptrs: seq<int>, act: nat, size: int): State {
    State(2, 8192, 2 * |slabs|, size, slabs, ptrs, act, act)
  }

  const UNUSED := Slab([1, 0], [])
  const USED := Slab([], [])

  lemma Start()
    ensures Initial(2, 8192, 0) == Two([UNUSED], [0], 0, 0)
  {
    assert SC.IndexStack(2) == [1, 0];
  }

  lemma OneMore(s: State, c: Call, calls: seq<Call>, s': State)
    requires Shape(s) && Legal(s, c) && Apply(s, c).Some? && Reach(Apply(s, c).value, calls, s')
    ensures Reach(s, [c] + calls, s')
  {
    assert ([c] + calls)[1..] == calls;
  }

  lemma FirstAlloc()
    ensures Apply(Two([UNUSED], [0], 0, 0), Alloc(16384)) == Some(Two([Slab([1], [])], [0], 0, 1))
    ensures Legal(Two([UNUSED], [0], 0, 0), Alloc(16384))
  {
    var s := Two([UNUSED], [0], 0, 0);
    assert [1, 0][..1] == [1];
    assert Pop(s).slabs == [Slab([1], [])];
  }

  lemma SecondAlloc()
    ensures Apply(Two([Slab([1], [])], [0], 0, 1), Alloc(16384)) == Some(Two([UNUSED, USED], [16384, 0], 0, 2))
    ensures Legal(Two([Slab([1], [])], [0], 0, 1), Alloc(16384))
  {
    assert SC.IndexStack(2) == [1, 0];
    var s := Two([Slab([1], [])], [0], 0, 1);
    assert [1][..0] == [];
    assert Pop(s).slabs == [USED];
    assert AddCache(Pop(s), 16384).slabs == [USED, UNUSED] && AddCache(Pop(s), 16384).ptrs == [0, 16384];
    assert Swap([USED, UNUSED], 0, 1) == [UNUSED, USED] && Swap([0, 16384], 0, 1) == [16384, 0];
    assert Views(s.slabs, s.ptrs) == [ViewOf(Slab([1], []), 0)];
  }

  /** Block idx of slab it, in neither list, is live. */
  lemma LiveByPlace(s: State, it: nat, idx: nat, p: int)
    requires |s.slabs| == |s.ptrs| && it < |s.slabs| && idx < s.count && p == s.ptrs[it] + idx * s.blockSize
    requires idx !in s.slabs[it].availible && idx !in s.slabs[it].foreigns
    ensures Live(s, p)
  {
    var v := Views(s.slabs, s.ptrs);
    assert v[it] in v;
    assert SC.LiveIn(s.count, s.blockSize, View(s), p, v[it], idx);
  }

  // ----- the owner alone: three allocations, and the third block comes back

  lemma ThirdAlloc()
    ensures var s := Two([UNUSED, USED], [16384, 0], 0, 2);
            && Legal(s, Alloc(16384))
            && Apply(s, Alloc(16384)) == Some(Two([Slab([1], []), USED], [16384, 0], 0, 3))
  {
    var s := Two([UNUSED, USED], [16384, 0], 0, 2);
    assert [1, 0][..1] == [1];
    assert Pop(s).slabs == [Slab([1], []), USED];
  }

  lemma ThirdFree()
    ensures var s := Two([Slab([1], []), USED], [16384, 0], 0, 3);
            && Legal(s, Dealloc(16384, true))
            && Apply(s, Dealloc(16384, true)) == Some(Two([USED], [0], 0, 2))
  {
    var s := Two([Slab([1], []), USED], [16384, 0], 0, 3);
    LiveByPlace(s, 0, 0, 16384);
    assert Find(s, 16384, 0) == Some(0);
    var s1 := Push(s, 0, 16384, true);
    assert [1] + [0] == [1, 0];
    assert s1.slabs == [UNUSED, USED];
    assert SwapPop([UNUSED, USED], 0) == [USED] && SwapPop([16384, 0], 0) == [0];
    assert MemToDispatch(s1, 0) == Two([USED], [0], 0, 3);
  }

  /** An owner-only run: the release guard fires and leaves a full slab active. */
  lemma ReleaseRun()
    ensures Reach(Initial(2, 8192, 0), [Alloc(16384), Alloc(16384), Alloc(16384), Dealloc(16384, true)],
                  Two([USED], [0], 0, 2))
    ensures Shape(Two([USED], [0], 0, 2)) && forall mem :: Allocate(Two([USED], [0], 0, 2), mem) == Undefined
  {
    hide Apply, Legal;
    var end := Two([USED], [0], 0, 2);
    Start();
    FirstAlloc();
    SecondAlloc();
    ThirdAlloc();
    ThirdFree();
    OneMore(Two([Slab([1], []), USED], [16384, 0], 0, 3), Dealloc(16384, true), [], end);
    OneMore(Two([UNUSED, USED], [16384, 0], 0, 2), Alloc(16384), [Dealloc(16384, true)], end);
    OneMore(Two([Slab([1], [])], [0], 0, 1), Alloc(16384), [Alloc(16384), Dealloc(16384, true)], end);
    OneMore(Two([UNUSED], [0], 0, 0), Alloc(16384), [Alloc(16384), Alloc(16384), Dealloc(16384, true)], end);
    assert [Alloc(16384)] + [Alloc(16384), Alloc(16384), Dealloc(16384, true)]
           == [Alloc(16384), Alloc(16384), Alloc(16384), Dealloc(16384, true)];
  }

  // ----- another thread frees both blocks of the full slab

  lemma FirstForeignFree()
    ensures var s := Two([UNUSED, USED], [16384, 0], 0, 2);
            && Legal(s, Dealloc(0, false))
            && Apply(s, Dealloc(0, false)) == Some(Two([UNUSED, Slab([], [0])], [16384, 0], 0, 1))
  {
    var s := Two([UNUSED, USED], [16384, 0], 0, 2);
    LiveByPlace(s, 1, 0, 0);
    FoundSecond(s, 0);
    PushesToSecond(s, 0, 0);
    assert [] + [0] == [0];
    hide Find, Live, Push;
  }

  /** The second foreign free moves the slab in front of the active one, its own list still empty. */
  lemma SecondForeignFree()
    ensures var s := Two([UNUSED, Slab([], [0])], [16384, 0], 0, 1);
            && Legal(s, Dealloc(8192, false))
            && Apply(s, Dealloc(8192, false)) == Some(Two([Slab([], [0, 1]), UNUSED], [0, 16384], 1, 0))
  {
    var s := Two([UNUSED, Slab([], [0])], [16384, 0], 0, 1);
    var t := Two([UNUSED, Slab([], [0, 1])], [16384, 0], 0, 1);
    LiveByPlace(s, 1, 1, 8192);
    FoundSecond(s, 8192);
    PushesToSecond(s, 8192, 1);
    assert [0] + [1] == [0, 1];
    RotateTwo(t.slabs);
    RotateTwo(t.ptrs);
    assert SpliceBoth(t, 1) == Two([Slab([], [0, 1]), UNUSED], [0, 16384], 1, 1);
    hide Find, Live, Rotate, Push;
  }

  lemma RotateTwo<T>(l: seq<T>)
    requires |l| == 2
    ensures Rotate(l, 0, 1) == [l[1], l[0]]
  {}

  lemma FoundSecond(s: State, p: int)
    requires Shape(s) && |s.ptrs| == 2 && s.actMem == 0
    requires !ContainsMem(s, s.ptrs[0], p) && ContainsMem(s, s.ptrs[1], p)
    ensures Find(s, p, 0) == Some(1)
  {
    assert Find(s, p, 1) == Some(1);
  }

  lemma PushesToSecond(s: State, p: int, idx: nat)
    requires Shape(s) && |s.slabs| == 2 && ContainsMem(s, s.ptrs[1], p)
    requires (p - s.ptrs[1]) / s.blockSize == idx < SC.INDEX_VALUES
    ensures var slab := s.slabs[1];
            Push(s, 1, p, false).slabs == [s.slabs[0], slab.(foreigns := slab.foreigns + [idx])]
  {}

  lemma LastAllocs()
    ensures var s := Two([Slab([], [0, 1]), UNUSED], [0, 16384], 1, 0);
            var s1 := Two([Slab([], [0, 1]), Slab([1], [])], [0, 16384], 1, 1);
            var s2 := Two([Slab([], [0, 1]), USED], [0, 16384], 0, 2);
            && Legal(s, Alloc(16384)) && Apply(s, Alloc(16384)) == Some(s1)
            && Legal(s1, Alloc(16384)) && Apply(s1, Alloc(16384)) == Some(s2)
  {
    var s := Two([Slab([], [0, 1]), UNUSED], [0, 16384], 1, 0);
    var s1 := Two([Slab([], [0, 1]), Slab([1], [])], [0, 16384], 1, 1);
    assert [1, 0][..1] == [1] && [1][..0] == [];
    assert Pop(s).slabs == s1.slabs;
    assert Pop(s1).slabs == [Slab([], [0, 1]), USED];
  }

  /** A run with foreign frees: the slab they moved to the front becomes active without a merge. */
  lemma ForeignRun()
    ensures var s := Two([Slab([], [0, 1]), USED], [0, 16384], 0, 2);
            && Reach(Initial(2, 8192, 0),
                     [Alloc(16384), Alloc(16384), Dealloc(0, false), Dealloc(8192, false), Alloc(16384), Alloc(16384)], s)
            && Shape(s) && forall mem :: Allocate(s, mem) == Undefined
  {
    hide Apply, Legal;
    var end := Two([Slab([], [0, 1]), USED], [0, 16384], 0, 2);
    var A, D0, D8 := Alloc(16384), Dealloc(0, false), Dealloc(8192, false);
    Start();
    FirstAlloc();
    SecondAlloc();
    FirstForeignFree();
    SecondForeignFree();
    LastAllocs();
    OneMore(Two([Slab([], [0, 1]), Slab([1], [])], [0, 16384], 1, 1), A, [], end);
    OneMore(Two([Slab([], [0, 1]), UNUSED], [0, 16384], 1, 0), A, [A], end);
    OneMore(Two([UNUSED, Slab([], [0])], [16384, 0], 0, 1), D8, [A, A], end);
    OneMore(Two([UNUSED, USED], [16384, 0], 0, 2), D0, [D8, A, A], end);
    OneMore(Two([Slab([1], [])], [0], 0, 1), A, [D0, D8, A, A], end);
    OneMore(Two([UNUSED], [0], 0, 0), A, [A, D0, D8, A, A], end);
    assert [A] + [A, D0, D8, A, A] == [A, A, D0, D8, A, A];
  }
}
