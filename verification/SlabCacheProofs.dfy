/** What the three-list slab cache keeps, and exactly when: at least two blocks per slab. */
module SlabCacheProofs {
  import opened SizeTypes
  import opened Indices
  import opened SlabCache

  // ----- replacing one slab by itself with another stack

  ghost predicate Replaces(m: multiset<Slab>, m': multiset<Slab>, a: Slab, b: Slab) {
    a in m && a != b && a.mem == b.mem && m' == m - multiset{a} + multiset{b}
  }

  lemma ReplaceKeeps(count: nat, bytes: nat, m: multiset<Slab>, m': multiset<Slab>, a: Slab, b: Slab)
    requires bytes >= 1 && AllOk(count, m) && Disjoint(bytes, m) && Replaces(m, m', a, b) && SlabOk(count, b)
    ensures AllOk(count, m') && Disjoint(bytes, m')
    ensures forall c :: c in m' <==> c == b || (c in m && c != a)
  {
    assert b in m ==> Apart(bytes, a, b);
    assert b !in m;
    forall c, d | c in m' && d in m' && c != d
      ensures Apart(bytes, c, d)
    {
      assert c != b ==> c in m && Apart(bytes, c, a);
      assert d != b ==> d in m && Apart(bytes, d, a);
    }
  }

  /** The block idx that a stack gives up becomes live, and nothing else changes. */
  lemma PopAddsLive(count: nat, blockSize: nat, m: multiset<Slab>, m': multiset<Slab>, a: Slab, b: Slab, p: int)
    requires blockSize * count >= 1 && AllOk(count, m) && Disjoint(blockSize * count, m) && Replaces(m, m', a, b)
    requires a.availible != [] && b.availible == a.availible[..|a.availible| - 1]
    ensures SlabOk(count, b)
    ensures var idx := a.availible[|a.availible| - 1];
            LiveAmong(count, blockSize, m', p)
            <==> LiveAmong(count, blockSize, m, p) || p == a.mem + idx * blockSize
  {
    var idx := a.availible[|a.availible| - 1];
    assert idx !in b.availible;
    assert forall k :: k in a.availible <==> k == idx || k in b.availible by {
      assert a.availible == b.availible + [idx];
    }
    ReplaceKeeps(count, blockSize * count, m, m', a, b);
    if c, k: nat :| LiveIn(count, blockSize, m', p, c, k) {
      if c != b || k != idx {
        assert LiveIn(count, blockSize, m, p, if c == b then a else c, k);
      }
    }
    if c, k: nat :| LiveIn(count, blockSize, m, p, c, k) {
      assert LiveIn(count, blockSize, m', p, if c == a then b else c, k);
    }
    if p == a.mem + idx * blockSize {
      assert LiveIn(count, blockSize, m', p, b, idx);
    }
  }

  /** The index may go anywhere in the list. */
  lemma PushKeepsSlab(count: nat, a: Slab, b: Slab, idx: nat)
    requires SlabOk(count, a) && idx !in a.availible && idx < count
    requires multiset(b.availible) == multiset(a.availible) + multiset{idx}
    ensures SlabOk(count, b)
    ensures forall k :: k in b.availible <==> k == idx || k in a.availible
  {
    DistinctIff(a.availible);
    DistinctIff(b.availible);
    assert multiset(a.availible)[idx] == 0;
    assert forall k :: k in b.availible <==> k in multiset(b.availible);
    assert forall k :: k in a.availible <==> k in multiset(a.availible);
    forall i | 0 <= i < |b.availible|
      ensures b.availible[i] < count
    {
      assert b.availible[i] in b.availible;
    }
  }

  /** The block idx that a stack takes back is no longer live, and nothing else changes. */
  lemma PushRemovesLive(count: nat, blockSize: nat, m: multiset<Slab>, m': multiset<Slab>,
                        a: Slab, b: Slab, idx: nat, p: int)
    requires count >= 1 && blockSize >= 1
    requires blockSize * count >= 1 && AllOk(count, m) && Disjoint(blockSize * count, m) && Replaces(m, m', a, b)
    requires multiset(b.availible) == multiset(a.availible) + multiset{idx} && idx !in a.availible && idx < count
    ensures SlabOk(count, b)
    ensures LiveAmong(count, blockSize, m', p)
            <==> LiveAmong(count, blockSize, m, p) && p != a.mem + idx * blockSize
  {
    PushKeepsSlab(count, a, b, idx);
    ReplaceKeeps(count, blockSize * count, m, m', a, b);
    if c, k: nat :| LiveIn(count, blockSize, m', p, c, k) {
      var c0 := if c == b then a else c;
      assert LiveIn(count, blockSize, m, p, c0, k);
      if p == a.mem + idx * blockSize {
        SameBlock(count, blockSize, m, c0, k, a, idx);
      }
    }
    if c, k: nat :| LiveIn(count, blockSize, m, p, c, k) {
      if c != a || k != idx {
        assert LiveIn(count, blockSize, m', p, if c == a then b else c, k);
      }
    }
  }

  /** Two block starts that coincide belong to the same slab and have the same index. */
  lemma SameBlock(count: nat, blockSize: nat, m: multiset<Slab>, c: Slab, k: nat, d: Slab, idx: nat)
    requires count >= 1 && blockSize >= 1 && Disjoint(blockSize * count, m) && c in m && d in m
    requires k < count && idx < count && c.mem + k * blockSize == d.mem + idx * blockSize
    ensures c == d && k == idx
  {
    BlockInSlab(count, blockSize, k);
    BlockInSlab(count, blockSize, idx);
    assert c != d ==> Apart(blockSize * count, c, d);
    IndexByDivision(k, blockSize, 0);
    IndexByDivision(idx, blockSize, 0);
  }

  lemma BlockInSlab(count: nat, blockSize: nat, k: nat)
    requires k < count
    ensures 0 <= k * blockSize && k * blockSize + blockSize <= blockSize * count
  {
    MulMonotone(k + 1, count, blockSize);
    assert (k + 1) * blockSize == k * blockSize + blockSize;
  }

  lemma BlocksOfOneSlab(blockSize: nat, k: nat, j: nat)
    requires k < j
    ensures k * blockSize + blockSize <= j * blockSize
  {
    MulMonotone(k + 1, j, blockSize);
    assert (k + 1) * blockSize == k * blockSize + blockSize;
  }

  /** Live pointers denote pairwise disjoint blocks. */
  lemma LiveBlocksApart(s: State, p: int, q: int)
    requires Inv(s) && Live(s, p) && Live(s, q) && p != q
    ensures p + s.blockSize <= q || q + s.blockSize <= p
  {
    hide AllOk, ListsOk, Used, Slabs;
    var c, k: nat :| LiveIn(s.count, s.blockSize, Slabs(s), p, c, k);
    var d, j: nat :| LiveIn(s.count, s.blockSize, Slabs(s), q, d, j);
    BlockInSlab(s.count, s.blockSize, k);
    BlockInSlab(s.count, s.blockSize, j);
    if c != d {
      assert Apart(s.blockSize * s.count, c, d);
    } else if k < j {
      BlocksOfOneSlab(s.blockSize, k, j);
    } else if j < k {
      BlocksOfOneSlab(s.blockSize, j, k);
    }
  }

  // ----- a new slab

  /** Every index of a new slab is on its stack. */
  lemma StackIsFull(count: nat)
    requires count <= INDEX_VALUES
    ensures forall k: nat :: k < count ==> k in IndexStack(count)
  {
    forall k: nat | k < count
      ensures k in IndexStack(count)
    {
      IndexStackIff(count);
      assert IndexStack(count)[count - 1 - k] == k;
    }
  }

  lemma AddUnusedSlab(count: nat, blockSize: nat, m: multiset<Slab>, b: Slab)
    requires blockSize * count >= 1 && AllOk(count, m) && Disjoint(blockSize * count, m)
    requires SlabOk(count, b) && forall k: nat :: k < count ==> k in b.availible
    requires forall a :: a in m ==> Apart(blockSize * count, a, Slab(b.mem, []))
    ensures AllOk(count, m + multiset{b}) && Disjoint(blockSize * count, m + multiset{b})
    ensures forall p :: LiveAmong(count, blockSize, m + multiset{b}, p) <==> LiveAmong(count, blockSize, m, p)
  {
    var bytes := blockSize * count;
    assert b in m ==> Apart(bytes, b, Slab(b.mem, []));
    assert forall c :: c in m ==> Apart(bytes, c, b);
    forall p
      ensures LiveAmong(count, blockSize, m + multiset{b}, p) <==> LiveAmong(count, blockSize, m, p)
    {
      if c, k: nat :| LiveIn(count, blockSize, m + multiset{b}, p, c, k) {
        assert LiveIn(count, blockSize, m, p, c, k);
      }
      if c, k: nat :| LiveIn(count, blockSize, m, p, c, k) {
        assert LiveIn(count, blockSize, m + multiset{b}, p, c, k);
      }
    }
  }

  lemma NewSlabKeeps(s: State, mem: int)
    requires Inv(s) && Fresh(s, mem)
    ensures Inv(NewSlab(s, mem))
    ensures forall p :: Live(NewSlab(s, mem), p) <==> Live(s, p)
  {
    hide AllOk, Disjoint, LiveAmong, SlabOk, Apart, Used;
    var s' := NewSlab(s, mem);
    var b := Slab(mem, IndexStack(s.count));
    assert Slabs(s') == Slabs(s) + multiset{b};
    IndexStackIff(s.count);
    StackIsFull(s.count);
    MemIrrelevant(s.count, Slab(0, IndexStack(s.count)), b);
    UsedSnoc(s.count, s.free, b);
    assert s.blockSize * s.count >= 1;
    AddUnusedSlab(s.count, s.blockSize, Slabs(s), b);
    var n := |s.free| + |s.part| + |s.full|;
    assert s.count * (n + 1) == s.count * n + s.count;
  }

  lemma MemIrrelevant(count: nat, a: Slab, b: Slab)
    requires SlabOk(count, a) && a.availible == b.availible
    ensures SlabOk(count, b)
  {}

  // ----- allocate

  /** What allocate did: the state is good again and exactly the block at p became live. */
  ghost predicate Allocated(s: State, s': State, p: int) {
    && Inv(s')
    && s'.count == s.count && s'.blockSize == s.blockSize && s'.size == s.size + 1
    && !Live(s, p) && forall q :: Live(s', q) <==> Live(s, q) || q == p
  }

  /** Lists and counters of the new state, apart from what its slabs hold. */
  ghost predicate Counted(s: State) {
    && ListsOk(s)
    && s.capacity == s.count * (|s.free| + |s.part| + |s.full|)
    && s.size == Used(s.count, s.free) + Used(s.count, s.part) + Used(s.count, s.full)
  }

  lemma PoppedWasNotLive(s: State, a: Slab)
    requires Inv(s) && a in Slabs(s) && a.availible != []
    ensures a.availible[|a.availible| - 1] < s.count
    ensures !Live(s, a.mem + a.availible[|a.availible| - 1] * s.blockSize)
  {
    hide ListsOk, Used, Slabs, Disjoint;
    var idx := a.availible[|a.availible| - 1];
    var p := a.mem + idx * s.blockSize;
    assert SlabOk(s.count, a) && idx in a.availible;
    if c, k: nat :| LiveIn(s.count, s.blockSize, Slabs(s), p, c, k) {
      SameBlock(s.count, s.blockSize, Slabs(s), c, k, a, idx);
    }
  }

  /** The common part of both ways to allocate: slab a of s has become b, somewhere in s'. */
  lemma AllocatedBy(s: State, s': State, a: Slab, b: Slab)
    requires Inv(s) && a.availible != []
    requires b == a.(availible := a.availible[..|a.availible| - 1])
    requires a in Slabs(s) && Slabs(s') == Slabs(s) - multiset{a} + multiset{b}
    requires s'.count == s.count && s'.blockSize == s.blockSize && s'.size == s.size + 1
    requires Counted(s')
    ensures Allocated(s, s', a.mem + a.availible[|a.availible| - 1] * s.blockSize)
  {
    hide ListsOk, Used, Slabs, Disjoint, AllOk, SlabOk, LiveAmong, Apart;
    var m, m' := Slabs(s), Slabs(s');
    assert s.blockSize * s.count >= 1;
    PoppedWasNotLive(s, a);
    forall q
      ensures SlabOk(s.count, b)
      ensures Live(s', q) <==> Live(s, q) || q == a.mem + a.availible[|a.availible| - 1] * s.blockSize
    {
      PopAddsLive(s.count, s.blockSize, m, m', a, b, q);
    }
    PopAddsLive(s.count, s.blockSize, m, m', a, b, 0);
    ReplaceKeeps(s.count, s.blockSize * s.count, m, m', a, b);
  }

  lemma PartElements(s: State)
    requires s.part != [] && AllocatePart(s).Done?
    ensures var a := s.part[0];
            var b := a.(availible := a.availible[..|a.availible| - 1]);
            a in Slabs(s) && Slabs(AllocatePart(s).state) == Slabs(s) - multiset{a} + multiset{b}
  {
    hide SwapPop;
    var a := s.part[0];
    var b := a.(availible := a.availible[..|a.availible| - 1]);
    var part := s.part[0 := b];
    assert a in multiset(s.part);
    assert multiset(part) == multiset(s.part) - multiset{a} + multiset{b};
    SwapPopElements(part, 0);
    assert multiset(s.full + [b]) == multiset(s.full) + multiset{b};
  }

  lemma PartCounted(s: State)
    requires Counted(s) && s.count >= 1 && s.part != []
    ensures AllocatePart(s).Done? && Counted(AllocatePart(s).state)
  {
    hide Used;
    var a := s.part[0];
    var b := a.(availible := a.availible[..|a.availible| - 1]);
    var part := s.part[0 := b];
    UsedUpdate(s.count, s.part, 0, b);
    if b.availible == [] {
      UsedSwapPop(s.count, part, 0);
      UsedSnoc(s.count, s.full, b);
      SwapPopUpdated(s.part, 0, b);
    }
  }

  lemma AllocatePartKeeps(s: State)
    requires Inv(s) && s.part != []
    ensures AllocatePart(s).Done? && Allocated(s, AllocatePart(s).state, AllocatePart(s).value)
  {
    hide Used, SwapPop, Slabs, Disjoint, AllOk, Allocated;
    var a := s.part[0];
    PartCounted(s);
    PartElements(s);
    AllocatedBy(s, AllocatePart(s).state, a, a.(availible := a.availible[..|a.availible| - 1]));
  }

  lemma FreeElements(s: State)
    requires s.free != [] && s.free[0].availible != [] && |s.free[0].availible| >= 2
    ensures var a := s.free[0];
            var b := a.(availible := a.availible[..|a.availible| - 1]);
            a in Slabs(s) && Slabs(AllocateFree(s).state) == Slabs(s) - multiset{a} + multiset{b}
  {
    hide SwapPop;
    var a := s.free[0];
    var b := a.(availible := a.availible[..|a.availible| - 1]);
    SwapPopUpdated(s.free, 0, b);
    SwapPopElements(s.free, 0);
    assert a in multiset(s.free);
    assert multiset(s.part + [b]) == multiset(s.part) + multiset{b};
  }

  lemma FreeCounted(s: State)
    requires Counted(s) && s.count >= 2 && s.free != []
    ensures AllocateFree(s).Done? && Counted(AllocateFree(s).state)
  {
    hide Used;
    var a := s.free[0];
    var b := a.(availible := a.availible[..|a.availible| - 1]);
    SwapPopUpdated(s.free, 0, b);
    UsedSwapPop(s.count, s.free, 0);
    UsedSnoc(s.count, s.part, b);
  }

  lemma AllocateFreeKeeps(s: State)
    requires Inv(s) && s.free != [] && s.count >= 2
    ensures AllocateFree(s).Done? && Allocated(s, AllocateFree(s).state, AllocateFree(s).value)
  {
    hide Used, SwapPop, Slabs, Disjoint, AllOk, Allocated;
    var a := s.free[0];
    FreeCounted(s);
    FreeElements(s);
    AllocatedBy(s, AllocateFree(s).state, a, a.(availible := a.availible[..|a.availible| - 1]));
  }

  /** With one block per slab the slab goes to the partial list exhausted, and the second splice moves
      another slab to the full list, or none is there. */
  lemma AllocateFreeBreaks(s: State)
    requires Inv(s) && s.free != [] && s.count == 1
    ensures AllocateFree(s).Done? ==> !Inv(AllocateFree(s).state)
  {
    hide Used, SwapPop, Slabs, Disjoint, AllOk;
    if AllocateFree(s).Done? {
      var s' := AllocateFree(s).state;
      assert s'.part[|s.part|].availible == [];
    }
  }

  lemma PartialIsBetween(s: State, i: nat)
    requires ListsOk(s) && i < |s.part|
    ensures 0 < |s.part[i].availible| < s.count
  {}

  lemma NoPartialSlabs(s: State)
    requires ListsOk(s) && s.count == 1
    ensures s.part == []
  {
    if s.part != [] {
      PartialIsBetween(s, 0);
    }
  }

  /** allocate works exactly when a slab has at least two blocks. */
  lemma AllocateKeepsIff(s: State, mem: int)
    requires Inv(s) && (s.part == [] && s.free == [] ==> Fresh(s, mem))
    ensures Allocate(s, mem).Done? && Inv(Allocate(s, mem).state) <==> s.count >= 2
    ensures s.count >= 2 ==> Allocated(s, Allocate(s, mem).state, Allocate(s, mem).value)
  {
    hide Used, SwapPop, Slabs, Disjoint, AllOk, AllocatePart, AllocateFree, Live;
    var s1 := WithRoom(s, mem);
    if s.part == [] && s.free == [] {
      NewSlabKeeps(s, mem);
    }
    if s.count == 1 {
      NoPartialSlabs(s1);
      AllocateFreeBreaks(s1);
    } else if s1.part != [] {
      AllocatePartKeeps(s1);
    } else {
      AllocateFreeKeeps(s1);
    }
  }

  /** A new slab is made exactly when every block there is has been handed out: mySize == myCapacity. */
  lemma NewSlabExactlyWhenFull(s: State)
    requires Inv(s)
    ensures s.part == [] && s.free == [] <==> s.size == s.capacity
  {
    hide Disjoint, AllOk, Slabs, Used;
    UsedBounds(s.count, s.free);
    UsedBounds(s.count, s.part);
    UsedBounds(s.count, s.full);
    assert s.capacity == s.count * |s.free| + s.count * |s.part| + s.count * |s.full|;
    assert s.part != [] ==> s.part[0].availible != [];
    assert s.free != [] ==> s.free[0].availible != [];
  }

  // ----- a stack that holds count indices holds all of them

  lemma FullStackHasAll(count: nat, slab: Slab, k: nat)
    requires SlabOk(count, slab) && |slab.availible| == count && k < count
    ensures k in slab.availible
  {
    var a := Members(slab.availible);
    DistinctCard(slab.availible);
    if k !in slab.availible {
      SubsetCard(a + {k}, Below(count));
    }
  }

  // ----- deallocate

  /** deallocate's search finds the one slab that owns a live pointer, in the full list or in the
      partial list, and the division recovers the index the block was handed out with. */
  lemma SearchFindsOwner(s: State, p: int, c: Slab, k: nat)
    requires Inv(s) && LiveIn(s.count, s.blockSize, Slabs(s), p, c, k)
    ensures ContainsMem(s, c, p) && (p - c.mem) / s.blockSize == k
    ensures forall d :: d in Slabs(s) && ContainsMem(s, d, p) ==> d == c
    ensures var i := Search(s, s.full, p);
            if i < |s.full| then s.full[i] == c
            else var j := Search(s, s.part, p); j < |s.part| && s.part[j] == c
  {
    hide Used;
    BlockInSlab(s.count, s.blockSize, k);
    IndexByDivision(k, s.blockSize, 0);
    forall d | d in Slabs(s) && ContainsMem(s, d, p)
      ensures d == c
    {
      assert d != c ==> Apart(s.blockSize * s.count, d, c);
    }
    var i, j := Search(s, s.full, p), Search(s, s.part, p);
    if i < |s.full| {
      assert s.full[i] in multiset(s.full);
    } else if c in multiset(s.free) {
      NotInFree(s, c, k);
    } else {
      assert c in s.full || c in s.part;
      assert j < |s.part|;
      assert s.part[j] in multiset(s.part);
    }
  }

  lemma NotInFree(s: State, c: Slab, k: nat)
    requires Inv(s) && c in multiset(s.free) && k < s.count
    ensures k in c.availible
  {
    hide Used, Disjoint;
    assert SlabOk(s.count, c);
    FullStackHasAll(s.count, c, k);
  }

  /** What deallocate did: the state is good again and exactly the block at p is no longer live. */
  ghost predicate Deallocated(s: State, s': State, p: int) {
    && Inv(s')
    && s'.count == s.count && s'.blockSize == s.blockSize && s'.size == s.size - 1
    && Live(s, p) && forall q :: Live(s', q) <==> Live(s, q) && q != p
  }

  lemma DeallocatedBy(s: State, s': State, a: Slab, b: Slab, k: nat, p: int)
    requires Inv(s) && LiveIn(s.count, s.blockSize, Slabs(s), p, a, k)
    requires b == a.(availible := a.availible + [k])
    requires Slabs(s') == Slabs(s) - multiset{a} + multiset{b}
    requires s'.count == s.count && s'.blockSize == s.blockSize && s'.size == s.size - 1
    requires Counted(s')
    ensures Deallocated(s, s', p)
  {
    hide ListsOk, Used, Slabs, Disjoint, AllOk, SlabOk, Apart;
    var m, m' := Slabs(s), Slabs(s');
    assert s.blockSize * s.count >= 1;
    assert multiset(b.availible) == multiset(a.availible) + multiset{k};
    forall q
      ensures SlabOk(s.count, b)
      ensures Live(s', q) <==> Live(s, q) && q != p
    {
      PushRemovesLive(s.count, s.blockSize, m, m', a, b, k, q);
    }
    PushRemovesLive(s.count, s.blockSize, m, m', a, b, k, p);
    ReplaceKeeps(s.count, s.blockSize * s.count, m, m', a, b);
  }

  /** The lists after full slab i has become b. */
  function Reopen(s: State, i: nat, b: Slab): State
    requires i < |s.full|
  {
    s.(part := s.part + [b], full := SwapPop(s.full, i), size := s.size - 1)
  }

  lemma FullElements(s: State, i: nat, b: Slab)
    requires i < |s.full|
    ensures Slabs(Reopen(s, i, b)) == Slabs(s) - multiset{s.full[i]} + multiset{b}
  {
    hide SwapPop;
    SwapPopElements(s.full, i);
    assert multiset(s.part + [b]) == multiset(s.part) + multiset{b};
    assert s.full[i] in multiset(s.full);
  }

  /** Block k of full slab i comes back, and the slab is not thereby empty. */
  lemma FullSlabComesBack(s: State, i: nat, k: nat, p: int)
    requires Inv(s) && s.count >= 2 && i < |s.full|
    requires LiveIn(s.count, s.blockSize, Slabs(s), p, s.full[i], k)
    requires ContainsMem(s, s.full[i], p) && Return(s, s.full[i], p).availible == s.full[i].availible + [k]
    ensures DeallocateFull(s, i, p).Done? && Deallocated(s, DeallocateFull(s, i, p).state, p)
  {
    hide SwapPop, Disjoint, AllOk, Deallocated, Used, LiveIn, Slabs;
    var a := s.full[i];
    var b := Return(s, a, p);
    assert a.availible == [];
    assert DeallocateFull(s, i, p) == Done(Reopen(s, i, b), ());
    FullElements(s, i, b);
    FullCounted(s, i, b);
    DeallocatedBy(s, Reopen(s, i, b), a, b, k, p);
  }

  lemma FullCounted(s: State, i: nat, b: Slab)
    requires Counted(s) && s.count >= 2 && i < |s.full| && |b.availible| == 1
    ensures Counted(Reopen(s, i, b))
  {
    hide Used;
    UsedSwapPop(s.count, s.full, i);
    UsedSnoc(s.count, s.part, b);
  }

  lemma PartSlabGains(s: State, j: nat, k: nat, p: int)
    requires Inv(s) && j < |s.part|
    requires LiveIn(s.count, s.blockSize, Slabs(s), p, s.part[j], k)
    requires ContainsMem(s, s.part[j], p) && Return(s, s.part[j], p).availible == s.part[j].availible + [k]
    ensures DeallocatePart(s, j, p).Done? && Deallocated(s, DeallocatePart(s, j, p).state, p)
  {
    hide SwapPop, Disjoint, AllOk, Deallocated, Used, LiveIn;
    var a := s.part[j];
    var b := Return(s, a, p);
    var s' := DeallocatePart(s, j, p).state;
    PartReturnElements(s, j, b);
    PartReturnCounted(s, j, b);
    hide Slabs, ListsOk;
    DeallocatedBy(s, s', a, b, k, p);
  }

  /** The lists after slab j of the partial list has become b. */
  function Settle(s: State, j: nat, b: Slab): State
    requires j < |s.part|
  {
    var s1 := s.(part := s.part[j := b], size := s.size - 1);
    if |b.availible| != s.count then s1 else s1.(free := s.free + [b], part := SwapPop(s1.part, j))
  }

  lemma PartReturnElements(s: State, j: nat, b: Slab)
    requires j < |s.part|
    ensures Slabs(Settle(s, j, b)) == Slabs(s) - multiset{s.part[j]} + multiset{b}
  {
    hide SwapPop;
    var part := s.part[j := b];
    assert s.part[j] in multiset(s.part);
    assert multiset(part) == multiset(s.part) - multiset{s.part[j]} + multiset{b};
    SwapPopElements(part, j);
    assert multiset(s.free + [b]) == multiset(s.free) + multiset{b};
  }

  lemma PartReturnCounted(s: State, j: nat, b: Slab)
    requires Counted(s) && s.count >= 1 && j < |s.part| && |b.availible| == |s.part[j].availible| + 1
    ensures Counted(Settle(s, j, b))
  {
    hide Used;
    UsedUpdate(s.count, s.part, j, b);
    UsedSwapPop(s.count, s.part[j := b], j);
    UsedSnoc(s.count, s.free, b);
    SwapPopUpdated(s.part, j, b);
  }

  /** With one block per slab a returning slab leaves an exhausted slab in the partial list, or there is
      no last full slab to swap with. */
  lemma DeallocateFullBreaks(s: State, i: nat, p: int)
    requires Inv(s) && s.count == 1 && i < |s.full| && ContainsMem(s, s.full[i], p)
    ensures DeallocateFull(s, i, p).Done? ==> !Inv(DeallocateFull(s, i, p).state)
  {
    hide Used, Slabs, Disjoint, AllOk;
    var full := SwapPop(s.full, i);
    if DeallocateFull(s, i, p).Done? {
      assert full[|full| - 1].availible == [];
      assert DeallocateFull(s, i, p).state.part[|s.part|].availible == [];
    }
  }

  lemma DeallocateBreaks(s: State, p: int)
    requires Inv(s) && Live(s, p) && s.count == 1
    ensures Deallocate(s, p).Done? ==> !Inv(Deallocate(s, p).state)
  {
    hide Used, Slabs, Disjoint, AllOk, SwapPop, DeallocateFull;
    var c, k: nat :| LiveIn(s.count, s.blockSize, Slabs(s), p, c, k);
    SearchFindsOwner(s, p, c, k);
    NoPartialSlabs(s);
    DeallocateFullBreaks(s, Search(s, s.full, p), p);
  }

  lemma ReturnGives(s: State, c: Slab, k: nat, p: int)
    requires s.blockSize > 0 && ContainsMem(s, c, p) && (p - c.mem) / s.blockSize == k && k < INDEX_VALUES
    ensures Return(s, c, p) == c.(availible := c.availible + [k])
  {}

  lemma DeallocateWorks(s: State, p: int)
    requires Inv(s) && Live(s, p) && s.count >= 2
    ensures Deallocate(s, p).Done? && Deallocated(s, Deallocate(s, p).state, p)
  {
    hide Used, Slabs, Disjoint, AllOk, ListsOk, SwapPop, DeallocateFull, DeallocatePart, Deallocated, Return, ContainsMem;
    var c, k: nat :| LiveIn(s.count, s.blockSize, Slabs(s), p, c, k);
    SearchFindsOwner(s, p, c, k);
    ReturnGives(s, c, k, p);
    var i := Search(s, s.full, p);
    if i < |s.full| {
      FullSlabComesBack(s, i, k, p);
    } else {
      PartSlabGains(s, Search(s, s.part, p), k, p);
    }
  }

  /** deallocate of a live pointer works exactly when a slab has at least two blocks. */
  lemma DeallocateKeepsIff(s: State, p: int)
    requires Inv(s) && Live(s, p)
    ensures Deallocate(s, p).Done? && Inv(Deallocate(s, p).state) <==> s.count >= 2
    ensures s.count >= 2 ==> Deallocated(s, Deallocate(s, p).state, p)
  {
    assert s.count >= 1 && s.blockSize > 0;
    hide Inv, Live, Deallocate, Deallocated;
    if s.count == 1 {
      DeallocateBreaks(s, p);
    } else {
      DeallocateWorks(s, p);
      DeallocatedIsGood(s, Deallocate(s, p).state, p);
    }
  }

  lemma DeallocatedIsGood(s: State, s': State, p: int)
    requires Deallocated(s, s', p)
    ensures Inv(s')
  {}

  // ----- which block allocate takes

  /** allocate takes a block of the first partial slab, otherwise of the first unused one, otherwise the first
      block of a new slab; the capacity grows, by one slab, exactly when every block there is was in use. */
  lemma AllocateServes(s: State, mem: int)
    requires Inv(s) && s.count >= 2
    ensures var r := Allocate(s, mem);
            && r.Done?
            && r.state.size == s.size + 1
            && r.state.capacity == s.capacity + (if s.size == s.capacity then s.count else 0)
            && (if s.part != [] then ContainsMem(s, s.part[0], r.value)
                else if s.free != [] then ContainsMem(s, s.free[0], r.value)
                else r.value == mem)
  {
    hide Disjoint, Used;
    NewSlabExactlyWhenFull(s);
    IndexStackIff(s.count);
    var s1 := WithRoom(s, mem);
    var slab := if s1.part != [] then s1.part[0] else s1.free[0];
    assert s.part != [] || s.free != [] ==> slab in Slabs(s);
    BlockInSlab(s.count, s.blockSize, slab.availible[|slab.availible| - 1]);
  }

  /** A block given back to the first partial slab, which stays in use, is the next one handed out, and the
      two calls leave the cache as it was. */
  lemma AllocateReuses(s: State, p: int, mem: int)
    requires Inv(s) && Live(s, p) && s.part != [] && ContainsMem(s, s.part[0], p)
    requires |s.part[0].availible| + 1 < s.count
    ensures Deallocate(s, p).Done? && Allocate(Deallocate(s, p).state, mem) == Done(s, p)
  {
    hide Used, Disjoint, SlabOk, Search, ContainsMem, Return, DeallocatePart, AllocatePart;
    var c, k: nat :| LiveIn(s.count, s.blockSize, Slabs(s), p, c, k);
    assert s.part[0] in Slabs(s);
    SearchFindsOwner(s, p, c, k);
    FirstPartSlab(s, p, c);
    ReturnGives(s, c, k, p);
    FirstSlabTurns(s, p, c, k);
  }

  /** The search ends at the first partial slab if that is the one that holds the pointer. */
  lemma FirstPartSlab(s: State, p: int, c: Slab)
    requires Inv(s) && s.part != [] && s.part[0] == c
    requires var i := Search(s, s.full, p);
             if i < |s.full| then s.full[i] == c
             else var j := Search(s, s.part, p); j < |s.part| && s.part[j] == c
    ensures Search(s, s.full, p) == |s.full| && Search(s, s.part, p) == 0
  {
    hide Used, SlabOk, AllOk, Search;
    assert c in Slabs(s) && Slabs(s)[c] == 1;
    var j := Search(s, s.part, p);
    if Search(s, s.full, p) == |s.full| && j > 0 {
      OccursTwice(s.part, 0, j);
    }
  }

  lemma FirstSlabTurns(s: State, p: int, c: Slab, k: nat)
    requires s.blockSize > 0 && s.part != [] && s.part[0] == c && ContainsMem(s, c, p)
    requires c.availible != [] && |c.availible| + 1 < s.count && p == c.mem + k * s.blockSize
    requires Return(s, c, p) == c.(availible := c.availible + [k])
    ensures DeallocatePart(s, 0, p).Done?
    ensures forall mem :: Allocate(DeallocatePart(s, 0, p).state, mem) == Done(s, p)
  {
    hide Return, ContainsMem;
    var slab := Return(s, c, p);
    assert slab.availible[..|c.availible|] == c.availible;
    assert s.part[0 := slab][0 := c] == s.part;
  }

  // ----- freeAll and freeEmpty

  lemma FreeAllKeeps(s: State)
    requires Inv(s)
    ensures Inv(FreeAll(s)) && forall p :: !Live(FreeAll(s), p)
    ensures Slabs(FreeAll(s)) == multiset{} && FreeAll(s).capacity == 0
  {
    assert Slabs(FreeAll(s)) == multiset{};
  }

  lemma FreeEmptySlabs(s: State)
    requires AllOk(s.count, Slabs(s)) && Disjoint(s.blockSize * s.count, Slabs(s))
    ensures AllOk(s.count, Slabs(FreeEmpty(s))) && Disjoint(s.blockSize * s.count, Slabs(FreeEmpty(s)))
  {
    hide SlabOk, Apart;
    assert Slabs(FreeEmpty(s)) == multiset(s.part) + multiset(s.full);
    assert forall a :: a in Slabs(FreeEmpty(s)) ==> a in Slabs(s) && Slabs(FreeEmpty(s))[a] <= Slabs(s)[a];
  }

  lemma FreeEmptyCountedIff(s: State)
    requires Counted(s)
    ensures Counted(FreeEmpty(s)) <==> s.free == [] || s.blockSize == s.count
  {
    hide Used;
    UsedBounds(s.count, s.free);
    UsedBounds(s.count, []);
    var n, kept := |s.free|, |s.part| + |s.full|;
    Distribute(s.count, n, kept);
    if n > 0 && s.blockSize != s.count {
      Cancel(n, s.blockSize, s.count);
    }
  }

  lemma Distribute(a: nat, n: nat, m: nat)
    ensures a * (n + m) == n * a + a * m
  {}

  /** freeEmpty subtracts blockSize for each slab where newSlab added count: the state stays good
      exactly when no slab is given up or the two happen to be the same number. */
  lemma FreeEmptyKeepsIff(s: State)
    requires Inv(s)
    ensures Inv(FreeEmpty(s)) <==> s.free == [] || s.blockSize == s.count
  {
    hide AllOk, Disjoint, Slabs, ListsOk, Used;
    FreeEmptySlabs(s);
    FreeEmptyCountedIff(s);
  }

  /** freeEmpty gives up the unused slabs and nothing else: the same blocks are live. */
  lemma FreeEmptyKeepsLive(s: State)
    requires Inv(s)
    ensures var s' := FreeEmpty(s);
            && s'.free == [] && s'.part == s.part && s'.full == s.full
            && s'.size == s.size && s'.count == s.count && s'.blockSize == s.blockSize
            && forall q :: Live(s', q) <==> Live(s, q)
  {
    hide Inv, Live;
    forall q
      ensures Live(FreeEmpty(s), q) <==> Live(s, q)
    {
      KeptIffLive(s, q);
    }
  }

  lemma KeptIffLive(s: State, q: int)
    requires Inv(s)
    ensures Live(FreeEmpty(s), q) <==> Live(s, q)
  {
    hide Used, Disjoint, SlabOk, Inv;
    var kept := Slabs(FreeEmpty(s));
    assert kept == multiset(s.part) + multiset(s.full);
    if Live(s, q) {
      var c, k: nat :| LiveIn(s.count, s.blockSize, Slabs(s), q, c, k);
      UnusedHasAll(s, c, k);
      assert LiveIn(s.count, s.blockSize, kept, q, c, k);
    }
    if Live(FreeEmpty(s), q) {
      var c, k: nat :| LiveIn(s.count, s.blockSize, kept, q, c, k);
      assert LiveIn(s.count, s.blockSize, Slabs(s), q, c, k);
    }
  }

  /** A slab of the free list has every index on its stack. */
  lemma UnusedHasAll(s: State, c: Slab, k: nat)
    requires Inv(s) && k < s.count
    ensures c in s.free ==> k in c.availible
  {
    hide Used, Disjoint;
    if c in s.free {
      assert c in Slabs(s);
      var i :| 0 <= i < |s.free| && s.free[i] == c;
      FullStackHasAll(s.count, c, k);
    }
  }

  /** A new cache of two 8-byte blocks a slab: its slab adds 2 to the capacity, and giving it up takes 8 off. */
  lemma FreeEmptyExample()
    ensures Inv(Initial(8, 2, 0)) && Initial(8, 2, 0).capacity == 2
    ensures FreeEmpty(Initial(8, 2, 0)).capacity == -6 && !Inv(FreeEmpty(Initial(8, 2, 0)))
  {
    hide Inv;
    InitialInv(8, 2, 0);
    FreeEmptyKeepsIff(Initial(8, 2, 0));
  }

  lemma Cancel(n: nat, a: nat, b: nat)
    requires n > 0 && a != b
    ensures n * a != n * b
  {
    var low, high := if a < b then a else b, if a < b then b else a;
    MulMonotone(low + 1, high, n);
    assert (low + 1) * n == low * n + n;
  }

  // ----- whole runs

  datatype Op = Alloc(mem: int) | Free(p: int) | Clear

  /** The client frees live pointers; operator new answers with memory that overlaps no slab. */
  ghost predicate OpOk(s: State, op: Op) {
    match op
    case Alloc(mem) => s.part == [] && s.free == [] ==> Fresh(s, mem)
    case Free(p) => s.blockSize > 0 && Live(s, p)
    case Clear => true
  }

  /** The state after the operation, if it is defined. */
  ghost function Apply(s: State, op: Op): Outcome<()>
    requires OpOk(s, op)
  {
    match op
    case Alloc(mem) => if Allocate(s, mem).Done? then Done(Allocate(s, mem).state, ()) else Undefined
    case Free(p) => Deallocate(s, p)
    case Clear => Done(FreeAll(s), ())
  }

  ghost predicate Legal(s: State, ops: seq<Op>)
    decreases |ops|
  {
    ops == [] ||
    (OpOk(s, ops[0]) && (Apply(s, ops[0]).Done? ==> Legal(Apply(s, ops[0]).state, ops[1..])))
  }

  /** Every operation of the run is defined and every state on the way is good. */
  ghost predicate Sound(s: State, ops: seq<Op>)
    decreases |ops|
  {
    Inv(s) &&
    (ops == [] || (OpOk(s, ops[0]) && Apply(s, ops[0]).Done? && Sound(Apply(s, ops[0]).state, ops[1..])))
  }

  lemma {:induction false} RunSound(s: State, ops: seq<Op>)
    requires Inv(s) && s.count >= 2 && Legal(s, ops)
    ensures Sound(s, ops)
    decreases |ops|
  {
    hide Inv, Allocate, Deallocate, Live, Fresh;
    if ops != [] {
      match ops[0] {
        case Alloc(mem) =>
          AllocateKeepsIff(s, mem);
        case Free(p) =>
          DeallocateKeepsIff(s, p);
        case Clear =>
          FreeAllKeeps(s);
      }
      RunSound(Apply(s, ops[0]).state, ops[1..]);
    }
  }

  lemma InitialInv(blockSize: nat, count: nat, mem: int)
    requires 1 <= count <= INDEX_VALUES && blockSize > 0
    ensures Inv(Initial(blockSize, count, mem))
  {
    var s := State(count, blockSize, 0, 0, [], [], []);
    assert Slabs(s) == multiset{};
    NewSlabKeeps(s, mem);
  }

  /** The three-list invariant over all runs of a new cache: every legal run is defined throughout and keeps
      the invariant at every point, if and only if a slab has at least two blocks. */
  lemma RunsSoundIff(blockSize: nat, count: nat, mem: int)
    requires 1 <= count <= INDEX_VALUES && blockSize > 0
    ensures (forall ops :: Legal(Initial(blockSize, count, mem), ops) ==> Sound(Initial(blockSize, count, mem), ops))
            <==> count >= 2
  {
    hide Inv, Allocate, Fresh;
    var s := Initial(blockSize, count, mem);
    InitialInv(blockSize, count, mem);
    if count >= 2 {
      forall ops | Legal(s, ops) ensures Sound(s, ops) {
        RunSound(s, ops);
      }
    } else {
      var ops := [Alloc(0)];
      AllocateKeepsIff(s, 0);
      assert Legal(s, ops);
      assert ops[1..] == [];
      assert !Sound(s, ops);
    }
  }
}
