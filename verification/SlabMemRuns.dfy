/** Whole runs over all buckets of Allocators/SlabMem.h: every cache stays good, the memories of all their slabs
    stay apart, and a pointer that is out has one owner, the cache that a free with its byte count is routed to. */
module SlabMemRuns {
  import opened Common
  import opened SizeTypes
  import opened SlabCache
  import opened SlabCacheProofs
  import opened SlabMem

  /** The caches in order, and the pointers that clients hold with the byte count each asked for. */
  datatype World = World(buckets: seq<State>, out: map<int, nat>)

  datatype Call =
    | AddCache(blockSize: nat, count: nat, page: nat, mem: int)
    | Alloc(bytes: nat, mem: int, system: int)
    | Dealloc(p: int)

  function SizesOf(bs: seq<State>): (r: seq<nat>)
    ensures |r| == |bs| && forall i :: 0 <= i < |bs| ==> r[i] == bs[i].blockSize
  {
    seq(|bs|, i requires 0 <= i < |bs| => bs[i].blockSize)
  }

  function RouteIn(w: World, bytes: nat): (r: Option<nat>)
    ensures r.Some? ==> r.value < |w.buckets|
  {
    Route(SizesOf(w.buckets), bytes)
  }

  /** The cache that owns a pointer that is out, None for operator new. */
  function OwnerOf(w: World, p: int): (r: Option<nat>)
    requires p in w.out
    ensures r.Some? ==> r.value < |w.buckets|
  {
    RouteIn(w, w.out[p])
  }

  /** One call; None is undefined behaviour. Clients repeat the byte count, so a free takes it from out. */
  function Apply(w: World, c: Call): Option<World> {
    match c
    case AddCache(blockSize, count, page, mem) =>
      if blockSize == 0 || page == 0 then None
      else Some(w.(buckets := w.buckets + [Initial(blockSize, PageCount(blockSize, count, page), mem)]))
    case Alloc(bytes, mem, system) =>
      (match RouteIn(w, bytes)
       case None => Some(w.(out := w.out[system := bytes]))
       case Some(i) =>
         match SlabCache.Allocate(w.buckets[i], mem)
         case Undefined => None
         case Done(s, p) => Some(World(w.buckets[i := s], w.out[p := bytes])))
    case Dealloc(p) =>
      if p !in w.out then None
      else
        match OwnerOf(w, p)
        case None => Some(w.(out := w.out - {p}))
        case Some(i) =>
          if w.buckets[i].blockSize == 0 then None
          else
            match SlabCache.Deallocate(w.buckets[i], p)
            case Undefined => None
            case Done(s, _) => Some(World(w.buckets[i := s], w.out - {p}))
  }

  // ----- what a good world is

  ghost predicate HasMem(s: State, x: int) {
    exists a :: a in Slabs(s) && a.mem == x
  }

  function Bytes(s: State): int {
    s.blockSize * s.count
  }

  predicate RangesApart(x: int, m: int, y: int, n: int) {
    x + m <= y || y + n <= x
  }

  /** No slab of one cache overlaps a slab of another. */
  ghost predicate CachesApart(bs: seq<State>) {
    forall i, j, x, y :: 0 <= i < |bs| && 0 <= j < |bs| && i != j && HasMem(bs[i], x) && HasMem(bs[j], y)
                         ==> RangesApart(x, Bytes(bs[i]), y, Bytes(bs[j]))
  }

  ghost predicate CachesGood(bs: seq<State>) {
    forall i :: 0 <= i < |bs| ==> Inv(bs[i]) && bs[i].count >= 2
  }

  /** p lies in a slab of the cache. */
  ghost predicate Within(s: State, p: int) {
    exists x :: HasMem(s, x) && x <= p < x + Bytes(s)
  }

  /** A pointer is out from cache i exactly when it is live there; one from operator new lies in no slab. */
  ghost predicate OutOk(w: World) {
    && (forall i, p :: 0 <= i < |w.buckets| ==> (Live(w.buckets[i], p) <==> p in w.out && OwnerOf(w, p) == Some(i)))
    && (forall i, p :: 0 <= i < |w.buckets| && p in w.out && OwnerOf(w, p).None? ==> !Within(w.buckets[i], p))
  }

  ghost predicate Good(w: World) {
    CachesGood(w.buckets) && CachesApart(w.buckets) && OutOk(w)
  }

  /** Memory from operator new for a slab of n bytes: it overlaps no slab and no block that is out. */
  ghost predicate NewMemory(w: World, mem: int, n: int) {
    && (forall i, x :: 0 <= i < |w.buckets| && HasMem(w.buckets[i], x) ==> RangesApart(x, Bytes(w.buckets[i]), mem, n))
    && (forall p :: p in w.out && OwnerOf(w, p).None? ==> !(mem <= p < mem + n))
  }

  /** allocate makes a new slab. */
  predicate Needs(s: State) {
    s.part == [] && s.free == []
  }

  /** A cache is added with at least two blocks that IndexSizeT can count, and with no block of operator new out
      that it would be large enough for. */
  ghost predicate Legal(w: World, c: Call) {
    match c
    case AddCache(blockSize, count, page, mem) =>
      && blockSize > 0 && page > 0 && 2 <= PageCount(blockSize, count, page) <= INDEX_VALUES
      && NewMemory(w, mem, blockSize * PageCount(blockSize, count, page))
      && forall p :: p in w.out && OwnerOf(w, p).None? ==> blockSize < w.out[p]
    case Alloc(bytes, mem, system) =>
      (match RouteIn(w, bytes)
       case None => system !in w.out && forall i :: 0 <= i < |w.buckets| ==> !Within(w.buckets[i], system)
       case Some(i) => Needs(w.buckets[i]) ==> NewMemory(w, mem, Bytes(w.buckets[i])))
    case Dealloc(p) => p in w.out
  }

  ghost predicate Reach(w: World, calls: seq<Call>, w': World)
    decreases |calls|
  {
    if calls == [] then w' == w
    else Legal(w, calls[0]) && Apply(w, calls[0]).Some? && Reach(Apply(w, calls[0]).value, calls[1..], w')
  }

  // ----- slabs and their memory

  lemma LiveIsWithin(s: State, p: int)
    requires Inv(s) && Live(s, p)
    ensures Within(s, p)
  {
    hide Inv, Slabs;
    var c, k: nat :| LiveIn(s.count, s.blockSize, Slabs(s), p, c, k);
    BlockInSlab(s.count, s.blockSize, k);
    Positive(s);
    assert HasMem(s, c.mem);
  }

  lemma Positive(s: State)
    requires Inv(s)
    ensures s.blockSize > 0 && s.count >= 1 && Bytes(s) >= 1
  {}

  lemma ReplacedMem(s: State, s': State, a: Slab, b: Slab, x: int)
    requires a in Slabs(s) && Slabs(s') == Slabs(s) - multiset{a} + multiset{b} && a.mem == b.mem
    ensures HasMem(s', x) ==> HasMem(s, x)
  {
    hide Slabs;
    if c :| c in Slabs(s') && c.mem == x {
      assert c == b || c in Slabs(s);
      assert (if c == b then a else c) in Slabs(s);
    }
  }

  lemma NewSlabMem(s: State, mem: int, x: int)
    ensures HasMem(NewSlab(s, mem), x) ==> HasMem(s, x) || x == mem
  {
    var b := Slab(mem, IndexStack(s.count));
    assert Slabs(NewSlab(s, mem)) == Slabs(s) + multiset{b};
    hide Slabs;
    if c :| c in Slabs(NewSlab(s, mem)) && c.mem == x {
      assert c == b || c in Slabs(s);
    }
  }

  /** allocate brings in at most the memory it asked for. */
  lemma AllocateMem(s: State, mem: int, x: int)
    requires Inv(s) && s.count >= 2 && (Needs(s) ==> Fresh(s, mem))
    ensures SlabCache.Allocate(s, mem).Done?
    ensures HasMem(SlabCache.Allocate(s, mem).state, x) ==> HasMem(s, x) || (x == mem && Needs(s))
  {
    AllocateKeepsIff(s, mem);
    hide Used, SwapPop, HasMem, Disjoint, AllOk, NewSlab, Slabs;
    var s1 := WithRoom(s, mem);
    if s.part == [] && s.free == [] {
      NewSlabKeeps(s, mem);
      NewSlabMem(s, mem, x);
    }
    AllocateMemWithRoom(s1, x);
  }

  lemma AllocateMemWithRoom(s: State, x: int)
    requires Inv(s) && s.count >= 2
    ensures s.part != [] && AllocatePart(s).Done? && HasMem(AllocatePart(s).state, x) ==> HasMem(s, x)
    ensures s.part == [] && s.free != [] && AllocateFree(s).Done? && HasMem(AllocateFree(s).state, x) ==> HasMem(s, x)
  {
    hide SwapPop, HasMem, Slabs, Disjoint, AllOk;
    if s.part != [] && AllocatePart(s).Done? {
      PartElements(s);
      var a := s.part[0];
      ReplacedMem(s, AllocatePart(s).state, a, a.(availible := a.availible[..|a.availible| - 1]), x);
    }
    if s.free != [] && AllocateFree(s).Done? {
      FreeElements(s);
      var a := s.free[0];
      ReplacedMem(s, AllocateFree(s).state, a, a.(availible := a.availible[..|a.availible| - 1]), x);
    }
  }

  lemma DeallocateFullMem(s: State, i: nat, p: int, b: Slab, x: int)
    requires ListsOk(s) && s.blockSize > 0 && s.count >= 2 && i < |s.full| && ContainsMem(s, s.full[i], p)
    requires b == Return(s, s.full[i], p)
    ensures DeallocateFull(s, i, p).Done?
    ensures HasMem(DeallocateFull(s, i, p).state, x) ==> HasMem(s, x)
  {
    hide HasMem, SwapPop;
    assert s.full[i].availible == [] && |b.availible| == 1;
    FullElements(s, i, b);
    assert s.full[i] in multiset(s.full);
    ReplacedMem(s, Reopen(s, i, b), s.full[i], b, x);
    hide Slabs;
  }

  lemma DeallocatePartMem(s: State, j: nat, p: int, b: Slab, x: int)
    requires s.blockSize > 0 && j < |s.part| && ContainsMem(s, s.part[j], p)
    requires b == Return(s, s.part[j], p)
    ensures DeallocatePart(s, j, p).Done?
    ensures HasMem(DeallocatePart(s, j, p).state, x) ==> HasMem(s, x)
  {
    hide HasMem, SwapPop;
    PartReturnElements(s, j, b);
    assert s.part[j] in multiset(s.part);
    ReplacedMem(s, Settle(s, j, b), s.part[j], b, x);
    hide Slabs;
  }

  /** deallocate brings in none. */
  lemma DeallocateMem(s: State, p: int, x: int)
    requires Inv(s) && s.count >= 2 && Live(s, p)
    ensures SlabCache.Deallocate(s, p).Done?
    ensures HasMem(SlabCache.Deallocate(s, p).state, x) ==> HasMem(s, x)
  {
    hide Used, Disjoint, AllOk, SwapPop, HasMem, Slabs, Return, LiveIn, DeallocateFull, DeallocatePart, ListsOk;
    var c, k: nat :| LiveIn(s.count, s.blockSize, Slabs(s), p, c, k);
    SearchFindsOwner(s, p, c, k);
    var i := Search(s, s.full, p);
    if i < |s.full| {
      DeallocateFullMem(s, i, p, Return(s, c, p), x);
    } else {
      DeallocatePartMem(s, Search(s, s.part, p), p, Return(s, c, p), x);
    }
  }

  // ----- every call keeps the world good

  /** What may become of cache i in one call. */
  ghost predicate Grows(w: World, i: nat, s': State, mem: int)
    requires i < |w.buckets|
  {
    && Inv(s') && s'.count == w.buckets[i].count && s'.blockSize == w.buckets[i].blockSize
    && forall x :: HasMem(s', x) ==> HasMem(w.buckets[i], x) || (x == mem && NewMemory(w, mem, Bytes(s')))
  }

  lemma PutKeepsApart(w: World, i: nat, s': State, mem: int)
    requires CachesGood(w.buckets) && CachesApart(w.buckets) && i < |w.buckets| && Grows(w, i, s', mem)
    ensures CachesGood(w.buckets[i := s']) && CachesApart(w.buckets[i := s'])
    ensures SizesOf(w.buckets[i := s']) == SizesOf(w.buckets)
  {
    hide HasMem, Inv;
    var bs' := w.buckets[i := s'];
    forall k, j, x, y | 0 <= k < |bs'| && 0 <= j < |bs'| && k != j && HasMem(bs'[k], x) && HasMem(bs'[j], y)
      ensures RangesApart(x, Bytes(bs'[k]), y, Bytes(bs'[j]))
    {
      assert Bytes(bs'[k]) == Bytes(w.buckets[k]) && Bytes(bs'[j]) == Bytes(w.buckets[j]);
    }
  }

  lemma PutKeepsOut(w: World, i: nat, s': State, mem: int, q: int)
    requires OutOk(w) && i < |w.buckets| && Grows(w, i, s', mem) && q in w.out && OwnerOf(w, q).None?
    ensures !Within(s', q)
  {
    hide HasMem, Inv, Live;
    assert !Within(w.buckets[i], q);
    forall x | HasMem(s', x)
      ensures !(x <= q < x + Bytes(s'))
    {
      assert Bytes(s') == Bytes(w.buckets[i]);
    }
  }

  lemma DeallocKeeps(w: World, p: int)
    requires Good(w) && p in w.out
    ensures Apply(w, Dealloc(p)).Some? && Good(Apply(w, Dealloc(p)).value)
  {
    hide HasMem, Live, Inv, SlabCache.Deallocate, Route;
    var w' := w.(out := w.out - {p});
    if OwnerOf(w, p).Some? {
      var i := OwnerOf(w, p).value;
      var c := w.buckets[i];
      assert Live(c, p);
      DeallocateKeepsIff(c, p);
      Positive(c);
      var s' := SlabCache.Deallocate(c, p).state;
      forall x
        ensures HasMem(s', x) ==> HasMem(c, x)
      {
        DeallocateMem(c, p, x);
      }
      assert Grows(w, i, s', 0);
      PutKeepsApart(w, i, s', 0);
      w' := World(w.buckets[i := s'], w.out - {p});
      SameOwners(w, w');
      forall q | q in w'.out && OwnerOf(w', q).None?
        ensures !Within(s', q)
      {
        PutKeepsOut(w, i, s', 0, q);
      }
    } else {
      SameOwners(w, w');
    }
  }

  lemma SameOwners(w: World, w': World)
    requires SizesOf(w'.buckets) == SizesOf(w.buckets)
    ensures forall q :: q in w.out && q in w'.out && w'.out[q] == w.out[q] ==> OwnerOf(w', q) == OwnerOf(w, q)
  {}

  lemma AllocSystemKeeps(w: World, bytes: nat, mem: int, system: int)
    requires Good(w) && Legal(w, Call.Alloc(bytes, mem, system)) && RouteIn(w, bytes).None?
    ensures Good(w.(out := w.out[system := bytes]))
  {
    hide HasMem, Live, Inv, Route, Within;
    var w' := w.(out := w.out[system := bytes]);
    SameOwners(w, w');
    assert OwnerOf(w', system) == RouteIn(w, bytes);
    forall i | 0 <= i < |w.buckets|
      ensures !Live(w.buckets[i], system)
    {
      if Live(w.buckets[i], system) {
        LiveIsWithin(w.buckets[i], system);
      }
    }
  }

  lemma RoomIsFresh(w: World, i: nat, mem: int)
    requires i < |w.buckets| && NewMemory(w, mem, Bytes(w.buckets[i]))
    ensures Fresh(w.buckets[i], mem)
  {
    var c := w.buckets[i];
    forall a | a in Slabs(c)
      ensures Apart(c.blockSize * c.count, a, Slab(mem, []))
    {
      assert HasMem(c, a.mem);
      hide Slabs;
    }
  }

  lemma AllocGrows(w: World, i: nat, mem: int)
    requires CachesGood(w.buckets) && i < |w.buckets|
    requires Needs(w.buckets[i]) ==> NewMemory(w, mem, Bytes(w.buckets[i]))
    ensures SlabCache.Allocate(w.buckets[i], mem).Done?
    ensures Grows(w, i, SlabCache.Allocate(w.buckets[i], mem).state, mem)
    ensures Allocated(w.buckets[i], SlabCache.Allocate(w.buckets[i], mem).state, SlabCache.Allocate(w.buckets[i], mem).value)
  {
    hide HasMem, Live, Inv, SlabCache.Allocate, NewMemory, Fresh;
    var c := w.buckets[i];
    if Needs(c) {
      RoomIsFresh(w, i, mem);
    }
    AllocateKeepsIff(c, mem);
    forall x
      ensures HasMem(SlabCache.Allocate(c, mem).state, x) ==> HasMem(c, x) || (x == mem && Needs(c))
    {
      AllocateMem(c, mem, x);
    }
  }

  /** The new pointer was not out. */
  lemma NewPointer(w: World, i: nat, s': State, mem: int, p: int)
    requires Good(w) && i < |w.buckets| && Grows(w, i, s', mem) && CachesApart(w.buckets[i := s'])
    requires Live(s', p) && !Live(w.buckets[i], p)
    ensures p !in w.out
  {
    hide HasMem, Live, Inv, Route;
    LiveIsWithin(s', p);
    if p in w.out {
      if OwnerOf(w, p).None? {
        PutKeepsOut(w, i, s', mem, p);
      } else {
        var j := OwnerOf(w, p).value;
        assert j != i && Live(w.buckets[j], p);
        LiveIsWithin(w.buckets[j], p);
        OneHolder(w.buckets[i := s'], i, j, p);
      }
    }
  }

  lemma OneHolder(bs: seq<State>, i: nat, j: nat, p: int)
    requires CachesApart(bs) && i < |bs| && j < |bs| && Within(bs[i], p) && Within(bs[j], p)
    ensures i == j
  {
    hide HasMem;
  }

  lemma AllocCacheKeeps(w: World, bytes: nat, mem: int, i: nat)
    requires Good(w) && RouteIn(w, bytes) == Some(i)
    requires Needs(w.buckets[i]) ==> NewMemory(w, mem, Bytes(w.buckets[i]))
    ensures SlabCache.Allocate(w.buckets[i], mem).Done?
    ensures var r := SlabCache.Allocate(w.buckets[i], mem);
            Good(World(w.buckets[i := r.state], w.out[r.value := bytes])) && r.value !in w.out
  {
    hide HasMem, Live, Inv, SlabCache.Allocate, Route, NewMemory, Within;
    var c := w.buckets[i];
    AllocGrows(w, i, mem);
    var s', p := SlabCache.Allocate(c, mem).state, SlabCache.Allocate(c, mem).value;
    var w' := World(w.buckets[i := s'], w.out[p := bytes]);
    PutKeepsApart(w, i, s', mem);
    NewPointer(w, i, s', mem, p);
    SameOwners(w, w');
    assert OwnerOf(w', p) == RouteIn(w, bytes);
    forall q | q in w'.out && OwnerOf(w', q).None?
      ensures !Within(s', q)
    {
      PutKeepsOut(w, i, s', mem, q);
    }
  }

  lemma NewCacheKeeps(w: World, blockSize: nat, count: nat, page: nat, mem: int)
    requires Good(w) && Legal(w, AddCache(blockSize, count, page, mem))
    ensures Good(w.(buckets := w.buckets + [Initial(blockSize, PageCount(blockSize, count, page), mem)]))
  {
    hide HasMem, Live, Inv, Route, Within, PageCount;
    var n := PageCount(blockSize, count, page);
    var c := Initial(blockSize, n, mem);
    var w' := w.(buckets := w.buckets + [c]);
    NewCacheAlone(blockSize, n, mem);
    forall q | q in w.out
      ensures OwnerOf(w', q) == OwnerOf(w, q)
    {
      RouteStableIff(SizesOf(w.buckets), [blockSize], w.out[q]);
      assert SizesOf(w'.buckets) == SizesOf(w.buckets) + [blockSize];
    }
    forall q | q in w.out && OwnerOf(w, q).None?
      ensures !Within(c, q)
    {
      OnlyIts(c, mem, q);
    }
    NewCacheApart(w, c, mem);
  }

  lemma OnlyIts(c: State, mem: int, q: int)
    requires (forall x :: HasMem(c, x) ==> x == mem) && !(mem <= q < mem + Bytes(c))
    ensures !Within(c, q)
  {
    hide HasMem;
  }

  lemma NewCacheApart(w: World, c: State, mem: int)
    requires CachesApart(w.buckets) && NewMemory(w, mem, Bytes(c)) && forall x :: HasMem(c, x) ==> x == mem
    ensures CachesApart(w.buckets + [c])
  {
    hide HasMem;
  }

  lemma NewCacheAlone(blockSize: nat, count: nat, mem: int)
    requires 2 <= count <= INDEX_VALUES && blockSize > 0
    ensures var c := Initial(blockSize, count, mem);
            && Inv(c) && c.count == count && c.blockSize == blockSize && Bytes(c) == blockSize * count
            && (forall p :: !Live(c, p)) && (forall x :: HasMem(c, x) ==> x == mem)
  {
    var e := State(count, blockSize, 0, 0, [], [], []);
    assert Slabs(e) == multiset{};
    InitialInv(blockSize, count, mem);
    NewSlabKeeps(e, mem);
    forall x
      ensures HasMem(Initial(blockSize, count, mem), x) ==> x == mem
    {
      NewSlabMem(e, mem, x);
    }
  }

  /** Every legal call is defined and keeps the world good. */
  lemma CallKeeps(w: World, c: Call)
    requires Good(w) && Legal(w, c)
    ensures Apply(w, c).Some? && Good(Apply(w, c).value)
  {
    hide Good, HasMem, Live, Inv, SlabCache.Allocate, SlabCache.Deallocate, Route, NewMemory, Within;
    match c
    case AddCache(blockSize, count, page, mem) =>
      NewCacheKeeps(w, blockSize, count, page, mem);
    case Alloc(bytes, mem, system) =>
      if RouteIn(w, bytes).None? {
        AllocSystemKeeps(w, bytes, mem, system);
      } else {
        AllocCacheKeeps(w, bytes, mem, RouteIn(w, bytes).value);
      }
    case Dealloc(p) =>
      DeallocKeeps(w, p);
  }

  lemma {:induction false} RunKeeps(w: World, calls: seq<Call>, w': World)
    requires Good(w) && Reach(w, calls, w')
    ensures Good(w')
    decreases |calls|
  {
    if calls != [] {
      hide Good, Apply, Legal;
      CallKeeps(w, calls[0]);
      RunKeeps(Apply(w, calls[0]).value, calls[1..], w');
    }
  }

  /** In every run from no buckets at all, with frees that repeat their byte count: all caches are good, no two slabs
      overlap, and a pointer that is out from a cache is live in the cache it is routed to and held by no other. */
  lemma BucketsSound(calls: seq<Call>, w: World, p: int)
    requires Reach(World([], map[]), calls, w)
    ensures CachesGood(w.buckets) && CachesApart(w.buckets)
    ensures p in w.out && OwnerOf(w, p).Some?
            ==> forall i :: 0 <= i < |w.buckets| ==> (Within(w.buckets[i], p) <==> OwnerOf(w, p) == Some(i))
    ensures forall i :: 0 <= i < |w.buckets| ==> (Live(w.buckets[i], p) <==> p in w.out && OwnerOf(w, p) == Some(i))
  {
    hide HasMem, Live, Inv, Route, Within;
    RunKeeps(World([], map[]), calls, w);
    if p in w.out && OwnerOf(w, p).Some? {
      var j := OwnerOf(w, p).value;
      LiveIsWithin(w.buckets[j], p);
      forall i: nat | i < |w.buckets| && Within(w.buckets[i], p)
        ensures i == j
      {
        OneHolder(w.buckets, i, j, p);
      }
    }
  }
}
