/** The allocator of Allocators/FreeList.h as a state machine: free chunks, live blocks (header
    included) and the byte count. Addresses are counted from MyBegin.

    Two variants of the list insertion: `AsWritten` stores the size it is given when the list is
    empty and headerSize more otherwise (lines 77-86), and is called with the remainder of a split
    and with the payload of a freed block; `Intended` always stores the full extent, as the tests
    ask (Tests/FreeListTest.cpp, lines 73-78 and 120-127). */
module FreeListHeap {
  import opened Common
  import opened FreeChunks

  datatype Variant = AsWritten | Intended

  datatype Heap = Heap(free: seq<Chunk>, live: map<int, int>, bytesFree: int)

  /** What add puts on top of the size it is given: headerSize as written, nothing as intended. */
  function Extra(v: Variant, header: nat): nat {
    if v.AsWritten? then header else 0
  }

  /** PolicyT::add as it is called with the remainder of a split. */
  function AddRest(v: Variant, header: nat, l: seq<Chunk>, start: int, size: int): seq<Chunk> {
    AddCall(l, start, size, Extra(v, header))
  }

  /** PolicyT::add as it is called with the block of a freed header: its payload as written, all of it as intended. */
  function AddBlock(v: Variant, header: nat, l: seq<Chunk>, start: int, payload: int): seq<Chunk> {
    AddCall(l, start, if v.AsWritten? then payload else payload + header, Extra(v, header))
  }

  /** PolicyInterface::firstFit on the list: erase the first chunk that fits, give back the rest of it. */
  function TakeFit(v: Variant, header: nat, l: seq<Chunk>, req: int): Option<(int, seq<Chunk>)> {
    var i := FirstFit(l, req);
    if i == |l| then None
    else if l[i].size > req then
      Some((l[i].start, AddRest(v, header, Erase(l, i), l[i].start + req, l[i].size - req)))
    else Some((l[i].start, Erase(l, i)))
  }

  function Initial(bytes: nat): Heap {
    Heap([Chunk(0, bytes)], map[], bytes)
  }

  /** allocate with req = payload + header; the answer is the payload's address. */
  function Allocate(v: Variant, header: nat, h: Heap, req: int): (r: (Heap, Option<int>))
    ensures r.1.Some? ==> r.1.value - header in r.0.live
  {
    match TakeFit(v, header, h.free, req)
    case None => (h, None)
    case Some((start, l)) => (Heap(l, h.live[start := req], h.bytesFree - req), Some(start + header))
  }

  /** deallocate of the payload at address p. */
  function Deallocate(v: Variant, header: nat, h: Heap, p: int): Heap
    requires p - header in h.live
  {
    var start := p - header;
    Heap(AddBlock(v, header, h.free, start, h.live[start] - header), h.live - {start}, h.bytesFree + h.live[start])
  }

  // ----- what a good state is

  /** Address a lies in a live block. */
  ghost predicate LiveAt(live: map<int, int>, a: int) {
    exists s :: s in live && s <= a < s + live[s]
  }

  /** Bytes held by live blocks, headers included. */
  ghost function Extent(live: map<int, int>): int {
    if |live| == 0 then 0
    else
      assert exists s :: s in live by {
        assert live.Keys != {};
        var s := SomeElement(live.Keys);
      }
      var s :| s in live; live[s] + Extent(live - {s})
  }

  /** The live blocks alone: each holds its header, lies in the heap, and overlaps no other. */
  ghost predicate Blocks(live: map<int, int>, bytes: int, header: int) {
    && (forall s :: s in live ==> live[s] >= header && 0 <= s && s + live[s] <= bytes)
    && (forall s, u :: s in live && u in live && s < u ==> s + live[s] <= u)
  }

  /** Free chunks and live blocks tile [0, bytes) without gap or overlap, the list is sorted with no
      two chunks touching, and the byte count agrees with both sides. */
  ghost predicate Tiled(h: Heap, bytes: int, header: int) {
    && Canonical(h.free, bytes)
    && Blocks(h.live, bytes, header)
    && (forall a :: 0 <= a < bytes ==> (Covers(h.free, a) <==> !LiveAt(h.live, a)))
    && h.bytesFree == Sum(h.free)
    && h.bytesFree + Extent(h.live) == bytes
  }

  lemma {:induction false} ExtentRemove(live: map<int, int>, s: int)
    requires s in live
    ensures Extent(live) == live[s] + Extent(live - {s})
    decreases |live|
  {
    var u := ExtentPick(live);
    if u != s {
      var rest := live - {u};
      var rest' := live - {s};
      assert rest - {s} == rest' - {u};
      hide Extent;
      ExtentRemove(rest, s);
      ExtentRemove(rest', u);
    }
  }

  lemma ExtentPick(live: map<int, int>) returns (u: int)
    requires |live| > 0
    ensures u in live && Extent(live) == live[u] + Extent(live - {u})
  {
    assert live.Keys != {};
    var key := SomeElement(live.Keys);
    assert key in live;
    u :| u in live && Extent(live) == live[u] + Extent(live - {u});
  }

  lemma ExtentInsert(live: map<int, int>, s: int, extent: int)
    requires s !in live
    ensures Extent(live[s := extent]) == Extent(live) + extent
  {
    ExtentRemove(live[s := extent], s);
    assert live[s := extent] - {s} == live;
  }

  lemma LiveInsert(live: map<int, int>, s: int, extent: int)
    requires s !in live
    ensures forall a :: LiveAt(live[s := extent], a) <==> LiveAt(live, a) || s <= a < s + extent
  {
    var live' := live[s := extent];
    forall a
      ensures LiveAt(live', a) <==> LiveAt(live, a) || s <= a < s + extent
    {
      if LiveAt(live, a) {
        var u :| u in live && u <= a < u + live[u];
        assert u in live' && live'[u] == live[u];
      }
      if s <= a < s + extent {
        assert s in live' && live'[s] == extent;
      }
    }
  }

  lemma LiveRemove(live: map<int, int>, bytes: int, header: int, s: int)
    requires Blocks(live, bytes, header) && s in live
    ensures forall a :: LiveAt(live - {s}, a) <==> LiveAt(live, a) && !(s <= a < s + live[s])
  {
    var live' := live - {s};
    forall a
      ensures LiveAt(live', a) <==> LiveAt(live, a) && !(s <= a < s + live[s])
    {
      if LiveAt(live', a) {
        var u :| u in live' && u <= a < u + live'[u];
        assert u in live && live[u] == live'[u] && u != s;
        assert u < s ==> u + live[u] <= s;
      }
      if LiveAt(live, a) && !(s <= a < s + live[s]) {
        var u :| u in live && u <= a < u + live[u];
        assert u in live';
      }
    }
  }

  // ----- allocate

  /** No live block starts in a free chunk, reaches into it, or is reached from it. */
  lemma LiveAvoidsChunk(h: Heap, bytes: int, header: nat, i: nat, s: int)
    requires Tiled(h, bytes, header) && 1 <= header && i < |h.free| && s in h.live
    ensures s + h.live[s] <= h.free[i].start || h.free[i].End() <= s
  {
    hide Sum, Extent;
    var c := h.free[i];
    var a := if s >= c.start then s else c.start;
    assert c.start <= a < c.End() ==> Covers(h.free, a);
    assert s <= a < s + h.live[s] ==> LiveAt(h.live, a);
  }

  /** The chunk that first fit takes is not live. */
  lemma NewBlock(h: Heap, bytes: int, header: nat, req: int, s: int)
    requires Tiled(h, bytes, header) && 1 <= header <= req && FirstFit(h.free, req) < |h.free|
    requires s == h.free[FirstFit(h.free, req)].start
    ensures s !in h.live && Blocks(h.live[s := req], bytes, header)
  {
    hide Sum, Extent, Covers, LiveAt;
    var i := FirstFit(h.free, req);
    var c := h.free[i];
    forall u | u in h.live
      ensures u + h.live[u] <= c.start || c.End() <= u
    {
      LiveAvoidsChunk(h, bytes, header, i, u);
    }
  }

  /** What the list covers once the chunk is erased and its rest is given back in full. */
  lemma RestCovers(l: seq<Chunk>, l1: seq<Chunk>, bytes: int, c: Chunk, req: int)
    requires Canonical(l1, bytes) && 0 <= c.start && 0 < req < c.size && c.End() <= bytes
    requires forall a :: Covers(l1, a) <==> Covers(l, a) && !(c.start <= a < c.End())
    requires forall a :: c.start <= a < c.End() ==> Covers(l, a)
    ensures var r := AddExtent(l1, c.start + req, c.size - req);
            && Canonical(r, bytes) && Sum(r) == Sum(l1) + c.size - req
            && forall a :: Covers(r, a) <==> Covers(l, a) && !(c.start <= a < c.start + req)
  {
    hide AddExtent;
    AddExtentCorrect(l1, bytes, c.start + req, c.size - req);
  }

  function GiveRest(l: seq<Chunk>, i: nat, req: int): seq<Chunk>
    requires i < |l|
  {
    if l[i].size > req then AddExtent(Erase(l, i), l[i].start + req, l[i].size - req) else Erase(l, i)
  }

  lemma TakenList(l: seq<Chunk>, bytes: int, i: nat, req: int)
    requires Canonical(l, bytes) && i < |l| && 0 < req <= l[i].size
    ensures var r := GiveRest(l, i, req);
            && Canonical(r, bytes) && Sum(r) == Sum(l) - req
            && forall a :: Covers(r, a) <==> Covers(l, a) && !(l[i].start <= a < l[i].start + req)
  {
    hide AddExtent, Erase, Sum;
    var c := l[i];
    var l1 := Erase(l, i);
    assert forall a :: c.start <= a < c.End() ==> Covers(l, a);
    assert 0 <= c.start && c.End() <= bytes;
    EraseCorrect(l, bytes, i);
    hide Canonical;
    if c.size > req {
      RestCovers(l, l1, bytes, c, req);
    }
  }

  /** Where the insertion as written stores the right extent when allocate splits: no split, or a one-chunk list. */
  predicate SplitIsExact(l: seq<Chunk>, req: int) {
    var i := FirstFit(l, req);
    i == |l| || l[i].size == req || |l| == 1
  }

  lemma SplitAgrees(v: Variant, header: nat, l: seq<Chunk>, req: int)
    requires SplitIsExact(l, req)
    ensures TakeFit(v, header, l, req) == TakeFit(Intended, header, l, req)
  {
    var i := FirstFit(l, req);
    if i < |l| && l[i].size > req {
      assert Erase(l, i) == [];
    }
  }

  lemma AllocateTiles(v: Variant, bytes: nat, header: nat, h: Heap, req: int)
    requires Tiled(h, bytes, header) && 1 <= header <= req
    requires v.Intended? || SplitIsExact(h.free, req)
    ensures Tiled(Allocate(v, header, h, req).0, bytes, header)
  {
    var i := FirstFit(h.free, req);
    if v.AsWritten? {
      SplitAgrees(v, header, h.free, req);
    }
    if i < |h.free| {
      TakeFitIsGiveRest(header, h.free, req);
      hide AddExtent, Erase, Sum, Extent, GiveRest, TakeFit;
      TakenList(h.free, bytes, i, req);
      NewBlock(h, bytes, header, req, h.free[i].start);
      LiveInsert(h.live, h.free[i].start, req);
      ExtentInsert(h.live, h.free[i].start, req);
      hide Covers, LiveAt;
    }
  }

  lemma TakeFitIsGiveRest(header: nat, l: seq<Chunk>, req: int)
    requires FirstFit(l, req) < |l|
    ensures TakeFit(Intended, header, l, req)
            == Some((l[FirstFit(l, req)].start, GiveRest(l, FirstFit(l, req), req)))
  {
    hide AddExtent, AddRest, Erase, FirstFit;
    var i := FirstFit(l, req);
    AddRestIntended(header, Erase(l, i), l[i].start + req, l[i].size - req);
  }

  lemma AddRestIntended(header: nat, l: seq<Chunk>, start: int, size: int)
    ensures AddRest(Intended, header, l, start, size) == AddExtent(l, start, size)
  {
    AddToEmpty(start, size);
    hide AddExtent;
  }

  lemma AddBlockIsExtent(v: Variant, header: nat, l: seq<Chunk>, start: int, extent: int)
    requires v.Intended? || l != []
    ensures AddBlock(v, header, l, start, extent - header) == AddExtent(l, start, extent)
  {
    AddToEmpty(start, extent);
    hide AddExtent;
  }

  lemma JoinKeepsCover(l: seq<Chunk>, i: nat, a: int)
    requires TouchesNext(l, i) && l[i].size >= 0 && l[i + 1].size >= 0 && Covers(l, a)
    ensures Covers(Join(l, i), a)
  {
    JoinCovers(l, i, a);
  }

  /** Whatever the list looks like, an extent that is inserted is covered afterwards. */
  lemma AddExtentCovers(l: seq<Chunk>, start: int, extent: int, a: int)
    requires forall k :: 0 <= k < |l| ==> l[k].size >= 0 && l[k].start != start
    requires extent >= 0 && start <= a < start + extent
    ensures Covers(AddExtent(l, start, extent), a)
  {
    var i := LowerBound(l, start);
    var l0 := Insert(l, i, Chunk(start, extent));
    InsertCovers(l, i, Chunk(start, extent), a);
    var l1 := if TouchesNext(l0, i) then Join(l0, i) else l0;
    if TouchesNext(l0, i) {
      JoinKeepsCover(l0, i, a);
    }
    if i > 0 && TouchesNext(l1, i - 1) {
      JoinKeepsCover(l1, i - 1, a);
    }
  }

  lemma TakeFitAsWritten(header: nat, l: seq<Chunk>, req: int)
    requires !SplitIsExact(l, req)
    ensures var i := FirstFit(l, req);
            && l[i].size > req
            && TakeFit(AsWritten, header, l, req)
               == Some((l[i].start, AddExtent(Erase(l, i), l[i].start + req, l[i].size - req + header)))
  {
    hide AddExtent;
    assert |Erase(l, FirstFit(l, req))| > 0;
  }

  /** Otherwise the remainder is recorded headerSize bytes too long: the list claims the byte after the chunk. */
  lemma RestClaimsTooMuch(l: seq<Chunk>, bytes: nat, header: nat, i: nat, req: int)
    requires Canonical(l, bytes) && 1 <= header && i < |l| && 0 < req < l[i].size
    ensures Covers(AddExtent(Erase(l, i), l[i].start + req, l[i].size - req + header), l[i].End())
  {
    hide AddExtent;
    var c := l[i];
    var l1 := Erase(l, i);
    forall k | 0 <= k < |l1|
      ensures l1[k].size >= 0 && l1[k].start != c.start + req
    {
      var d := l[if k < i then k else k + 1];
      assert l1[k] == d;
      assert k < i ==> d.End() < c.start;
      assert k >= i ==> c.End() < d.start;
    }
    AddExtentCovers(l1, c.start + req, c.size - req + header, c.End());
  }

  lemma AfterChunkNotFree(l: seq<Chunk>, bytes: int, i: nat)
    requires Canonical(l, bytes) && i < |l|
    ensures !Covers(l, l[i].End())
  {
    var e := l[i].End();
    forall k | 0 <= k < |l|
      ensures !(l[k].start <= e < l[k].End())
    {
      assert k < i ==> l[k].End() < l[i].start;
      assert i < k ==> e < l[k].start;
    }
  }

  lemma SplitOvercounts(bytes: nat, header: nat, h: Heap, req: int)
    requires Tiled(h, bytes, header) && 1 <= header <= req && !SplitIsExact(h.free, req)
    ensures !Tiled(Allocate(AsWritten, header, h, req).0, bytes, header)
  {
    hide AddExtent, Erase, Sum, Extent, TakeFit;
    var i := FirstFit(h.free, req);
    var e := h.free[i].End();
    var h' := Allocate(AsWritten, header, h, req).0;
    TakeFitAsWritten(header, h.free, req);
    RestClaimsTooMuch(h.free, bytes, header, i, req);
    assert Covers(h'.free, e);
    if e < bytes {
      AfterChunkNotFree(h.free, bytes, i);
      NewBlock(h, bytes, header, req, h.free[i].start);
      LiveInsert(h.live, h.free[i].start, req);
      assert LiveAt(h'.live, e);
    }
  }

  /** allocate as written keeps the heap tiled exactly when it fails, takes a whole chunk, or splits
      the only chunk there is. */
  lemma AllocateTilesIff(v: Variant, bytes: nat, header: nat, h: Heap, req: int)
    requires Tiled(h, bytes, header) && 1 <= header <= req
    ensures Tiled(Allocate(v, header, h, req).0, bytes, header) <==> v.Intended? || SplitIsExact(h.free, req)
  {
    if v.Intended? || SplitIsExact(h.free, req) {
      AllocateTiles(v, bytes, header, h, req);
    } else {
      SplitOvercounts(bytes, header, h, req);
    }
  }

  /** A request that size_type has wrapped to less than a header: allocate keeps the heap tiled exactly when it fails. */
  lemma ShortRequestTilesIff(v: Variant, bytes: nat, header: nat, h: Heap, req: nat)
    requires Tiled(h, bytes, header) && req < header
    ensures Tiled(Allocate(v, header, h, req).0, bytes, header) <==> FirstFit(h.free, req) == |h.free|
  {
    hide Canonical, Covers, LiveAt, Sum, Extent, AddRest, Erase;
    var h' := Allocate(v, header, h, req).0;
    if FirstFit(h.free, req) < |h.free| {
      var s := h.free[FirstFit(h.free, req)].start;
      assert s in h'.live && h'.live[s] < header;
    }
  }

  // ----- deallocate

  lemma DeallocatedList(h: Heap, bytes: nat, header: nat, s: int)
    requires Tiled(h, bytes, header) && 1 <= header && s in h.live
    ensures var r := AddExtent(h.free, s, h.live[s]);
            && Canonical(r, bytes) && Sum(r) == Sum(h.free) + h.live[s]
            && forall a :: Covers(r, a) <==> Covers(h.free, a) || s <= a < s + h.live[s]
  {
    hide AddExtent, Sum, Extent;
    forall a | s <= a < s + h.live[s]
      ensures !Covers(h.free, a)
    {
      assert LiveAt(h.live, a);
    }
    hide Covers;
    AddExtentCorrect(h.free, bytes, s, h.live[s]);
  }

  lemma DeallocateTiles(v: Variant, bytes: nat, header: nat, h: Heap, p: int)
    requires Tiled(h, bytes, header) && 1 <= header && p - header in h.live
    requires v.Intended? || h.free != []
    ensures Tiled(Deallocate(v, header, h, p), bytes, header)
  {
    hide AddExtent, AddBlock, Sum, Extent, Covers, LiveAt;
    var s := p - header;
    AddBlockIsExtent(v, header, h.free, s, h.live[s]);
    DeallocatedList(h, bytes, header, s);
    hide Canonical;
    LiveRemove(h.live, bytes, header, s);
    ExtentRemove(h.live, s);
  }

  /** deallocate as written keeps the heap tiled exactly when the free list is not empty: into an
      empty list it records the payload without its header. */
  lemma DeallocateTilesIff(v: Variant, bytes: nat, header: nat, h: Heap, p: int)
    requires Tiled(h, bytes, header) && 1 <= header && p - header in h.live
    ensures Tiled(Deallocate(v, header, h, p), bytes, header) <==> v.Intended? || h.free != []
  {
    if v.Intended? || h.free != [] {
      DeallocateTiles(v, bytes, header, h, p);
    } else {
      var s := p - header;
      var h' := Deallocate(v, header, h, p);
      LiveRemove(h.live, bytes, header, s);
      var last := s + h.live[s] - 1;
      assert LiveAt(h.live, last) && !LiveAt(h'.live, last);
      assert h'.free == [Chunk(s, h.live[s] - header)];
    }
  }

  // ----- whole runs

  datatype Op = Alloc(req: int) | Free(p: int) | FreeAll

  function Apply(v: Variant, bytes: nat, header: nat, h: Heap, op: Op): Heap
    requires op.Free? ==> op.p - header in h.live
  {
    match op
    case Alloc(req) => Allocate(v, header, h, req).0
    case Free(p) => Deallocate(v, header, h, p)
    case FreeAll => Initial(bytes)
  }

  /** The client frees live pointers only; a request is a payload plus the header. */
  predicate ClientOk(header: nat, h: Heap, op: Op) {
    match op
    case Alloc(req) => req >= header
    case Free(p) => p - header in h.live
    case FreeAll => true
  }

  /** The run of the operations from h ends in h'. */
  ghost predicate Runs(v: Variant, bytes: nat, header: nat, h: Heap, ops: seq<Op>, h': Heap)
    decreases |ops|
  {
    if ops == [] then h' == h
    else ClientOk(header, h, ops[0]) && Runs(v, bytes, header, Apply(v, bytes, header, h, ops[0]), ops[1..], h')
  }

  lemma InitialTiled(bytes: nat, header: nat)
    requires bytes > 0
    ensures Tiled(Initial(bytes), bytes, header)
  {
    var l := [Chunk(0, bytes)];
    forall a | 0 <= a < bytes
      ensures Covers(l, a) && !LiveAt(map[], a)
    {
      assert l[0].start <= a < l[0].End();
    }
    assert Sum(l[1..]) == 0;
  }

  lemma ApplyTiles(bytes: nat, header: nat, h: Heap, op: Op)
    requires Tiled(h, bytes, header) && header >= 1 && bytes > 0 && ClientOk(header, h, op)
    ensures Tiled(Apply(Intended, bytes, header, h, op), bytes, header)
  {
    match op
    case Alloc(req) => AllocateTiles(Intended, bytes, header, h, req);
    case Free(p) => DeallocateTiles(Intended, bytes, header, h, p);
    case FreeAll => InitialTiled(bytes, header);
  }

  /** Heap tiling over whole runs. */
  lemma {:induction false} RunTiled(bytes: nat, header: nat, h: Heap, ops: seq<Op>, h': Heap)
    requires Tiled(h, bytes, header) && header >= 1 && bytes > 0 && Runs(Intended, bytes, header, h, ops, h')
    ensures Tiled(h', bytes, header)
    decreases |ops|
  {
    if ops != [] {
      ApplyTiles(bytes, header, h, ops[0]);
      RunTiled(bytes, header, Apply(Intended, bytes, header, h, ops[0]), ops[1..], h');
    }
  }

  /** The guard a caller can check before each call of the code as written. */
  predicate Guard(h: Heap, op: Op) {
    match op
    case Alloc(req) => SplitIsExact(h.free, req)
    case Free(_) => h.free != []
    case FreeAll => true
  }

  /** The state at each point of a run of the code as written. */
  ghost predicate GuardedRun(bytes: nat, header: nat, h: Heap, ops: seq<Op>)
    decreases |ops|
  {
    ops == [] ||
    (ClientOk(header, h, ops[0]) && Guard(h, ops[0])
     && GuardedRun(bytes, header, Apply(AsWritten, bytes, header, h, ops[0]), ops[1..]))
  }

  /** The heap stays tiled at every point of the run. */
  ghost predicate TiledThroughout(bytes: nat, header: nat, h: Heap, ops: seq<Op>)
    decreases |ops|
  {
    Tiled(h, bytes, header) &&
    (ops == [] || (ClientOk(header, h, ops[0])
                   && TiledThroughout(bytes, header, Apply(AsWritten, bytes, header, h, ops[0]), ops[1..])))
  }

  lemma GuardIsExact(bytes: nat, header: nat, h: Heap, op: Op)
    requires Tiled(h, bytes, header) && header >= 1 && bytes > 0 && ClientOk(header, h, op)
    ensures Tiled(Apply(AsWritten, bytes, header, h, op), bytes, header) <==> Guard(h, op)
  {
    hide Tiled, Allocate, Deallocate, SplitIsExact;
    match op {
      case Alloc(req) => AllocateTilesIff(AsWritten, bytes, header, h, req);
      case Free(p) => DeallocateTilesIff(AsWritten, bytes, header, h, p);
      case FreeAll => InitialTiled(bytes, header);
    }
  }

  lemma GuardedAgrees(bytes: nat, header: nat, h: Heap, op: Op)
    requires ClientOk(header, h, op) && Guard(h, op)
    ensures Apply(AsWritten, bytes, header, h, op) == Apply(Intended, bytes, header, h, op)
  {
    hide TakeFit, AddBlock, SplitIsExact;
    match op {
      case Alloc(req) => SplitAgrees(AsWritten, header, h.free, req);
      case Free(p) =>
        AddBlockIsExtent(AsWritten, header, h.free, p - header, h.live[p - header]);
        AddBlockIsExtent(Intended, header, h.free, p - header, h.live[p - header]);
      case FreeAll =>
    }
  }

  /** A run of the code as written keeps the heap tiled at every point exactly when the guard holds before
      every call: splits on a one-chunk list, frees on a nonempty one. It is then the intended run. */
  lemma {:induction false} WrittenRunTiledIff(bytes: nat, header: nat, h: Heap, ops: seq<Op>, h': Heap)
    requires Tiled(h, bytes, header) && header >= 1 && bytes > 0
    requires Runs(AsWritten, bytes, header, h, ops, h')
    ensures TiledThroughout(bytes, header, h, ops) <==> GuardedRun(bytes, header, h, ops)
    ensures GuardedRun(bytes, header, h, ops) ==> Runs(Intended, bytes, header, h, ops, h')
    decreases |ops|
  {
    if ops != [] {
      hide Tiled, Apply, Guard;
      GuardIsExact(bytes, header, h, ops[0]);
      if Guard(h, ops[0]) {
        GuardedAgrees(bytes, header, h, ops[0]);
        WrittenRunTiledIff(bytes, header, Apply(AsWritten, bytes, header, h, ops[0]), ops[1..], h');
      }
    }
  }

  // ----- first fit, history independence, round trips

  /** No byte of [a, a + req) is live. */
  ghost predicate Unused(h: Heap, bytes: int, a: int, req: int) {
    0 <= a && a + req <= bytes && forall k :: a <= k < a + req ==> !LiveAt(h.live, k)
  }

  /** First-fit completeness: allocate fails exactly when no run of req bytes outside the live blocks
      exists anywhere, and then changes nothing; otherwise the block starts at the lowest address
      from which req bytes are unused. */
  lemma AllocateIsFirstFit(v: Variant, bytes: nat, header: nat, h: Heap, req: int)
    requires Tiled(h, bytes, header) && 1 <= header <= req
    ensures var (h', p) := Allocate(v, header, h, req);
            && (p.None? <==> forall a :: !Unused(h, bytes, a, req))
            && (p.None? ==> h' == h)
            && (p.Some? ==> Unused(h, bytes, p.value - header, req)
                            && forall a :: Unused(h, bytes, a, req) ==> p.value - header <= a)
  {
    FirstFitLowest(h.free, bytes, req);
    forall a
      ensures FreeRun(h.free, a, req) <==> Unused(h, bytes, a, req)
    {
      if FreeRun(h.free, a, req) {
        assert Covers(h.free, a) && Covers(h.free, a + req - 1);
      }
    }
  }

  /** History independence: however two heaps came about, if the same bytes are live in both, the free
      lists and the byte counts are the same. */
  lemma SameLiveSameList(bytes: nat, header: nat, h: Heap, g: Heap)
    requires Tiled(h, bytes, header) && Tiled(g, bytes, header)
    requires forall a :: 0 <= a < bytes ==> (LiveAt(h.live, a) <==> LiveAt(g.live, a))
    ensures h.free == g.free && h.bytesFree == g.bytesFree
  {
    forall a
      ensures Covers(h.free, a) <==> Covers(g.free, a)
    {
      if a < 0 || a >= bytes {
        assert !Covers(h.free, a) && !Covers(g.free, a);
      }
    }
    CanonicalUnique(h.free, g.free, bytes);
  }

  /** The same for two runs, and the case that nothing is left: in whatever order the blocks were freed,
      one chunk remains that is the whole heap. */
  lemma RunsLeaveSameList(bytes: nat, header: nat, xs: seq<Op>, h: Heap, ys: seq<Op>, g: Heap)
    requires header >= 1 && bytes > 0
    requires Runs(Intended, bytes, header, Initial(bytes), xs, h)
    requires Runs(Intended, bytes, header, Initial(bytes), ys, g)
    ensures h.live == g.live ==> h == g
    ensures h.live == map[] ==> h == Initial(bytes)
  {
    InitialTiled(bytes, header);
    RunTiled(bytes, header, Initial(bytes), xs, h);
    RunTiled(bytes, header, Initial(bytes), ys, g);
    if h.live == g.live {
      SameLiveSameList(bytes, header, h, g);
    }
    if h.live == map[] {
      SameLiveSameList(bytes, header, h, Initial(bytes));
    }
  }

  /** Freeing what allocate returned gives the same list, the same live blocks and the same count again. */
  predicate FreeingUndoes(header: nat, h: Heap, req: int) {
    var (h', p) := Allocate(Intended, header, h, req);
    p.Some? ==> Deallocate(Intended, header, h', p.value) == h
  }

  /** allocate followed by deallocate of what it returned restores the heap exactly. */
  lemma AllocateThenDeallocate(bytes: nat, header: nat, h: Heap, req: int)
    requires Tiled(h, bytes, header) && 1 <= header <= req
    ensures FreeingUndoes(header, h, req)
  {
    hide AddExtent, Erase, Sum, Extent, Covers, LiveAt;
    var (h', p) := Allocate(Intended, header, h, req);
    if p.Some? {
      var h2 := Deallocate(Intended, header, h', p.value);
      assert Tiled(h2, bytes, header) by {
        AllocateTiles(Intended, bytes, header, h, req);
        DeallocateTiles(Intended, bytes, header, h', p.value);
      }
      assert h2.live == h.live by {
        NewBlock(h, bytes, header, req, p.value - header);
      }
      SameLiveSameList(bytes, header, h2, h);
    }
  }

  // ----- small inputs on which the code as written goes wrong, with the 1-byte header of a 12-byte heap

  /** The middle 4 bytes live, 4 free on both sides. */
  function MiddleLive(): Heap {
    Heap([Chunk(0, 4), Chunk(8, 4)], map[4 := 4], 8)
  }

  lemma MiddleLiveTiled()
    ensures Tiled(MiddleLive(), 12, 1)
  {
    var h := MiddleLive();
    forall a | 0 <= a < 12
      ensures Covers(h.free, a) <==> !LiveAt(h.live, a)
    {
      assert a < 4 ==> h.free[0].start <= a < h.free[0].End();
      assert a >= 8 ==> h.free[1].start <= a < h.free[1].End();
      assert 4 in h.live && h.live[4] == 4;
    }
    ExtentInsert(map[], 4, 4);
    assert map[4 := 4] == map[][4 := 4];
    assert Sum(h.free[1..]) == 4 + Sum(h.free[1..][1..]);
  }

  /** A split of the only chunk, as written. */
  lemma SplitOnly(start: int, size: int, req: int)
    requires 0 < req < size
    ensures TakeFit(AsWritten, 1, [Chunk(start, size)], req) == Some((start, [Chunk(start + req, size - req)]))
  {
    assert FirstFit([Chunk(start, size)], req) == 0;
    assert Erase([Chunk(start, size)], 0) == [];
  }

  /** Two allocations and a free, all of which the code gets right, lead there. */
  lemma MiddleLiveRun()
    ensures Runs(AsWritten, 12, 1, Initial(12), [Alloc(4), Alloc(4), Free(1)], MiddleLive())
  {
    SplitOnly(0, 12, 4);
    SplitOnly(4, 8, 4);
    var h1, h2 := Heap([Chunk(4, 8)], map[0 := 4], 8), Heap([Chunk(8, 4)], map[0 := 4, 4 := 4], 4);
    assert Apply(AsWritten, 12, 1, Initial(12), Alloc(4)) == h1;
    assert Apply(AsWritten, 12, 1, h1, Alloc(4)) == h2;
    assert LowerBound(h2.free, 0) == 0;
    assert Insert(h2.free, 0, Chunk(0, 4)) == [Chunk(0, 4), Chunk(8, 4)];
    assert h2.live - {0} == map[4 := 4];
    assert Apply(AsWritten, 12, 1, h2, Free(1)) == MiddleLive();
    Before(AsWritten, 12, 1, h2, Free(1), MiddleLive(), [], MiddleLive());
    Before(AsWritten, 12, 1, h1, Alloc(4), h2, [Free(1)], MiddleLive());
    Before(AsWritten, 12, 1, Initial(12), Alloc(4), h1, [Alloc(4), Free(1)], MiddleLive());
    assert [Alloc(4)] + [Alloc(4), Free(1)] == [Alloc(4), Alloc(4), Free(1)];
    hide Runs, Apply;
  }

  /** A call in front of a run. */
  lemma Before(v: Variant, bytes: nat, header: nat, h: Heap, op: Op, mid: Heap, rest: seq<Op>, h': Heap)
    requires ClientOk(header, h, op) && Apply(v, bytes, header, h, op) == mid && Runs(v, bytes, header, mid, rest, h')
    ensures Runs(v, bytes, header, h, [op] + rest, h')
  {
    hide Apply;
    assert ([op] + rest)[1..] == rest;
  }

  lemma OvercountedList()
    ensures TakeFit(AsWritten, 1, MiddleLive().free, 3) == Some((0, [Chunk(3, 2), Chunk(8, 4)]))
  {
    var l := MiddleLive().free;
    assert FirstFit(l, 3) == 0;
    assert Erase(l, 0) == [Chunk(8, 4)];
    assert LowerBound([Chunk(8, 4)], 3) == 0;
    assert Insert([Chunk(8, 4)], 0, Chunk(3, 2)) == [Chunk(3, 2), Chunk(8, 4)];
  }

  /** Asking for 3 bytes then records the remainder of the first chunk as 2 bytes long where 1 is free. */
  lemma OvercountExample()
    ensures Tiled(MiddleLive(), 12, 1)
    ensures Allocate(AsWritten, 1, MiddleLive(), 3).0.free == [Chunk(3, 2), Chunk(8, 4)]
    ensures !Tiled(Allocate(AsWritten, 1, MiddleLive(), 3).0, 12, 1)
  {
    hide Tiled;
    OvercountedList();
    MiddleLiveTiled();
    AllocateTilesIff(AsWritten, 12, 1, MiddleLive(), 3);
    assert FirstFit(MiddleLive().free, 3) == 0;
  }

  /** A heap that one block fills. */
  function Filled(): Heap {
    Heap([], map[0 := 12], 0)
  }

  /** One allocation leads there. */
  lemma FilledRun()
    ensures Runs(AsWritten, 12, 1, Initial(12), [Alloc(12)], Filled())
  {
    assert FirstFit([Chunk(0, 12)], 12) == 0;
    assert Erase([Chunk(0, 12)], 0) == [];
    assert Apply(AsWritten, 12, 1, Initial(12), Alloc(12)) == Filled();
    assert [Alloc(12)][1..] == [];
  }

  lemma FilledTiled()
    ensures Tiled(Filled(), 12, 1)
  {
    var h := Filled();
    ExtentInsert(map[], 0, 12);
    assert map[0 := 12] == map[][0 := 12];
    forall a | 0 <= a < 12
      ensures LiveAt(h.live, a)
    {
      assert 0 in h.live && 0 <= a < 0 + h.live[0];
    }
  }

  lemma FilledFreed()
    ensures Deallocate(AsWritten, 1, Filled(), 1).free == [Chunk(0, 11)]
  {
    hide AddExtent;
  }

  /** Freeing it records a chunk that is headerSize bytes too short. */
  lemma UndercountExample()
    ensures Tiled(Filled(), 12, 1)
    ensures Deallocate(AsWritten, 1, Filled(), 1).free == [Chunk(0, 11)]
    ensures !Tiled(Deallocate(AsWritten, 1, Filled(), 1), 12, 1)
  {
    hide Tiled, Deallocate;
    FilledTiled();
    FilledFreed();
    DeallocateTilesIff(AsWritten, 12, 1, Filled(), 1);
  }
}
