/** All buckets of Allocators/SlabMulti.h together: each thread's caches, over memory from one dispatcher.
    Why a pointer has one owner among all caches of all threads, and what one cache's step does to the whole. */
module MultiSystem {
  import opened Common
  import opened Indices
  import opened Dispatcher
  import opened MultiCache
  import opened MultiCacheProofs
  import SC = SlabCache

  /** A thread's bucket: one cache for each size class. */
  datatype Bucket = Bucket(id: nat, caches: seq<State>)

  ghost predicate BucketOk(b: Bucket) {
    && |b.caches| == NUM_CACHES
    && forall i :: 0 <= i < NUM_CACHES ==> CacheOk(b.caches[i], i)
  }

  ghost predicate CacheOk(c: State, i: nat)
    requires i < NUM_CACHES
  {
    Inv(c) && c.count == BLOCKS_PER_SLAB[i] && c.blockSize == CACHE_SIZES[i]
  }

  function CachesPtrs(cs: seq<State>): multiset<int> {
    if cs == [] then multiset{} else multiset(cs[0].ptrs) + CachesPtrs(cs[1..])
  }

  function SystemPtrs(bs: seq<Bucket>): multiset<int> {
    if bs == [] then multiset{} else CachesPtrs(bs[0].caches) + SystemPtrs(bs[1..])
  }

  /** One bucket a thread, good caches, and every slab's memory a block of the dispatcher's, used once. */
  ghost predicate SystemOk(bs: seq<Bucket>, handed: multiset<int>) {
    && (forall b :: 0 <= b < |bs| ==> BucketOk(bs[b]))
    && (forall b, d :: 0 <= b < d < |bs| ==> bs[b].id != bs[d].id)
    && SystemPtrs(bs) <= handed && HandedOk(handed)
  }

  /** p lies in the memory of one of the cache's slabs. */
  ghost predicate Holds(c: State, p: int) {
    exists k :: 0 <= k < |c.ptrs| && ContainsMem(c, c.ptrs[k], p)
  }

  ghost predicate LiveAt(bs: seq<Bucket>, b: nat, i: nat, p: int) {
    b < |bs| && i < |bs[b].caches| && Shape(bs[b].caches[i]) && Live(bs[b].caches[i], p)
  }

  ghost predicate SystemLive(bs: seq<Bucket>, p: int) {
    exists b: nat, i: nat :: LiveAt(bs, b, i, p)
  }

  function PutCache(bs: seq<Bucket>, b: nat, i: nat, c: State): (r: seq<Bucket>)
    requires b < |bs| && i < |bs[b].caches|
    ensures |r| == |bs|
  {
    bs[b := bs[b].(caches := bs[b].caches[i := c])]
  }

  // ----- sums of pointers

  lemma {:induction false} CachesPtrsUpdate(cs: seq<State>, i: nat, c: State)
    requires i < |cs|
    ensures multiset(cs[i].ptrs) <= CachesPtrs(cs)
    ensures CachesPtrs(cs[i := c]) == CachesPtrs(cs) - multiset(cs[i].ptrs) + multiset(c.ptrs)
  {
    if i == 0 {
      assert cs[i := c][1..] == cs[1..];
    } else {
      CachesPtrsUpdate(cs[1..], i - 1, c);
      assert cs[i := c][1..] == cs[1..][i - 1 := c];
    }
  }

  lemma {:induction false} SystemPtrsUpdate(bs: seq<Bucket>, b: nat, x: Bucket)
    requires b < |bs|
    ensures CachesPtrs(bs[b].caches) <= SystemPtrs(bs)
    ensures SystemPtrs(bs[b := x]) == SystemPtrs(bs) - CachesPtrs(bs[b].caches) + CachesPtrs(x.caches)
  {
    hide CachesPtrs;
    if b == 0 {
      assert bs[b := x][1..] == bs[1..];
    } else {
      SystemPtrsUpdate(bs[1..], b - 1, x);
      assert bs[b := x][1..] == bs[1..][b - 1 := x];
    }
  }

  lemma {:induction false} SystemPtrsSnoc(bs: seq<Bucket>, x: Bucket)
    ensures SystemPtrs(bs + [x]) == SystemPtrs(bs) + CachesPtrs(x.caches)
  {
    if bs == [] {
      assert [x][1..] == [];
    } else {
      SystemPtrsSnoc(bs[1..], x);
      assert (bs + [x])[1..] == bs[1..] + [x];
    }
  }

  lemma {:induction false} CachesPtrsSnoc(cs: seq<State>, c: State)
    ensures CachesPtrs(cs + [c]) == CachesPtrs(cs) + multiset(c.ptrs)
  {
    if cs == [] {
      assert [c][1..] == [];
    } else {
      CachesPtrsSnoc(cs[1..], c);
      assert (cs + [c])[1..] == cs[1..] + [c];
    }
  }

  lemma PutCachePtrs(bs: seq<Bucket>, b: nat, i: nat, c: State)
    requires b < |bs| && i < |bs[b].caches|
    ensures multiset(bs[b].caches[i].ptrs) <= SystemPtrs(bs)
    ensures SystemPtrs(PutCache(bs, b, i, c)) == SystemPtrs(bs) - multiset(bs[b].caches[i].ptrs) + multiset(c.ptrs)
  {
    SystemPtrsUpdate(bs, b, bs[b].(caches := bs[b].caches[i := c]));
    CachesPtrsUpdate(bs[b].caches, i, c);
  }

  /** A block that two different caches manage would be counted twice. */
  lemma TwoCachesCount(bs: seq<Bucket>, b: nat, i: nat, d: nat, j: nat, x: int)
    requires b < |bs| && i < |bs[b].caches| && d < |bs| && j < |bs[d].caches|
    requires x in bs[b].caches[i].ptrs && x in bs[d].caches[j].ptrs && (b != d || i != j)
    ensures SystemPtrs(bs)[x] >= 2
  {
    var none := State(1, 1, 0, 0, [], [], 0, 0);
    var bs' := PutCache(bs, b, i, none);
    PutCachePtrs(bs, b, i, none);
    PutCachePtrs(bs', d, j, none);
    assert multiset(bs[b].caches[i].ptrs)[x] >= 1 && multiset(bs'[d].caches[j].ptrs)[x] >= 1;
  }

  // ----- one owner

  lemma PtrIsHanded(bs: seq<Bucket>, handed: multiset<int>, b: nat, i: nat, x: int)
    requires SystemPtrs(bs) <= handed && b < |bs| && i < |bs[b].caches| && x in bs[b].caches[i].ptrs
    ensures x in handed
  {
    PutCachePtrs(bs, b, i, bs[b].caches[i]);
    assert multiset(bs[b].caches[i].ptrs)[x] >= 1;
  }

  lemma SlabBytes(c: State, i: nat)
    requires i < NUM_CACHES && CacheOk(c, i)
    ensures c.blockSize * c.count == SLAB_SIZE
  {
    Tables();
  }

  /** Among all size classes of all threads, at most one cache holds an address. */
  lemma OneHolder(bs: seq<Bucket>, handed: multiset<int>, b: nat, i: nat, d: nat, j: nat, p: int)
    requires SystemOk(bs, handed) && b < |bs| && d < |bs| && i < NUM_CACHES && j < NUM_CACHES
    requires Holds(bs[b].caches[i], p) && Holds(bs[d].caches[j], p)
    ensures b == d && i == j
  {
    hide Inv, SystemPtrs;
    assert BucketOk(bs[b]) && BucketOk(bs[d]);
    var c, e := bs[b].caches[i], bs[d].caches[j];
    var k :| 0 <= k < |c.ptrs| && ContainsMem(c, c.ptrs[k], p);
    var l :| 0 <= l < |e.ptrs| && ContainsMem(e, e.ptrs[l], p);
    SlabBytes(c, i);
    SlabBytes(e, j);
    PtrIsHanded(bs, handed, b, i, c.ptrs[k]);
    PtrIsHanded(bs, handed, d, j, e.ptrs[l]);
    assert c.ptrs[k] == e.ptrs[l];
    if b != d || i != j {
      TwoCachesCount(bs, b, i, d, j, c.ptrs[k]);
    }
  }

  lemma LiveIsHeld(c: State, p: int)
    requires Inv(c) && Live(c, p)
    ensures Holds(c, p)
  {
    hide FreeTotal, Find, SC.LiveIn;
    var a, idx: nat :| SC.LiveIn(c.count, c.blockSize, View(c), p, a, idx);
    FindsOwner(c, p, a, idx);
    assert ContainsMem(c, c.ptrs[Find(c, p, 0).value], p);
  }

  // ----- one cache steps, the whole system follows

  lemma WithinHanded(all: multiset<int>, old_: multiset<int>, new_: multiset<int>, h: multiset<int>, h': multiset<int>)
    requires old_ <= all <= h <= h' && new_ - old_ <= h' - h
    ensures all - old_ + new_ <= h'
  {
    forall x
      ensures (all - old_ + new_)[x] <= h'[x]
    {
      assert (new_ - old_)[x] <= (h' - h)[x];
    }
  }

  lemma PutCacheKeeps(bs: seq<Bucket>, handed: multiset<int>, b: nat, i: nat, c: State, handed': multiset<int>)
    requires SystemOk(bs, handed) && b < |bs| && i < NUM_CACHES && i < |bs[b].caches| && CacheOk(c, i)
    requires HandedOk(handed') && handed <= handed'
    requires multiset(c.ptrs) - multiset(bs[b].caches[i].ptrs) <= handed' - handed
    ensures SystemOk(PutCache(bs, b, i, c), handed')
  {
    hide Inv, HandedOk, SystemPtrs, CachesPtrs;
    PutCachePtrs(bs, b, i, c);
    var bs' := PutCache(bs, b, i, c);
    WithinHanded(SystemPtrs(bs), multiset(bs[b].caches[i].ptrs), multiset(c.ptrs), handed, handed');
    forall d | 0 <= d < |bs'|
      ensures BucketOk(bs'[d])
    {
      assert BucketOk(bs[d]);
    }
  }

  /** The live blocks of the system change as those of the one cache do. */
  lemma PutCacheLive(bs: seq<Bucket>, b: nat, i: nat, c: State, p: int)
    requires b < |bs| && i < |bs[b].caches| && Shape(bs[b].caches[i]) && Shape(c)
    ensures SystemLive(PutCache(bs, b, i, c), p)
            <==> Live(c, p) || exists d: nat, j: nat :: (d != b || j != i) && LiveAt(bs, d, j, p)
    ensures SystemLive(bs, p)
            <==> Live(bs[b].caches[i], p) || exists d: nat, j: nat :: (d != b || j != i) && LiveAt(bs, d, j, p)
  {
    hide Live;
    var bs' := PutCache(bs, b, i, c);
    assert forall d: nat, j: nat :: d != b || j != i ==> LiveAt(bs', d, j, p) == LiveAt(bs, d, j, p);
    assert LiveAt(bs', b, i, p) == Live(c, p) && LiveAt(bs, b, i, p) == Live(bs[b].caches[i], p);
  }

  // ----- what the steps of a cache do to its pointers

  lemma AllocatePtrs(c: State, mem: int)
    requires Shape(c) && HasRoom(c)
    ensures multiset(Allocate(c, mem).state.ptrs)
            == multiset(c.ptrs) + if NeedsBlock(c) then multiset{mem} else multiset{}
  {
    var s1 := Pop(c);
    if NeedsBlock(c) {
      var s2 := AddCache(s1, mem);
      SwapElements(s2.ptrs, 0, |s2.ptrs| - 1);
    }
  }

  lemma DeallocatePtrs(c: State, p: int, own: bool)
    requires Shape(c)
    ensures multiset(Deallocate(c, p, own).state.ptrs) <= multiset(c.ptrs)
  {
    hide Push;
    var it := Find(c, p, 0);
    if it.Some? {
      var s1 := Push(c, it.value, p, own);
      if Splices(s1, it.value) {
        RotateElements(s1.ptrs, s1.actMem, it.value);
      } else if Releases(s1, it.value) {
        RemoveElements(s1.ptrs, it.value);
        SwapPopElements(s1.ptrs, it.value);
      }
    }
  }

  /** deallocate of a live block in its own cache, in the whole system: that block stops being live, all others stay. */
  lemma SystemDeallocate(bs: seq<Bucket>, handed: multiset<int>, b: nat, i: nat, p: int, own: bool)
    requires SystemOk(bs, handed) && b < |bs| && i < NUM_CACHES && LiveAt(bs, b, i, p)
    ensures var bs' := PutCache(bs, b, i, Deallocate(bs[b].caches[i], p, own).state);
            SystemOk(bs', handed) && forall q :: SystemLive(bs', q) <==> SystemLive(bs, q) && q != p
  {
    hide Inv, HandedOk, Live, Deallocate, SystemPtrs, CachesPtrs, Holds;
    assert BucketOk(bs[b]);
    var c := bs[b].caches[i];
    var c' := Deallocate(c, p, own).state;
    DeallocateSound(c, p, own);
    DeallocatePtrs(c, p, own);
    PutCacheKeeps(bs, handed, b, i, c', handed);
    NowhereElse(bs, handed, b, i, p);
    forall q
      ensures SystemLive(PutCache(bs, b, i, c'), q) <==> SystemLive(bs, q) && q != p
    {
      PutCacheLive(bs, b, i, c', q);
    }
  }

  lemma NowhereElse(bs: seq<Bucket>, handed: multiset<int>, b: nat, i: nat, p: int)
    requires SystemOk(bs, handed) && b < |bs| && i < NUM_CACHES && LiveAt(bs, b, i, p)
    ensures forall d: nat, j: nat :: LiveAt(bs, d, j, p) ==> d == b && j == i
  {
    hide Inv, HandedOk, Live, SystemPtrs, CachesPtrs, Holds;
    forall d: nat, j: nat | LiveAt(bs, d, j, p)
      ensures d == b && j == i
    {
      assert BucketOk(bs[b]) && BucketOk(bs[d]);
      LiveIsHeld(bs[b].caches[i], p);
      LiveIsHeld(bs[d].caches[j], p);
      OneHolder(bs, handed, b, i, d, j, p);
    }
  }

  /** The dispatcher's next block is new to every cache. */
  lemma NextBlockFresh(bs: seq<Bucket>, handed: multiset<int>, b: nat, i: nat, mem: int)
    requires SystemOk(bs, handed) && b < |bs| && i < NUM_CACHES
    requires forall x :: x in handed ==> BlocksApart(x, mem)
    ensures |bs[b].caches| == NUM_CACHES && Shape(bs[b].caches[i]) && Fresh(bs[b].caches[i], mem)
  {
    hide SystemPtrs, HandedOk, FreeTotal, SC.Disjoint, SC.AllOk;
    assert BucketOk(bs[b]);
    var c := bs[b].caches[i];
    SlabBytes(c, i);
    forall a | a in View(c)
      ensures SC.Apart(c.blockSize * c.count, a, SC.Slab(mem, []))
    {
      var it := InView(c, a);
      PtrIsHanded(bs, handed, b, i, c.ptrs[it]);
    }
  }

  /** allocate in one cache, in the whole system: the new block was live nowhere, and all others stay. */
  lemma SystemAllocate(bs: seq<Bucket>, handed: multiset<int>, b: nat, i: nat, mem: int, handed': multiset<int>)
    requires SystemOk(bs, handed) && b < |bs| && i < NUM_CACHES && |bs[b].caches| == NUM_CACHES
    requires Shape(bs[b].caches[i]) && HasRoom(bs[b].caches[i]) && HandedOk(handed')
    requires NeedsBlock(bs[b].caches[i]) ==> Fresh(bs[b].caches[i], mem)
    requires handed' == if NeedsBlock(bs[b].caches[i]) then handed + multiset{mem} else handed
    ensures Allocate(bs[b].caches[i], mem).Done?
    ensures var c := bs[b].caches[i];
            var bs' := PutCache(bs, b, i, Allocate(c, mem).state);
            && SystemOk(bs', handed')
            && !SystemLive(bs, NextBlock(c))
            && forall q :: SystemLive(bs', q) <==> SystemLive(bs, q) || q == NextBlock(c)
  {
    hide Inv, HandedOk, Live, Allocate, SystemPtrs, CachesPtrs, NextBlock, NeedsBlock, Fresh;
    assert BucketOk(bs[b]);
    var c := bs[b].caches[i];
    AllocateSound(c, mem);
    AllocatePtrs(c, mem);
    var c' := Allocate(c, mem).state;
    GoodShape(c');
    var bs' := PutCache(bs, b, i, c');
    PutCacheKeeps(bs, handed, b, i, c', handed');
    NowhereElse(bs', handed', b, i, NextBlock(c));
    PutCacheLive(bs, b, i, c', NextBlock(c));
    assert forall d: nat, j: nat :: d != b || j != i ==> LiveAt(bs', d, j, NextBlock(c)) == LiveAt(bs, d, j, NextBlock(c));
    forall q
      ensures SystemLive(bs', q) <==> SystemLive(bs, q) || q == NextBlock(c)
    {
      PutCacheLive(bs, b, i, c', q);
    }
  }
}
