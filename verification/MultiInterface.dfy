/** Interface of Allocators/SlabMulti.h: a vector of buckets, one for each thread that has called, and
    the routing of allocate and deallocate. The vector owns the buckets and their caches by value. */
module MultiInterface {
  import opened Common
  import opened Dispatcher
  import opened MultiCache
  import opened MultiCacheProofs
  import opened MultiSystem
  import Runs = MultiCacheRuns
  import SC = SlabCache
  import SP = SlabCacheProofs
  import SlabMem

  /** findCacheIdx: the first class that is large enough, None for -1. */
  function Class(bytes: nat): (r: Option<nat>)
    ensures r.Some? ==> r.value < NUM_CACHES
  {
    SlabMem.Route(CACHE_SIZES, bytes)
  }

  /** A request goes to operator new exactly when it exceeds the largest class; otherwise its class has room for it. */
  lemma ClassIff(bytes: nat)
    ensures Class(bytes).None? <==> bytes > LARGEST_CACHE
    ensures Class(bytes).Some? ==> bytes <= CACHE_SIZES[Class(bytes).value]
                                   && (Class(bytes).value > 0 ==> bytes > CACHE_SIZES[Class(bytes).value - 1])
  {
    assert CACHE_SIZES[7] == LARGEST_CACHE;
    Tables();
  }

  predicate Registered(bs: seq<Bucket>, id: nat) {
    exists b :: 0 <= b < |bs| && bs[b].id == id
  }

  ghost predicate ShapesGood(bs: seq<Bucket>, i: nat) {
    forall b: nat :: b < |bs| ==> i < |bs[b].caches| && Shape(bs[b].caches[i])
  }

  ghost predicate HeldAt(bs: seq<Bucket>, b: nat, i: nat, p: int) {
    b < |bs| && i < |bs[b].caches| && Holds(bs[b].caches[i], p)
  }

  /** The client's side of deallocate: a pointer into a slab of this class is one that allocate handed out. */
  ghost predicate LiveIfHeld(bs: seq<Bucket>, i: nat, p: int) {
    forall b: nat :: HeldAt(bs, b, i, p) ==> LiveAt(bs, b, i, p)
  }

  /** What deallocate of p by thread id did in class i: the one bucket that holds p got it back, as a foreign
      index exactly when it is another thread's, and p alone is no longer live; every other cache is as before. */
  ghost predicate Freed(bs: seq<Bucket>, bs': seq<Bucket>, id: nat, i: nat, p: int) {
    && ShapesGood(bs, i)
    && (forall b: nat :: HeldAt(bs, b, i, p)
                         ==> bs' == PutCache(bs, b, i, Deallocate(bs[b].caches[i], p, bs[b].id == id).state))
    && (forall b: nat, q :: HeldAt(bs, b, i, p) ==> (SystemLive(bs', q) <==> SystemLive(bs, q) && q != p))
    && ((forall b: nat :: !HeldAt(bs, b, i, p)) ==> bs' == bs)
  }

  ghost predicate SameLive(bs: seq<Bucket>, bs': seq<Bucket>) {
    forall q :: SystemLive(bs', q) <==> SystemLive(bs, q)
  }

  // ----- a new bucket

  predicate IsNew(c: State, i: nat)
    requires i < NUM_CACHES
  {
    |c.ptrs| == 1 && c == Initial(BLOCKS_PER_SLAB[i], CACHE_SIZES[i], c.ptrs[0])
  }

  ghost predicate NoneLive(c: State) {
    Shape(c) && forall p :: !Live(c, p)
  }

  lemma NewCache(i: nat, mem: int)
    requires i < NUM_CACHES
    ensures var c := Initial(BLOCKS_PER_SLAB[i], CACHE_SIZES[i], mem);
            IsNew(c, i) && CacheOk(c, i) && NoneLive(c) && HasRoom(c)
  {
    Tables();
    var count := BLOCKS_PER_SLAB[i];
    Runs.InitialKeeps(count, CACHE_SIZES[i], mem);
    Runs.IndexStackHasRoom(count);
    var c := Initial(count, CACHE_SIZES[i], mem);
    SP.StackIsFull(count);
    forall p, a, k: nat
      ensures !SC.LiveIn(c.count, c.blockSize, View(c), p, a, k)
    {
      if a in View(c) {
        var it := InView(c, a);
        assert a.availible == [] + SC.IndexStack(count);
      }
    }
  }

  lemma NoPtrs()
    ensures CachesPtrs([]) == multiset{}
  {}

  lemma NewPtrs(i: nat, mem: int)
    requires i < NUM_CACHES
    ensures Initial(BLOCKS_PER_SLAB[i], CACHE_SIZES[i], mem).ptrs == [mem]
  {}

  lemma NewBucket(bs: seq<Bucket>, handed: multiset<int>, x: Bucket, handed': multiset<int>)
    requires SystemOk(bs, handed) && !Registered(bs, x.id)
    requires BucketOk(x) && forall i :: 0 <= i < NUM_CACHES ==> NoneLive(x.caches[i])
    requires HandedOk(handed') && handed' == handed + CachesPtrs(x.caches)
    ensures SystemOk(bs + [x], handed') && SameLive(bs, bs + [x])
  {
    hide HandedOk, Inv, SystemPtrs, CachesPtrs, Live;
    SystemPtrsSnoc(bs, x);
    var bs' := bs + [x];
    forall q
      ensures SystemLive(bs', q) <==> SystemLive(bs, q)
    {
      assert forall b: nat, i: nat :: LiveAt(bs', b, i, q) <==> LiveAt(bs, b, i, q);
    }
  }

  // ----- giving a block back

  lemma HoldsIff(c: State, p: int)
    requires Shape(c)
    ensures Holds(c, p) <==> Deallocate(c, p, true).value
    ensures Holds(c, p) <==> Deallocate(c, p, false).value
    ensures !Holds(c, p) ==> Deallocate(c, p, true).state == c && Deallocate(c, p, false).state == c
  {
    FindNoneIff(c, p);
    hide Find, Settle, Push;
  }

  /** The holder is unique, so whichever bucket answers is the one. */
  lemma HolderFreed(bs: seq<Bucket>, handed: multiset<int>, b: nat, i: nat, p: int, id: nat)
    requires SystemOk(bs, handed) && i < NUM_CACHES && HeldAt(bs, b, i, p) && LiveIfHeld(bs, i, p)
    requires ShapesGood(bs, i)
    ensures var bs' := PutCache(bs, b, i, Deallocate(bs[b].caches[i], p, bs[b].id == id).state);
            Freed(bs, bs', id, i, p) && SystemOk(bs', handed)
  {
    hide Inv, HandedOk, SystemPtrs, CachesPtrs, Holds, Deallocate, Live;
    SystemDeallocate(bs, handed, b, i, p, bs[b].id == id);
    forall d: nat | HeldAt(bs, d, i, p)
      ensures d == b
    {
      OneHolder(bs, handed, b, i, d, i, p);
    }
  }

  lemma NobodyHolds(bs: seq<Bucket>, id: nat, i: nat, p: int)
    requires ShapesGood(bs, i) && forall b: nat :: b < |bs| ==> !HeldAt(bs, b, i, p)
    ensures Freed(bs, bs, id, i, p)
  {}

  /** A thread has one bucket, so once that one has failed only others can hold p. */
  lemma OnlyOthersHold(bs: seq<Bucket>, handed: multiset<int>, id: nat, own: Option<nat>, i: nat, p: int)
    requires SystemOk(bs, handed)
    requires match own
             case None => !Registered(bs, id)
             case Some(b) => b < |bs| && bs[b].id == id && !HeldAt(bs, b, i, p)
    ensures forall b: nat :: HeldAt(bs, b, i, p) ==> bs[b].id != id
  {}

  lemma GoodShapes(bs: seq<Bucket>, handed: multiset<int>, i: nat)
    requires SystemOk(bs, handed) && i < NUM_CACHES
    ensures ShapesGood(bs, i)
  {
    forall b: nat | b < |bs|
      ensures i < |bs[b].caches| && Shape(bs[b].caches[i])
    {
      assert BucketOk(bs[b]);
    }
  }

  class Interface {
    const dispatch: GlobalDispatch
    var buckets: seq<Bucket>

    ghost predicate Valid()
      reads this, dispatch
    {
      dispatch.Valid() && SystemOk(buckets, dispatch.handed)
    }

    constructor (dispatch: GlobalDispatch)
      requires dispatch.Valid()
      ensures Valid() && buckets == [] && this.dispatch == dispatch
    {
      this.dispatch := dispatch;
      buckets := [];
      new;
      HandedOutOnce(dispatch.supply, dispatch.totalSBlocks, dispatch.blocks, dispatch.handed);
    }

    /** findDo's search. */
    method FindBucket(id: nat) returns (r: Option<nat>)
      ensures r.Some? ==> r.value < |buckets| && buckets[r.value].id == id
      ensures r.None? <==> !Registered(buckets, id)
    {
      for b := 0 to |buckets|
        invariant forall d :: 0 <= d < b ==> buckets[d].id != id
      {
        if buckets[b].id == id {
          return Some(b);
        }
      }
      r := None;
    }

    method FindCacheIdx(bytes: nat) returns (r: Option<nat>)
      ensures r == Class(bytes)
    {
      var i := 0;
      while i < |CACHE_SIZES|
        invariant 0 <= i <= |CACHE_SIZES|
        invariant forall k :: 0 <= k < i ==> CACHE_SIZES[k] < bytes
      {
        if CACHE_SIZES[i] >= bytes {
          SlabMem.RouteIs(CACHE_SIZES, bytes, i);
          return Some(i);
        }
        i := i + 1;
      }
      r := None;
    }

    /** registerThread: a bucket with one new slab in each cache. */
    method RegisterThread(id: nat)
      requires Valid() && !Registered(buckets, id)
      modifies this, dispatch
      ensures Valid() && SameLive(old(buckets), buckets)
      ensures |buckets| == |old(buckets)| + 1 && buckets[..|old(buckets)|] == old(buckets)
      ensures var b := buckets[|old(buckets)|];
              b.id == id && |b.caches| == NUM_CACHES && forall i :: 0 <= i < NUM_CACHES ==> IsNew(b.caches[i], i)
    {
      var caches := MakeCaches();
      HandedOutOnce(dispatch.supply, dispatch.totalSBlocks, dispatch.blocks, dispatch.handed);
      NewBucket(buckets, old(dispatch.handed), Bucket(id, caches), dispatch.handed);
      buckets := buckets + [Bucket(id, caches)];
    }

    /** The constructor of Bucket. */
    method MakeCaches() returns (caches: seq<State>)
      requires dispatch.Valid()
      modifies dispatch
      ensures dispatch.Valid() && dispatch.handed == old(dispatch.handed) + CachesPtrs(caches)
      ensures |caches| == NUM_CACHES
      ensures forall i :: 0 <= i < NUM_CACHES ==> CacheOk(caches[i], i) && IsNew(caches[i], i) && NoneLive(caches[i])
    {
      hide CacheOk, NoneLive, CachesPtrs, IsNew;
      caches := [];
      NoPtrs();
      for i := 0 to NUM_CACHES
        invariant dispatch.Valid()
        invariant |caches| == i && dispatch.handed == old(dispatch.handed) + CachesPtrs(caches)
        invariant forall k :: 0 <= k < i ==> CacheOk(caches[k], k) && IsNew(caches[k], k) && NoneLive(caches[k])
      {
        Tables();
        var mem := dispatch.GetBlock();
        NewCache(i, mem);
        var cache := Initial(BLOCKS_PER_SLAB[i], CACHE_SIZES[i], mem);
        NewPtrs(i, mem);
        CachesPtrsSnoc(caches, cache);
        caches := caches + [cache];
      }
    }

    /** Cache i of bucket b allocates, with a block from the dispatcher if it needs one; None if it is undefined. */
    method AllocateIn(b: nat, i: nat) returns (p: Option<int>)
      requires Valid() && b < |buckets| && i < NUM_CACHES
      modifies this, dispatch
      ensures Valid() && |buckets| == |old(buckets)| && buckets[b].id == old(buckets)[b].id
      ensures |old(buckets)[b].caches| == NUM_CACHES && Shape(old(buckets)[b].caches[i])
      ensures p.Some? <==> HasRoom(old(buckets)[b].caches[i])
      ensures p.None? ==> buckets == old(buckets)
      ensures p.Some? ==>
                && p == Some(NextBlock(old(buckets)[b].caches[i]))
                && !SystemLive(old(buckets), p.value) && LiveAt(buckets, b, i, p.value)
                && forall q :: SystemLive(buckets, q) <==> SystemLive(old(buckets), q) || q == p.value
    {
      CachesGood(b, i);
      var c := buckets[b].caches[i];
      if !HasRoom(c) {
        return None;
      }
      var mem := 0;
      if NeedsBlock(c) {
        mem := dispatch.GetBlock();
        HandedOutOnce(dispatch.supply, dispatch.totalSBlocks, dispatch.blocks, dispatch.handed);
        NextBlockFresh(buckets, old(dispatch.handed), b, i, mem);
      }
      SystemAllocate(buckets, old(dispatch.handed), b, i, mem, dispatch.handed);
      AllocateSound(c, mem);
      var r := MultiCache.Allocate(c, mem);
      buckets := PutCache(buckets, b, i, r.state);
      p := Some(r.value);
      GoodShape(r.state);
    }

    lemma CachesGood(b: nat, i: nat)
      requires Valid() && b < |buckets| && i < NUM_CACHES
      ensures |buckets[b].caches| == NUM_CACHES && CacheOk(buckets[b].caches[i], i) && Shape(buckets[b].caches[i])
      ensures HandedOk(dispatch.handed)
    {
      assert BucketOk(buckets[b]);
    }

    /** allocate: from the caller's own bucket, which is made first if the thread has none. */
    method Allocate(id: nat, bytes: nat, system: int) returns (p: Option<int>)
      requires Valid()
      modifies this, dispatch
      ensures Valid() && Registered(buckets, id)
      ensures Class(bytes).None? ==> p == Some(system) && SameLive(old(buckets), buckets)
      ensures p.None? ==> Class(bytes).Some? && buckets == old(buckets)
                          && exists b :: 0 <= b < |buckets| && buckets[b].id == id && BucketOk(buckets[b])
                                         && !HasRoom(buckets[b].caches[Class(bytes).value])
      ensures p.Some? && Class(bytes).Some? ==>
                && !SystemLive(old(buckets), p.value)
                && (forall q :: SystemLive(buckets, q) <==> SystemLive(old(buckets), q) || q == p.value)
                && exists b: nat :: LiveAt(buckets, b, Class(bytes).value, p.value) && buckets[b].id == id
    {
      var idx := FindCacheIdx(bytes);
      var it := FindBucket(id);
      if it.None? {
        RegisterThread(id);
        it := FindBucket(id);
        OneBucket(id, it.value, |old(buckets)|);
      }
      if idx.None? {
        return Some(system);
      }
      CachesGood(it.value, idx.value);
      if it.value == |old(buckets)| {
        NewCache(idx.value, buckets[it.value].caches[idx.value].ptrs[0]);
      }
      assert BucketOk(buckets[it.value]);
      p := AllocateIn(it.value, idx.value);
    }

    lemma OneBucket(id: nat, b: nat, d: nat)
      requires Valid() && b < |buckets| && d < |buckets| && buckets[b].id == id == buckets[d].id
      ensures b == d
    {}

    /** Bucket::deallocate: cache i of bucket b tries to take p back; without a class it is operator delete. */
    method DeallocateIn(b: nat, idx: Option<nat>, p: int, thisThread: bool) returns (found: bool)
      requires b < |buckets| && (idx.Some? ==> ShapesGood(buckets, idx.value))
      modifies this`buckets
      ensures idx.None? ==> found && buckets == old(buckets)
      ensures idx.Some? ==> found == HeldAt(old(buckets), b, idx.value, p)
      ensures idx.Some? && found ==>
                buckets == PutCache(old(buckets), b, idx.value,
                                    MultiCache.Deallocate(old(buckets)[b].caches[idx.value], p, thisThread).state)
      ensures !found ==> buckets == old(buckets)
    {
      if idx.None? {
        return true;
      }
      var c := buckets[b].caches[idx.value];
      HoldsIff(c, p);
      hide MultiCache.Deallocate, Holds;
      var r := MultiCache.Deallocate(c, p, thisThread);
      if r.value {
        buckets := PutCache(buckets, b, idx.value, r.state);
      }
      found := r.value;
    }

    /** The loop over the other threads' buckets; it stops at the first that answers. */
    method DeallocateInOthers(id: nat, idx: Option<nat>, p: int)
      requires Valid()
      requires idx.Some? ==> idx.value < NUM_CACHES && LiveIfHeld(buckets, idx.value, p)
      requires idx.Some? ==> forall b: nat :: HeldAt(buckets, b, idx.value, p) ==> buckets[b].id != id
      modifies this`buckets
      ensures Valid()
      ensures idx.None? ==> buckets == old(buckets)
      ensures idx.Some? ==> Freed(old(buckets), buckets, id, idx.value, p)
      ensures |buckets| == |old(buckets)| && forall b :: 0 <= b < |buckets| ==> buckets[b].id == old(buckets)[b].id
    {
      hide SystemOk, ShapesGood, LiveIfHeld, HeldAt;
      if idx.Some? {
        GoodShapes(buckets, dispatch.handed, idx.value);
      }
      for b := 0 to |buckets|
        invariant buckets == old(buckets)
        invariant idx.Some? ==> forall d: nat :: d < b ==> !HeldAt(buckets, d, idx.value, p)
      {
        if buckets[b].id != id {
          var found := DeallocateIn(b, idx, p, false);
          if found {
            if idx.Some? {
              HolderFreed(old(buckets), dispatch.handed, b, idx.value, p, id);
            }
            return;
          }
        }
      }
      if idx.Some? {
        NobodyHolds(buckets, id, idx.value, p);
      }
    }

    /** deallocate up to the registration: the caller's own bucket first, then the others. */
    method GiveBack(id: nat, own: Option<nat>, idx: Option<nat>, p: int)
      requires Valid()
      requires idx.Some? ==> idx.value < NUM_CACHES && LiveIfHeld(buckets, idx.value, p)
      requires match own
               case None => !Registered(buckets, id)
               case Some(b) => b < |buckets| && buckets[b].id == id
      modifies this`buckets
      ensures Valid()
      ensures match idx
              case None => buckets == old(buckets)
              case Some(i) => Freed(old(buckets), buckets, id, i, p)
      ensures |buckets| == |old(buckets)| && forall b :: 0 <= b < |buckets| ==> buckets[b].id == old(buckets)[b].id
    {
      hide SystemOk, LiveIfHeld, HeldAt, Freed, ShapesGood, Registered;
      if idx.Some? {
        GoodShapes(buckets, dispatch.handed, idx.value);
      }
      var found := false;
      if own.Some? {
        found := DeallocateIn(own.value, idx, p, true);
        if found && idx.Some? {
          HolderFreed(old(buckets), dispatch.handed, own.value, idx.value, p, id);
        }
      }
      if !found {
        if idx.Some? {
          OnlyOthersHold(buckets, dispatch.handed, id, own, idx.value, p);
        }
        DeallocateInOthers(id, idx, p);
      }
    }

    /** deallocate: a caller without a bucket gets one in the end. */
    method Deallocate(id: nat, p: int, bytes: nat)
      requires Valid()
      requires Class(bytes).Some? ==> LiveIfHeld(buckets, Class(bytes).value, p)
      modifies this, dispatch
      ensures Valid()
      ensures var n := |old(buckets)|;
              && |buckets| == (if Registered(old(buckets), id) then n else n + 1) && Registered(buckets, id)
              && SameLive(buckets[..n], buckets)
              && match Class(bytes)
                 case None => buckets[..n] == old(buckets)
                 case Some(i) => Freed(old(buckets), buckets[..n], id, i, p)
    {
      hide SystemOk, LiveIfHeld, Freed, SystemLive;
      var idx := FindCacheIdx(bytes);
      var own := FindBucket(id);
      GiveBack(id, own, idx, p);
      ghost var after := buckets;
      if own.None? {
        RegisterThread(id);
      }
      assert buckets[..|after|] == after;
    }
  }
}
