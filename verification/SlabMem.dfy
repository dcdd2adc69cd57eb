/** The bucket interface of Allocators/SlabMem.h: caches in the order they were added, each request
    routed by its size in bytes. */
module SlabMem {
  import opened Common
  import opened SizeTypes
  import opened SlabCache
  import opened SlabCacheProofs
  import opened SlabCacheObject

  /** The first bucket whose blocks are large enough; None stands for operator new and delete. */
  function Route(sizes: seq<nat>, bytes: nat): (r: Option<nat>)
    ensures r.Some? ==> r.value < |sizes| && sizes[r.value] >= bytes
                        && forall k :: 0 <= k < r.value ==> sizes[k] < bytes
    ensures r.None? ==> forall k :: 0 <= k < |sizes| ==> sizes[k] < bytes
  {
    if sizes == [] then None
    else if sizes[0] >= bytes then Some(0)
    else
      match Route(sizes[1..], bytes)
      case None => None
      case Some(i) => Some(i + 1)
  }

  lemma {:induction false} RouteIs(sizes: seq<nat>, bytes: nat, i: nat)
    requires i < |sizes| && sizes[i] >= bytes && forall k :: 0 <= k < i ==> sizes[k] < bytes
    ensures Route(sizes, bytes) == Some(i)
  {
    if i > 0 {
      RouteIs(sizes[1..], bytes, i - 1);
    }
  }

  /** deallocate with the byte count of the allocation takes the same route, after any buckets were added
      in between, exactly when the allocation came from a bucket or no added bucket is large enough. */
  lemma RouteStableIff(sizes: seq<nat>, added: seq<nat>, bytes: nat)
    ensures Route(sizes + added, bytes) == Route(sizes, bytes)
            <==> Route(sizes, bytes).Some? || forall k :: 0 <= k < |added| ==> added[k] < bytes
  {
    var all := sizes + added;
    var r, r' := Route(sizes, bytes), Route(all, bytes);
    assert forall k :: 0 <= k < |sizes| ==> all[k] == sizes[k];
    assert forall k :: 0 <= k < |added| ==> all[|sizes| + k] == added[k];
    if r.Some? {
      RouteIs(all, bytes, r.value);
    } else if r'.Some? {
      assert r'.value >= |sizes|;
      assert added[r'.value - |sizes|] >= bytes;
    }
  }

  /** 32 bytes come from operator new while the only bucket has 16-byte blocks; once one of 64 is added,
      deallocate takes them to a cache that never handed them out. */
  lemma RouteExample()
    ensures Route([16], 32) == None && Route([16] + [64], 32) == Some(1)
  {
    assert Route([16][1..], 32) == None;
    RouteIs([16] + [64], 32, 1);
  }

  /** addCache: the blocks that fill whole pages. */
  function PageCount(blockSize: nat, count: nat, page: nat): nat
    requires blockSize > 0 && page > 0
  {
    NearestPage(count * blockSize, page) / blockSize
  }

  lemma AtLeastByDivision(n: nat, d: nat, k: nat)
    requires d > 0
    ensures n / d >= k <==> n >= k * d
  {
    var q := n / d;
    assert n == q * d + n % d;
    assert (q + 1) * d == q * d + d;
    if q >= k {
      MulMonotone(k, q, d);
    } else {
      MulMonotone(q + 1, k, d);
    }
  }

  /** addCache never asks for fewer blocks than requested, and it makes a cache whose slabs hold the two
      blocks that allocate and deallocate need exactly when two are requested, or one of at most half a page. */
  lemma PageCountIff(blockSize: nat, count: nat, page: nat)
    requires blockSize > 0 && page > 0
    ensures PageCount(blockSize, count, page) >= count
    ensures PageCount(blockSize, count, page) >= 2 <==> count >= 2 || (count == 1 && 2 * blockSize <= page)
  {
    var n := NearestPage(count * blockSize, page);
    NearestPageIsLeast(count * blockSize, page);
    AtLeastByDivision(n, blockSize, count);
    AtLeastByDivision(n, blockSize, 2);
    if count >= 2 {
      MulMonotone(2, count, blockSize);
    } else if count == 1 {
      OnePageOrLess(blockSize, page);
    } else {
      assert NearestPage(0, page) == 0;
    }
  }

  /** A slab of an added cache fills the k pages that the requested blocks need: k - 1 pages would not hold those,
      and one block more than it has would not fit k pages. */
  lemma PageCountFills(blockSize: nat, count: nat, page: nat) returns (k: nat)
    requires blockSize > 0 && page > 0
    ensures (k - 1) * page < count * blockSize <= k * page
    ensures PageCount(blockSize, count, page) * blockSize <= k * page
    ensures k * page < (PageCount(blockSize, count, page) + 1) * blockSize
  {
    var bytes := count * blockSize;
    NearestPageIsLeast(bytes, page);
    k := Pages(bytes, page);
    var n := k * page;
    assert n == n / blockSize * blockSize + n % blockSize;
    if k >= 1 {
      assert bytes == bytes / page * page + bytes % page;
    }
  }

  lemma OnePageOrLess(blockSize: nat, page: nat)
    requires blockSize > 0 && page > 0
    ensures NearestPage(blockSize, page) >= 2 * blockSize <==> 2 * blockSize <= page
  {
    var cnt := blockSize / page;
    assert blockSize == cnt * page + blockSize % page;
    assert (cnt + 1) * page == cnt * page + page;
    if cnt >= 1 {
      MulMonotone(1, cnt, page);
    }
  }

  class Interface {
    var buckets: seq<Cache>

    /** The caches are different objects. */
    ghost predicate Valid()
      reads this
    {
      && (forall i, j :: 0 <= i < j < |buckets| ==> buckets[i] != buckets[j])
      && (forall i :: 0 <= i < |buckets| ==> buckets[i].blockSize > 0)
    }

    ghost function Sizes(): seq<nat>
      reads this
    {
      seq(|buckets|, i requires 0 <= i < |buckets| reads this => buckets[i].blockSize)
    }

    constructor ()
      ensures Valid() && buckets == []
    {
      buckets := [];
    }

    method AddCache(blockSize: nat, count: nat, page: nat, mem: int)
      requires Valid() && blockSize > 0 && page > 0
      modifies this
      ensures Valid() && |buckets| == |old(buckets)| + 1 && buckets[..|old(buckets)|] == old(buckets)
      ensures Sizes() == old(Sizes()) + [blockSize]
      ensures fresh(buckets[|old(buckets)|])
      ensures buckets[|old(buckets)|].Contents() == Initial(blockSize, PageCount(blockSize, count, page), mem)
    {
      var cache := new Cache(blockSize, PageCount(blockSize, count, page), mem);
      buckets := buckets + [cache];
    }

    /** The loop over the buckets that allocate and deallocate share. */
    method Find(bytes: nat) returns (r: Option<nat>)
      requires Valid()
      ensures r == Route(Sizes(), bytes)
    {
      var i := 0;
      while i < |buckets| && buckets[i].blockSize < bytes
        invariant 0 <= i <= |buckets|
        invariant forall k :: 0 <= k < i ==> buckets[k].blockSize < bytes
      {
        i := i + 1;
      }
      ghost var sizes := Sizes();
      assert forall k :: 0 <= k < |sizes| ==> sizes[k] == buckets[k].blockSize;
      if i < |buckets| {
        r := Some(i);
        assert sizes[i] >= bytes;
      } else {
        r := None;
      }
    }

    /** allocate: the routed cache answers, no other cache changes; system is operator new's answer. */
    method Allocate(bytes: nat, mem: int, system: int) returns (p: Option<int>)
      requires Valid()
      modifies this, buckets
      ensures buckets == old(buckets)
      ensures match Route(old(Sizes()), bytes)
              case None => p == Some(system) && forall c :: c in buckets ==> c.Contents() == old(c.Contents())
              case Some(i) =>
                && (forall c :: c in buckets && c != buckets[i] ==> c.Contents() == old(c.Contents()))
                && match SlabCache.Allocate(old(buckets[i].Contents()), mem)
                   case Done(s, q) => p == Some(q) && buckets[i].Contents() == s
                   case Undefined => p == None
    {
      var i := Find(bytes);
      if i.None? {
        return Some(system);
      }
      p := buckets[i.value].Allocate(mem);
    }

    /** deallocate: the same route, by the byte count the caller repeats; false if it is undefined. */
    method Deallocate(p: int, bytes: nat) returns (done: bool)
      requires Valid()
      modifies this, buckets
      ensures buckets == old(buckets)
      ensures match Route(old(Sizes()), bytes)
              case None => done && forall c :: c in buckets ==> c.Contents() == old(c.Contents())
              case Some(i) =>
                && (forall c :: c in buckets && c != buckets[i] ==> c.Contents() == old(c.Contents()))
                && match SlabCache.Deallocate(old(buckets[i].Contents()), p)
                   case Done(s, _) => done && buckets[i].Contents() == s
                   case Undefined => !done
    {
      var i := Find(bytes);
      if i.None? {
        return true;
      }
      done := buckets[i.value].Deallocate(p);
    }
  }
}
