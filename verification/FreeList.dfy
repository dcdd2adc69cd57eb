/** PolicyInterface of Allocators/FreeList.h: the allocator over its own block of memory, with the
    header word written into that memory in front of every payload. Arithmetic is that of size_type. */
module FreeList {
  import opened Common
  import opened FreeChunks
  import opened FreeListHeap
  import opened FreeListPolicy
  import opened SizeTypes

  /** Every live block's header still holds its payload size. */
  ghost predicate HeadersHold(mem: seq<byte>, live: map<int, int>, header: nat) {
    forall s :: s in live ==>
      0 <= s && s + header <= |mem| && Decode(mem[s..s + header]) == live[s] - header
  }

  /** Bytes outside [from, to) are the same in both memories. */
  predicate SameOutside(m: seq<byte>, n: seq<byte>, from: int, to: int) {
    |m| == |n| && forall k :: 0 <= k < |m| && !(from <= k < to) ==> n[k] == m[k]
  }

  /** Writing outside a live block's header leaves the header readable. */
  lemma HeadersKept(m: seq<byte>, n: seq<byte>, live: map<int, int>, bytes: int, header: nat, from: int, to: int)
    requires HeadersHold(m, live, header) && SameOutside(m, n, from, to)
    requires forall s :: s in live ==> s + header <= from || to <= s
    ensures HeadersHold(n, live, header)
  {
    forall s | s in live
      ensures 0 <= s && s + header <= |n| && Decode(n[s..s + header]) == live[s] - header
    {
      assert n[s..s + header] == m[s..s + header];
    }
  }

  class Allocator {
    const bytes: nat
    const header: nat            // sizeof(Header)
    const variant: Variant
    const policy: Policy
    const mem: array<byte>       // the bytes from MyBegin to MyEnd
    var bytesFree: nat
    ghost var live: map<int, int>

    ghost function State(): Heap
      reads this, policy
    {
      Heap(policy.chunks, live, bytesFree)
    }

    /** The sizes the static_assert and FindSizeT settle. */
    ghost predicate Sized() {
      && bytes > header + 1 && IsWidth(header) && bytes < Pow256(header)
      && mem.Length == bytes && policy.bound == Pow256(header)
    }

    ghost predicate Valid()
      reads this, policy, mem
    {
      && Sized()
      && policy.Valid()
      && Tiled(State(), bytes, header)
      && HeadersHold(mem[..], live, header)
    }

    /** What a size_type keeps of a result. */
    function Keep(x: int): nat {
      Wrap(x, Pow256(header))
    }

    constructor (bytes: nat, kind: Storage, variant: Variant)
      requires bytes > SizeTBytes(bytes, 0) + 1 && bytes < Pow256(8)
      ensures Valid() && fresh(policy) && fresh(mem)
      ensures this.bytes == bytes && this.variant == variant && State() == Initial(bytes)
    {
      SizeTIsSmallest(bytes, 0);
      this.bytes := bytes;
      this.header := SizeTBytes(bytes, 0);
      this.variant := variant;
      var p := new Policy(kind, Pow256(SizeTBytes(bytes, 0)));
      p.FreeAll(bytes);
      policy := p;
      mem := new byte[bytes];
      bytesFree := bytes;
      live := map[];
      InitialTiled(bytes, SizeTBytes(bytes, 0));
    }

    /** writeHeader: the size goes into memory as header bytes, the answer is the payload's address. */
    method WriteHeader(start: int, size: nat) returns (p: int)
      requires 0 <= start && start + header <= mem.Length && size < Pow256(header)
      modifies mem
      ensures p == start + header
      ensures Decode(mem[start..start + header]) == size
      ensures SameOutside(old(mem[..]), mem[..], start, start + header)
    {
      var word := Encode(size, header);
      DecodeEncode(size, header);
      var k := 0;
      while k < header
        invariant 0 <= k <= header
        invariant mem[start..start + k] == word[..k]
        invariant SameOutside(old(mem[..]), mem[..], start, start + header)
      {
        mem[start + k] := word[k];
        k := k + 1;
        assert mem[start..start + k] == mem[start..start + k - 1] + [word[k - 1]];
      }
      assert word[..header] == word;
      p := start + header;
    }

    /** firstFit on the policy: take a chunk and give back its remainder. */
    method TakeChunk(req: nat) returns (start: Option<int>)
      requires policy.Valid() && header <= req && RestFits(policy.chunks, req)
      modifies policy
      ensures policy.Valid()
      ensures match TakeFit(variant, header, old(policy.chunks), req)
              case None => start == None && policy.chunks == old(policy.chunks)
              case Some((s, l)) => start == Some(s) && policy.chunks == l
    {
      hide Fits, Holds, Sum, AddExtent, Erase;
      var fit := policy.TakeFirstFit(req);
      if fit.None? {
        return None;
      }
      if fit.value.size > req {
        policy.Add(fit.value.start + req, fit.value.size - req, Extra(variant, header));
      }
      start := Some(fit.value.start);
    }

    /** The remainder of the chunk that first fit takes, headerSize added, still fits the size type. */
    ghost predicate RestFits(l: seq<Chunk>, req: nat) {
      var i := FirstFit(l, req);
      i < |l| ==> Sum(Erase(l, i)) + l[i].size - req + header < policy.bound
    }

    /** firstFit: take a chunk, write the header, adjust the pointer. */
    method FirstFitBytes(req: nat) returns (p: Option<int>)
      requires Valid() && 1 <= header <= req < Pow256(header)
      modifies policy, mem
      ensures policy.Valid()
      ensures match TakeFit(variant, header, old(policy.chunks), req)
              case None => p == None && policy.chunks == old(policy.chunks) && mem[..] == old(mem[..])
              case Some((start, l)) =>
                && p == Some(start + header) && policy.chunks == l
                && 0 <= start && start + header <= mem.Length
                && Decode(mem[start..start + header]) == req - header
                && SameOutside(old(mem[..]), mem[..], start, start + header)
    {
      hide *;
      RoomForRest(req);
      TakenStart(variant, header, policy.chunks, req);
      KeepsPayload(req);
      var start := TakeChunk(req);
      if start.None? {
        return None;
      }
      var q := WriteHeader(start.value, Keep(req - header));
      p := Some(q);
    }

    lemma KeepsPayload(req: nat)
      requires header <= req < Pow256(header)
      ensures Keep(req - header) == req - header
    {
      WrapKeeps(req - header, Pow256(header));
    }

    /** Giving back what a split leaves over, even headerSize too long, stays within the size type. */
    lemma RoomForRest(req: nat)
      requires Valid() && header <= req
      ensures var l := policy.chunks; var i := FirstFit(l, req);
              i < |l| ==> 0 <= l[i].start && l[i].start + header <= mem.Length
      ensures RestFits(policy.chunks, req)
      ensures policy.Valid()
    {
      var l := policy.chunks;
      var i := FirstFit(l, req);
      hide HeadersHold, Sum, Extent, Covers, LiveAt, Pow256, Erase, Holds;
      if i < |l| {
        SumErase(l, i);
        assert l[i].End() <= bytes;
        ExtentAtLeast(live, header);
      }
    }

    static lemma {:induction false} ExtentAtLeast(live: map<int, int>, header: nat)
      requires forall s :: s in live ==> live[s] >= header
      ensures Extent(live) >= 0
      decreases |live|
    {
      if |live| > 0 {
        var u := ExtentPick(live);
        ExtentAtLeast(live - {u}, header);
      }
    }

    /** allocate: count objects of sizeofT bytes. Fails, throwing bad_alloc, with p == None.
        What is reserved is the request as size_type keeps it. */
    method Allocate(sizeofT: nat, count: nat) returns (p: Option<int>)
      requires Valid()
      requires Keep(sizeofT * count + header) >= header
      modifies this, policy, mem
      ensures (State(), p) == FreeListHeap.Allocate(variant, header, old(State()), Keep(sizeofT * count + header))
      ensures Valid() <==> variant.Intended? || SplitIsExact(old(policy.chunks), Keep(sizeofT * count + header))
      ensures p.None? ==> mem[..] == old(mem[..])
      ensures p.Some? ==> SameOutside(old(mem[..]), mem[..], p.value - header, p.value)
    {
      hide Valid, Tiled, HeadersHold, TakeFit, FirstFit, SplitIsExact, SameOutside, Wrap, Pow256, Decode, Fits, Holds;
      var req := Keep(sizeofT * count + header);
      ghost var h := State();
      ghost var m := mem[..];
      ValidParts();
      BytesSuffice(h, req);
      TakenStart(variant, header, h.free, req);
      p := FirstFitBytes(req);
      if p.Some? {
        BlockKeepsHeaders(h, req, m, mem[..]);
        bytesFree := Keep(bytesFree - req);
        live := live[p.value - header := req];
      }
      AllocateTilesIff(variant, bytes, header, h, req);
      ValidIff();
    }

    lemma ValidParts()
      requires Valid()
      ensures Sized() && 1 <= header && policy.Valid()
      ensures Tiled(State(), bytes, header) && HeadersHold(mem[..], live, header)
    {}

    lemma ValidIff()
      requires Sized() && policy.Valid() && HeadersHold(mem[..], live, header)
      ensures Valid() <==> Tiled(State(), bytes, header)
    {}

    static lemma TakenStart(v: Variant, header: nat, l: seq<Chunk>, req: int)
      ensures var i := FirstFit(l, req);
              match TakeFit(v, header, l, req)
              case None => i == |l|
              case Some((start, _)) => i < |l| && start == l[i].start
    {
      hide AddRest, Erase;
    }

    /** The byte count does not underflow. */
    lemma BytesSuffice(h: Heap, req: nat)
      requires Sized() && Tiled(h, bytes, header)
      ensures FirstFit(h.free, req) < |h.free| ==> Keep(h.bytesFree - req) == h.bytesFree - req
    {
      if FirstFit(h.free, req) < |h.free| {
        SumAtLeast(h.free, FirstFit(h.free, req));
        ExtentAtLeast(h.live, header);
        WrapKeeps(h.bytesFree - req, Pow256(header));
        hide Wrap, Pow256, Canonical, Covers, LiveAt;
      }
    }

    /** The new block's header overwrites no other live header. */
    lemma BlockKeepsHeaders(h: Heap, req: nat, m: seq<byte>, n: seq<byte>)
      requires Tiled(h, bytes, header) && 1 <= header <= req
      requires FirstFit(h.free, req) < |h.free|
      requires HeadersHold(m, h.live, header)
      requires var s := h.free[FirstFit(h.free, req)].start;
               && SameOutside(m, n, s, s + header)
               && 0 <= s && s + header <= |n| && Decode(n[s..s + header]) == req - header
      ensures HeadersHold(n, h.live[h.free[FirstFit(h.free, req)].start := req], header)
    {
      var i := FirstFit(h.free, req);
      var s := h.free[i].start;
      forall u | u in h.live
        ensures u + header <= s || s + header <= u
      {
        LiveAvoidsChunk(h, bytes, header, i, u);
      }
      hide Tiled, Decode, SameOutside;
      HeadersKept(m, n, h.live, bytes, header, s, s + header);
    }

    /** deallocate: the size comes from the header in front of the payload. */
    method Deallocate(p: int)
      requires Valid() && p - header in live
      modifies this, policy
      ensures State() == FreeListHeap.Deallocate(variant, header, old(State()), p)
      ensures Valid() <==> variant.Intended? || old(policy.chunks) != []
    {
      hide Valid, Tiled, HeadersHold, AddBlock, Sum, Extent, Wrap, Pow256, Decode, Fits, Holds;
      ghost var h := State();
      var start := p - header;
      ValidParts();
      FreedFits(start);
      HeadersFewer(mem[..], live, start, header);
      var size := ReadHeader(start);
      bytesFree := Keep(bytesFree + size + header);
      live := live - {start};
      GiveBack(start, size);
      DeallocateTilesIff(variant, bytes, header, h, p);
      ValidIff();
    }

    /** The header word as deallocate reads it. */
    method ReadHeader(start: int) returns (size: nat)
      requires Valid() && start in live
      ensures size == live[start] - header
    {
      hide Tiled;
      assert mem[..][start..start + header] == mem[start..start + header];
      size := Decode(mem[start..start + header]);
    }

    method GiveBack(start: int, size: nat)
      requires policy.Valid() && Sum(policy.chunks) + size + header < policy.bound
      requires Keep(size + header) == size + header
      modifies policy
      ensures policy.Valid() && policy.chunks == AddBlock(variant, header, old(policy.chunks), start, size)
    {
      hide AddExtent, Sum, Wrap, Pow256, Fits, Holds;
      policy.Add(start, if variant.AsWritten? then size else Keep(size + header), Extra(variant, header));
    }

    static lemma HeadersFewer(m: seq<byte>, live: map<int, int>, s: int, header: nat)
      requires HeadersHold(m, live, header)
      ensures HeadersHold(m, live - {s}, header)
    {}

    /** No sum that deallocate forms wraps. */
    lemma FreedFits(s: int)
      requires Valid() && s in live
      ensures live[s] >= header >= 1
      ensures Keep(live[s]) == live[s] && Keep(bytesFree + live[s]) == bytesFree + live[s]
      ensures Sum(policy.chunks) + live[s] < policy.bound
    {
      ExtentRemove(live, s);
      assert forall u :: u in live ==> live[u] >= header;
      SumNonNegative(policy.chunks);
      hide Canonical, Covers, LiveAt, HeadersHold, Fits, Holds, Extent, Sum, Pow256, Wrap;
      ExtentAtLeast(live - {s}, header);
      WrapKeeps(live[s], Pow256(header));
      WrapKeeps(bytesFree + live[s], Pow256(header));
    }

    method FreeAll()
      requires Valid()
      modifies this, policy
      ensures Valid() && State() == Initial(bytes)
    {
      policy.FreeAll(bytes);
      bytesFree := bytes;
      live := map[];
      InitialTiled(bytes, header);
    }

    /** A client stores a byte into the payload it was given. */
    method Store(p: int, offset: nat, b: byte)
      requires Valid() && p - header in live && offset < live[p - header] - header
      modifies mem
      ensures Valid() && State() == old(State())
      ensures p + offset < mem.Length && mem[..] == old(mem[..])[p + offset := b]
    {
      ghost var before := mem[..];
      mem[p + offset] := b;
      forall s | s in live
        ensures s + header <= p + offset || p + offset + 1 <= s
      {
        assert s < p - header ==> s + live[s] <= p - header;
        assert p - header < s ==> p - header + live[p - header] <= s;
      }
      HeadersKept(before, mem[..], live, bytes, header, p + offset, p + offset + 1);
    }
  }

  /** The block that allocate reserves is as large as the request exactly when size_type can hold the request. */
  lemma RequestHonouredIff(sizeofT: nat, count: nat, header: nat)
    ensures Wrap(sizeofT * count + header, Pow256(header)) >= sizeofT * count + header
            <==> sizeofT * count + header < Pow256(header)
  {
    WrapKeeps(sizeofT * count + header, Pow256(header));
    hide Wrap;
  }
}
