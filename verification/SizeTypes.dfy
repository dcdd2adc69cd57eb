/** Integer widths and page rounding (Allocators/AllocHelpers.h), and the byte
    representation of the header word that FreeList.h writes into its memory. */
module SizeTypes {

  type byte = x: int | 0 <= x < 256

  function Pow256(n: nat): (r: nat)
    ensures r >= 1
  {
    if n == 0 then 1 else 256 * Pow256(n - 1)
  }

  /** FindSizeT: the bytes of the smallest unsigned type that holds the bound, with the top takenBits reserved. */
  function SizeTBytes(bound: nat, takenBits: nat): nat
    requires takenBits < 8
  {
    if bound <= Shr(0xff, takenBits) then 1
    else if bound <= Shr(0xffff, takenBits) then 2
    else if bound <= Shr(0xffff_ffff, takenBits) then 4
    else 8
  }

  function Shr(x: nat, bits: nat): nat {
    if bits == 0 then x else Shr(x / 2, bits - 1)
  }

  predicate IsWidth(n: nat) {
    n == 1 || n == 2 || n == 4 || n == 8
  }

  /** The chosen type holds every value up to the bound even after the reserved bits are taken
      off, and no smaller type does. */
  lemma SizeTIsSmallest(bound: nat, takenBits: nat)
    requires takenBits < 8 && bound <= Shr(Pow256(8) - 1, takenBits)
    ensures IsWidth(SizeTBytes(bound, takenBits))
    ensures bound <= Shr(Pow256(SizeTBytes(bound, takenBits)) - 1, takenBits)
    ensures forall n: nat :: IsWidth(n) && n < SizeTBytes(bound, takenBits) ==> bound > Shr(Pow256(n) - 1, takenBits)
    ensures bound < Pow256(SizeTBytes(bound, takenBits))
  {
    Powers();
    ShrLess(Pow256(SizeTBytes(bound, takenBits)) - 1, takenBits);
  }

  lemma Powers()
    ensures Pow256(1) == 0x100 && Pow256(2) == 0x1_0000
    ensures Pow256(4) == 0x1_0000_0000 && Pow256(8) == 0x1_0000_0000_0000_0000
  {
    assert Pow256(3) == 256 * Pow256(2);
    assert Pow256(5) == 256 * Pow256(4);
    assert Pow256(6) == 256 * Pow256(5);
    assert Pow256(7) == 256 * Pow256(6);
  }

  lemma {:induction false} ShrLess(x: nat, bits: nat)
    ensures Shr(x, bits) <= x
  {
    if bits > 0 {
      ShrLess(x / 2, bits - 1);
    }
  }

  /** What an unsigned type with w values keeps of a result. */
  function Wrap(x: int, w: nat): (r: nat)
    requires w > 0
    ensures r < w
  {
    x % w
  }

  /** A result is kept exactly when it is in range; one that is too large is kept as something smaller. */
  lemma WrapKeeps(x: int, w: nat)
    requires w > 0
    ensures Wrap(x, w) == x <==> 0 <= x < w
    ensures x >= w ==> Wrap(x, w) < x
  {}

  // ----- the header word

  /** The n bytes of a word, least significant first. */
  function Encode(v: nat, n: nat): (r: seq<byte>)
    ensures |r| == n
  {
    if n == 0 then [] else [v % 256] + Encode(v / 256, n - 1)
  }

  function Decode(bs: seq<byte>): nat {
    if bs == [] then 0 else bs[0] + 256 * Decode(bs[1..])
  }

  /** A word that fits its width is read back as it was written. */
  lemma {:induction false} DecodeEncode(v: nat, n: nat)
    requires v < Pow256(n)
    ensures Decode(Encode(v, n)) == v
  {
    if n > 0 {
      DecodeEncode(v / 256, n - 1);
      assert Encode(v, n)[1..] == Encode(v / 256, n - 1);
    }
  }

  // ----- pages

  /** The whole pages nearestPageSz counts. */
  function Pages(bytes: nat, page: nat): nat
    requires page > 0
  {
    var cnt := bytes / page;
    if cnt * page < bytes then cnt + 1 else cnt
  }

  /** nearestPageSz: the bytes rounded up to whole pages. */
  function NearestPage(bytes: nat, page: nat): nat
    requires page > 0
  {
    Pages(bytes, page) * page
  }

  /** nearestPageSz is the least multiple of the page size that is not below the request. */
  lemma NearestPageIsLeast(bytes: nat, page: nat)
    requires page > 0
    ensures NearestPage(bytes, page) >= bytes && NearestPage(bytes, page) % page == 0
    ensures forall k: nat :: k * page >= bytes ==> k * page >= NearestPage(bytes, page)
  {
    IndexByDivision(Pages(bytes, page), page, 0);
    var cnt := bytes / page;
    assert bytes == cnt * page + bytes % page;
    assert (cnt + 1) * page == cnt * page + page;
    forall k: nat | k * page >= bytes
      ensures k * page >= Pages(bytes, page) * page
    {
      if k < Pages(bytes, page) {
        MulMonotone(k, Pages(bytes, page) - 1, page);
        assert (Pages(bytes, page) - 1) * page == Pages(bytes, page) * page - page;
      } else {
        MulMonotone(Pages(bytes, page), k, page);
      }
    }
  }

  lemma MulMonotone(a: int, b: int, d: nat)
    requires a <= b
    ensures a * d <= b * d
  {}

  /** An offset into block k, by division: deallocate recovers the index it was given. */
  lemma IndexByDivision(k: nat, size: nat, offset: nat)
    requires offset < size
    ensures (k * size + offset) / size == k
  {
    var q := (k * size + offset) / size;
    var r := (k * size + offset) % size;
    assert q * size + r == k * size + offset;
    assert (q + 1) * size == q * size + size && (k + 1) * size == k * size + size;
    if q < k {
      MulMonotone(q + 1, k, size);
    } else if q > k {
      MulMonotone(k + 1, q, size);
    }
  }
}
