/** The three-list slab cache of Allocators/SlabHelper.h over the slabs of Allocators/SlabMem.h, as
    values: what each operation does to the free, partial and full lists, when that is undefined in
    the source, and what it keeps. */
module SlabCache {
  import opened SizeTypes
  import opened Indices

  /** A slab: the address of its memory and its stack of free block indices. Its block size and
      block count are the cache's. */
  datatype Slab = Slab(mem: int, availible: seq<nat>)

  datatype State = State(count: nat, blockSize: nat, capacity: int, size: int,
                         free: seq<Slab>, part: seq<Slab>, full: seq<Slab>)

  /** The answer of an operation, or a use of an iterator or element that does not exist. */
  datatype Outcome<T> = Done(state: State, value: T) | Undefined

  /** IndexSizeT: the type FindSizeT picks for MAX_SLAB_BLOCKS = 65535. */
  const INDEX_VALUES: nat := 0x1_0000

  // ----- the operations

  /** addToMap: count indices, the last one 0, as IndexSizeT keeps them. */
  function IndexStack(count: nat): (r: seq<nat>)
    ensures |r| == count
    ensures forall i :: 0 <= i < count ==> r[i] == (count - 1 - i) % INDEX_VALUES
  {
    seq(count, i requires 0 <= i < count => (count - 1 - i) % INDEX_VALUES)
  }

  function NewSlab(s: State, mem: int): State {
    s.(free := s.free + [Slab(mem, IndexStack(s.count))], capacity := s.capacity + s.count)
  }

  /** The swap with the last element and the pop_back of splice. */
  function SwapPop(l: seq<Slab>, i: nat): (r: seq<Slab>)
    requires i < |l|
    ensures |r| == |l| - 1
  {
    l[i := l[|l| - 1]][..|l| - 1]
  }

  /** findFreeSlab: the first partial slab, otherwise the first free one, after a new one if there is none. */
  function WithRoom(s: State, mem: int): State {
    if s.part == [] && s.free == [] then NewSlab(s, mem) else s
  }

  /** Taking a block from slab 0 of the partial list. */
  function AllocatePart(s: State): Outcome<int>
    requires s.part != []
  {
    var slab := s.part[0];
    if slab.availible == [] then Undefined
    else
      var idx := slab.availible[|slab.availible| - 1];
      var slab' := slab.(availible := slab.availible[..|slab.availible| - 1]);
      var s1 := s.(part := s.part[0 := slab'], size := s.size + 1);
      Done(if slab'.availible == [] then s1.(full := s.full + [slab'], part := SwapPop(s1.part, 0)) else s1,
           slab.mem + idx * s.blockSize)
  }

  /** Taking a block from slab 0 of the free list: it moves to the partial list first; when that was its
      only block, the second splice takes whatever is then at position 0 of the free list. */
  function AllocateFree(s: State): Outcome<int>
    requires s.free != []
  {
    var slab := s.free[0];
    if slab.availible == [] then Undefined
    else
      var idx := slab.availible[|slab.availible| - 1];
      var slab' := slab.(availible := slab.availible[..|slab.availible| - 1]);
      var s1 := s.(part := s.part + [slab'], free := SwapPop(s.free[0 := slab'], 0), size := s.size + 1);
      if slab'.availible != [] then Done(s1, slab.mem + idx * s.blockSize)
      else if s1.free == [] then Undefined
      else Done(s1.(full := s.full + [s1.free[0]], free := SwapPop(s1.free, 0)), slab.mem + idx * s.blockSize)
  }

  /** Cache::allocate; mem is the memory operator new gives a new slab, if one is needed. */
  function Allocate(s: State, mem: int): Outcome<int> {
    var s1 := WithRoom(s, mem);
    if s1.part != [] then AllocatePart(s1) else AllocateFree(s1)
  }

  predicate ContainsMem(s: State, slab: Slab, p: int) {
    slab.mem <= p < slab.mem + s.blockSize * s.count
  }

  /** searchStore: the last slab of the list that holds p, |l| if there is none. */
  function Search(s: State, l: seq<Slab>, p: int): (r: nat)
    ensures r <= |l|
    ensures r < |l| ==> ContainsMem(s, l[r], p)
    ensures forall k :: 0 <= k < |l| && (r == |l| || r < k) ==> !ContainsMem(s, l[k], p)
  {
    if l == [] then 0
    else if ContainsMem(s, l[|l| - 1], p) then |l| - 1
    else
      var r := Search(s, l[..|l| - 1], p);
      if r == |l| - 1 then |l| else r
  }

  /** Slab::deallocate: the index by division, pushed as IndexSizeT keeps it. */
  function Return(s: State, slab: Slab, p: int): Slab
    requires s.blockSize > 0 && ContainsMem(s, slab, p)
  {
    slab.(availible := slab.availible + [((p - slab.mem) / s.blockSize) % INDEX_VALUES])
  }

  /** A block comes back to a full slab: the slab moves to the partial list; if it is then empty, the
      last splice runs with the full list, where the slab no longer is. */
  function DeallocateFull(s: State, i: nat, p: int): Outcome<()>
    requires s.blockSize > 0 && i < |s.full| && ContainsMem(s, s.full[i], p)
  {
    var slab := Return(s, s.full[i], p);
    var full := SwapPop(s.full, i);
    var s1 := s.(full := full, size := s.size - 1);
    if |slab.availible| != s.count then Done(s1.(part := s.part + [slab]), ())
    else if full == [] then Undefined
    else Done(s1.(free := s.free + [slab], part := s.part + [full[|full| - 1]], full := full[..|full| - 1]), ())
  }

  function DeallocatePart(s: State, i: nat, p: int): Outcome<()>
    requires s.blockSize > 0 && i < |s.part| && ContainsMem(s, s.part[i], p)
  {
    var slab := Return(s, s.part[i], p);
    var s1 := s.(part := s.part[i := slab], size := s.size - 1);
    if |slab.availible| != s.count then Done(s1, ())
    else Done(s1.(free := s.free + [slab], part := SwapPop(s1.part, i)), ())
  }

  /** Cache::deallocate. */
  function Deallocate(s: State, p: int): Outcome<()>
    requires s.blockSize > 0
  {
    var i := Search(s, s.full, p);
    if i < |s.full| then DeallocateFull(s, i, p)
    else
      var j := Search(s, s.part, p);
      if j < |s.part| then DeallocatePart(s, j, p) else Undefined
  }

  function FreeAll(s: State): State {
    State(s.count, s.blockSize, 0, 0, [], [], [])
  }

  /** freeEmpty: the capacity goes down by blockSize for each slab given up. */
  function FreeEmpty(s: State): State {
    s.(free := [], capacity := s.capacity - |s.free| * s.blockSize)
  }

  /** The constructor: an empty cache and one slab. */
  function Initial(blockSize: nat, count: nat, mem: int): State {
    NewSlab(State(count, blockSize, 0, 0, [], [], []), mem)
  }

  // ----- what a good state is

  /** The free-index stack is duplicate-free and within the slab. */
  predicate SlabOk(count: nat, slab: Slab) {
    Distinct(slab.availible) && forall i :: 0 <= i < |slab.availible| ==> slab.availible[i] < count
  }

  ghost function Slabs(s: State): multiset<Slab> {
    multiset(s.free) + multiset(s.part) + multiset(s.full)
  }

  predicate Apart(bytes: nat, a: Slab, b: Slab) {
    a.mem + bytes <= b.mem || b.mem + bytes <= a.mem
  }

  /** Every slab is in one list once, and their memories, of the given size, do not overlap. */
  ghost predicate Disjoint(bytes: nat, m: multiset<Slab>) {
    && (forall a :: a in m ==> m[a] == 1)
    && (forall a, b :: a in m && b in m && a != b ==> Apart(bytes, a, b))
  }

  ghost predicate AllOk(count: nat, m: multiset<Slab>) {
    forall a :: a in m ==> SlabOk(count, a)
  }

  /** Blocks handed out by the slabs of a list. */
  function Used(count: nat, l: seq<Slab>): int {
    if l == [] then 0 else count - |l[0].availible| + Used(count, l[1..])
  }

  /** Free slabs wholly unused, partial slabs strictly between, full slabs exhausted. */
  ghost predicate ListsOk(s: State) {
    && (forall i :: 0 <= i < |s.free| ==> |s.free[i].availible| == s.count)
    && (forall i :: 0 <= i < |s.part| ==> 0 < |s.part[i].availible| < s.count)
    && (forall i :: 0 <= i < |s.full| ==> s.full[i].availible == [])
  }

  ghost predicate Inv(s: State) {
    && 1 <= s.count <= INDEX_VALUES && s.blockSize > 0
    && ListsOk(s)
    && AllOk(s.count, Slabs(s)) && Disjoint(s.blockSize * s.count, Slabs(s))
    && s.capacity == s.count * (|s.free| + |s.part| + |s.full|)
    && s.size == Used(s.count, s.free) + Used(s.count, s.part) + Used(s.count, s.full)
  }

  /** p is the start of block idx of a slab, and that block is handed out. */
  ghost predicate LiveIn(count: nat, blockSize: nat, m: multiset<Slab>, p: int, slab: Slab, idx: nat) {
    slab in m && idx < count && idx !in slab.availible && p == slab.mem + idx * blockSize
  }

  ghost predicate LiveAmong(count: nat, blockSize: nat, m: multiset<Slab>, p: int) {
    exists slab, idx: nat :: LiveIn(count, blockSize, m, p, slab, idx)
  }

  ghost predicate Live(s: State, p: int) {
    LiveAmong(s.count, s.blockSize, Slabs(s), p)
  }

  /** operator new's answer: memory that overlaps no slab. */
  ghost predicate Fresh(s: State, mem: int) {
    forall a :: a in Slabs(s) ==> Apart(s.blockSize * s.count, a, Slab(mem, []))
  }

  // ----- the index stack

  /** The stack that addToMap builds is duplicate-free and below count exactly when count fits IndexSizeT. */
  lemma IndexStackIff(count: nat)
    ensures SlabOk(count, Slab(0, IndexStack(count))) <==> count <= INDEX_VALUES
    ensures count <= INDEX_VALUES ==> forall i :: 0 <= i < count ==> IndexStack(count)[i] == count - 1 - i
  {
    var a := IndexStack(count);
    if count > INDEX_VALUES {
      assert a[count - 1] == 0 && a[count - 1 - INDEX_VALUES] == INDEX_VALUES % INDEX_VALUES;
    }
  }

  // ----- lists, multisets, sums

  lemma SwapPopElements(l: seq<Slab>, i: nat)
    requires i < |l|
    ensures multiset(SwapPop(l, i)) == multiset(l) - multiset{l[i]}
  {
    var front, last := l[..|l| - 1], l[|l| - 1];
    assert l == front + [last];
    if i < |l| - 1 {
      assert SwapPop(l, i) == front[i := last];
      assert multiset(front[i := last]) == multiset(front) - multiset{l[i]} + multiset{last};
    } else {
      assert SwapPop(l, i) == front;
    }
  }

  /** The element that is moved out may have been changed first. */
  lemma SwapPopUpdated(l: seq<Slab>, i: nat, x: Slab)
    requires i < |l|
    ensures SwapPop(l[i := x], i) == SwapPop(l, i)
  {}

  lemma {:induction false} UsedAppend(count: nat, a: seq<Slab>, b: seq<Slab>)
    ensures Used(count, a + b) == Used(count, a) + Used(count, b)
  {
    if a == [] {
      assert a + b == b;
    } else {
      UsedAppend(count, a[1..], b);
      assert (a + b)[1..] == a[1..] + b;
    }
  }

  lemma {:induction false} UsedUpdate(count: nat, l: seq<Slab>, i: nat, x: Slab)
    requires i < |l|
    ensures Used(count, l[i := x]) == Used(count, l) + |l[i].availible| - |x.availible|
  {
    if i == 0 {
      assert l[i := x][1..] == l[1..];
    } else {
      UsedUpdate(count, l[1..], i - 1, x);
      assert l[i := x][1..] == l[1..][i - 1 := x];
    }
  }

  lemma UsedSwapPop(count: nat, l: seq<Slab>, i: nat)
    requires i < |l|
    ensures Used(count, SwapPop(l, i)) == Used(count, l) - (count - |l[i].availible|)
  {
    var last := l[|l| - 1];
    var m := l[i := last];
    UsedUpdate(count, l, i, last);
    UsedAppend(count, m[..|l| - 1], [last]);
    assert m == m[..|l| - 1] + [last];
  }

  lemma {:induction false} UsedBounds(count: nat, l: seq<Slab>)
    requires forall i :: 0 <= i < |l| ==> |l[i].availible| <= count
    ensures 0 <= Used(count, l) <= count * |l|
    ensures (forall i :: 0 <= i < |l| ==> |l[i].availible| == count) ==> Used(count, l) == 0
    ensures (forall i :: 0 <= i < |l| ==> l[i].availible == []) ==> Used(count, l) == count * |l|
    ensures (exists i :: 0 <= i < |l| && l[i].availible != []) ==> Used(count, l) < count * |l|
  {
    if l != [] {
      UsedBounds(count, l[1..]);
      assert count * |l| == count + count * |l[1..]|;
      if i :| 0 <= i < |l| && l[i].availible != [] {
        assert i > 0 ==> l[1..][i - 1].availible != [];
      }
    }
  }

  lemma UsedSnoc(count: nat, l: seq<Slab>, x: Slab)
    ensures Used(count, l + [x]) == Used(count, l) + count - |x.availible|
  {
    UsedAppend(count, l, [x]);
  }
}
