/** The per-thread cache of Allocators/ImplSlabMulti.h as values: slabs and the memory they manage in two
    parallel vectors, the active position in each, and two counters. One call is one step here; calls
    that overlap are in MultiCacheSteps, and how pushes interleave with a merge inside one slab in ForeignSlab. */
module MultiCache {
  import opened Common
  import opened SizeTypes
  import opened Indices
  import SC = SlabCache

  /** A slab: the indices its owner may take and those freed by other threads. */
  datatype Slab = Slab(availible: seq<nat>, foreigns: seq<nat>)

  datatype State = State(count: nat, blockSize: nat, capacity: int, size: int,
                         slabs: seq<Slab>, ptrs: seq<int>, actBlock: nat, actMem: nat)

  /** The answer of an operation, or a pop of an empty vector. */
  datatype Outcome<T> = Done(state: State, value: T) | Undefined

  // ----- sequence surgery

  /** splice: element it moves to position pos, and pos .. it-1 move up by one. */
  function Rotate<T>(l: seq<T>, pos: nat, it: nat): (r: seq<T>)
    requires pos <= it < |l|
    ensures |r| == |l|
  {
    l[..pos] + [l[it]] + l[pos..it] + l[it + 1..]
  }

  function Swap<T>(l: seq<T>, i: nat, j: nat): seq<T>
    requires i < |l| && j < |l|
  {
    l[i := l[j]][j := l[i]]
  }

  /** The swap with the last element and the pop_back of memToDispatch. */
  function SwapPop<T>(l: seq<T>, i: nat): (r: seq<T>)
    requires i < |l|
    ensures |r| == |l| - 1
  {
    Swap(l, i, |l| - 1)[..|l| - 1]
  }

  // ----- the operations

  /** What every operation leaves of the layout: the vectors are parallel, not empty, and both iterators
      name the same place. */
  predicate Shape(s: State) {
    && 1 <= s.count <= SC.INDEX_VALUES && s.blockSize > 0
    && |s.slabs| == |s.ptrs|
    && s.actBlock == s.actMem < |s.slabs|
    && s.capacity == s.count * |s.slabs|
  }

  function Free(slab: Slab): nat {
    |slab.availible| + |slab.foreigns|
  }

  predicate Full(slab: Slab) {
    slab.availible == [] && slab.foreigns == []
  }

  /** The constructor: one slab, which is the active one. */
  function Initial(count: nat, blockSize: nat, mem: int): State {
    AddCache(State(count, blockSize, 0, 0, [], [], 0, 0), mem)
  }

  function AddCache(s: State, mem: int): State {
    s.(slabs := s.slabs + [Slab(SC.IndexStack(s.count), [])], ptrs := s.ptrs + [mem], capacity := s.capacity + s.count)
  }

  function SpliceBoth(s: State, it: nat): (r: State)
    requires Shape(s) && s.actBlock <= it < |s.slabs|
    ensures it > s.actBlock ==> Shape(r)
  {
    s.(slabs := Rotate(s.slabs, s.actBlock, it), ptrs := Rotate(s.ptrs, s.actMem, it),
       actBlock := s.actBlock + 1, actMem := s.actMem + 1)
  }

  function MergeForeigns(slab: Slab): Slab {
    Slab(slab.availible + slab.foreigns, [])
  }

  /** allocate, once the active slab's own indices have run out: take over its foreign ones, step to the
      slab in front, or put a new one in its place. mem is what the dispatcher hands out. */
  function Refill(s: State, mem: int): State
    requires Shape(s)
  {
    var slab := s.slabs[s.actBlock];
    if !Full(slab) then s.(slabs := s.slabs[s.actBlock := MergeForeigns(slab)])
    else if s.actBlock > 0 then s.(actBlock := s.actBlock - 1, actMem := s.actMem - 1)
    else
      var s1 := AddCache(s, mem);
      s1.(slabs := Swap(s1.slabs, s.actBlock, |s1.slabs| - 1), ptrs := Swap(s1.ptrs, s.actMem, |s1.ptrs| - 1))
  }

  /** Slab::allocate on the active slab. */
  function Pop(s: State): State
    requires Shape(s) && s.slabs[s.actBlock].availible != []
  {
    var slab := s.slabs[s.actBlock];
    s.(slabs := s.slabs[s.actBlock := slab.(availible := slab.availible[..|slab.availible| - 1])], size := s.size + 1)
  }

  /** Cache::allocate. */
  function Allocate(s: State, mem: int): Outcome<int>
    requires Shape(s)
  {
    var slab := s.slabs[s.actBlock];
    if slab.availible == [] then Undefined
    else
      var idx := slab.availible[|slab.availible| - 1];
      var s1 := Pop(s);
      Done(if s1.slabs[s.actBlock].availible == [] then Refill(s1, mem) else s1, s.ptrs[s.actMem] + idx * s.blockSize)
  }

  predicate ContainsMem(s: State, mem: int, p: int) {
    mem <= p < mem + s.blockSize * s.count
  }

  /** The i-th place of the circle that starts at the active one. */
  function Circle(act: nat, n: nat, i: nat): (k: nat)
    requires act < n && i < n
    ensures k < n
  {
    if act + i < n then act + i else act + i - n
  }

  /** The order in which deallocate looks at the slabs: the active one and those after it, then those before. */
  function CircleOrder(act: nat, n: nat): (r: seq<nat>)
    requires act < n
    ensures |r| == n
  {
    seq(n, i requires 0 <= i < n => Circle(act, n, i))
  }

  /** The search of deallocate, from the i-th place of the circle on. */
  function Find(s: State, p: int, i: nat): (r: Option<nat>)
    requires Shape(s) && i <= |s.ptrs|
    ensures r.Some? ==> r.value < |s.ptrs| && ContainsMem(s, s.ptrs[r.value], p)
    decreases |s.ptrs| - i
  {
    if i == |s.ptrs| then None
    else
      var k := Circle(s.actMem, |s.ptrs|, i);
      if ContainsMem(s, s.ptrs[k], p) then Some(k) else Find(s, p, i + 1)
  }

  /** Slab::deallocate: the index by division, to the list of the calling thread's kind. */
  function Push(s: State, it: nat, p: int, own: bool): (r: State)
    requires Shape(s) && it < |s.slabs| && ContainsMem(s, s.ptrs[it], p)
    ensures Shape(r) && r.ptrs == s.ptrs && |r.slabs| == |s.slabs|
    ensures r.count == s.count && r.actBlock == s.actBlock && r.size == s.size && r.capacity == s.capacity
    ensures forall k :: 0 <= k < |s.slabs| && k != it ==> r.slabs[k] == s.slabs[k]
    ensures Free(r.slabs[it]) == Free(s.slabs[it]) + 1
  {
    var idx := ((p - s.ptrs[it]) / s.blockSize) % SC.INDEX_VALUES;
    var slab := s.slabs[it];
    var slab' := if own then slab.(availible := slab.availible + [idx]) else slab.(foreigns := slab.foreigns + [idx]);
    s.(slabs := s.slabs[it := slab'])
  }

  /** Blocks of slab it in use. */
  function InUse(s: State, it: nat): int
    requires it < |s.slabs|
  {
    s.count - Free(s.slabs[it])
  }

  /** What deallocate decides to do with the slab at place it. */
  datatype Plan = Stay | Move | Release

  /** The guards of deallocate, with `used` the size that emptyAndSize gave: a slab behind the active one with
      at most a quarter of its blocks in use moves in front; an empty one is released if mySize, which has not
      been decremented yet, exceeds the capacity of the others. */
  function Decide(s: State, it: nat, used: int): Plan {
    if used <= s.count / 4 && it > s.actBlock then Move
    else if used == 0 && |s.slabs| > 1 && s.size > s.capacity - s.count then Release
    else Stay
  }

  predicate Splices(s: State, it: nat)
    requires it < |s.slabs|
  {
    Decide(s, it, InUse(s, it)).Move?
  }

  predicate Releases(s: State, it: nat)
    requires it < |s.slabs|
  {
    Decide(s, it, InUse(s, it)).Release?
  }

  function MemToDispatch(s: State, it: nat): (r: State)
    requires Shape(s) && it < |s.slabs| && |s.slabs| > 1
    ensures Shape(r)
  {
    assert s.count * (|s.slabs| - 1) == s.count * |s.slabs| - s.count;
    var s1 := s.(capacity := s.capacity - s.count);
    if it > s.actBlock then s1.(slabs := SwapPop(s.slabs, it), ptrs := SwapPop(s.ptrs, it))
    else if it < s.actBlock then
      s1.(slabs := Removed(s.slabs, it), ptrs := Removed(s.ptrs, it), actBlock := s.actBlock - 1, actMem := s.actBlock - 1)
    else
      s1.(slabs := SwapPop(s.slabs, it), ptrs := SwapPop(s.ptrs, it),
          actBlock := |s.slabs| - 2, actMem := |s.ptrs| - 2)
  }

  /** What deallocate does with the slab that took the block back. */
  function Settle(s: State, it: nat): (r: State)
    requires Shape(s) && it < |s.slabs|
    ensures Shape(r)
  {
    if Splices(s, it) then SpliceBoth(s, it)
    else if Releases(s, it) then MemToDispatch(s, it)
    else s
  }

  /** Cache::deallocate; false if no slab here holds p. */
  function Deallocate(s: State, p: int, own: bool): (r: Outcome<bool>)
    requires Shape(s)
    ensures r.Done? && Shape(r.state)
  {
    match Find(s, p, 0)
    case None => Done(s, false)
    case Some(it) =>
      var s1 := Settle(Push(s, it, p, own), it);
      Done(s1.(size := s1.size - 1), true)
  }

  // ----- what the states mean

  /** A slab with its memory, all its free indices in one list, as in the three-list cache. */
  function ViewOf(slab: Slab, mem: int): SC.Slab {
    SC.Slab(mem, slab.foreigns + slab.availible)
  }

  function Views(slabs: seq<Slab>, ptrs: seq<int>): (r: seq<SC.Slab>)
    requires |slabs| == |ptrs|
    ensures |r| == |slabs|
    ensures forall i :: 0 <= i < |r| ==> r[i] == ViewOf(slabs[i], ptrs[i])
  {
    seq(|slabs|, i requires 0 <= i < |slabs| => ViewOf(slabs[i], ptrs[i]))
  }

  ghost function Pairs(slabs: seq<Slab>, ptrs: seq<int>): multiset<SC.Slab>
    requires |slabs| == |ptrs|
  {
    multiset(Views(slabs, ptrs))
  }

  ghost function View(s: State): multiset<SC.Slab>
    requires |s.slabs| == |s.ptrs|
  {
    Pairs(s.slabs, s.ptrs)
  }

  function FreeTotal(l: seq<Slab>): nat {
    if l == [] then 0 else Free(l[0]) + FreeTotal(l[1..])
  }

  /** In every slab the two lists together repeat no index and stay below count; the slabs' memories do
      not overlap; capacity and size count the blocks there are and the blocks in use. */
  ghost predicate Inv(s: State) {
    && Shape(s)
    && SC.AllOk(s.count, View(s)) && SC.Disjoint(s.blockSize * s.count, View(s))
    && s.size == s.count * |s.slabs| - FreeTotal(s.slabs)
  }

  /** A block of one of the slabs, in neither of its lists. */
  ghost predicate Live(s: State, p: int)
    requires |s.slabs| == |s.ptrs|
  {
    SC.LiveAmong(s.count, s.blockSize, View(s), p)
  }

  /** The dispatcher's block overlaps no slab. */
  ghost predicate Fresh(s: State, mem: int)
    requires |s.slabs| == |s.ptrs|
  {
    forall a :: a in View(s) ==> SC.Apart(s.blockSize * s.count, a, SC.Slab(mem, []))
  }

  predicate HasRoom(s: State)
    requires Shape(s)
  {
    s.slabs[s.actBlock].availible != []
  }

  /** Whether allocate will ask the dispatcher for a block. */
  predicate NeedsBlock(s: State)
    requires Shape(s)
  {
    |s.slabs[s.actBlock].availible| == 1 && s.slabs[s.actBlock].foreigns == [] && s.actBlock == 0
  }

  /** The invariant of a cache that only its own thread has used: a free index at or before the active place. */
  ghost predicate Active(s: State) {
    && Inv(s)
    && (forall k :: 0 <= k <= s.actBlock ==> s.slabs[k].availible != [])
    && (forall k :: 0 <= k < |s.slabs| ==> s.slabs[k].foreigns == [])
  }
}
