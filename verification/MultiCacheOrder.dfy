/** What a deallocate of the per-thread cache does to the order of the slabs, and which block the next allocate
    takes: told by the places of the memories in the vector and by the blocks in use, not by the guards. */
module MultiCacheOrder {
  import opened Common
  import opened Indices
  import opened MultiCache
  import opened MultiCacheProofs
  import opened MultiCacheRuns
  import SC = SlabCache
  import SP = SlabCacheProofs

  lemma OneBlock(count: nat, blockSize: nat)
    requires count >= 1 && blockSize > 0
    ensures blockSize * count >= 1
  {
    SP.BlockInSlab(count, blockSize, 0);
  }

  lemma MemoriesDistinct(s: State)
    requires Inv(s)
    ensures Distinct(s.ptrs)
  {
    hide SC.AllOk, SC.Disjoint, FreeTotal;
    OneBlock(s.count, s.blockSize);
    forall i: nat, j: nat | i < j < |s.ptrs|
      ensures s.ptrs[i] != s.ptrs[j]
    {
      SlabsApart(s, i, j);
    }
  }

  lemma OwnPlace(s: State, p: int, it: nat)
    requires Inv(s) && Live(s, p) && it < |s.slabs| && ContainsMem(s, s.ptrs[it], p)
    ensures Find(s, p, 0) == Some(it)
  {
    hide FreeTotal, Find, SC.LiveIn;
    var c, idx: nat :| SC.LiveIn(s.count, s.blockSize, View(s), p, c, idx);
    FindsOwner(s, p, c, idx);
  }

  lemma TakenOut<T>(l: seq<T>, it: nat)
    requires it < |l| && Distinct(l)
    ensures l[it] !in SwapPop(l, it) && l[it] !in Removed(l, it)
  {
    hide SwapPop, Removed;
    CountDistinct(l, l[it]);
    RemoveElements(l, it);
    SwapPopElements(l, it);
    assert multiset(SwapPop(l, it))[l[it]] == 0 && multiset(Removed(l, it))[l[it]] == 0;
  }

  lemma ReleaseOrder(s: State, it: nat)
    requires Shape(s) && it < |s.slabs| && |s.slabs| > 1 && Distinct(s.ptrs)
    ensures var s' := MemToDispatch(s, it);
            && s.ptrs[it] !in s'.ptrs && s'.actMem < |s'.ptrs|
            && if it == s.actMem then s'.actMem == |s'.ptrs| - 1 else s'.ptrs[s'.actMem] == s.ptrs[s.actMem]
  {
    TakenOut(s.ptrs, it);
    hide Distinct, Shape;
  }

  /** Which slab stands where after one is given up: in front of the active place the order is kept, elsewhere the
      last slab takes its place. */
  lemma ReleasePlaces(s: State, it: nat, k: nat)
    requires Shape(s) && it < |s.slabs| && k + 1 < |s.slabs|
    ensures var s', n := MemToDispatch(s, it), |s.slabs|;
            var j := if it < s.actBlock then (if k < it then k else k + 1) else if k == it then n - 1 else k;
            && |s'.slabs| == |s'.ptrs| == n - 1
            && s'.slabs[k] == s.slabs[j] && s'.ptrs[k] == s.ptrs[j]
  {}

  /** What deallocate does after the push, told by the places of the memories. */
  lemma SettleOrder(s: State, it: nat)
    requires Shape(s) && it < |s.slabs| && Distinct(s.ptrs)
    ensures var s' := Settle(s, it);
            && (s.ptrs[it] in s'.ptrs <==> !Releases(s, it)) && s'.actMem < |s'.ptrs|
            && (if s.ptrs[s.actMem] in s'.ptrs then s'.ptrs[s'.actMem] == s.ptrs[s.actMem] else s'.actMem == |s'.ptrs| - 1)
            && forall k: nat :: k < |s'.ptrs| && s'.ptrs[k] == s.ptrs[it]
                                ==> (k < s'.actMem <==> it < s.actMem || Splices(s, it))
  {
    hide MemToDispatch, SpliceBoth, Rotate;
    if Splices(s, it) {
      SpliceBothRotates(s, it);
      RotatedDistinct(s, it);
      assert SpliceBoth(s, it).ptrs[s.actMem] == s.ptrs[it];
    } else if Releases(s, it) {
      ReleaseOrder(s, it);
    }
  }

  lemma RotatedDistinct(s: State, it: nat)
    requires Shape(s) && s.actBlock < it < |s.slabs| && Distinct(s.ptrs)
    ensures Distinct(SpliceBoth(s, it).ptrs) && SpliceBoth(s, it).actMem == s.actMem + 1
  {
    RotateElements(s.ptrs, s.actMem, it);
    DistinctIff(s.ptrs);
    DistinctIff(SpliceBoth(s, it).ptrs);
  }

  /** The memory of the slab that takes the block back leaves the cache if and only if the slab does not lie behind the
      active place, the block was its last one in use, and there are other slabs and they are all full. */
  lemma GivenUpIff(s: State, p: int, own: bool, it: nat)
    requires Inv(s) && Live(s, p) && it < |s.slabs| && ContainsMem(s, s.ptrs[it], p)
    ensures Deallocate(s, p, own).Done?
    ensures s.ptrs[it] !in Deallocate(s, p, own).state.ptrs
            <==> it <= s.actBlock && |s.slabs[it].availible| + |s.slabs[it].foreigns| + 1 == s.count
                 && |s.slabs| > 1 && forall k :: 0 <= k < |s.slabs| && k != it ==> Full(s.slabs[k])
  {
    OwnPlace(s, p, it);
    MemoriesDistinct(s);
    hide FreeTotal, Find, SC.AllOk, SC.LiveAmong, SC.Disjoint, Settle;
    var s1 := Push(s, it, p, own);
    SettleOrder(s1, it);
    assert s1.slabs == s.slabs[it := s1.slabs[it]];
    if InUse(s1, it) == 0 {
      GuardCounts(s, s1, it);
    }
  }

  /** Unless it leaves the cache, that memory stands before the active place afterwards if and only if it did so
      before, or it stood behind and at most a quarter of the slab's blocks are still in use. */
  lemma MovesInFrontIff(s: State, p: int, own: bool, it: nat, it': nat)
    requires Inv(s) && Live(s, p) && it < |s.slabs| && ContainsMem(s, s.ptrs[it], p)
    requires Deallocate(s, p, own).Done?
    requires it' < |Deallocate(s, p, own).state.ptrs| && Deallocate(s, p, own).state.ptrs[it'] == s.ptrs[it]
    ensures var s', used := Deallocate(s, p, own).state, s.count - |s.slabs[it].availible| - |s.slabs[it].foreigns| - 1;
            it' < s'.actMem <==> it < s.actMem || (s.actMem < it && 4 * used <= s.count)
  {
    OwnPlace(s, p, it);
    MemoriesDistinct(s);
    hide FreeTotal, Find, SC.AllOk, SC.LiveAmong, SC.Disjoint, Settle;
    SettleOrder(Push(s, it, p, own), it);
  }

  /** A deallocate leaves the same slab active, unless it gives that one up; then the last place becomes active. */
  lemma ActiveStays(s: State, p: int, own: bool)
    requires Inv(s) && Live(s, p)
    ensures Deallocate(s, p, own).Done?
    ensures var s' := Deallocate(s, p, own).state;
            && s'.actMem < |s'.ptrs|
            && if s.ptrs[s.actMem] in s'.ptrs then s'.ptrs[s'.actMem] == s.ptrs[s.actMem] else s'.actMem == |s'.ptrs| - 1
  {
    var it := FoundIn(s, p);
    MemoriesDistinct(s);
    hide FreeTotal, Find, SC.AllOk, SC.LiveAmong, SC.Disjoint, Settle;
    SettleOrder(Push(s, it, p, own), it);
  }

  /** When allocate takes the active slab's last index and no other thread has freed one there, the place in front
      becomes active; if there is none, a new slab takes the active place and the used-up one goes to the end. */
  lemma AllocateOrder(s: State, mem: int)
    requires Shape(s) && HasRoom(s)
    ensures Allocate(s, mem).Done?
    ensures var s', slab := Allocate(s, mem).state, s.slabs[s.actBlock];
            if |slab.availible| > 1 || slab.foreigns != [] then
              s'.ptrs == s.ptrs && s'.actMem == s.actMem && s'.capacity == s.capacity
            else if s.actMem > 0 then
              s'.ptrs == s.ptrs && s'.actMem == s.actMem - 1 && s'.capacity == s.capacity
            else
              s'.ptrs == [mem] + s.ptrs[1..] + [s.ptrs[0]] && s'.actMem == 0 && s'.capacity == s.capacity + s.count
  {}

  lemma PushedIndex(s: State, p: int, it: nat) returns (idx: nat)
    requires Inv(s) && Live(s, p) && it < |s.slabs| && ContainsMem(s, s.ptrs[it], p)
    ensures p == s.ptrs[it] + idx * s.blockSize
    ensures Push(s, it, p, true).slabs[it].availible == s.slabs[it].availible + [idx]
    ensures Push(s, it, p, true).slabs[it].foreigns == s.slabs[it].foreigns
  {
    hide FreeTotal, Find, SC.AllOk, SC.Disjoint;
    var c: SC.Slab;
    c, idx :| SC.LiveIn(s.count, s.blockSize, View(s), p, c, idx);
    FindsOwner(s, p, c, idx);
  }

  /** The block its owner gives back to the active slab is the one its next allocate takes; if the slab still had
      an index of its own, the two calls together leave the cache as it was. */
  lemma OwnerReuses(s: State, p: int, mem: int)
    requires Inv(s) && Live(s, p) && ContainsMem(s, s.ptrs[s.actMem], p)
    requires Deallocate(s, p, true).Done? && s.ptrs[s.actMem] in Deallocate(s, p, true).state.ptrs
    ensures var r := Allocate(Deallocate(s, p, true).state, mem);
            && r.Done? && r.value == p
            && (HasRoom(s) ==> r.state == s)
  {
    var it := s.actMem;
    OwnPlace(s, p, it);
    GivenUpIff(s, p, true, it);
    var idx := PushedIndex(s, p, it);
    var s1 := Push(s, it, p, true);
    NotReleased(s, p, it);
    hide Inv, Live, Find, Refill, Push;
    assert Deallocate(s, p, true).state == s1.(size := s.size - 1);
    assert s1.slabs[it].availible[..|s.slabs[it].availible|] == s.slabs[it].availible;
    if HasRoom(s) {
      assert s1.slabs[it := s.slabs[it]] == s.slabs;
    }
  }

  lemma NotReleased(s: State, p: int, it: nat)
    requires Inv(s) && Live(s, p) && it < |s.slabs| && ContainsMem(s, s.ptrs[it], p)
    requires s.ptrs[it] in Deallocate(s, p, true).state.ptrs
    ensures !Releases(Push(s, it, p, true), it)
  {
    hide FreeTotal, Find, SC.AllOk, SC.LiveAmong, SC.Disjoint, Push, Settle;
    OwnPlace(s, p, it);
    MemoriesDistinct(s);
    SettleOrder(Push(s, it, p, true), it);
  }
}
