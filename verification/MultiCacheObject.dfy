/** The per-thread cache as the object it is (Allocators/ImplSlabMulti.h): two vectors edited in place, two
    iterators into them, two counters, a search loop. Each method is tied to the operation on values. */
module MultiCacheObject {
  import opened Common
  import opened Dispatcher
  import opened MultiCache
  import opened MultiCacheProofs
  import SC = SlabCache

  class Cache {
    const count: nat
    const blockSize: nat
    var mySize: int
    var myCapacity: int
    var slabs: seq<Slab>
    var ptrs: seq<int>
    var actBlock: nat
    var actMem: nat

    ghost function Contents(): State
      reads this
    {
      State(count, blockSize, myCapacity, mySize, slabs, ptrs, actBlock, actMem)
    }

    ghost predicate Valid()
      reads this
    {
      Shape(Contents()) && InClass(count, blockSize)
    }

    constructor (count: nat, blockSize: nat, dispatch: GlobalDispatch)
      requires InClass(count, blockSize) && dispatch.Valid()
      modifies dispatch
      ensures Valid() && dispatch.Valid()
      ensures |ptrs| == 1 && Contents() == Initial(count, blockSize, ptrs[0])
      ensures dispatch.handed == old(dispatch.handed) + multiset{ptrs[0]} && ptrs[0] !in old(dispatch.handed)
    {
      this.count := count;
      this.blockSize := blockSize;
      mySize, myCapacity := 0, 0;
      slabs, ptrs := [], [];
      actBlock, actMem := 0, 0;
      new;
      Tables();
      var mem := AddCache(dispatch);
    }

    method AddCache(dispatch: GlobalDispatch) returns (mem: int)
      requires dispatch.Valid() && InClass(count, blockSize)
      modifies this, dispatch
      ensures Contents() == MultiCache.AddCache(old(Contents()), mem)
      ensures dispatch.Valid() && dispatch.handed == old(dispatch.handed) + multiset{mem} && mem !in old(dispatch.handed)
    {
      var indices := dispatch.GetIndicies(blockSize);
      slabs := slabs + [Slab(indices.value, [])];
      mem := dispatch.GetBlock();
      ptrs := ptrs + [mem];
      myCapacity := myCapacity + count;
    }

    /** splice: it is taken out, pos .. it-1 are moved up over it, and it is put at pos. */
    static method Splice<T>(pos: nat, it: nat, cont: seq<T>) returns (pos': nat, cont': seq<T>)
      requires pos <= it < |cont|
      ensures pos' == pos + 1 && cont' == Rotate(cont, pos, it)
    {
      var val := cont[it];
      cont' := cont[..pos + 1] + cont[pos..it] + cont[it + 1..];
      cont' := cont'[pos := val];
      pos' := pos + 1;
    }

    method SpliceBoth(it: nat)
      requires Valid() && actBlock <= it < |slabs|
      modifies this
      ensures Contents() == MultiCache.SpliceBoth(old(Contents()), it)
    {
      actBlock, slabs := Splice(actBlock, it, slabs);
      actMem, ptrs := Splice(actMem, it, ptrs);
    }

    method MemToDispatch(it: nat)
      requires Valid() && it < |slabs| && |slabs| > 1
      modifies this
      ensures Contents() == MultiCache.MemToDispatch(old(Contents()), it)
    {
      myCapacity := myCapacity - count;
      if it != actBlock {
        if it > actBlock {
          slabs, ptrs := Swap(slabs, it, |slabs| - 1), Swap(ptrs, it, |ptrs| - 1);
          slabs, ptrs := slabs[..|slabs| - 1], ptrs[..|ptrs| - 1];
        } else {
          var idx := actBlock - 1;
          slabs, ptrs := slabs[..it] + slabs[it + 1..], ptrs[..it] + ptrs[it + 1..];
          actBlock, actMem := idx, idx;
        }
      } else {
        slabs, ptrs := Swap(slabs, actBlock, |slabs| - 1), Swap(ptrs, actMem, |ptrs| - 1);
        slabs, ptrs := slabs[..|slabs| - 1], ptrs[..|ptrs| - 1];
        actBlock, actMem := |slabs| - 1, |ptrs| - 1;
      }
    }

    /** mergeForeigns: one index after the other, then the foreign list is cleared. */
    static method MergeForeigns(slab: Slab) returns (r: Slab)
      ensures r == MultiCache.MergeForeigns(slab)
    {
      var availible := slab.availible;
      for i := 0 to |slab.foreigns|
        invariant availible == slab.availible + slab.foreigns[..i]
      {
        availible := availible + [slab.foreigns[i]];
      }
      assert slab.foreigns[..|slab.foreigns|] == slab.foreigns;
      r := Slab(availible, []);
    }

    /** allocate; None if the active slab has no index. mem is the block that was asked for, if one was. */
    method Allocate(dispatch: GlobalDispatch) returns (p: Option<int>, ghost mem: int)
      requires Valid() && dispatch.Valid()
      modifies this, dispatch
      ensures Valid() && dispatch.Valid()
      ensures match MultiCache.Allocate(old(Contents()), mem)
              case Done(s, q) => p == Some(q) && Contents() == s
              case Undefined => p == None && Contents() == old(Contents())
      ensures if old(NeedsBlock(Contents()))
              then dispatch.handed == old(dispatch.handed) + multiset{mem} && mem !in old(dispatch.handed)
              else dispatch.handed == old(dispatch.handed)
    {
      mem := 0;
      var slab := slabs[actBlock];
      if slab.availible == [] {
        return None, mem;
      }
      var idx := slab.availible[|slab.availible| - 1];
      p := Some(ptrs[actMem] + idx * blockSize);
      slab := slab.(availible := slab.availible[..|slab.availible| - 1]);
      slabs := slabs[actBlock := slab];
      if slab.availible == [] {
        if !Full(slab) {
          slab := MergeForeigns(slab);
          slabs := slabs[actBlock := slab];
        } else if actBlock != 0 {
          actBlock, actMem := actBlock - 1, actMem - 1;
        } else {
          mem := AddCache(dispatch);
          slabs, ptrs := Swap(slabs, actBlock, |slabs| - 1), Swap(ptrs, actMem, |ptrs| - 1);
        }
      }
      mySize := mySize + 1;
    }

    /** The search of deallocate, wrapping at the end of the vector and stopping where it began; visited are the
        places it tried, in order. */
    method Search(p: int) returns (r: Option<nat>, ghost visited: seq<nat>)
      requires Valid()
      ensures r == Find(Contents(), p, 0)
      ensures |visited| <= |ptrs| && visited == CircleOrder(actMem, |ptrs|)[..|visited|]
      ensures r.None? ==> visited == CircleOrder(actMem, |ptrs|)
    {
      ghost var order := CircleOrder(actMem, |ptrs|);
      var mit, end := actMem, |ptrs|;
      ghost var i := 0;
      visited := [];
      while true
        invariant i < |ptrs| && mit == Circle(actMem, |ptrs|, i)
        invariant visited == order[..i]
        invariant end == if actMem + i < |ptrs| then |ptrs| else actMem
        invariant Find(Contents(), p, 0) == Find(Contents(), p, i)
        decreases |ptrs| - i
      {
        visited := visited + [mit];
        assert visited == order[..i + 1];
        if ptrs[mit] <= p < ptrs[mit] + blockSize * count {
          assert ContainsMem(Contents(), ptrs[mit], p);
          return Some(mit), visited;
        }
        assert !ContainsMem(Contents(), ptrs[mit], p);
        i := i + 1;
        mit := mit + 1;
        if mit == end {
          mit := 0;
          if end == actMem || mit == actMem {
            return None, visited;
          }
          end := actMem;
        }
      }
    }

    /** deallocate; false if the pointer is not from here. */
    method Deallocate(p: int, thisThread: bool) returns (found: bool)
      requires Valid()
      modifies this
      ensures Valid()
      ensures match MultiCache.Deallocate(old(Contents()), p, thisThread)
              case Done(s, r) => found == r && Contents() == s
              case Undefined => false
    {
      ghost var visited;
      var mit;
      mit, visited := Search(p);
      if mit.None? {
        return false;
      }
      hide Find, MultiCache.Settle;
      TakeBack(mit.value, p, thisThread);
      Settle(mit.value);
      mySize := mySize - 1;
      found := true;
    }

    /** Slab::deallocate on slab it. */
    method TakeBack(it: nat, p: int, thisThread: bool)
      requires Valid() && it < |slabs| && ContainsMem(Contents(), ptrs[it], p)
      modifies this
      ensures Contents() == Push(old(Contents()), it, p, thisThread)
    {
      var idx := ((p - ptrs[it]) / blockSize) % SC.INDEX_VALUES;
      if thisThread {
        slabs := slabs[it := slabs[it].(availible := slabs[it].availible + [idx])];
      } else {
        slabs := slabs[it := slabs[it].(foreigns := slabs[it].foreigns + [idx])];
      }
    }

    /** emptyAndSize: the blocks of slab it in use. */
    method SizeOf(it: nat) returns (used: int)
      requires Valid() && it < |slabs|
      ensures used == InUse(Contents(), it)
    {
      used := count - (|slabs[it].availible| + |slabs[it].foreigns|);
    }

    /** The two guards of deallocate; in the source the shared lock is released between this and what it decides. */
    method Guards(it: nat, used: int) returns (plan: Plan)
      ensures plan == Decide(Contents(), it, used)
    {
      if used <= count / 4 && it > actBlock {
        return Move;
      }
      if used == 0 && |slabs| > 1 && mySize > myCapacity - count {
        return Release;
      }
      plan := Stay;
    }

    /** The guards and what they decide, with no other thread's step in between. */
    method Settle(it: nat)
      requires Valid() && it < |slabs|
      modifies this
      ensures Valid() && Contents() == MultiCache.Settle(old(Contents()), it)
    {
      var used := SizeOf(it);
      var plan := Guards(it, used);
      match plan
      case Move => SpliceBoth(it);
      case Release => MemToDispatch(it);
      case Stay =>
    }
  }
}
