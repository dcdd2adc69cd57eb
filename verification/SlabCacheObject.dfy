/** The slab cache as the object it is (Allocators/SlabHelper.h): three vectors of slabs edited in
    place, counters, search loops. Each method is tied to the operation on values. An answer of None
    means that the source reads an element that is not there. */
module SlabCacheObject {
  import opened Common
  import opened SlabCache

  /** addToMap: std::iota over the reversed vector, in IndexSizeT. */
  method BuildIndices(count: nat) returns (a: seq<nat>)
    ensures a == IndexStack(count)
  {
    a := seq(count, _ => 0);
    var i := count;
    var value := 0;
    while i > 0
      invariant 0 <= i <= count && |a| == count
      invariant value == (count - i) % INDEX_VALUES
      invariant forall k :: i <= k < count ==> a[k] == (count - 1 - k) % INDEX_VALUES
    {
      i := i - 1;
      a := a[i := value];
      value := (value + 1) % INDEX_VALUES;
    }
  }

  class Cache {
    const count: nat
    const blockSize: nat
    var myCapacity: int
    var mySize: int
    var slabsFree: seq<Slab>
    var slabsPart: seq<Slab>
    var slabsFull: seq<Slab>

    ghost function Contents(): State
      reads this
    {
      State(count, blockSize, myCapacity, mySize, slabsFree, slabsPart, slabsFull)
    }

    constructor (blockSize: nat, count: nat, mem: int)
      ensures Contents() == Initial(blockSize, count, mem)
      ensures this.blockSize == blockSize && this.count == count
    {
      this.blockSize := blockSize;
      this.count := count;
      myCapacity, mySize := 0, 0;
      slabsFree, slabsPart, slabsFull := [], [], [];
      new;
      NewSlab(mem);
    }

    method NewSlab(mem: int)
      modifies this
      ensures Contents() == SlabCache.NewSlab(old(Contents()), mem)
    {
      var indices := BuildIndices(count);
      slabsFree := slabsFree + [Slab(mem, indices)];
      myCapacity := myCapacity + count;
    }

    /** findFreeSlab: which list the slab is taken from; it is the first one there. */
    method FindFreeSlab(mem: int) returns (fromFree: bool)
      modifies this
      ensures Contents() == WithRoom(old(Contents()), mem)
      ensures fromFree <==> slabsPart == []
      ensures fromFree ==> slabsFree != []
    {
      fromFree := slabsPart == [];
      if fromFree && slabsFree == [] {
        NewSlab(mem);
      }
    }

    /** splice: slab i of from goes to the end of to; the last slab of from takes its place. */
    static method Splice(to: seq<Slab>, from: seq<Slab>, i: nat) returns (to': seq<Slab>, from': seq<Slab>)
      requires i < |from|
      ensures to' == to + [from[i]] && from' == SwapPop(from, i)
    {
      to' := to + [from[i]];
      from' := from[i := from[|from| - 1]];
      from' := from'[..|from'| - 1];
    }

    /** Slab::allocate: the index at the back of the stack. */
    static method Pop(slab: Slab) returns (slab': Slab, idx: nat)
      requires slab.availible != []
      ensures idx == slab.availible[|slab.availible| - 1]
      ensures slab' == slab.(availible := slab.availible[..|slab.availible| - 1])
    {
      idx := slab.availible[|slab.availible| - 1];
      slab' := slab.(availible := slab.availible[..|slab.availible| - 1]);
    }

    method Allocate(mem: int) returns (p: Option<int>)
      modifies this
      ensures match SlabCache.Allocate(old(Contents()), mem)
              case Done(s, q) => p == Some(q) && Contents() == s
              case Undefined => p == None
    {
      var fromFree := FindFreeSlab(mem);
      var slab := if fromFree then slabsFree[0] else slabsPart[0];
      if slab.availible == [] {
        return None;
      }
      var slab', idx := Pop(slab);
      if fromFree {
        slabsFree := slabsFree[0 := slab'];
        slabsPart, slabsFree := Splice(slabsPart, slabsFree, 0);
        if slab'.availible == [] {
          if slabsFree == [] {
            return None;
          }
          slabsFull, slabsFree := Splice(slabsFull, slabsFree, 0);
        }
      } else {
        slabsPart := slabsPart[0 := slab'];
        if slab'.availible == [] {
          slabsFull, slabsPart := Splice(slabsFull, slabsPart, 0);
        }
      }
      mySize := mySize + 1;
      p := Some(slab'.mem + idx * blockSize);
    }

    /** searchStore: from the back of the list. */
    method SearchStore(store: seq<Slab>, p: int) returns (r: nat)
      ensures r == Search(Contents(), store, p)
    {
      var i := |store|;
      while i > 0
        invariant 0 <= i <= |store|
        invariant forall k :: i <= k < |store| ==> !ContainsMem(Contents(), store[k], p)
      {
        i := i - 1;
        if store[i].mem <= p < store[i].mem + blockSize * count {
          assert ContainsMem(Contents(), store[i], p);
          return i;
        }
      }
      r := |store|;
    }

    method Deallocate(p: int) returns (done: bool)
      requires blockSize > 0
      modifies this
      ensures match SlabCache.Deallocate(old(Contents()), p)
              case Done(s, _) => done && Contents() == s
              case Undefined => !done
    {
      var i := SearchStore(slabsFull, p);
      if i < |slabsFull| {
        done := TakeBackFull(i, p);
      } else {
        var j := SearchStore(slabsPart, p);
        if j == |slabsPart| {
          return false;
        }
        TakeBackPart(j, p);
        done := true;
      }
    }

    /** The slab leaves the full list first; the last splice still goes by that list. */
    method TakeBackFull(i: nat, p: int) returns (done: bool)
      requires blockSize > 0 && i < |slabsFull| && ContainsMem(Contents(), slabsFull[i], p)
      modifies this
      ensures match DeallocateFull(old(Contents()), i, p)
              case Done(s, _) => done && Contents() == s
              case Undefined => !done
    {
      slabsPart, slabsFull := Splice(slabsPart, slabsFull, i);
      var it := |slabsPart| - 1;
      var idx := (p - slabsPart[it].mem) / blockSize;
      slabsPart := slabsPart[it := slabsPart[it].(availible := slabsPart[it].availible + [idx % INDEX_VALUES])];
      if |slabsPart[it].availible| == count {
        if slabsFull == [] {
          return false;
        }
        slabsFree := slabsFree + [slabsPart[it]];
        slabsPart := slabsPart[it := slabsFull[|slabsFull| - 1]];
        slabsFull := slabsFull[..|slabsFull| - 1];
      }
      mySize := mySize - 1;
      done := true;
    }

    method TakeBackPart(j: nat, p: int)
      requires blockSize > 0 && j < |slabsPart| && ContainsMem(Contents(), slabsPart[j], p)
      modifies this
      ensures DeallocatePart(old(Contents()), j, p) == Done(Contents(), ())
    {
      var idx := (p - slabsPart[j].mem) / blockSize;
      slabsPart := slabsPart[j := slabsPart[j].(availible := slabsPart[j].availible + [idx % INDEX_VALUES])];
      if |slabsPart[j].availible| == count {
        slabsFree, slabsPart := Splice(slabsFree, slabsPart, j);
      }
      mySize := mySize - 1;
    }

    method FreeAll()
      modifies this
      ensures Contents() == SlabCache.FreeAll(old(Contents()))
    {
      slabsFree, slabsPart, slabsFull := [], [], [];
      myCapacity, mySize := 0, 0;
    }

    method FreeEmpty()
      modifies this
      ensures Contents() == SlabCache.FreeEmpty(old(Contents()))
    {
      myCapacity := myCapacity - |slabsFree| * blockSize;
      slabsFree := [];
    }
  }
}
