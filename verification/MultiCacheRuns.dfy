/** Whole runs of the per-thread cache in which no two calls overlap: what holds in all of them, when the
    active slab has an index for the next allocate, and the two ways in which the code as written can lose it. */
module MultiCacheRuns {
  import opened Common
  import opened MultiCache
  import opened MultiCacheProofs
  import SC = SlabCache

  /** One call: allocate with the block the dispatcher would hand out, or deallocate by the owning thread
      or by another one. */
  datatype Call = Alloc(mem: int) | Dealloc(p: int, own: bool)

  /** Clients free live blocks; the dispatcher hands out memory that no slab has. */
  ghost predicate Legal(s: State, c: Call)
    requires Shape(s)
  {
    match c
    case Alloc(mem) => NeedsBlock(s) ==> Fresh(s, mem)
    case Dealloc(p, _) => Live(s, p)
  }

  /** The state after a call; None if allocate popped an empty vector. */
  function Apply(s: State, c: Call): Option<State>
    requires Shape(s)
  {
    match c
    case Alloc(mem) => (match Allocate(s, mem) case Done(s', _) => Some(s') case Undefined => None)
    case Dealloc(p, own) => (match Deallocate(s, p, own) case Done(s', _) => Some(s') case Undefined => None)
  }

  ghost predicate Reach(s: State, calls: seq<Call>, s': State)
    decreases |calls|
  {
    if calls == [] then s' == s
    else
      && Shape(s) && Legal(s, calls[0])
      && Apply(s, calls[0]).Some? && Reach(Apply(s, calls[0]).value, calls[1..], s')
  }

  // ----- all runs

  lemma CallKeeps(s: State, c: Call)
    requires Inv(s) && Legal(s, c)
    ensures Apply(s, c).None? <==> c.Alloc? && !HasRoom(s)
    ensures Apply(s, c).Some? ==> Inv(Apply(s, c).value) && Apply(s, c).value.count == s.count
  {
    hide Inv, Allocate, Deallocate, Live, Fresh, HasRoom, NeedsBlock;
    match c
    case Alloc(mem) => AllocateSound(s, mem);
    case Dealloc(p, own) => DeallocateSound(s, p, own);
  }

  lemma {:induction false} RunKeeps(s: State, calls: seq<Call>, s': State)
    requires Inv(s) && Reach(s, calls, s')
    ensures Inv(s') && s'.count == s.count
    decreases |calls|
  {
    if calls != [] {
      hide Inv, Apply;
      CallKeeps(s, calls[0]);
      RunKeeps(Apply(s, calls[0]).value, calls[1..], s');
    }
  }

  lemma OneView(count: nat, mem: int)
    requires count <= SC.INDEX_VALUES
    ensures Views([Slab(SC.IndexStack(count), [])], [mem]) == [SC.Slab(mem, SC.IndexStack(count))]
    ensures Pairs([Slab(SC.IndexStack(count), [])], [mem]) == multiset{SC.Slab(mem, SC.IndexStack(count))}
    ensures SC.AllOk(count, multiset{SC.Slab(mem, SC.IndexStack(count))})
    ensures forall bytes: nat :: SC.Disjoint(bytes, multiset{SC.Slab(mem, SC.IndexStack(count))})
  {
    SC.IndexStackIff(count);
    assert [] + SC.IndexStack(count) == SC.IndexStack(count);
  }

  lemma InitialKeeps(count: nat, blockSize: nat, mem: int)
    requires 1 <= count <= SC.INDEX_VALUES && blockSize > 0
    ensures Active(Initial(count, blockSize, mem))
  {
    hide FreeTotal, SC.AllOk, SC.Disjoint, Views, Pairs, SC.IndexStack;
    var s := Initial(count, blockSize, mem);
    var slab := Slab(SC.IndexStack(count), []);
    assert s.slabs == [slab] && s.ptrs == [mem];
    OneView(count, mem);
    OneSlab(slab);
    IndexStackHasRoom(count);
  }

  /** In every run of calls that do not overlap, frees by any thread among them: the vectors stay parallel,
      every slab's two lists and its live indices stay a partition, the capacity is count times the slabs
      and the size is the blocks in use; the next allocate is undefined exactly when the active slab has no
      index of its own. */
  lemma AllRuns(count: nat, blockSize: nat, mem: int, calls: seq<Call>, s: State)
    requires 1 <= count <= SC.INDEX_VALUES && blockSize > 0
    requires Reach(Initial(count, blockSize, mem), calls, s)
    ensures Inv(s)
    ensures forall m :: (NeedsBlock(s) ==> Fresh(s, m)) ==> (Allocate(s, m).Undefined? <==> !HasRoom(s))
  {
    InitialKeeps(count, blockSize, mem);
    RunKeeps(Initial(count, blockSize, mem), calls, s);
    forall m | NeedsBlock(s) ==> Fresh(s, m)
      ensures Allocate(s, m).Undefined? <==> !HasRoom(s)
    {
      AllocateSound(s, m);
    }
  }

  // ----- the release guard

  /** The slab of p is given up. */
  predicate GivesUp(s: State, p: int, own: bool)
    requires Shape(s)
  {
    match Find(s, p, 0)
    case None => false
    case Some(it) => Releases(Push(s, it, p, own), it)
  }

  lemma FoundIn(s: State, p: int) returns (it: nat)
    requires Inv(s) && Live(s, p)
    ensures it < |s.slabs| && Find(s, p, 0) == Some(it) && ContainsMem(s, s.ptrs[it], p)
  {
    hide FreeTotal, Find, SC.LiveIn;
    var c, idx: nat :| SC.LiveIn(s.count, s.blockSize, View(s), p, c, idx);
    FindsOwner(s, p, c, idx);
    it := Find(s, p, 0).value;
  }

  /** By counting: mySize exceeds the capacity of the other slabs only when all of those are full. */
  lemma GuardCounts(s: State, s1: State, it: nat)
    requires Inv(s) && Shape(s1) && it < |s.slabs| && |s1.slabs| == |s.slabs|
    requires s1.size == s.size && s1.count == s.count && InUse(s1, it) == 0
    requires s1.slabs == s.slabs[it := s1.slabs[it]] && Free(s1.slabs[it]) == Free(s.slabs[it]) + 1
    ensures s1.size > s1.capacity - s1.count <==> forall k :: 0 <= k < |s.slabs| && k != it ==> Full(s.slabs[k])
  {
    FreeUpdate(s.slabs, it, s1.slabs[it]);
    OthersFullIff(s.slabs, it);
  }

  /** While the active slab has room, the release guard fires exactly when the block is the last one in use
      in the active slab and every other slab is full. */
  lemma GivesUpIff(s: State, p: int, own: bool)
    requires Inv(s) && HasRoom(s) && Live(s, p)
    ensures GivesUp(s, p, own)
            <==> |s.slabs| > 1 && ContainsMem(s, s.ptrs[s.actMem], p) && InUse(s, s.actBlock) == 1
                 && forall k :: 0 <= k < |s.slabs| && k != s.actBlock ==> Full(s.slabs[k])
  {
    hide FreeTotal, Find, SC.AllOk, SC.LiveAmong;
    var it := FoundIn(s, p);
    var s1 := Push(s, it, p, own);
    assert s1.slabs == s.slabs[it := s1.slabs[it]];
    OnlyOneHolds(s, p, it);
    if InUse(s1, it) == 0 {
      GuardCounts(s, s1, it);
    }
  }

  lemma OnlyOneHolds(s: State, p: int, it: nat)
    requires Inv(s) && it < |s.slabs| && ContainsMem(s, s.ptrs[it], p)
    ensures ContainsMem(s, s.ptrs[s.actMem], p) <==> it == s.actBlock
  {
    hide FreeTotal, SC.AllOk, SC.Disjoint;
    SlabsApart(s, it, s.actBlock);
  }

  /** deallocate leaves the active slab with room exactly when the release guard does not fire: the branch
      of memToDispatch for the active slab makes the last slab active, and that one is full. */
  lemma RoomAfterDeallocateIff(s: State, p: int, own: bool)
    requires Inv(s) && HasRoom(s) && Live(s, p)
    ensures Deallocate(s, p, own).Done? && Shape(Deallocate(s, p, own).state)
    ensures HasRoom(Deallocate(s, p, own).state) <==> !GivesUp(s, p, own)
  {
    hide FreeTotal, Find, SC.AllOk, SC.LiveAmong, SC.Disjoint, Rotate;
    var it := FoundIn(s, p);
    var s1 := Push(s, it, p, own);
    DeallocateSound(s, p, own);
    GivesUpIff(s, p, own);
    OnlyOneHolds(s, p, it);
    PushRoom(s, it, p, own);
    if Splices(s1, it) {
      SpliceBothRotates(s1, it);
    }
  }

  lemma PushRoom(s: State, it: nat, p: int, own: bool)
    requires Shape(s) && it < |s.slabs| && ContainsMem(s, s.ptrs[it], p)
    ensures forall k :: 0 <= k < |s.slabs| && s.slabs[k].availible != []
                        ==> Push(s, it, p, own).slabs[k].availible != []
    ensures own ==> Push(s, it, p, own).slabs[it].availible != []
    ensures own ==> Push(s, it, p, own).slabs[it].foreigns == s.slabs[it].foreigns
  {}

  /** The memory of the slab that is given up leaves the cache; no step hands it back to the dispatcher. */
  lemma ReleaseDropsMemory(s: State, p: int, own: bool)
    requires Shape(s) && GivesUp(s, p, own)
    ensures multiset(Deallocate(s, p, own).state.ptrs) == multiset(s.ptrs) - multiset{s.ptrs[Find(s, p, 0).value]}
    ensures Deallocate(s, p, own).state.capacity == s.capacity - s.count
  {
    hide Find, Push;
    var it := Find(s, p, 0).value;
    var s1 := Push(s, it, p, own);
    RemoveElements(s1.ptrs, it);
    SwapPopElements(s1.ptrs, it);
  }

  // ----- owner-only runs

  /** An owner-only allocate is never undefined and keeps a free index in every slab at or before the active one. */
  lemma OwnerAllocates(s: State, mem: int)
    requires Active(s) && (NeedsBlock(s) ==> Fresh(s, mem))
    ensures Allocate(s, mem).Done? && Active(Allocate(s, mem).state)
  {
    hide FreeTotal, SC.AllOk, SC.LiveAmong, SC.Disjoint;
    AllocateSound(s, mem);
    IndexStackHasRoom(s.count);
  }

  lemma IndexStackHasRoom(count: nat)
    requires count >= 1
    ensures SC.IndexStack(count) != []
  {}

  /** An owner-only deallocate keeps it exactly when the release guard does not fire. */
  lemma OwnerFreesIff(s: State, p: int)
    requires Active(s) && Live(s, p)
    ensures Deallocate(s, p, true).Done?
    ensures Active(Deallocate(s, p, true).state) <==> !GivesUp(s, p, true)
  {
    hide FreeTotal, Find, SC.AllOk, SC.LiveAmong, SC.Disjoint, Rotate;
    var it := FoundIn(s, p);
    var s1 := Push(s, it, p, true);
    DeallocateSound(s, p, true);
    RoomAfterDeallocateIff(s, p, true);
    PushRoom(s, it, p, true);
    if Splices(s1, it) {
      SpliceBothRotates(s1, it);
    }
  }

  /** In an owner-only run the guard can only give up slab 0 while it is active, and every other slab is
      full then: the other two branches of memToDispatch are never taken. */
  lemma OnlyTheActiveBranch(s: State, p: int)
    requires Active(s) && Live(s, p) && GivesUp(s, p, true)
    ensures Find(s, p, 0) == Some(s.actBlock) && s.actBlock == 0
    ensures forall k :: 1 <= k < |s.slabs| ==> Full(s.slabs[k])
  {
    hide FreeTotal, Find, SC.AllOk, SC.LiveAmong, SC.Disjoint;
    var it := FoundIn(s, p);
    GivesUpIff(s, p, true);
    OnlyOneHolds(s, p, it);
    assert s.actBlock > 0 ==> !Full(s.slabs[0]);
  }

  /** After a release, whoever freed the block, the next allocate pops an empty vector. */
  lemma ReleaseThenUndefined(s: State, p: int, own: bool, mem: int)
    requires Inv(s) && HasRoom(s) && Live(s, p) && GivesUp(s, p, own)
    ensures Deallocate(s, p, own).Done? && Shape(Deallocate(s, p, own).state)
    ensures Allocate(Deallocate(s, p, own).state, mem) == Undefined
  {
    hide FreeTotal, GivesUp, Deallocate, SC.AllOk, SC.LiveAmong, SC.Disjoint;
    RoomAfterDeallocateIff(s, p, own);
  }

  /** An owner-only run, up to but not into a release. */
  ghost predicate OwnerRun(s: State, calls: seq<Call>)
    decreases |calls|
  {
    calls == [] || (
      && Shape(s) && Legal(s, calls[0])
      && (calls[0].Dealloc? ==> calls[0].own && !GivesUp(s, calls[0].p, true))
      && (Apply(s, calls[0]).Some? ==> OwnerRun(Apply(s, calls[0]).value, calls[1..])))
  }

  /** As long as the guard does not fire, no owner-only run is ever undefined and the invariant holds throughout. */
  lemma {:induction false} OwnerRunKeeps(s: State, calls: seq<Call>) returns (s': State)
    requires Active(s) && OwnerRun(s, calls)
    ensures Reach(s, calls, s') && Active(s')
    decreases |calls|
  {
    s' := s;
    if calls != [] {
      OwnerCallKeeps(s, calls[0]);
      hide Active, Apply, Legal, GivesUp;
      s' := OwnerRunKeeps(Apply(s, calls[0]).value, calls[1..]);
    }
  }

  lemma OwnerCallKeeps(s: State, c: Call)
    requires Active(s) && Legal(s, c)
    requires c.Dealloc? ==> c.own && !GivesUp(s, c.p, true)
    ensures Apply(s, c).Some? && Active(Apply(s, c).value)
  {
    hide Inv, Allocate, Deallocate, Live, Fresh, NeedsBlock, GivesUp;
    match c
    case Alloc(mem) => OwnerAllocates(s, mem);
    case Dealloc(p, own) => OwnerFreesIff(s, p);
  }
}
