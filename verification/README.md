# Verification of the allocators and their locks

A Dafny model of the stateful parts of the library: the two reader/writer locks, the coalescing
free-list allocator, the three-list slab cache, the per-thread slab caches with frees from other
threads, and the linked list. The algorithms are kept as they are written, with their branches,
constants and counters. Where the code does not do what its tests or comments promise, the model keeps
the code, a concrete run shows the failure, and a lemma says exactly when the code is right.

`dafny verify dfyconfig.toml` checks everything.

## How it is built

Each algorithm has three layers. A module of *values* gives the state and what one operation or one
atomic step makes of it. *Lemmas* about those values state the properties: invariants over every step
and every run, and both directions of each condition. A *class* keeps the fields of the C++ object, works
on them in place with the loops of the source, and every method is tied to the operation on values.

| part | values and steps | properties | in place |
|---|---|---|---|
| `SharedMutex.h` | SharedMutex | SharedMutex, SharedMutexProgress, SharedMutexEntry, SharedMutexFairness, SharedMutexLive | SharedMutexObject |
| `TMP.h` | RecursiveMutex | RecursiveMutex, RecursiveMutexNesting, RecursiveMutexCalls, RecursiveMutexEntry | RecursiveMutexObject |
| `FreeList.h` | FreeChunks, FreeListHeap | FreeChunks, FreeListHeap | FreeListPolicy, FreeList |
| `SlabHelper.h`, `SlabMem.h` | SlabCache, SlabMemRuns | SlabCacheProofs, SlabMemRuns | SlabCacheObject, SlabMem |
| `ImplSlabMulti.h`, calls one after the other | MultiCache | MultiCacheProofs, MultiCacheRuns, MultiCacheOrder, MultiCacheDepartures | MultiCacheObject |
| `ImplSlabMulti.h`, calls that overlap | ForeignSlab, MultiCacheSteps | ForeignSlab, ForeignSlabProgress, MultiCacheStepProofs, MultiCacheInterleavings, MultiCacheSerial, MultiCacheOverlaps | |
| `SlabMultiDispatcher.h`, `SlabMulti.h` | Dispatcher, MultiSystem | Dispatcher, MultiSystem, MultiSystemSteps, MultiInterface | Dispatcher, MultiInterface |
| `AllocHelpers.h` | SizeTypes | SizeTypes | LinkedList |

The per-thread cache is modelled twice: with a call as one step, and as a transition system in which calls of any number of
threads overlap. There a step is one of the owner's lock-free accesses in `allocate` (the place of the active slab, the memory, the last
index, the pop, the emptiness test), a part of `deallocate` under the shared lock (the search with the push, the size, the guards), one
effect under the exclusive lock (one change to one vector or one iterator), the refill, or a change of `mySize`. `SerialRun` connects the two, and
MultiSystemSteps lets calls overlap on the caches of all threads at once.

The locks are transition systems: one atomic load, store or compare-exchange a step, sequentially
consistent, any number of threads and slots, any schedule. Spinning is a step that changes nothing, and a
weak compare-exchange may fail (`CasFails`). Threads register and exit at any time. A client is well formed: unlocks match
locks, and a thread inside a shared section does not ask for the exclusive one.

Memory that `operator new` returns is a parameter, required not to overlap memory in use; for
superblocks it is a function `supply` from the call number to an address.

## Where code and promise differ

- **Reader entry of `SharedMutex`.** Lines 93-96, which are compiled, load `spLock` and then store the slot.
  Lines 82-91, in a comment, store and then check again. Both are modelled (`Live`, `Handshake`). The handshake is
  proved safe; for the compiled one `SharedMutexLive.BadRun` reaches a reader and a writer inside together, and
  `OverlapIff` says which store can be overlapped: one made when a writer has already scanned past the slot.
- **Nesting of the recursive mutex.** The comment in `TMP.h` at line 78 promises X->X, X->S and S->S. `lock_shared` tries to register on
  every call, and a thread that gets a slot while it holds `want_x_lock` waits for itself. `SlottedCallReturnsIff` and
  `UnslottedCallMayWaitIff` are the exact conditions at the call, `NestedSharedReturnsIff` after registration; `ExclusiveThenSharedWaits` and `SharedThenSharedWaits` are runs from the initial state.
- **A first call behind such a thread.** A thread that holds the flag and waits for itself keeps all others out: `FirstCallWaits` is a run after which the first
  `lock_shared` of another thread never comes back. `FirstCallReturnsIff` is the exact condition, on the holder; while it registers, whether it gets back
  depends on who else takes slots meanwhile (`NoneFreeYields` when none is free). With the flag free, `OwnStepsReturn` bounds the thread's own steps.
- **`PolicyT::add`** adds `headerSize` only when the list is not empty. With the `AsWritten` variant the remainder of a split is
  over-counted when other chunks exist, and a free into an empty list is under-counted. The `Intended` variant stores the full extent in both, as
  `Tests/FreeListTest.cpp` expects at lines 73-78 and 120-127. `AllocateTilesIff`, `DeallocateTilesIff` and `WrittenRunTiledIff` say when the two agree.
- **One block per slab.** With `count == 1` the second `splice` of `allocate` and the last one of `deallocate` act on the wrong list:
  `AllocateKeepsIff`, `DeallocateKeepsIff`, `RunsSoundIff` (sound if and only if `count >= 2`).
- **`freeEmpty`** takes `blockSize` per slab off a capacity to which `count` was added: `FreeEmptyKeepsIff`, with `FreeEmptyExample`.
- **The release guard of the per-thread cache.** When it fires, the last slab becomes active and that one is full, so the next `allocate` pops an
  empty vector: `RoomAfterDeallocateIff`, `ReleaseThenUndefined`, and the run `ReleaseRun`. `memToDispatch` does not give the memory back to
  the dispatcher either (`ReleaseDropsMemory`); the model follows the code.
- **The gap between the locks in `deallocate`** (lines 371-372 and 380-381 of `ImplSlabMulti.h`). The shared lock is released before the exclusive one is
  taken, and the place found before is used after it. It fits if and only if, for a move, it lies at or behind the active one, which is not the last; for
  a release, if the slab there is unused and not the only one; in both cases if the vectors' storage has not moved
  (`MoveStepKeepsIff`, `ReleaseStepKeepsIff`). `StaleMoveRun` ends with the active iterator at the end of the vector,
  `StaleReleaseRun` takes the memory of a live block out of the cache. `MoveStaysFit` and `ReleaseStaysFit` name the steps that can spoil a place.
- **The pop without a lock** (line 290). `allocate` pops before it takes any lock, so it can pop while another thread is inside `spliceBoth` or
  `memToDispatch`, or with a place it read before. The pop is right if and only if the slab it changes outlives the section under way and the address computed
  from what was read before is that of the block it pops (`PopStepKeepsIff`). Inside `spliceBoth` that fails at three of eight
  points (`PopInsideSpliceIff`); `PopInsideRun` pops between the memmove and the placement new, and the next `allocate` computes the same address again.
- `AllInterleavings` puts these conditions together: a run of any calls is good at every moment, with the live blocks that the calls are to
  leave, if and only if the condition of each step holds when it is taken. `AllSystemRuns` says the same of all caches together.
- **A slab that foreign frees moved to the front** can have indices in `foreigns` only and is then made active without a merge: `RoomAfterAllocateIff` and the run `ForeignRun`.
- **`ListT::splice`** with `pos` equal to the moved node makes that node link to itself: the contract of `Splice`.

## Model

| member | source | states |
|---|---|---|
| SharedMutex.HandshakeStep | Allocators/SharedMutex.h:82-91 | every atomic step of any thread keeps: slots and the spill lock owned by one thread each, and no writer past the slot of a reader inside |
| SharedMutex.HandshakeSafety | Allocators/SharedMutex.h:74-139 | in every run of the store-then-recheck lock, threads registering and exiting at any time, nobody is inside while a writer is; a writer past slot i excludes reader i until unlock |
| SharedMutex.ReaderStep | Allocators/SharedMutex.h:82-91 | a thread becomes a slot reader only by a load of spLock that gave false, after its store |
| SharedMutex.WriterStep | Allocators/SharedMutex.h:122-139 | a scan passes slot j only by a load that did not give SharedLock |
| SharedMutex.BaseStep | Allocators/SharedMutex.h:93-139 | both protocols keep slot and spill-lock ownership |
| SharedMutex.SlotOwnership | Allocators/SharedMutex.h:196-267 | in every run each slot that is not Unregistered belongs to exactly one thread |
| SharedMutex.IndexNeverChanges | Allocators/SharedMutex.h:110-120 | from its first registration attempt to its exit a thread's index is constant, so lock_shared and unlock_shared take the same path |
| SharedMutexProgress.OtherStepLowersRank | Allocators/SharedMutex.h:82-91 | while a writer scans, a step of another thread is a spin or lowers the total rank, and leaves the writer where it is |
| SharedMutexProgress.ScanStep | Allocators/SharedMutex.h:129-132 | a scanning writer stays on a SharedLock slot and otherwise moves on by one |
| SharedMutexProgress.WriterWaitsBounded | Allocators/SharedMutex.h:122-133 | under any schedule at most (threads + 1) * (slots + 7) steps change anything before the writer is in |
| SharedMutexProgress.OwnerClears | Allocators/SharedMutex.h:84-90 | under either reader entry, the owner of a slot that stops the writer can clear it in at most two of its own steps |
| SharedMutexProgress.WriterCanEnter | Allocators/SharedMutex.h:122-133 | no deadlock, under either reader entry: from every state with a scanning writer a run of at most three steps a slot lets it in, and nobody else before it |
| SharedMutexEntry.CallBegins | Allocators/SharedMutex.h:74-127 | a thread outside can always call lock_shared or lock and is then on its way in |
| SharedMutexEntry.OwnStepsEnter | Allocators/SharedMutex.h:82-127 | under either reader entry, while spLock is false: from any place in lock_shared at most slots + 4 steps of the thread's own bring it in, and one step makes a thread in lock the writer that scans |
| SharedMutexEntry.HolderCanLeave | Allocators/SharedMutex.h:110-139 | while spLock is true, some run of at most 3 * slots + 1 steps frees it, and nobody who is entering gets in before |
| SharedMutexEntry.CallReturns | Allocators/SharedMutex.h:74-127 | from every state and from any place in lock_shared some run of at most 4 * slots + 5 steps brings the thread into its section; the same for lock up to the scan |
| SharedMutexEntry.LockReturns | Allocators/SharedMutex.h:122-133 | from every state some run brings a thread that is in lock into its exclusive section |
| SharedMutexEntry.LeaveStep | Allocators/SharedMutex.h:110-139 | one step ends a section: the reader's slot is Registered again and nothing else changed, or spLock is free |
| SharedMutexEntry.ExitFreesSlot | Allocators/SharedMutex.h:198-209 | a thread that ends outside all sections gives its slot back in two steps of its own |
| SharedMutexEntry.FirstCallRegistersIff | Allocators/SharedMutex.h:246-267 | the first lock_shared of a thread, if not interrupted, gets a slot if and only if one is Unregistered, and then the first one |
| SharedMutexFairness.FairScheduleEnters | Allocators/SharedMutex.h:122-133 | under every fair schedule, in rounds in which each thread inside a call or section takes a turn, a scanning writer is in within (threads + 1) * (slots + 7) + 1 rounds |
| SharedMutexFairness.RoundChanges | Allocators/SharedMutex.h:129-132 | a round in which a writer scans changes something: the owner of the slot it is stopped by has had a turn |
| SharedMutexLive.BadRun | Allocators/SharedMutex.h:93-96 | a run of the compiled reader entry that ends with a reader and a writer inside |
| SharedMutexLive.AnnouncedSlotStopsWriters | Allocators/SharedMutex.h:93-132 | a slot stored before any writer passed it keeps all writers out while the reader stays, whatever the others do |
| SharedMutexLive.WriterFinishes | Allocators/SharedMutex.h:129-132 | a writer already past the slot can complete its scan while that reader stays inside |
| SharedMutexLive.OverlapIff | Allocators/SharedMutex.h:93-96 | the compiled store can be overlapped by a writer if and only if some writer has scanned past the slot at that moment |
| SharedMutexLive.OverlapIffReachable | Allocators/SharedMutex.h:93-96 | the same for every reachable state |
| SharedMutexLive.PastStepIff | Allocators/SharedMutex.h:93-96 | one step of the compiled lock keeps writers off the slots of readers inside if and only if it is not a store behind a writer |
| SharedMutexLive.LiveSafeIff | Allocators/SharedMutex.h:93-139 | a run of the compiled lock keeps that at every point if and only if it has no such store, and then nobody is ever inside with a writer |
| SharedMutexObject.Mutex.constructor | Allocators/SharedMutex.h:60-63 | a new lock is the initial state: spLock false, all slots Unregistered |
| SharedMutexObject.Mutex.Call | Allocators/SharedMutex.h:221-252 | the start of a call picks the path by the thread's map entry, as the step on values |
| SharedMutexObject.Mutex.SlotAccess | Allocators/SharedMutex.h:253-264 | one access to a slot of the array in place is the step on values |
| SharedMutexObject.Mutex.SpillAccess | Allocators/SharedMutex.h:101-138 | one access to spLock in place is the step on values |
| SharedMutexObject.Mutex.Step | Allocators/SharedMutex.h:74-139 | one atomic step in place is the step on values, and with the handshake keeps the invariant and exclusion |
| RecursiveMutex.Step | Allocators/TMP.h:150-249 | every step keeps the slot, holder and scan invariants of the recursive lock |
| RecursiveMutex.HolderStep | Allocators/TMP.h:199-249 | want_x_lock, owner_thread_id and recursive_xlock_count describe the one holder and its nesting depth |
| RecursiveMutex.PastStep | Allocators/TMP.h:184-237 | a writer past slot i, until its last unlock, excludes the reader of slot i |
| RecursiveMutex.SlotsStep | Allocators/TMP.h:102-170 | a slot that is not 0 belongs to exactly one thread |
| RecursiveMutex.RecursiveSafety | Allocators/TMP.h:172-250 | in every run no thread is in an X section while another is in X or S; between calls the count is the holder's depth and a slot is 1 plus its reader's depth |
| RecursiveMutexNesting.NestedSharedReturnsIff | Allocators/TMP.h:172-208 | once register_thread is done, a nested lock_shared can come back if and only if the thread has no slot or is nested through its slot |
| RecursiveMutexCalls.SlottedCallReturnsIff | Allocators/TMP.h:172-195 | at the call: a thread with a slot inside a section gets back if and only if it is nested through the slot |
| RecursiveMutexCalls.UnslottedCallMayWaitIff | Allocators/TMP.h:150-208 | at the call: without a slot, some run takes one and waits for its own unlock if and only if some slot is free or its owner does not wait for the flag |
| RecursiveMutexCalls.UseCountAllows | Allocators/TMP.h:154 | with a free slot the use count of the slot array lets the thread try, the count changing in the same step as the slot |
| RecursiveMutexNesting.NestedLockReturns | Allocators/TMP.h:227-241 | two steps of a nested lock taken in a row finish it one level deeper |
| RecursiveMutexNesting.NestedLockReturnsAlways | Allocators/TMP.h:227-241 | the same with any steps of the other threads before and between the two |
| RecursiveMutexNesting.WaitsForever | Allocators/TMP.h:186-194 | a thread that waits for its own flag waits in every continuation |
| RecursiveMutexNesting.ExclusiveThenSharedWaits | Allocators/TMP.h:172-195 | X->S, promised at line 78: a run from the initial state after which the call never returns |
| RecursiveMutexNesting.SharedThenSharedWaits | Allocators/TMP.h:150-195 | S->S entered through the flag with a slot freed in between: a run after which the call never returns |
| RecursiveMutexEntry.CallBegins | Allocators/TMP.h:172-229 | outside all sections a thread can always call lock_shared or lock and is then waiting |
| RecursiveMutexEntry.OwnStepsReturn | Allocators/TMP.h:172-238 | while want_x_lock is false, a lock_shared made outside all sections is back, one section deep, after at most 2 * slots + 6 steps of the thread's own, and a lock scans after at most 3 |
| RecursiveMutexEntry.ReaderLeaves | Allocators/TMP.h:177-217 | the reader of a slot that stops a writer can get it down to 1 by steps of its own |
| RecursiveMutexEntry.ScanEnds | Allocators/TMP.h:236-240 | no deadlock: from every state a writer that scans finishes its lock in some run, one level deeper |
| RecursiveMutexEntry.HolderLeavesAll | Allocators/TMP.h:210-249 | a holder of the flag that neither registers nor waits for itself can leave all its sections, and nobody who waits gets in before |
| RecursiveMutexEntry.FirstCallReturnsIff | Allocators/TMP.h:172-241 | a lock_shared or lock made outside all sections comes back in some run if and only if another thread that holds the flag can get to its unlock: it does not wait for itself, or, while it registers in a nested lock_shared, that call can come back |
| RecursiveMutexEntry.NoneFreeYields | Allocators/TMP.h:150-207 | a holder that registers in a nested lock_shared while no slot from its place on is free does get back |
| RecursiveMutexEntry.FirstCallWaits | Allocators/TMP.h:172-195 | one slot, two threads: a run after which the first lock_shared of thread 1 never comes back, because thread 0 waits for itself |
| RecursiveMutexEntry.CallRegistersIff | Allocators/TMP.h:150-170 | register_thread, if not interrupted, gives the thread a slot if and only if one is free, and then the first one |
| RecursiveMutexEntry.UnregisterIff | Allocators/TMP.h:118-123 | unregister_thread gives the slot back if and only if the thread is in no shared section entered through it |
| RecursiveMutexObject.Mutex.constructor | Allocators/TMP.h:139-141 | a new mutex is the initial state, with one reference to the slot array |
| RecursiveMutexObject.Mutex.Registration | Allocators/TMP.h:102-170 | registering and giving the slot back in place is the step on values, and the reference count, changed in the same step as the slot, stays 1 plus the registered threads |
| RecursiveMutexObject.Mutex.CallStep | Allocators/TMP.h:172-249 | the start of a call is the step on values |
| RecursiveMutexObject.Mutex.SlotAccess | Allocators/TMP.h:177-237 | one access to a slot is the step on values |
| RecursiveMutexObject.Mutex.FlagAccess | Allocators/TMP.h:186-232 | one access to want_x_lock is the step on values |
| RecursiveMutexObject.Mutex.OwnerAccess | Allocators/TMP.h:200-248 | one access to owner_thread_id or recursive_xlock_count is the step on values |
| RecursiveMutexObject.Mutex.StepInPlace | Allocators/TMP.h:172-250 | one atomic step in place is the step on values and keeps the invariant and exclusion |
| FreeChunks.AddExtentCorrect | Allocators/FreeList.h:83-103 | insertion with coalescing keeps the list sorted with no two chunks touching, adds exactly the extent to the bytes covered and to the sum |
| FreeChunks.EraseCorrect | Allocators/FreeList.h:120-123 | erasing a chunk takes exactly its bytes out of the cover and the sum |
| FreeChunks.CanonicalUnique | Allocators/FreeList.h:83-103 | two such lists with the same free bytes are equal |
| FreeChunks.FirstFitLowest | Allocators/FreeList.h:106-118 | the search fails exactly when no run of that many free bytes exists; otherwise it finds the lowest maximal run that is long enough |
| FreeListHeap.AllocateTilesIff | Allocators/FreeList.h:185-227 | allocate keeps chunks and live blocks tiling the heap if and only if the full extent is stored, or it fails, takes a whole chunk or splits the only one |
| FreeListHeap.DeallocateTilesIff | Allocators/FreeList.h:75-81 | deallocate keeps the tiling if and only if the full extent is stored or the list is not empty |
| FreeListHeap.RunTiled | Allocators/FreeList.h:185-242 | with the intended extents every run of allocate, deallocate and freeAll keeps the heap tiled and bytesFree exact |
| FreeListHeap.WrittenRunTiledIff | Allocators/FreeList.h:75-104 | a run of the code as written is tiled throughout if and only if splits hit one-chunk lists and frees non-empty ones; it then equals the intended run |
| FreeListHeap.AllocateIsFirstFit | Allocators/FreeList.h:185-227 | allocate fails exactly when no run of reqBytes unused bytes exists and then changes nothing; otherwise it takes the lowest maximal free run that fits |
| FreeListHeap.LiveAvoidsChunk | Allocators/FreeList.h:185-201 | no live block overlaps a free chunk |
| FreeListHeap.SameLiveSameList | Allocators/FreeList.h:75-104 | the free list is determined by the live blocks |
| FreeListHeap.RunsLeaveSameList | Allocators/FreeList.h:185-242 | two runs that leave the same live blocks leave the same list; with nothing live that is the single chunk |
| FreeListHeap.AllocateThenDeallocate | Allocators/FreeList.h:185-236 | allocate followed by deallocate of what it returned restores list, live blocks and byte count |
| FreeListHeap.MiddleLiveRun | Allocators/FreeList.h:185-236 | two allocations and a free from a new 12-byte heap, right as written, leave the middle third live |
| FreeListHeap.OvercountExample | Allocators/FreeList.h:197-198 | a split from there, as written, claims a byte that is live |
| FreeListHeap.FilledRun | Allocators/FreeList.h:185-201 | one allocation fills a new 12-byte heap |
| FreeListHeap.UndercountExample | Allocators/FreeList.h:235 | freeing that block, as written, loses the header byte |
| FreeListHeap.ShortRequestTilesIff | Allocators/FreeList.h:185-227 | a request that size_type has wrapped below headerSize leaves the heap tiled if and only if it fails |
| FreeListPolicy.Policy.LowerBoundLinear | Allocators/FreeList.h:45-67 | the bisection over vector or list is the lower bound |
| FreeListPolicy.Policy.Add | Allocators/FreeList.h:75-104 | add in place, for vector, list and map alike, is the insertion on the chunk sequence; no sum wraps |
| FreeListPolicy.Policy.TakeFirstFit | Allocators/FreeList.h:106-123 | the search and erase of all three storages take the same chunk |
| FreeListPolicy.Policy.FreeAll | Allocators/FreeList.h:125-129 | afterwards the list is the single chunk |
| FreeListPolicy.OneListPerMap | Allocators/FreeList.h:261-266 | an ordered map represents one chunk sequence only, so the storages' contracts determine their answers |
| FreeListPolicy.FromIsLowerBound | Allocators/FreeList.h:69-73 | map lower_bound finds the entry the linear lower bound finds |
| FreeListPolicy.NextEntry | Allocators/FreeList.h:89-94 | the map's next entry is the next chunk of the sequence |
| FreeListPolicy.PreviousEntry | Allocators/FreeList.h:98-99 | the map's previous entry is the chunk before |
| FreeListPolicy.MapJoin | Allocators/FreeList.h:95-102 | joining two map entries joins the two chunks and the sum fits size_type |
| FreeList.Allocator.constructor | Allocators/FreeList.h:167-178 | a new allocator is valid: one chunk of all bytes |
| FreeList.Allocator.Allocate | Allocators/FreeList.h:211-227 | over real memory with header words and size_type arithmetic: the step on values for the request as size_type keeps it; the state stays valid exactly under the tiling condition |
| FreeList.Allocator.WriteHeader | Allocators/FreeList.h:205-209 | the header word is in memory and every byte outside it is unchanged |
| FreeList.Allocator.ReadHeader | Allocators/FreeList.h:232-233 | deallocate reads back the size written at allocation |
| FreeList.Allocator.Deallocate | Allocators/FreeList.h:229-236 | the step on values; valid afterwards exactly under the tiling condition; no addition wraps |
| FreeList.Allocator.FreeAll | Allocators/FreeList.h:238-242 | afterwards nothing is live and all bytes are free |
| FreeList.Allocator.Store | Allocators/FreeList.h:205-209 | a client's store into its payload leaves every header intact |
| FreeList.Allocator.BytesSuffice | Allocators/FreeList.h:225 | bytesFree does not underflow |
| FreeList.Allocator.BlockKeepsHeaders | Allocators/FreeList.h:200 | a new header overwrites no other live header |
| FreeList.RequestHonouredIff | Allocators/FreeList.h:215 | the block reserved is as large as the request if and only if size_type holds sizeof(T) * count + headerSize |
| SizeTypes.SizeTIsSmallest | Allocators/AllocHelpers.h:86-103 | FindSizeT picks the smallest of the four widths that holds the bound with the reserved bits taken |
| SizeTypes.NearestPageIsLeast | Allocators/AllocHelpers.h:56-63 | nearestPageSz is a multiple of the page size, and the least one not below the request |
| SizeTypes.DecodeEncode | Allocators/FreeList.h:141-146 | a header word that fits its width reads back as written |
| SlabCache.IndexStackIff | Allocators/SlabHelper.h:14-23 | the stack addToMap builds repeats no index and stays below count if and only if count fits IndexSizeT |
| SlabCacheProofs.AllocateKeepsIff | Allocators/SlabHelper.h:74-122 | allocate keeps all list invariants if and only if count >= 2; then exactly one block, not live before, becomes live |
| SlabCacheProofs.DeallocateKeepsIff | Allocators/SlabHelper.h:141-164 | deallocate of a live block keeps them if and only if count >= 2; then exactly that block stops being live |
| SlabCacheProofs.LiveBlocksApart | Allocators/SlabMem.h:74-79 | different live pointers are blocks that do not overlap |
| SlabCacheProofs.SearchFindsOwner | Allocators/SlabHelper.h:130-155 | the two searches find the one slab that holds a live pointer and the division recovers its index |
| SlabCacheProofs.NewSlabExactlyWhenFull | Allocators/SlabHelper.h:85-86 | a new slab is made exactly when mySize == myCapacity |
| SlabCacheProofs.NewSlabKeeps | Allocators/SlabHelper.h:68-72 | a new slab adds capacity and no live block |
| SlabCacheProofs.AllocateServes | Allocators/SlabHelper.h:74-122 | allocate takes a block of the first partial slab, else of the first unused one, else the first block of a new slab; the capacity grows, by one slab, exactly when all blocks were in use |
| SlabCacheProofs.AllocateReuses | Allocators/SlabHelper.h:104-164 | a block given back to the first partial slab, which stays in use, is handed out next, and the two calls leave the cache as it was |
| SlabCacheProofs.FreeAllKeeps | Allocators/SlabHelper.h:166-173 | freeAll leaves a good cache with no slab, no capacity and nothing live |
| SlabCacheProofs.FreeEmptyKeepsIff | Allocators/SlabHelper.h:175-179 | freeEmpty keeps the capacity exact if and only if there is no free slab or blockSize == count |
| SlabCacheProofs.FreeEmptyKeepsLive | Allocators/SlabHelper.h:175-179 | freeEmpty gives up the unused slabs and nothing else: exactly the same blocks are live, size, partial and full lists are unchanged |
| SlabCacheProofs.FreeEmptyExample | Allocators/SlabHelper.h:175-179 | a new cache of two 8-byte blocks: giving its slab up leaves capacity -6 |
| SlabCacheProofs.RunSound | Allocators/SlabHelper.h:51-173 | for count >= 2 every legal run is defined and keeps the invariant throughout |
| SlabCacheProofs.RunsSoundIff | Allocators/SlabHelper.h:103-164 | all legal runs from a new cache are sound if and only if count >= 2 |
| SlabCacheObject.BuildIndices | Allocators/SlabHelper.h:19-20 | the iota loop in IndexSizeT builds the index stack |
| SlabCacheObject.Cache.constructor | Allocators/SlabHelper.h:51-58 | a new cache is the initial state with one slab |
| SlabCacheObject.Cache.NewSlab | Allocators/SlabHelper.h:68-72 | in place what NewSlab is on values |
| SlabCacheObject.Cache.FindFreeSlab | Allocators/SlabHelper.h:74-93 | the partial list first, then the free list, which is not empty afterwards |
| SlabCacheObject.Cache.Splice | Allocators/SlabHelper.h:95-101 | the slab goes to the end of the one list and the last slab takes its place in the other |
| SlabCacheObject.Cache.Allocate | Allocators/SlabHelper.h:103-122 | in place what allocate is on values, undefined in the same cases |
| SlabCacheObject.Cache.SearchStore | Allocators/SlabHelper.h:130-139 | the loop from the back finds the last slab of the list that holds the pointer |
| SlabCacheObject.Cache.Deallocate | Allocators/SlabHelper.h:141-164 | in place what deallocate is on values, undefined in the same cases |
| SlabCacheObject.Cache.FreeAll | Allocators/SlabHelper.h:166-173 | in place what freeAll is on values |
| SlabCacheObject.Cache.FreeEmpty | Allocators/SlabHelper.h:175-179 | in place what freeEmpty is on values |
| SlabMem.RouteStableIff | Allocators/SlabMem.h:129-155 | deallocate takes the route of the allocation, after caches were added, if and only if it came from a cache or no added one is large enough |
| SlabMem.RouteExample | Allocators/SlabMem.h:129-155 | 32 bytes from operator new are taken to a cache once one of 64-byte blocks is added |
| SlabMemRuns.CallKeeps | Allocators/SlabMem.h:110-155 | every legal addCache, allocate and deallocate is defined and keeps all caches good, their slabs apart and every pointer with one owner; a cache is added only with 2 to 65536 blocks a slab and while no block of operator new is out that it would be large enough for |
| SlabMemRuns.BucketsSound | Allocators/SlabMem.h:110-155 | in every run of such calls, with frees that repeat their byte count, a pointer that is out from a cache lies in the slabs of exactly the cache it is routed to, and is live there |
| SlabMem.PageCountIff | Allocators/SlabMem.h:110-115 | addCache never makes fewer blocks than asked for, and makes the two a cache needs exactly when two are asked for or one of at most half a page |
| SlabMem.PageCountFills | Allocators/SlabMem.h:110-115 | the blocks of a slab fill the fewest whole pages that hold the requested ones: one block more would not fit them |
| SlabMem.Interface.AddCache | Allocators/SlabMem.h:110-115 | one new cache at the end, the others untouched |
| SlabMem.Interface.Find | Allocators/SlabMem.h:135-137 | the loop stops at the first bucket that is large enough |
| SlabMem.Interface.Allocate | Allocators/SlabMem.h:129-141 | the routed cache allocates, no other changes |
| SlabMem.Interface.Deallocate | Allocators/SlabMem.h:143-155 | the routed cache takes the block back, no other changes |
| ForeignSlab.AlwaysPartition | Allocators/ImplSlabMulti.h:86-126 | under any interleaving of owner pops and pushes, locked foreign pushes and merges, the available, foreign and live indices partition 0..count-1 |
| ForeignSlab.AlwaysPartitionFromNew | Allocators/ImplSlabMulti.h:50-56 | the same for a slab as its constructor makes it |
| ForeignSlab.PartitionIff | Allocators/ImplSlabMulti.h:42-43 | counting every index once is the same as two duplicate-free lists and a live set that share nothing and cover 0..count-1 |
| ForeignSlab.MergeConserves | Allocators/ImplSlabMulti.h:120-126 | whatever other threads do during a merge, the foreign list is appended in order and emptied |
| ForeignSlab.SizeIsLive | Allocators/ImplSlabMulti.h:86-94 | the size read under the lock is the number of live indices, and empty means none |
| ForeignSlabProgress.MergeEnds | Allocators/ImplSlabMulti.h:120-126 | a merge under way ends after one step for each index still to copy and two more, with all of them in order behind the owner's own |
| ForeignSlabProgress.LockComesFree | Allocators/ImplSlabMulti.h:113-126 | whoever has the spin lock lets it go after at most foreigns + 2 steps |
| ForeignSlabProgress.ForeignFreeEnds | Allocators/ImplSlabMulti.h:106-118 | from every state a free by another thread comes to its end in some run of at most foreigns + 5 steps, its index in the foreign list and no longer live |
| ForeignSlabProgress.MergeIsMade | Allocators/ImplSlabMulti.h:120-126 | from every state some run makes a whole merge |
| ForeignSlabProgress.OwnerTakesBack | Allocators/ImplSlabMulti.h:99-112 | the index the owner gives back is the one it takes next, and the two leave the slab as it was |
| MultiCacheProofs.AllocateSound | Allocators/ImplSlabMulti.h:288-326 | allocate answers if and only if the active slab has an index of its own; one block, not live before, becomes live and all counters stay exact |
| MultiCacheProofs.RoomAfterAllocateIff | Allocators/ImplSlabMulti.h:294-310 | the next allocate has no index if and only if this one took the last, nothing foreign is there to merge and the slab in front has none of its own |
| MultiCacheProofs.DeallocateSound | Allocators/ImplSlabMulti.h:328-389 | with no other call under way, a live block freed by any thread stops being live and nothing else changes, through every branch |
| MultiCacheProofs.DeallocateElsewhere | Allocators/ImplSlabMulti.h:351-357 | a pointer of no slab here changes nothing and gives false |
| MultiCacheProofs.FindNoneIff | Allocators/ImplSlabMulti.h:340-361 | the circular search fails exactly when no slab holds the pointer |
| MultiCacheProofs.FindsOwner | Allocators/ImplSlabMulti.h:104-111 | it finds the only slab that holds a live pointer and the division recovers the index |
| MultiCacheProofs.CircleVisitsOnce | Allocators/ImplSlabMulti.h:340-361 | the search order visits every slab exactly once |
| MultiCacheProofs.SpliceBothRotates | Allocators/ImplSlabMulti.h:208-227 | both vectors rotate by one between the active place and the slab; both iterators still name the same slab and memory |
| MultiCacheProofs.SpliceBothKeeps | Allocators/ImplSlabMulti.h:222-227 | the multiset of pairs of slab and memory is unchanged and so are the live blocks |
| MultiCacheProofs.MemToDispatchKeeps | Allocators/ImplSlabMulti.h:237-271 | giving up an unused slab in any branch keeps the invariant, with capacity count * slabs, and every live block |
| MultiCacheProofs.RefillKeeps | Allocators/ImplSlabMulti.h:294-321 | merging, stepping back or adding a slab keeps the invariant and the live blocks |
| MultiCacheInterleavings.StepKeepsIff | Allocators/ImplSlabMulti.h:288-389 | one step of any call, with others under way and another thread perhaps under the exclusive lock, leaves the cache good, with the live blocks the call is to leave, if and only if the condition of that step holds |
| MultiCacheInterleavings.AllInterleavings | Allocators/ImplSlabMulti.h:288-389 | any number of threads, every interleaving of lock-free accesses, locked parts and effects: good at every moment if and only if each of these conditions holds when its step is taken |
| MultiCacheStepProofs.MoveStepKeepsIff | Allocators/ImplSlabMulti.h:371-372 | entering the move after the shared lock was released is good if and only if the place is at or behind the active one, which is not the last |
| MultiCacheStepProofs.ReleaseStepKeepsIff | Allocators/ImplSlabMulti.h:380-381 | entering the release after the shared lock was released is good if and only if the slab there is unused at that moment and not the only one |
| MultiCacheStepProofs.PopStepKeepsIff | Allocators/ImplSlabMulti.h:99-104 | the owner's pop, whatever section is under way and however old what it read is, is good if and only if the slab outlives the section and the address computed is that of the block popped |
| MultiCacheStepProofs.SpliceEffectKeeps | Allocators/ImplSlabMulti.h:209-227 | each effect of spliceBoth leaves what the vectors and iterators will be in the end |
| MultiCacheStepProofs.GiveEffectKeeps | Allocators/ImplSlabMulti.h:237-271 | so does each effect of memToDispatch |
| MultiCacheStepProofs.SpliceAtStart | Allocators/ImplSlabMulti.h:209-227 | begun at a place that is not in front of the active one, the effects add up to the rotation of both vectors |
| MultiCacheStepProofs.GiveAtStart | Allocators/ImplSlabMulti.h:237-271 | the effects of each branch add up to memToDispatch as one step |
| MultiCacheStepProofs.PopCompletes | Allocators/ImplSlabMulti.h:99-104 | a pop during a section reaches the place where its slab will be, or leaves no trace |
| MultiCacheInterleavings.PopInsideSpliceIff | Allocators/ImplSlabMulti.h:209-227 | a pop of what is up to date, inside spliceBoth, is good if and only if it does not fall after the memmove, after the placement new or after the pointer is placed |
| MultiCacheInterleavings.PopInsideGiveBehindFits | Allocators/ImplSlabMulti.h:244-250 | inside the branch of memToDispatch for a slab behind the active one it is always good |
| MultiCacheInterleavings.PopOutsideFits | Allocators/ImplSlabMulti.h:288-290 | so it is while no thread is under the exclusive lock |
| MultiCacheInterleavings.StaysUpToDate | Allocators/ImplSlabMulti.h:288-290 | only another thread's taking the exclusive lock can outdate what the owner has read |
| MultiCacheStepProofs.ReleaseInUseLosesBlock | Allocators/ImplSlabMulti.h:237-271 | releasing a slab in use takes a live block out of the cache |
| MultiCacheStepProofs.RefillAnyKeeps | Allocators/ImplSlabMulti.h:294-321 | the refill keeps everything even when another thread has changed which slab is active |
| MultiCacheInterleavings.DecidedMoveFits | Allocators/ImplSlabMulti.h:368-371 | a place just recorded for a move fits |
| MultiCacheInterleavings.DecidedReleaseFitsIff | Allocators/ImplSlabMulti.h:376-380 | a place just recorded for a release fits if and only if the slab is still as empty as it was read |
| MultiCacheInterleavings.MoveStaysFit | Allocators/ImplSlabMulti.h:371-372 | only another thread's exclusive section can spoil a place for a move |
| MultiCacheInterleavings.ReleaseStaysFit | Allocators/ImplSlabMulti.h:380-381 | only another thread's exclusive section or the owner's pop of that slab can spoil a place for a release |
| MultiCacheSerial.AllocateAlone | Allocators/ImplSlabMulti.h:288-326 | the steps of an allocate with nobody else under way are allocate as one step |
| MultiCacheSerial.DeallocateAlone | Allocators/ImplSlabMulti.h:328-389 | the steps of a deallocate with nobody else under way are deallocate as one step |
| MultiCacheSerial.FinishesSection | Allocators/ImplSlabMulti.h:208-271 | a section under way comes to its end in as many steps as it has effects left, whatever the other threads are at |
| MultiCacheSerial.SerialRun | Allocators/ImplSlabMulti.h:288-389 | every run of calls that do not overlap is an interleaving that ends in the same cache |
| MultiCacheOverlaps.StaleMoveRun | Allocators/ImplSlabMulti.h:365-373 | two threads free the two blocks of a slab and both move it: the active iterator is past the end and the next allocate uses it |
| MultiCacheOverlaps.StaleReleaseRun | Allocators/ImplSlabMulti.h:376-382 | the owner takes a block from a slab that another thread has decided to release: the memory of the live block is lost |
| MultiCacheOverlaps.PopInsideRun | Allocators/ImplSlabMulti.h:209-220 | the owner pops between the memmove and the placement new of another thread's move: the pop is lost and the next allocate computes the same address again |
| MultiCacheRuns.AllRuns | Allocators/ImplSlabMulti.h:288-389 | in every run of calls that do not overlap, with frees by any thread, partitions, capacity and size are exact; the next allocate is undefined if and only if the active slab has no index of its own |
| MultiCacheRuns.GivesUpIff | Allocators/ImplSlabMulti.h:376-378 | the release guard fires if and only if the block is the last in use in the active slab, there is another slab and all others are full |
| MultiCacheRuns.RoomAfterDeallocateIff | Allocators/ImplSlabMulti.h:365-382 | after a deallocate that overlaps no other call the active slab has an index if and only if the guard did not fire |
| MultiCacheRuns.OwnerAllocates | Allocators/ImplSlabMulti.h:288-326 | owner-only: never undefined, and every slab at or before the active one keeps a free index |
| MultiCacheRuns.OwnerFreesIff | Allocators/ImplSlabMulti.h:365-382 | owner-only: deallocate keeps that if and only if the guard does not fire |
| MultiCacheRuns.OnlyTheActiveBranch | Allocators/ImplSlabMulti.h:242-270 | owner-only: the guard fires only for slab 0 while it is active, with all others full |
| MultiCacheRuns.ReleaseThenUndefined | Allocators/ImplSlabMulti.h:261-270 | after a release the next allocate pops an empty vector |
| MultiCacheRuns.ReleaseDropsMemory | Allocators/ImplSlabMulti.h:237-271 | a release takes exactly that slab's memory out of the cache and count off the capacity |
| MultiCacheRuns.OwnerRunKeeps | Allocators/ImplSlabMulti.h:288-389 | every owner-only run without a release is defined to its end and keeps the active-slab invariant |
| MultiCacheOrder.MovesInFrontIff | Allocators/ImplSlabMulti.h:367-373 | unless it is given up, the slab that takes a block back stands before the active place afterwards if and only if it did before, or it stood behind and at most a quarter of its blocks are still in use |
| MultiCacheOrder.GivenUpIff | Allocators/ImplSlabMulti.h:375-382 | its memory leaves the cache if and only if it is not behind the active place, the block was its last in use, there is another slab and all others are full |
| MultiCacheOrder.ActiveStays | Allocators/ImplSlabMulti.h:222-271 | deallocate leaves the same slab active unless it gives that one up; then the last place becomes active |
| MultiCacheOrder.ReleasePlaces | Allocators/ImplSlabMulti.h:237-271 | which slab stands where after one is given up: in front of the active place the order is kept, elsewhere the last slab takes its place |
| MultiCacheOrder.AllocateOrder | Allocators/ImplSlabMulti.h:294-321 | which place and which memory are active after allocate; a new slab takes the place of the used-up one, which goes to the end |
| MultiCacheOrder.OwnerReuses | Allocators/ImplSlabMulti.h:99-118 | the block its owner gives back to the active slab is the one its next allocate takes, and if the slab still had an index the two calls leave the cache as it was |
| MultiCacheDepartures.ReleaseRun | Allocators/ImplSlabMulti.h:376-382 | four owner-only calls on a cache of the largest class, after which every allocate is undefined |
| MultiCacheDepartures.ForeignRun | Allocators/ImplSlabMulti.h:306-310 | six calls on a cache of the largest class, two of them foreign frees, after which every allocate is undefined although a foreign index is there |
| MultiCacheObject.Cache.constructor | Allocators/ImplSlabMulti.h:167-180 | a new cache is the initial state over one block of the dispatcher |
| MultiCacheObject.Cache.AddCache | Allocators/ImplSlabMulti.h:229-235 | a slab with the dispatcher's index stack for the class, and a block not handed out before, at the end of both vectors |
| MultiCacheObject.Cache.Splice | Allocators/ImplSlabMulti.h:209-220 | shifting up and writing back is the rotation |
| MultiCacheObject.Cache.SpliceBoth | Allocators/ImplSlabMulti.h:222-227 | in place what it is on values |
| MultiCacheObject.Cache.MemToDispatch | Allocators/ImplSlabMulti.h:237-271 | in place, three branches, what it is on values |
| MultiCacheObject.Cache.MergeForeigns | Allocators/ImplSlabMulti.h:120-126 | the loop appends all foreign indices and leaves none |
| MultiCacheObject.Cache.Allocate | Allocators/ImplSlabMulti.h:288-326 | in place what allocate is on values; the dispatcher gives out a block exactly when one is needed |
| MultiCacheObject.Cache.Search | Allocators/ImplSlabMulti.h:340-361 | the loop with its moving end terminates, tries the places of the circle in order, each once, and finds what Find finds |
| MultiCacheObject.Cache.TakeBack | Allocators/ImplSlabMulti.h:106-118 | the index goes to the list of the calling thread's kind |
| MultiCacheObject.Cache.SizeOf | Allocators/ImplSlabMulti.h:89-94 | the blocks of the slab in use |
| MultiCacheObject.Cache.Guards | Allocators/ImplSlabMulti.h:368-378 | the two guards decide what Decide does on values |
| MultiCacheObject.Cache.Settle | Allocators/ImplSlabMulti.h:365-382 | size, guards and the section they lead to, with no other thread's step in between |
| MultiCacheObject.Cache.Deallocate | Allocators/ImplSlabMulti.h:328-389 | in place what deallocate is on values, with no other thread's step in between |
| Dispatcher.Tables | Allocators/SlabMultiDispatcher.h:22-39 | the size classes and their block counts; each class fills a slab exactly and has at least two blocks |
| Dispatcher.BuildCaches | Allocators/SlabMultiDispatcher.h:22-28 | the loop builds the doublings up to the largest class |
| Dispatcher.BuildBlocksPer | Allocators/SlabMultiDispatcher.h:30-36 | the loop divides the slab size by each class |
| Dispatcher.BuildIndicies | Allocators/SlabMultiDispatcher.h:94-106 | each class is paired with its full index stack |
| Dispatcher.LookUp | Allocators/SlabMultiDispatcher.h:70-77 | the stack of the first class that is large enough; the exception exactly when there is none |
| Dispatcher.GlobalDispatch.GetIndicies | Allocators/SlabMultiDispatcher.h:70-77 | for the block size of a class, the stack of exactly the blocks a slab of it has |
| Dispatcher.ClassIndices | Allocators/SlabMultiDispatcher.h:70-106 | for every class that stack has exactly the indices of its blocks |
| Dispatcher.BlocksTileIff | Allocators/SlabMultiDispatcher.h:81-91 | an address is in a superblock if and only if it is in one of the blocks cut from them |
| Dispatcher.HandedOutOnce | Allocators/SlabMultiDispatcher.h:54-68 | blocks in use are different, do not overlap, and are not on the stack |
| Dispatcher.GlobalDispatch.constructor | Allocators/SlabMultiDispatcher.h:45-52 | four superblocks, nothing handed out |
| Dispatcher.GlobalDispatch.CutUp | Allocators/SlabMultiDispatcher.h:85-88 | the inner loop pushes the blocks of one superblock |
| Dispatcher.GlobalDispatch.RequestMem | Allocators/SlabMultiDispatcher.h:81-91 | the blocks of the new superblocks are added and totalSBlocks counts them |
| Dispatcher.GlobalDispatch.GetBlock | Allocators/SlabMultiDispatcher.h:54-62 | a block that is not in use and overlaps none in use; more superblocks only when the stack was empty |
| Dispatcher.GlobalDispatch.ReturnBlock | Allocators/SlabMultiDispatcher.h:64-68 | the block is on the stack again |
| MultiSystem.OneHolder | Allocators/SlabMulti.h:91-111 | among all classes of all threads at most one cache holds an address |
| MultiSystem.SystemAllocate | Allocators/SlabMulti.h:59-81 | an allocation hands out a block that was live nowhere and changes no other live block |
| MultiSystem.SystemDeallocate | Allocators/SlabMulti.h:84-111 | a block given back to its cache stops being live and all others stay, for all threads together |
| MultiSystemSteps.SystemStepKeepsIff | Allocators/SlabMulti.h:58-117 | with calls overlapping on all caches, a step keeps its cache as it is to be if and only if its condition holds; all caches are then good, no two manage the same memory, and the live blocks of all follow the one call |
| MultiSystemSteps.AllSystemRuns | Allocators/SlabMulti.h:58-117 | from no threads at all, threads registering and calls overlapping in any way: good at every moment if and only if each step's condition holds |
| MultiSystemSteps.OneHolderNow | Allocators/SlabMulti.h:91-111 | at any such moment at most one cache will hold an address once the sections under way are completed |
| MultiSystemSteps.RegisterKeeps | Allocators/SlabMulti.h:39-42 | a new thread's bucket keeps all that and changes no live block |
| MultiInterface.ClassIff | Allocators/SlabMulti.h:44-54 | operator new is used exactly above the largest class; otherwise the class is the smallest that is large enough |
| MultiInterface.HolderFreed | Allocators/SlabMulti.h:91-111 | whichever bucket answers, it is the one owner, and the index is foreign exactly when the caller is not its thread |
| MultiInterface.Interface.constructor | Allocators/SlabMulti.h:30-33 | no buckets |
| MultiInterface.Interface.FindBucket | Allocators/SmpContainer.h:105-111 | the search by thread id fails exactly when the thread has no bucket |
| MultiInterface.Interface.FindCacheIdx | Allocators/SlabMulti.h:44-54 | the loop finds the first class that is large enough |
| MultiInterface.Interface.RegisterThread | Allocators/SlabMulti.h:39-42 | one bucket at the end with new caches; no live block changes |
| MultiInterface.Interface.MakeCaches | Allocators/ImplSlabMulti.h:404-410 | one new cache for each class, over blocks not handed out before |
| MultiInterface.Interface.Allocate | Allocators/SlabMulti.h:58-81 | from the caller's own bucket, made first if missing; the block was live nowhere; fails exactly when that cache has no index |
| MultiInterface.Interface.DeallocateIn | Allocators/ImplSlabMulti.h:429-436 | one bucket takes the block back if its cache of the class holds it, otherwise it is unchanged |
| MultiInterface.Interface.DeallocateInOthers | Allocators/SlabMulti.h:105-111 | the loop over the other buckets gives the block to its owner as a foreign index |
| MultiInterface.Interface.GiveBack | Allocators/SlabMulti.h:91-111 | own bucket first, then the others: the one owner gets the block, foreign exactly when the caller is another thread |
| MultiInterface.Interface.Deallocate | Allocators/SlabMulti.h:83-117 | called by any thread, as one step, the index returns to the one owning slab, marked foreign exactly when the caller is not the bucket's thread; all other caches are unchanged; a caller without a bucket gets one |
| LinkedList.ListT.constructor | Allocators/AllocHelpers.h:199-207 | two sentinels that spell the empty list |
| LinkedList.ListT.OneChain | Allocators/AllocHelpers.h:199-207 | whatever sequence the links spell is the chain |
| LinkedList.ListT.InsertAt | Allocators/AllocHelpers.h:248-258 | the node stands before the iterator and nothing else moved |
| LinkedList.ListT.Begin | Allocators/AllocHelpers.h:262 | the first place after the head |
| LinkedList.ListT.End | Allocators/AllocHelpers.h:263 | the end sentinel |
| LinkedList.ListT.Advance | Allocators/AllocHelpers.h:169-174 | one place on in the list, or still at the end |
| LinkedList.ListT.Back | Allocators/AllocHelpers.h:264 | the last element |
| LinkedList.ListT.Size | Allocators/AllocHelpers.h:265 | the number of elements |
| LinkedList.ListT.Empty | Allocators/AllocHelpers.h:266 | whether there are none |
| LinkedList.ListT.Splice | Allocators/AllocHelpers.h:269-277 | exactly one node moves, within one list or between two that share no node, all other order and the total size kept; the lists are good afterwards if and only if pos is not the node itself |
| LinkedList.ListT.EmplaceBack | Allocators/AllocHelpers.h:279-284 | the contents with the element at the end |
| LinkedList.ListT.Emplace | Allocators/AllocHelpers.h:286-291 | the contents with the element before the iterator |
| LinkedList.ListT.Erase | Allocators/AllocHelpers.h:293-302 | the contents without that element |
| LinkedList.ListT.Clear | Allocators/AllocHelpers.h:304-316 | the loop ends, deletes every node once and in order, and the list is empty |

## Left out

- Memory orders weaker than sequential consistency, false-sharing padding and the thread-local map behind the index: each thread's entry is part of the state.
- `try_lock_shared` and `try_lock_shared_for` (`Allocators/SharedMutex.h`, lines 141-164): the first returns the expected value of the compare-exchange, the second is a stub.
- The thread id stored beside a slot (`cf.id`, `f.id`): it is written and never read.
- Destroying a mutex while threads are registered (`Allocators/TMP.h`, lines 127-133 and 143-145), and `unregister_thread` without a slot, which reads slot -1.
- FreeList.Allocator.Allocate: requires that sizeof(T) * count + headerSize as size_type keeps it is at least headerSize; below that the source writes a wrapped size into a header that need not fit the chunk. `FreeListHeap.ShortRequestTilesIff` states what becomes of the chunks and blocks.
- `bestFit` (a stub), and clients that free twice or free what was not allocated.
- Sizes and capacities of the slab caches are unbounded integers; the source keeps them in `size_t`, where the subtraction in `freeEmpty` could wrap.
- SlabCacheObject.Cache.Allocate: vectors that own slabs are sequences that the methods reassign, so moved-from slabs and iterator invalidation are not captured; the same holds for MultiCacheObject.Cache and MultiInterface.Interface, which owns its buckets by value.
- MultiCacheObject.Cache.Deallocate: the whole call in place has no other thread's step inside; its sections one by one, with all others in between, are the steps of MultiCacheSteps.
- MultiInterface.Interface.Deallocate: calls of different threads are taken one after the other; calls that overlap on the caches of all threads are in MultiSystemSteps, where a call is its steps on one cache, the order of the buckets in `deallocate` is left open, and a thread may be at work in several caches.
- MultiCacheSteps takes each of the owner's accesses and each change to one vector or iterator (a memmove, a swap, an erase, a pop_back) as one step; the source accesses them without synchronisation, which C++ calls a data race whatever the order. An iterator is a place until the storage moves, also where an erase in front of it makes it formally invalid; and a client may free a block that allocate has popped and not yet returned, which only adds runs.
- RecursiveMutexObject.Mutex.Registration: the slot and the reference count of the slot array change in one step; in the source they are two atomic accesses. Exclusion does not depend on the count.
- RecursiveMutexCalls.UseCountAllows: depends on that one step. In the source a slot can be 0 while the thread that left it still holds its reference, and a caller then does not try; it does once that thread has taken its next step.
- The copy and move constructors of `Cache` (`Allocators/ImplSlabMulti.h`, lines 182-204), which do not carry `actMem` over: the buckets' caches are made in place.
- `returnBlock` is modelled and has no caller in the source.
- `addCache2` of `Allocators/SlabMem.h`, which repeats `addCache` with doubled block sizes.
- `freeFunc` and `info` of `Allocators/SlabMem.h`, `SlabObj.h`, `Slab.h` and the construction templates; reference counts and assignment of `SlabMulti`.
- ListT move construction and the destructor, whose loop is that of `clear`; `Linear.h`, `Pool.h`, `Buddy.h`, `Bench/`, `Tests/`.
- `SmpContainer.h` apart from the search and the loop over buckets: it wraps a container in the lock whose exclusion is proved here.
- What `operator new` and the page-size query return: parameters.
