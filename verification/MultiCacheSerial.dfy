/** Calls on a per-thread cache that do not overlap: their accesses and effects add up to allocate and deallocate
    as one step, so every run of MultiCacheRuns is one of the interleavings. */
module MultiCacheSerial {
  import opened Common
  import opened MultiCache
  import opened MultiCacheProofs
  import opened MultiCacheSteps
  import opened MultiCacheStepProofs
  import SC = SlabCache
  import CacheRuns = MultiCacheRuns

  /** Thread t of n is at the given place in a call, and all others are outside. */
  function At(c: State, gen: nat, n: nat, t: nat, ph: Phase): World
    requires t < n
  {
    World(c, gen, Quiet(n)[t := ph], Unheld)
  }

  function Outside(c: State, gen: nat, n: nat): World {
    World(c, gen, Quiet(n), Unheld)
  }

  lemma AtMoves(c: State, gen: nat, n: nat, t: nat, ph: Phase, ph': Phase)
    requires t < n
    ensures Go(At(c, gen, n, t, ph), t, ph') == At(c, gen, n, t, ph')
    ensures At(c, gen, n, t, Idle) == Outside(c, gen, n)
    ensures Unlocked(At(c, gen, n, t, ph)) <==> !HoldsShared(ph)
    ensures At(c, gen, n, t, ph).threads[t] == ph
  {
    var w := At(c, gen, n, t, ph);
    assert w.threads[t] == ph;
    assert forall u :: 0 <= u < n && u != t ==> w.threads[u] == Idle;
    assert Quiet(n)[t := Idle] == Quiet(n);
  }

  // ----- allocate

  lemma CountsUp(c: State, gen: nat, n: nat) returns (sched: Schedule)
    requires n > 0
    ensures Reach(At(c, gen, n, 0, CountingUp), sched, Outside(c.(size := c.size + 1), gen, n))
  {
    var end := Outside(c.(size := c.size + 1), gen, n);
    AtMoves(c, gen, n, 0, CountingUp, Idle);
    AtMoves(c.(size := c.size + 1), gen, n, 0, CountingUp, Idle);
    sched := Before(At(c, gen, n, 0, CountingUp), Advance(0), end, [], end);
  }

  lemma RefillIgnoresSize(s: State, mem: int, size: int)
    requires Shape(s)
    ensures MultiCache.Refill(s.(size := size), mem) == MultiCache.Refill(s, mem).(size := size)
    ensures MultiCache.Refill(s, mem).size == s.size
  {}

  lemma FreshAfterPop(s: State, mem: int)
    requires Shape(s) && HasRoom(s) && Fresh(s, mem)
    ensures Fresh(PopAt(s, s.actBlock), mem)
  {
    PopFresh(s, mem);
    assert View(PopAt(s, s.actBlock)) == View(MultiCache.Pop(s));
  }

  /** After the pop: the refill if the slab is empty, and the count. */
  lemma FinishesAllocate(s: State, gen: nat, n: nat, mem: int) returns (sched: Schedule)
    requires Shape(s) && n > 0 && HasRoom(s) && (NeedsBlock(s) ==> Fresh(s, mem))
    ensures Allocate(s, mem).Done?
    ensures Reach(At(PopAt(s, s.actBlock), gen, n, 0, Popped(s.actBlock)), sched,
                  Outside(Allocate(s, mem).state, gen, n))
  {
    hide Fresh, MultiCache.Refill;
    var c := PopAt(s, s.actBlock);
    var r := if HasRoom(c) then c else MultiCache.Refill(c, mem);
    var end := Outside(Allocate(s, mem).state, gen, n);
    RefillIgnoresSize(MultiCache.Pop(s), mem, s.size);
    assert c == MultiCache.Pop(s).(size := s.size);
    assert Allocate(s, mem).state == r.(size := r.size + 1);
    sched := CountsUp(r, gen, n);
    if !HasRoom(c) {
      if NeedsBlock(s) {
        FreshAfterPop(s, mem);
      }
      AtMoves(r, gen, n, 0, Refilling, CountingUp);
      AtMoves(c, gen, n, 0, Refilling, CountingUp);
      sched := Before(At(c, gen, n, 0, Refilling), Action.Refill(mem, false), At(r, gen, n, 0, CountingUp), sched, end);
    }
    var ph := if HasRoom(c) then CountingUp else Refilling;
    AtMoves(c, gen, n, 0, Popped(s.actBlock), ph);
    sched := Before(At(c, gen, n, 0, Popped(s.actBlock)), Advance(0), At(c, gen, n, 0, ph), sched, end);
  }

  /** allocate with nobody else under way is allocate as one step. */
  lemma AllocateAlone(s: State, gen: nat, n: nat, mem: int) returns (sched: Schedule)
    requires Shape(s) && n > 0 && HasRoom(s) && (NeedsBlock(s) ==> Fresh(s, mem))
    ensures Allocate(s, mem).Done?
    ensures Reach(Outside(s, gen, n), sched, Outside(Allocate(s, mem).state, gen, n))
  {
    sched := FinishesAllocate(s, gen, n, mem);
    hide Allocate, Fresh, PopAt, Reach, Legal;
    var b := s.actBlock;
    var end := Outside(Allocate(s, mem).state, gen, n);
    var placed, read := Placed(b), Read(b, s.ptrs[s.actMem]);
    var last := Last(b, s.ptrs[s.actMem], LastOf(s.slabs[b].availible));
    AtMoves(s, gen, n, 0, Idle, placed);
    AtMoves(s, gen, n, 0, placed, read);
    AtMoves(s, gen, n, 0, read, last);
    AtMoves(s, gen, n, 0, last, Popped(b));
    AtMoves(PopAt(s, b), gen, n, 0, last, Popped(b));
    sched := Before(At(s, gen, n, 0, last), Advance(0), At(PopAt(s, b), gen, n, 0, Popped(b)), sched, end);
    sched := Before(At(s, gen, n, 0, read), Advance(0), At(s, gen, n, 0, last), sched, end);
    sched := Before(At(s, gen, n, 0, placed), Advance(0), At(s, gen, n, 0, read), sched, end);
    sched := Before(Outside(s, gen, n), Action.Alloc, At(s, gen, n, 0, placed), sched, end);
  }

  // ----- deallocate

  lemma CountsDown(c: State, gen: nat, n: nat, t: nat, locked: bool) returns (sched: Schedule)
    requires t < n
    ensures Reach(At(c, gen, n, t, CountingDown(locked)), sched, Outside(c.(size := c.size - 1), gen, n))
  {
    var end := Outside(c.(size := c.size - 1), gen, n);
    AtMoves(c, gen, n, t, CountingDown(locked), Idle);
    AtMoves(c.(size := c.size - 1), gen, n, t, CountingDown(locked), Idle);
    sched := Before(At(c, gen, n, t, CountingDown(locked)), Advance(t), end, [], end);
  }

  /** The effects still to come, and letting the lock go, whatever the other threads are at. */
  lemma {:induction false} FinishesSection(w: World) returns (sched: Schedule)
    requires w.section.Held? && w.section.t < |w.threads| && w.threads[w.section.t].Inside?
    requires Underway(w.cache, w.section.job, w.section.done)
    ensures var s := w.section;
            Reach(w, sched, World(CompletedBy(w.cache, s.job, s.done, s.val, s.ptr), w.gen,
                                  w.threads[s.t := CountingDown(false)], Unheld))
    decreases Effects(w.section.job) - w.section.done
  {
    hide Underway, CompletedBy, SpliceEffect, GiveEffect;
    var s := w.section;
    DoneAtMost(w.cache, s.job, s.done);
    var c := CompletedBy(w.cache, s.job, s.done, s.val, s.ptr);
    var end := World(c, w.gen, w.threads[s.t := CountingDown(false)], Unheld);
    if s.done == Effects(s.job) {
      CompletedAtEnd(w.cache, s.job, s.val, s.ptr);
      sched := Before(w, Advance(s.t), end, [], end);
    } else if s.job.Splice? {
      SpliceEffectKeeps(w.cache, s.job.a, s.job.it, s.done, s.val, s.ptr);
      var (c, val, ptr) := SpliceEffect(w.cache, s.job.a, s.job.it, s.done, s.val, s.ptr);
      var mid := w.(cache := c, section := s.(done := s.done + 1, val := val, ptr := ptr));
      sched := FinishesSection(mid);
      sched := Before(w, Advance(s.t), mid, sched, end);
    } else {
      GiveEffectKeeps(w.cache, s.job, s.done, s.val, s.ptr);
      var mid := w.(cache := GiveEffect(w.cache, s.job, s.done), section := s.(done := s.done + 1));
      sched := FinishesSection(mid);
      sched := Before(w, Advance(s.t), mid, sched, end);
    }
  }

  lemma DoneAtMost(c: State, job: Job, done: nat)
    requires Underway(c, job, done)
    ensures done <= Effects(job)
  {}

  /** The whole section of a move, with no other step in between. */
  lemma RunsMove(w: World, t: nat, it: nat) returns (sched: Schedule)
    requires Unlocked(w) && t < |w.threads| && w.threads[t] == Moving(it, w.gen)
    requires Shape(w.cache) && w.cache.actBlock <= it < |w.cache.slabs|
    ensures Reach(w, sched, World(SpliceBoth(w.cache, it), w.gen, w.threads[t := CountingDown(false)], Unheld))
  {
    hide MultiCache.SpliceBoth, CompletedBy, Underway;
    var mid := Begin(w, t, Splice(w.cache.actBlock, it));
    var end := World(SpliceBoth(w.cache, it), w.gen, w.threads[t := CountingDown(false)], Unheld);
    SpliceAtStart(w.cache, it, NOTHING, 0);
    sched := FinishesSection(mid);
    assert mid.threads[t := CountingDown(false)] == end.threads;
    sched := Before(w, Advance(t), mid, sched, end);
  }

  lemma RunsRelease(w: World, t: nat, it: nat) returns (sched: Schedule)
    requires Unlocked(w) && t < |w.threads| && w.threads[t] == Releasing(it, w.gen)
    requires Shape(w.cache) && it < |w.cache.slabs| && |w.cache.slabs| > 1
    ensures Reach(w, sched, World(MemToDispatch(w.cache, it), w.gen, w.threads[t := CountingDown(false)], Unheld))
  {
    hide MultiCache.MemToDispatch, CompletedBy, Underway;
    var mid := Begin(w, t, GiveJob(w.cache, it));
    var end := World(MemToDispatch(w.cache, it), w.gen, w.threads[t := CountingDown(false)], Unheld);
    GiveAtStart(w.cache, it, NOTHING, 0);
    sched := FinishesSection(mid);
    assert mid.threads[t := CountingDown(false)] == end.threads;
    sched := Before(w, Advance(t), mid, sched, end);
  }

  /** The move or release, when nothing has happened since the size was read. */
  lemma CarriesOut(s: State, gen: nat, n: nat, t: nat, it: nat) returns (sched: Schedule)
    requires t < n && Shape(s) && it < |s.slabs|
    ensures var r := MultiCache.Settle(s, it);
            Reach(At(s, gen, n, t, Sized(it, InUse(s, it))), sched, Outside(r.(size := r.size - 1), gen, n))
  {
    hide MultiCache.SpliceBoth, MultiCache.MemToDispatch;
    var r, plan := MultiCache.Settle(s, it), Decide(s, it, InUse(s, it));
    var end := Outside(r.(size := r.size - 1), gen, n);
    var ph := match plan case Stay => CountingDown(true) case Move => Moving(it, gen) case Release => Releasing(it, gen);
    sched := CountsDown(r, gen, n, t, plan.Stay?);
    if !plan.Stay? {
      var inside: Schedule;
      AtMoves(s, gen, n, t, ph, Inside);
      assert Quiet(n)[t := ph][t := CountingDown(false)] == Quiet(n)[t := CountingDown(false)];
      if plan.Move? {
        inside := RunsMove(At(s, gen, n, t, ph), t, it);
      } else {
        inside := RunsRelease(At(s, gen, n, t, ph), t, it);
      }
      ReachTrans(At(s, gen, n, t, ph), inside, At(r, gen, n, t, CountingDown(false)), sched, end);
      sched := inside + sched;
    }
    AtMoves(s, gen, n, t, Sized(it, InUse(s, it)), ph);
    sched := Before(At(s, gen, n, t, Sized(it, InUse(s, it))), Advance(t), At(s, gen, n, t, ph), sched, end);
  }

  /** deallocate by thread t with nobody else under way is deallocate as one step. */
  lemma DeallocateAlone(s: State, gen: nat, n: nat, t: nat, p: int) returns (sched: Schedule)
    requires t < n && Shape(s) && (Find(s, p, 0).Some? ==> Live(s, p))
    ensures Reach(Outside(s, gen, n), sched, Outside(Deallocate(s, p, t == 0).state, gen, n))
  {
    hide MultiCache.Settle, Find, Push, Live;
    var w, end := Outside(s, gen, n), Outside(Deallocate(s, p, t == 0).state, gen, n);
    if Find(s, p, 0).None? {
      sched := Before(w, Dealloc(t, p), w, [], end);
    } else {
      var it := Find(s, p, 0).value;
      var c := Push(s, it, p, t == 0);
      sched := CarriesOut(c, gen, n, t, it);
      AtMoves(c, gen, n, t, Pushed(it), Sized(it, InUse(c, it)));
      AtMoves(c, gen, n, t, Idle, Pushed(it));
      sched := Before(At(c, gen, n, t, Pushed(it)), Advance(t), At(c, gen, n, t, Sized(it, InUse(c, it))), sched, end);
      sched := Before(w, Dealloc(t, p), At(c, gen, n, t, Pushed(it)), sched, end);
    }
  }

  // ----- runs

  /** Every run of calls that do not overlap is an interleaving, which ends in the same cache. */
  lemma {:induction false} SerialRun(s: State, calls: seq<CacheRuns.Call>, s': State, gen: nat, n: nat)
    returns (sched: Schedule)
    requires Inv(s) && CacheRuns.Reach(s, calls, s') && n >= 2
    ensures Reach(Outside(s, gen, n), sched, Outside(s', gen, n)) && Inv(s')
    decreases |calls|
  {
    sched := [];
    if calls != [] {
      hide Inv, CacheRuns.Apply;
      CacheRuns.CallKeeps(s, calls[0]);
      var mid := CacheRuns.Apply(s, calls[0]).value;
      var first := CallAlone(s, calls[0], gen, n);
      var rest := SerialRun(mid, calls[1..], s', gen, n);
      ReachTrans(Outside(s, gen, n), first, Outside(mid, gen, n), rest, Outside(s', gen, n));
      sched := first + rest;
    }
  }

  lemma CallAlone(s: State, c: CacheRuns.Call, gen: nat, n: nat) returns (sched: Schedule)
    requires Inv(s) && CacheRuns.Legal(s, c) && CacheRuns.Apply(s, c).Some? && n >= 2
    ensures Reach(Outside(s, gen, n), sched, Outside(CacheRuns.Apply(s, c).value, gen, n))
  {
    hide Inv, Allocate, Deallocate, Live, Fresh, HasRoom, NeedsBlock;
    GoodShape(s);
    match c
    case Alloc(mem) =>
      AllocateSound(s, mem);
      sched := AllocateAlone(s, gen, n, mem);
    case Dealloc(p, own) =>
      sched := DeallocateAlone(s, gen, n, if own then 0 else 1, p);
  }
}
