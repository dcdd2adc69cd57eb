/** The per-thread cache of Allocators/ImplSlabMulti.h under concurrency: its owner (thread 0) allocates and
    frees, any number of other threads free, and calls overlap.

    deallocate holds the shared lock while it searches, pushes, reads the slab's size and decides; it lets go of
    the lock and only then takes the exclusive one to move or release the slab, at the place it found before.
    What it does under the exclusive lock is one effect after the other: each vector and each iterator by itself.
    allocate takes no lock until the active slab is empty, so its five accesses can fall between those effects:
    the place of the slab, the memory, the last index, the pop, and whether the slab is empty now.

    An iterator is a place in the vectors, good until their storage moves. */
module MultiCacheSteps {
  import opened Common
  import opened MultiCache
  import SC = SlabCache

  /** Where a thread is; the name says what it has done last or does next. */
  datatype Phase =
    | Idle
    | Placed(b: nat)                           // allocate: has read actBlock
    | Read(b: nat, mem: int)                   // allocate: has read *actMem
    | Last(b: nat, mem: int, idx: nat)         // allocate: has read availible.back()
    | Popped(b: nat)                           // allocate: has popped, before availible.empty()
    | Refilling                                // allocate: the slab was empty, waits for the exclusive lock
    | CountingUp                               // allocate: before mySize.fetch_add
    | Pushed(it: nat)                          // deallocate: before emptyAndSize
    | Sized(it: nat, used: int)                // deallocate: before the guards
    | Moving(it: nat, gen: nat)                // deallocate: the shared lock is released, before spliceBoth
    | Releasing(it: nat, gen: nat)             // deallocate: the shared lock is released, before memToDispatch
    | Inside                                   // deallocate: under the exclusive lock
    | CountingDown(locked: bool)               // deallocate: before mySize.fetch_sub

  /** What is done under the exclusive lock: spliceBoth from the active place a, or one of the three branches of
      memToDispatch, with n slabs and active place a when it began. */
  datatype Job =
    | Splice(a: nat, it: nat)
    | GiveBehind(a: nat, it: nat, n: nat)
    | GiveFront(a: nat, it: nat, n: nat)
    | GiveActive(a: nat, it: nat, n: nat)

  /** The exclusive lock is free, or thread t holds it and has had so many effects; val and ptr are what splice
      has taken out of the two vectors. */
  datatype Section = Unheld | Held(t: nat, job: Job, done: nat, val: Slab, ptr: int)

  /** gen counts how often the vectors' storage has moved. */
  datatype World = World(cache: State, gen: nat, threads: seq<Phase>, section: Section)

  /** Alloc: a call begins. Refill: under the exclusive lock; moved: whether emplace_back gave either vector
      new storage. Dealloc: a call begins, up to the push. Advance: the next step inside a call. */
  datatype Action = Alloc | Refill(mem: int, moved: bool) | Dealloc(t: nat, p: int) | Advance(t: nat)

  type Schedule = seq<Action>

  predicate HoldsShared(ph: Phase) {
    ph.Pushed? || ph.Sized? || (ph.CountingDown? && ph.locked)
  }

  /** The exclusive lock can be taken. */
  predicate Unlocked(w: World) {
    w.section.Unheld? && forall t :: 0 <= t < |w.threads| ==> !HoldsShared(w.threads[t])
  }

  predicate WantsExclusive(ph: Phase) {
    ph.Moving? || ph.Releasing?
  }

  predicate Enabled(w: World, a: Action) {
    match a
    case Alloc => |w.threads| > 0 && w.threads[0].Idle?
    case Refill(_, _) => |w.threads| > 0 && w.threads[0].Refilling? && Unlocked(w)
    case Dealloc(t, _) => t < |w.threads| && w.threads[t].Idle? && w.section.Unheld?
    case Advance(t) =>
      && t < |w.threads| && !w.threads[t].Idle? && !w.threads[t].Refilling?
      && (WantsExclusive(w.threads[t]) ==> Unlocked(w))
      && (w.threads[t].Inside? ==> w.section.Held? && w.section.t == t)
  }

  function Go(w: World, t: nat, ph: Phase): World
    requires t < |w.threads|
  {
    w.(threads := w.threads[t := ph])
  }

  // ----- allocate

  function LastOf(a: seq<nat>): nat
    requires a != []
  {
    a[|a| - 1]
  }

  /** pop_back on the slab at place b. */
  function PopAt(s: State, b: nat): State
    requires b < |s.slabs| && s.slabs[b].availible != []
  {
    var slab := s.slabs[b];
    s.(slabs := s.slabs[b := slab.(availible := slab.availible[..|slab.availible| - 1])])
  }

  predicate Poppable(s: State, b: nat) {
    b < |s.slabs| && s.slabs[b].availible != []
  }

  /** The accesses in Slab::allocate, none of them under a lock; only the owner allocates. */
  function AllocateStep(w: World, t: nat): Option<World>
    requires t < |w.threads|
  {
    match w.threads[t]
    case Placed(b) =>
      if w.cache.actMem < |w.cache.ptrs| then Some(Go(w, t, Read(b, w.cache.ptrs[w.cache.actMem]))) else None
    case Read(b, mem) =>
      if Poppable(w.cache, b) then Some(Go(w, t, Last(b, mem, LastOf(w.cache.slabs[b].availible)))) else None
    case Last(b, mem, idx) =>
      if Poppable(w.cache, b) then Some(Go(w.(cache := PopAt(w.cache, b)), t, Popped(b))) else None
    case Popped(b) =>
      if b < |w.cache.slabs|
      then Some(Go(w, t, if w.cache.slabs[b].availible == [] then Refilling else CountingUp))
      else None
    case _ => None
  }

  /** Whether the refill puts a new slab in. */
  predicate Adds(s: State)
    requires Shape(s)
  {
    Full(s.slabs[s.actBlock]) && s.actBlock == 0
  }

  function RefillStep(w: World, mem: int, moved: bool): World
    requires |w.threads| > 0 && Shape(w.cache)
  {
    var gen := if Adds(w.cache) && moved then w.gen + 1 else w.gen;
    Go(w.(cache := MultiCache.Refill(w.cache, mem), gen := gen), 0, CountingUp)
  }

  // ----- deallocate under the shared lock

  /** The search and the push; a pointer that is not found ends the call. */
  function DeallocStep(w: World, t: nat, p: int): World
    requires t < |w.threads| && Shape(w.cache)
  {
    match Find(w.cache, p, 0)
    case None => w
    case Some(it) => Go(w.(cache := Push(w.cache, it, p, t == 0)), t, Pushed(it))
  }

  function Decided(w: World, t: nat, it: nat, used: int): World
    requires t < |w.threads|
  {
    match Decide(w.cache, it, used)
    case Move => Go(w, t, Moving(it, w.gen))
    case Release => Go(w, t, Releasing(it, w.gen))
    case Stay => Go(w, t, CountingDown(true))
  }

  // ----- deallocate under the exclusive lock

  const NOTHING := Slab([], [])

  function Begin(w: World, t: nat, job: Job): World
    requires t < |w.threads|
  {
    Go(w.(section := Held(t, job, 0, NOTHING, 0)), t, Inside)
  }

  /** spliceBoth with the iterator to place it: reading past the end or moving a negative length is undefined. */
  function MoveStep(w: World, t: nat, it: nat, gen: nat): Option<World>
    requires t < |w.threads|
  {
    if gen == w.gen && w.cache.actBlock <= it < |w.cache.slabs|
    then Some(Begin(w, t, Splice(w.cache.actBlock, it)))
    else None
  }

  /** The branch of memToDispatch. */
  function GiveJob(s: State, it: nat): Job {
    var a, n := s.actBlock, |s.slabs|;
    if it > a then GiveBehind(a, it, n) else if it < a then GiveFront(a, it, n) else GiveActive(a, it, n)
  }

  /** memToDispatch with the iterator to place it: past the end, or the only slab, is undefined. */
  function ReleaseStep(w: World, t: nat, it: nat, gen: nat): Option<World>
    requires t < |w.threads|
  {
    if gen == w.gen && it < |w.cache.slabs| && |w.cache.slabs| > 1 then
      Some(Begin(w, t, GiveJob(w.cache, it)))
    else None
  }

  function Effects(job: Job): nat {
    match job
    case Splice(_, _) => 7
    case GiveBehind(_, _, _) => 5
    case GiveFront(_, _, _) => 5
    case GiveActive(_, _, _) => 7
  }

  /** The active place when the job is done. */
  function ActiveAfter(job: Job): int {
    match job
    case Splice(a, _) => a + 1
    case GiveBehind(a, _, _) => a
    case GiveFront(a, _, _) => a - 1
    case GiveActive(_, _, n) => n - 2
  }

  /** memmove: places pos .. it-1 are copied one up; place pos keeps what it had. */
  function Shifted<T>(l: seq<T>, pos: nat, it: nat): (r: seq<T>)
    requires pos <= it < |l|
    ensures |r| == |l|
  {
    l[..pos + 1] + l[pos..it] + l[it + 1..]
  }

  /** x at pos and places pos .. it-1 moved up over place it. */
  function Around<T>(l: seq<T>, pos: nat, it: nat, x: T): (r: seq<T>)
    requires pos <= it < |l|
    ensures |r| == |l|
  {
    l[..pos] + [x] + l[pos..it] + l[it + 1..]
  }

  /** What the layout is after so many effects; lock-free pops only change what a slab holds. */
  predicate Underway(c: State, job: Job, done: nat) {
    done <= Effects(job) &&
    match job
    case Splice(a, it) =>
      && a <= it < |c.slabs| == |c.ptrs|
      && c.actBlock == (if done < 4 then a else a + 1) && c.actMem == (if done < 7 then a else a + 1)
      && (done == 5 && a < it ==> c.ptrs[a] == c.ptrs[a + 1])
    case GiveBehind(a, it, n) =>
      && a < it < n && |c.slabs| == (if done < 4 then n else n - 1) && |c.ptrs| == (if done < 5 then n else n - 1)
      && c.actBlock == c.actMem == a
    case GiveFront(a, it, n) =>
      && it < a < n && |c.slabs| == (if done < 2 then n else n - 1) && |c.ptrs| == (if done < 3 then n else n - 1)
      && c.actBlock == (if done < 4 then a else a - 1) && c.actMem == (if done < 5 then a else a - 1)
    case GiveActive(a, it, n) =>
      && it == a < n && n > 1
      && |c.slabs| == (if done < 4 then n else n - 1) && |c.ptrs| == (if done < 5 then n else n - 1)
      && c.actBlock == (if done < 6 then a else n - 2) && c.actMem == (if done < 7 then a else n - 2)
  }

  /** The next effect of spliceBoth: take the slab out, memmove, placement new, iterator; then the pointers. */
  function SpliceEffect(c: State, a: nat, it: nat, done: nat, val: Slab, ptr: int): (State, Slab, int)
    requires Underway(c, Splice(a, it), done) && done < 7
  {
    match done
    case 0 => (c.(slabs := c.slabs[it := NOTHING]), c.slabs[it], ptr)
    case 1 => (c.(slabs := Shifted(c.slabs, a, it)), val, ptr)
    case 2 => (c.(slabs := c.slabs[a := val]), val, ptr)
    case 3 => (c.(actBlock := a + 1), val, ptr)
    case 4 => (c.(ptrs := Shifted(c.ptrs, a, it)), val, c.ptrs[it])
    case 5 => (c.(ptrs := c.ptrs[a := ptr]), val, ptr)
    case _ => (c.(actMem := a + 1), val, ptr)
  }

  /** The next effect of memToDispatch: the capacity; a swap with the last element or an erase in each vector; the
      pop_backs; the iterators. */
  function GiveEffect(c: State, job: Job, done: nat): State
    requires !job.Splice? && Underway(c, job, done) && done < Effects(job)
  {
    if done == 0 then c.(capacity := c.capacity - c.count)
    else if job.GiveFront? then
      match done
      case 1 => c.(slabs := Removed(c.slabs, job.it))
      case 2 => c.(ptrs := Removed(c.ptrs, job.it))
      case 3 => c.(actBlock := ActiveAfter(job))
      case _ => c.(actMem := ActiveAfter(job))
    else
      match done
      case 1 => c.(slabs := Swap(c.slabs, job.it, job.n - 1))
      case 2 => c.(ptrs := Swap(c.ptrs, job.it, job.n - 1))
      case 3 => c.(slabs := c.slabs[..job.n - 1])
      case 4 => c.(ptrs := c.ptrs[..job.n - 1])
      case 5 => c.(actBlock := ActiveAfter(job))
      case _ => c.(actMem := ActiveAfter(job))
  }

  /** The thread under the exclusive lock goes on, and at the end lets the lock go. */
  function InsideStep(w: World): Option<World>
    requires w.section.Held? && w.section.t < |w.threads|
  {
    var s := w.section;
    if !Underway(w.cache, s.job, s.done) then None
    else if s.done == Effects(s.job) then Some(Go(w.(section := Unheld), s.t, CountingDown(false)))
    else if s.job.Splice? then
      var (c, val, ptr) := SpliceEffect(w.cache, s.job.a, s.job.it, s.done, s.val, s.ptr);
      Some(w.(cache := c, section := s.(done := s.done + 1, val := val, ptr := ptr)))
    else Some(w.(cache := GiveEffect(w.cache, s.job, s.done), section := s.(done := s.done + 1)))
  }

  // ----- steps

  /** The next step of thread t inside a call. */
  function AdvanceStep(w: World, t: nat): Option<World>
    requires Enabled(w, Advance(t))
  {
    match w.threads[t]
    case CountingUp => Some(Go(w.(cache := w.cache.(size := w.cache.size + 1)), t, Idle))
    case CountingDown(_) => Some(Go(w.(cache := w.cache.(size := w.cache.size - 1)), t, Idle))
    case Pushed(it) => if it < |w.cache.slabs| then Some(Go(w, t, Sized(it, InUse(w.cache, it)))) else None
    case Sized(it, used) => Some(Decided(w, t, it, used))
    case Moving(it, gen) => MoveStep(w, t, it, gen)
    case Releasing(it, gen) => ReleaseStep(w, t, it, gen)
    case Inside => InsideStep(w)
    case _ => AllocateStep(w, t)
  }

  /** One step; None is a use of an element or iterator that is not there. A search or a refill with the active
      place past the end is one. */
  function Next(w: World, a: Action): Option<World>
    requires Enabled(w, a)
  {
    match a
    case Alloc => Some(Go(w, 0, Placed(w.cache.actBlock)))
    case Refill(mem, moved) => if Shape(w.cache) then Some(RefillStep(w, mem, moved)) else None
    case Dealloc(t, p) => if Shape(w.cache) then Some(DeallocStep(w, t, p)) else None
    case Advance(t) => AdvanceStep(w, t)
  }

  function Quiet(n: nat): seq<Phase> {
    seq(n, _ => Idle)
  }

  /** A new cache and n threads outside any call. */
  function Start(count: nat, blockSize: nat, mem: int, n: nat): World {
    World(Initial(count, blockSize, mem), 0, Quiet(n), Unheld)
  }

  // ----- what the states mean

  /** The vectors and iterators as they will be when the effects still to come have happened. */
  function CompletedBy(c: State, job: Job, done: nat, val: Slab, ptr: int): State
    requires Underway(c, job, done)
  {
    match job
    case Splice(a, it) =>
      c.(slabs := if done == 0 then Rotate(c.slabs, a, it)
                  else if done == 1 then Around(c.slabs, a, it, val)
                  else if done == 2 then c.slabs[a := val]
                  else c.slabs,
         ptrs := if done < 5 then Rotate(c.ptrs, a, it) else if done == 5 then c.ptrs[a := ptr] else c.ptrs,
         actBlock := a + 1, actMem := a + 1)
    case GiveFront(a, it, n) =>
      c.(capacity := if done == 0 then c.capacity - c.count else c.capacity,
         slabs := if done < 2 then Removed(c.slabs, it) else c.slabs,
         ptrs := if done < 3 then Removed(c.ptrs, it) else c.ptrs,
         actBlock := a - 1, actMem := a - 1)
    case _ =>
      c.(capacity := if done == 0 then c.capacity - c.count else c.capacity,
         slabs := if done < 2 then SwapPop(c.slabs, job.it) else c.slabs[..job.n - 1],
         ptrs := if done < 3 then SwapPop(c.ptrs, job.it) else c.ptrs[..job.n - 1],
         actBlock := ActiveAfter(job), actMem := ActiveAfter(job))
  }

  predicate SectionOk(w: World) {
    w.section.Held? ==>
      && w.section.t < |w.threads| && w.threads[w.section.t].Inside?
      && Underway(w.cache, w.section.job, w.section.done)
      && forall u :: 0 <= u < |w.threads| ==> !HoldsShared(w.threads[u])
  }

  function Completed(w: World): State
    requires SectionOk(w)
  {
    match w.section
    case Unheld => w.cache
    case Held(_, job, done, val, ptr) => CompletedBy(w.cache, job, done, val, ptr)
  }

  /** Where the slab at place b will be when the job is done; None if it is dropped or overwritten. */
  function Target(job: Job, done: nat, b: nat): Option<nat> {
    match job
    case Splice(a, it) =>
      if done >= 3 then Some(b)
      else if done == 2 then (if b == a then None else Some(b))
      else if b < a || b > it then Some(b)
      else if b < it then Some(b + 1)
      else if done == 1 then None
      else Some(a)
    case GiveFront(a, it, n) =>
      if done >= 2 || b < it then Some(b) else if b == it then None else Some(b - 1)
    case _ =>
      if done >= 2 then (if b == job.n - 1 then None else Some(b))
      else if b == job.it then None
      else if b == job.n - 1 then Some(job.it)
      else Some(b)
  }

  function Destination(w: World, b: nat): Option<nat> {
    match w.section
    case Unheld => Some(b)
    case Held(_, job, done, _, _) => Target(job, done, b)
  }

  /** What a call under way has still to add to mySize. */
  function Pending(ph: Phase): int {
    match ph
    case Idle => 0
    case Placed(_) => 0
    case Read(_, _) => 0
    case Last(_, _, _) => 0
    case Popped(_) => 1
    case Refilling => 1
    case CountingUp => 1
    case _ => -1
  }

  function Balance(threads: seq<Phase>): int {
    if threads == [] then 0 else Pending(threads[0]) + Balance(threads[1..])
  }

  /** The cache with the section under way completed and every call under way counted. */
  function Settled(w: World): State
    requires SectionOk(w)
  {
    var c := Completed(w);
    c.(size := c.size + Balance(w.threads))
  }

  /** While the shared lock is held the place that was found is in the vectors. */
  predicate PlacesOk(w: World) {
    forall t :: 0 <= t < |w.threads| ==>
      match w.threads[t]
      case Pushed(it) => it < |w.cache.slabs|
      case Sized(it, _) => it < |w.cache.slabs|
      case _ => true
  }

  ghost predicate Good(w: World) {
    SectionOk(w) && Inv(Settled(w)) && PlacesOk(w)
  }

  /** A block of a slab, in neither list, once the section under way is completed. */
  ghost predicate LiveIn(w: World, p: int)
    requires Good(w)
  {
    Live(Settled(w), p)
  }

  /** Clients free live blocks, or blocks of other caches; the dispatcher hands out memory that no slab has. */
  ghost predicate Legal(w: World, a: Action) {
    Shape(w.cache) ==>
      match a
      case Refill(mem, _) => Adds(w.cache) ==> Fresh(w.cache, mem)
      case Dealloc(_, p) => Find(w.cache, p, 0).Some? ==> Live(w.cache, p)
      case _ => true
  }

  /** w' is reached by steps that threads and clients can take. */
  ghost predicate Reach(w: World, sched: Schedule, w': World)
    decreases |sched|
  {
    if sched == [] then w' == w
    else
      && Enabled(w, sched[0]) && Legal(w, sched[0])
      && Next(w, sched[0]).Some? && Reach(Next(w, sched[0]).value, sched[1..], w')
  }

  lemma {:induction false} ReachTrans(w: World, x: Schedule, mid: World, y: Schedule, w': World)
    requires Reach(w, x, mid) && Reach(mid, y, w')
    ensures Reach(w, x + y, w')
    decreases |x|
  {
    hide Next, Enabled, Legal;
    if x == [] {
      assert x + y == y;
    } else {
      ReachTrans(Next(w, x[0]).value, x[1..], mid, y, w');
      assert (x + y)[1..] == x[1..] + y;
    }
  }

  /** A step in front of a run; the steps inside a call need no client. */
  lemma Before(w: World, a: Action, mid: World, sched: Schedule, w': World) returns (r: Schedule)
    requires Enabled(w, a) && (a.Advance? || a.Alloc? || Legal(w, a))
    requires Next(w, a) == Some(mid) && Reach(mid, sched, w')
    ensures r == [a] + sched && Reach(w, r, w')
  {
    r := [a] + sched;
    assert r[1..] == sched && Legal(w, a);
    hide Next, Legal, Enabled;
  }

  // ----- when a step fits

  /** The place recorded for a move still lies at or behind the active one, and the active one is not the last. */
  predicate MoveFits(w: World, it: nat, gen: nat) {
    gen == w.gen && w.cache.actBlock <= it < |w.cache.slabs| && w.cache.actBlock + 1 < |w.cache.slabs|
  }

  /** The slab at the place recorded for a release is unused now, and not the only one. */
  predicate ReleaseFits(w: World, it: nat, gen: nat) {
    gen == w.gen && it < |w.cache.slabs| && |w.cache.slabs| > 1 && InUse(w.cache, it) == 0
  }

  /** The slab the owner pops outlives the section under way, and the address it has computed, from the memory and
      the index it read before, is that of the block it pops. */
  predicate PopFits(w: World, b: nat, mem: int, idx: nat)
    requires SectionOk(w)
  {
    && Poppable(w.cache, b)
    && var d := Destination(w, b);
       && d.Some? && d.value < |Completed(w).ptrs|
       && mem + idx * w.cache.blockSize
          == Completed(w).ptrs[d.value] + LastOf(w.cache.slabs[b].availible) * w.cache.blockSize
  }

  /** The condition of a step. */
  predicate Fits(w: World, a: Action)
    requires Enabled(w, a)
  {
    a.Advance? ==>
      match w.threads[a.t]
      case Moving(it, gen) => MoveFits(w, it, gen)
      case Releasing(it, gen) => ReleaseFits(w, it, gen)
      case Placed(_) => w.cache.actMem < |w.cache.ptrs|
      case Read(b, _) => Poppable(w.cache, b)
      case Last(b, mem, idx) => SectionOk(w) && PopFits(w, b, mem, idx)
      case Popped(b) => b < |w.cache.slabs|
      case _ => true
  }
}
