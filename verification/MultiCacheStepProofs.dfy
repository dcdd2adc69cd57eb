/** What one step of the overlapping calls on a per-thread cache keeps, and exactly when. */
module MultiCacheStepProofs {
  import opened Common
  import opened Indices
  import opened MultiCache
  import opened MultiCacheProofs
  import opened MultiCacheSteps
  import SC = SlabCache
  import SP = SlabCacheProofs

  // ----- the pending counts

  lemma {:induction false} BalanceUpdate(threads: seq<Phase>, t: nat, ph: Phase)
    requires t < |threads|
    ensures Balance(threads[t := ph]) == Balance(threads) - Pending(threads[t]) + Pending(ph)
  {
    if t == 0 {
      assert threads[t := ph][1..] == threads[1..];
    } else {
      BalanceUpdate(threads[1..], t - 1, ph);
      assert threads[t := ph][1..] == threads[1..][t - 1 := ph];
    }
  }

  lemma {:induction false} QuietBalance(n: nat)
    ensures Balance(Quiet(n)) == 0
  {
    if n > 0 {
      QuietBalance(n - 1);
      assert Quiet(n)[1..] == Quiet(n - 1);
    }
  }

  // ----- merging lists that may both hold indices

  lemma PermuteKeeps(count: nat, blockSize: nat, m: multiset<SC.Slab>, m': multiset<SC.Slab>, a: SC.Slab, b: SC.Slab)
    requires blockSize * count >= 1 && SC.AllOk(count, m) && SC.Disjoint(blockSize * count, m)
    requires a in m && a != b && a.mem == b.mem && m' == m - multiset{a} + multiset{b}
    requires multiset(a.availible) == multiset(b.availible)
    ensures SC.AllOk(count, m') && SC.Disjoint(blockSize * count, m')
    ensures forall p :: SC.LiveAmong(count, blockSize, m', p) <==> SC.LiveAmong(count, blockSize, m, p)
  {
    hide SC.Disjoint, SC.AllOk;
    SameIndices(count, m, a, b);
    SP.ReplaceKeeps(count, blockSize * count, m, m', a, b);
    forall p
      ensures SC.LiveAmong(count, blockSize, m', p) <==> SC.LiveAmong(count, blockSize, m, p)
    {
      if c, k: nat :| SC.LiveIn(count, blockSize, m', p, c, k) {
        assert SC.LiveIn(count, blockSize, m, p, if c == b then a else c, k);
      }
      if c, k: nat :| SC.LiveIn(count, blockSize, m, p, c, k) {
        assert SC.LiveIn(count, blockSize, m', p, if c == a then b else c, k);
      }
    }
  }

  lemma SameIndices(count: nat, m: multiset<SC.Slab>, a: SC.Slab, b: SC.Slab)
    requires SC.AllOk(count, m) && a in m && multiset(a.availible) == multiset(b.availible)
    ensures SC.SlabOk(count, b)
    ensures forall k :: k in a.availible <==> k in b.availible
  {
    DistinctIff(a.availible);
    DistinctIff(b.availible);
    assert forall k :: k in a.availible <==> k in multiset(a.availible);
    assert forall k :: k in b.availible <==> k in multiset(b.availible);
    forall i | 0 <= i < |b.availible|
      ensures b.availible[i] < count
    {
      assert b.availible[i] in b.availible;
    }
  }

  lemma MergeAnyKeeps(s: State)
    requires Inv(s)
    ensures SameBlocks(s, s.(slabs := s.slabs[s.actBlock := MergeForeigns(s.slabs[s.actBlock])]))
  {
    hide SC.Disjoint, SC.AllOk, SC.LiveAmong, Pairs, FreeTotal;
    var it := s.actBlock;
    var slab := MergeForeigns(s.slabs[it]);
    var s' := s.(slabs := s.slabs[it := slab]);
    var a, b := ViewOf(s.slabs[it], s.ptrs[it]), ViewOf(slab, s.ptrs[it]);
    ViewUpdate(s, it, slab);
    FreeUpdate(s.slabs, it, slab);
    assert multiset(a.availible) == multiset(b.availible);
    assert s.blockSize * s.count >= 1;
    if a != b {
      PermuteKeeps(s.count, s.blockSize, View(s), View(s'), a, b);
    } else {
      assert View(s') == View(s);
    }
  }

  /** The refill as it may find things: another thread can have changed which slab is active meanwhile. */
  lemma RefillAnyKeeps(s: State, mem: int)
    requires Inv(s) && (Adds(s) ==> Fresh(s, mem))
    ensures SameBlocks(s, MultiCache.Refill(s, mem))
  {
    hide FreeTotal, SC.LiveAmong, SC.AllOk, SC.Disjoint, Pairs;
    if !Full(s.slabs[s.actBlock]) {
      MergeAnyKeeps(s);
    } else {
      RefillKeeps(s, mem);
    }
  }

  // ----- effects under the exclusive lock

  /** Each effect of spliceBoth leaves what the vectors will be in the end. */
  lemma SpliceEffectKeeps(c: State, a: nat, it: nat, done: nat, val: Slab, ptr: int)
    requires Underway(c, Splice(a, it), done) && done < 7
    ensures var (c', val', ptr') := SpliceEffect(c, a, it, done, val, ptr);
            && Underway(c', Splice(a, it), done + 1)
            && CompletedBy(c', Splice(a, it), done + 1, val', ptr') == CompletedBy(c, Splice(a, it), done, val, ptr)
  {
    if done == 0 {
      var l := c.slabs[it := NOTHING];
      assert l[..a] == c.slabs[..a] && l[a..it] == c.slabs[a..it] && l[it + 1..] == c.slabs[it + 1..];
    } else if done == 1 {
      ShiftedThenPlaced(c.slabs, a, it, val);
    } else if done == 4 {
      ShiftedThenPlaced(c.ptrs, a, it, c.ptrs[it]);
      assert a < it ==> Shifted(c.ptrs, a, it)[a + 1] == c.ptrs[a];
    }
  }

  lemma ShiftedThenPlaced<T>(l: seq<T>, a: nat, it: nat, x: T)
    requires a <= it < |l|
    ensures Shifted(l, a, it)[a := x] == Around(l, a, it, x)
  {}

  /** And so does each effect of memToDispatch. */
  lemma GiveGoesOn(c: State, job: Job, done: nat)
    requires !job.Splice? && Underway(c, job, done) && done < Effects(job)
    ensures Underway(GiveEffect(c, job, done), job, done + 1)
  {}

  lemma GiveEffectKeeps(c: State, job: Job, done: nat, val: Slab, ptr: int)
    requires !job.Splice? && Underway(c, job, done) && done < Effects(job)
    ensures Underway(GiveEffect(c, job, done), job, done + 1)
    ensures CompletedBy(GiveEffect(c, job, done), job, done + 1, val, ptr) == CompletedBy(c, job, done, val, ptr)
  {
    GiveGoesOn(c, job, done);
    hide Swap, Removed;
    if !job.GiveFront? {
      assert done >= 3 ==> c.slabs[..job.n - 1][..job.n - 1] == c.slabs[..job.n - 1];
      assert done >= 4 ==> c.ptrs[..job.n - 1][..job.n - 1] == c.ptrs[..job.n - 1];
    }
  }

  lemma CompletedAtEnd(c: State, job: Job, val: Slab, ptr: int)
    requires Underway(c, job, Effects(job))
    ensures CompletedBy(c, job, Effects(job), val, ptr) == c
  {}

  /** Begun at a place that fits, the effects add up to the section as one step. */
  lemma SpliceAtStart(c: State, it: nat, val: Slab, ptr: int)
    requires Shape(c) && c.actBlock <= it < |c.slabs|
    ensures Underway(c, Splice(c.actBlock, it), 0)
    ensures CompletedBy(c, Splice(c.actBlock, it), 0, val, ptr) == SpliceBoth(c, it)
  {}

  lemma GiveAtStart(c: State, it: nat, val: Slab, ptr: int)
    requires Shape(c) && it < |c.slabs| && |c.slabs| > 1
    ensures Underway(c, GiveJob(c, it), 0)
    ensures CompletedBy(c, GiveJob(c, it), 0, val, ptr) == MemToDispatch(c, it)
  {
    hide SwapPop, Removed;
  }

  // ----- a pop during a section

  lemma PopInSplice(c: State, a: nat, it: nat, done: nat, val: Slab, ptr: int, b: nat)
    requires Underway(c, Splice(a, it), done) && Poppable(c, b)
    ensures Underway(PopAt(c, b), Splice(a, it), done)
    ensures PopReaches(c, Splice(a, it), done, val, ptr, b)
  {
    hide Rotate, PopReaches;
    PopUnderway(c, Splice(a, it), done, b);
    if done == 0 {
      PopBeforeTaken(c, a, it, val, ptr, b);
    } else if done == 1 {
      PopAfterTaken(c, a, it, val, ptr, b);
    } else if done == 2 {
      PopAfterShift(c, a, it, val, ptr, b);
    } else {
      PopAfterPlaced(c, a, it, done, val, ptr, b);
    }
  }

  lemma PopUnderway(c: State, job: Job, done: nat, b: nat)
    requires Underway(c, job, done) && Poppable(c, b)
    ensures Underway(PopAt(c, b), job, done)
  {}

  lemma PopBeforeTaken(c: State, a: nat, it: nat, val: Slab, ptr: int, b: nat)
    requires Underway(c, Splice(a, it), 0) && Poppable(c, b) && Underway(PopAt(c, b), Splice(a, it), 0)
    ensures PopReaches(c, Splice(a, it), 0, val, ptr, b)
  {
    RotateUpdate(c.slabs, a, it, b, PopAt(c, b).slabs[b]);
    hide Rotate;
  }

  lemma PopAfterTaken(c: State, a: nat, it: nat, val: Slab, ptr: int, b: nat)
    requires Underway(c, Splice(a, it), 1) && Poppable(c, b) && Underway(PopAt(c, b), Splice(a, it), 1)
    ensures PopReaches(c, Splice(a, it), 1, val, ptr, b)
  {
    hide Rotate, Around;
    TakenUpdate(c.slabs, a, it, val, b, PopAt(c, b).slabs[b]);
  }

  lemma PopAfterShift(c: State, a: nat, it: nat, val: Slab, ptr: int, b: nat)
    requires Underway(c, Splice(a, it), 2) && Poppable(c, b) && Underway(PopAt(c, b), Splice(a, it), 2)
    ensures PopReaches(c, Splice(a, it), 2, val, ptr, b)
  {
    hide Rotate;
    var x := PopAt(c, b).slabs[b];
    assert c.slabs[b := x][a := val] == if b == a then c.slabs[a := val] else c.slabs[a := val][b := x];
  }

  lemma PopAfterPlaced(c: State, a: nat, it: nat, done: nat, val: Slab, ptr: int, b: nat)
    requires Underway(c, Splice(a, it), done) && done >= 3 && Poppable(c, b) && Underway(PopAt(c, b), Splice(a, it), done)
    ensures PopReaches(c, Splice(a, it), done, val, ptr, b)
  {
    hide Rotate;
  }

  lemma PopInGive(c: State, job: Job, done: nat, val: Slab, ptr: int, b: nat)
    requires !job.Splice? && Underway(c, job, done) && Poppable(c, b)
    ensures Underway(PopAt(c, b), job, done)
    ensures PopReaches(c, job, done, val, ptr, b)
  {
    hide SwapPop, Removed;
    var x := PopAt(c, b).slabs[b];
    if done < 2 && job.GiveFront? {
      RemovedUpdate(c.slabs, job.it, b, x);
    } else if done < 2 {
      SwapPopUpdate(c.slabs, job.it, b, x);
    } else if !job.GiveFront? {
      FrontUpdate(c.slabs, job.n - 1, b, x);
    }
  }

  lemma FrontUpdate<T>(l: seq<T>, n: nat, b: nat, x: T)
    requires n <= |l| && b < |l|
    ensures l[b := x][..n] == if b < n then l[..n][b := x] else l[..n]
  {}

  /** The slab at place b reaches its destination with one index less; without one the pop leaves no trace. */
  predicate PopReaches(c: State, job: Job, done: nat, val: Slab, ptr: int, b: nat)
    requires Underway(c, job, done) && Poppable(c, b) && Underway(PopAt(c, b), job, done)
  {
    var end, end' := CompletedBy(c, job, done, val, ptr), CompletedBy(PopAt(c, b), job, done, val, ptr);
    match Target(job, done, b)
    case None => end' == end
    case Some(d) => d < |end.slabs| && end.slabs[d] == c.slabs[b] && end' == PopAt(end, d)
  }

  lemma PopCompletes(w: World, b: nat)
    requires SectionOk(w) && Poppable(w.cache, b)
    ensures var w' := w.(cache := PopAt(w.cache, b));
            && SectionOk(w')
            && match Destination(w, b)
               case None => Completed(w') == Completed(w)
               case Some(d) =>
                 && d < |Completed(w).slabs| && Completed(w).slabs[d] == w.cache.slabs[b]
                 && Completed(w') == PopAt(Completed(w), d)
  {
    hide Underway, PopAt, CompletedBy;
    if w.section.Held? {
      if w.section.job.Splice? {
        PopInSplice(w.cache, w.section.job.a, w.section.job.it, w.section.done, w.section.val, w.section.ptr, b);
      } else {
        PopInGive(w.cache, w.section.job, w.section.done, w.section.val, w.section.ptr, b);
      }
    }
  }

  lemma RotateUpdate<T>(l: seq<T>, a: nat, it: nat, b: nat, x: T)
    requires a <= it < |l| && b < |l|
    ensures var d := if b < a || b > it then b else if b < it then b + 1 else a;
            Rotate(l, a, it)[d] == l[b] && Rotate(l[b := x], a, it) == Rotate(l, a, it)[d := x]
  {
    var d := if b < a || b > it then b else if b < it then b + 1 else a;
    RotateAt(l, a, it, d);
    var r, r' := Rotate(l, a, it)[d := x], Rotate(l[b := x], a, it);
    forall k | 0 <= k < |l|
      ensures r'[k] == r[k]
    {
      RotateAt(l, a, it, k);
      RotateAt(l[b := x], a, it, k);
    }
  }

  lemma TakenUpdate<T>(l: seq<T>, a: nat, it: nat, val: T, b: nat, x: T)
    requires a <= it < |l| && b < |l|
    ensures var m, r := Around(l, a, it, val), Around(l[b := x], a, it, val);
            if b == it then r == m
            else var d := if b < a || b > it then b else b + 1; m[d] == l[b] && r == m[d := x]
  {}

  lemma RemovedUpdate<T>(l: seq<T>, it: nat, b: nat, x: T)
    requires it < |l| && b < |l|
    ensures if b == it then Removed(l[b := x], it) == Removed(l, it)
            else var d := if b < it then b else b - 1;
                 Removed(l, it)[d] == l[b] && Removed(l[b := x], it) == Removed(l, it)[d := x]
  {}

  lemma SwapPopUpdate<T>(l: seq<T>, it: nat, b: nat, x: T)
    requires it < |l| && b < |l|
    ensures if b == it then SwapPop(l[b := x], it) == SwapPop(l, it)
            else var d := if b == |l| - 1 then it else b;
                 SwapPop(l, it)[d] == l[b] && SwapPop(l[b := x], it) == SwapPop(l, it)[d := x]
  {}

  /** Popping any slab of a good cache, counted, makes its last index live and keeps the rest. */
  lemma PopAtKeeps(s: State, d: nat)
    requires Inv(s) && Poppable(s, d)
    ensures Allocated(s, PopAt(s, d).(size := s.size + 1), s.ptrs[d] + LastOf(s.slabs[d].availible) * s.blockSize)
  {
    hide FreeTotal, SC.LiveAmong, SC.AllOk, SC.Disjoint, Pairs;
    var t := s.(actBlock := d, actMem := d);
    var r := PopAt(s, d).(size := s.size + 1);
    PopKeeps(t);
    assert r == MultiCache.Pop(t).(actBlock := s.actBlock, actMem := s.actMem);
    SameElsewhere(s, t);
    SameElsewhere(r, MultiCache.Pop(t));
  }

  /** The active place plays no part in what is live. */
  lemma SameElsewhere(s: State, t: State)
    requires |s.slabs| == |s.ptrs| && t == s.(actBlock := t.actBlock, actMem := t.actMem)
    ensures forall q :: Live(s, q) <==> Live(t, q)
  {
    assert View(s) == View(t);
  }

  // ----- steps that keep the state good

  /** The live blocks after a step: all of before; with the block whose address allocate has computed, when it pops;
      without the one freed. */
  ghost predicate LiveFollows(w: World, a: Action, w': World)
    requires Good(w) && Good(w')
  {
    if a.Dealloc? then
      forall q :: LiveIn(w', q) <==> LiveIn(w, q) && !(q == a.p && Shape(w.cache) && Find(w.cache, a.p, 0).Some?)
    else if a.Advance? && a.t < |w.threads| && w.threads[a.t].Last? then
      var p := w.threads[a.t].mem + w.threads[a.t].idx * w.cache.blockSize;
      !LiveIn(w, p) && forall q :: LiveIn(w', q) <==> LiveIn(w, q) || q == p
    else
      forall q :: LiveIn(w', q) <==> LiveIn(w, q)
  }

  /** A good world, reached with the live blocks that the step is to leave. */
  ghost predicate Keeps(w: World, a: Action, w': World)
    requires Good(w)
  {
    && Good(w') && |w'.threads| == |w.threads|
    && w'.cache.count == w.cache.count && w'.cache.blockSize == w.cache.blockSize
    && LiveFollows(w, a, w')
  }

  lemma GoodShapes(w: World)
    requires Good(w)
    ensures SectionOk(w) && Shape(Settled(w)) && (w.section.Unheld? ==> Shape(w.cache))
    ensures w.cache.count == Settled(w).count && w.cache.blockSize == Settled(w).blockSize
  {}

  lemma SettledFree(w: World)
    requires w.section.Unheld?
    ensures SectionOk(w) && Settled(w) == w.cache.(size := w.cache.size + Balance(w.threads))
  {}

  /** A step that leaves the vectors, the iterators and the section alone. */
  lemma QuietKeeps(w: World, w': World, a: Action, t: nat, ph: Phase, size: int)
    requires Good(w) && t < |w.threads| && w' == w.(cache := w.cache.(size := size), threads := w.threads[t := ph])
    requires !w.threads[t].Inside? && !ph.Inside? && (HoldsShared(ph) ==> HoldsShared(w.threads[t]))
    requires size + Pending(ph) == w.cache.size + Pending(w.threads[t])
    requires (ph.Pushed? || ph.Sized?) ==> ph.it < |w.cache.slabs|
    requires !a.Dealloc? && !(a.Advance? && a.t < |w.threads| && w.threads[a.t].Last?)
    ensures Keeps(w, a, w')
  {
    hide Inv, Live, Balance, Underway;
    if w.section.Held? {
      UnderwayIgnoresSize(w.cache, size, w.section.job, w.section.done);
    }
    assert SectionOk(w');
    BalanceUpdate(w.threads, t, ph);
    CompletedIgnoresSize(w, w');
    assert Settled(w') == Settled(w);
  }

  lemma UnderwayIgnoresSize(c: State, size: int, job: Job, done: nat)
    requires Underway(c, job, done)
    ensures Underway(c.(size := size), job, done)
  {}

  lemma CompletedIgnoresSize(w: World, w': World)
    requires SectionOk(w) && SectionOk(w') && w'.section == w.section && w'.cache == w.cache.(size := w'.cache.size)
    ensures Completed(w') == Completed(w).(size := w'.cache.size) && Completed(w).size == w.cache.size
  {}

  // ----- allocate

  /** The owner's pop keeps the cache good, and makes live the block whose address it computed, exactly when it fits. */
  lemma PopStepKeepsIff(w: World, t: nat, b: nat, mem: int, idx: nat)
    requires Good(w) && Enabled(w, Advance(t)) && w.threads[t] == Last(b, mem, idx)
    ensures PopFits(w, b, mem, idx) <==> AllocateStep(w, t).Some? && Keeps(w, Advance(t), AllocateStep(w, t).value)
  {
    hide Inv, Live, Balance, Completed, Destination, Underway, PopAt;
    if Poppable(w.cache, b) {
      var w' := AllocateStep(w, t).value;
      PopSettles(w, t, b, w');
      SectionFacts(w);
      GoodShapes(w);
      if Destination(w, b).None? {
        SizeOff(Settled(w), Settled(w'));
      } else {
        PopMakesLiveIff(w, t, b, mem, idx, w', Destination(w, b).value);
      }
    }
  }

  lemma PopMakesLiveIff(w: World, t: nat, b: nat, mem: int, idx: nat, w': World, d: nat)
    requires Good(w) && t < |w.threads| && w.threads[t] == Last(b, mem, idx)
    requires |w'.threads| == |w.threads| && SectionOk(w') && PlacesOk(w')
    requires w'.cache.count == w.cache.count && w'.cache.blockSize == w.cache.blockSize
    requires Poppable(Settled(w), d) && Settled(w') == PopAt(Settled(w), d).(size := Settled(w).size + 1)
    requires d < |Settled(w).ptrs|
    ensures var s := Settled(w);
            Keeps(w, Advance(t), w')
            <==> mem + idx * w.cache.blockSize == s.ptrs[d] + LastOf(s.slabs[d].availible) * w.cache.blockSize
  {
    hide Inv, Live, Balance, Completed, Underway, PopAt;
    var s := Settled(w);
    var p := s.ptrs[d] + LastOf(s.slabs[d].availible) * s.blockSize;
    SectionFacts(w);
    PopAtKeeps(s, d);
    assert LiveIn(w', p) && !LiveIn(w, p);
  }

  lemma SectionFacts(w: World)
    requires Good(w)
    ensures Settled(w).ptrs == Completed(w).ptrs && |Completed(w).ptrs| == |Completed(w).slabs|
    ensures Settled(w).blockSize == w.cache.blockSize && Settled(w).count == w.cache.count
  {}

  lemma PopSettles(w: World, t: nat, b: nat, w': World)
    requires Good(w) && t < |w.threads| && w.threads[t].Last? && Poppable(w.cache, b)
    requires w' == Go(w.(cache := PopAt(w.cache, b)), t, Popped(b))
    ensures SectionOk(w') && PlacesOk(w')
    ensures w'.cache.count == w.cache.count && w'.cache.blockSize == w.cache.blockSize
    ensures match Destination(w, b)
            case None => Settled(w') == Settled(w).(size := Settled(w).size + 1)
            case Some(d) =>
              && Poppable(Settled(w), d)
              && LastOf(Settled(w).slabs[d].availible) == LastOf(w.cache.slabs[b].availible)
              && Settled(w') == PopAt(Settled(w), d).(size := Settled(w).size + 1)
  {
    hide Inv, Balance, Underway, Destination, CompletedBy;
    var m := w.(cache := PopAt(w.cache, b));
    PopCompletes(w, b);
    BalanceUpdate(w.threads, t, Popped(b));
    assert SectionOk(w') && Completed(w') == Completed(m);
    CompletedSize(w);
  }

  lemma CompletedSize(w: World)
    requires SectionOk(w)
    ensures Completed(w).size == w.cache.size && Completed(w).count == w.cache.count
    ensures Completed(w).blockSize == w.cache.blockSize
  {}

  /** One more counted than taken. */
  lemma SizeOff(s: State, s': State)
    requires Inv(s) && s' == s.(size := s.size + 1)
    ensures !Inv(s')
  {}

  lemma RefillStepKeeps(w: World, mem: int, moved: bool)
    requires Good(w) && Enabled(w, Action.Refill(mem, moved)) && Legal(w, Action.Refill(mem, moved))
    ensures Shape(w.cache) && Keeps(w, Action.Refill(mem, moved), RefillStep(w, mem, moved))
  {
    hide FreeTotal, SC.LiveAmong, SC.AllOk, SC.Disjoint, Pairs, Balance;
    var s, w' := Settled(w), RefillStep(w, mem, moved);
    FreshSettled(w, mem);
    RefillAnyKeeps(s, mem);
    BalanceUpdate(w.threads, 0, CountingUp);
    assert Settled(w') == MultiCache.Refill(s, mem);
    NobodyLocked(w, w', 0, CountingUp);
  }

  lemma FreshSettled(w: World, mem: int)
    requires w.section.Unheld? && Shape(w.cache)
    ensures Adds(Settled(w)) <==> Adds(w.cache)
    ensures Fresh(Settled(w), mem) <==> Fresh(w.cache, mem)
  {
    assert View(Settled(w)) == View(w.cache);
  }

  // ----- deallocate under the shared lock

  lemma DeallocStepKeeps(w: World, t: nat, p: int)
    requires Good(w) && Enabled(w, Dealloc(t, p)) && Legal(w, Dealloc(t, p))
    ensures Shape(w.cache) && Keeps(w, Dealloc(t, p), DeallocStep(w, t, p))
  {
    hide FreeTotal, SC.LiveIn, SC.AllOk, SC.Disjoint, Pairs, Balance, Find, Push;
    SameFind(w, p);
    LiveSettled(w);
    var s, w' := Settled(w), DeallocStep(w, t, p);
    if Find(s, p, 0).Some? {
      var it := Find(s, p, 0).value;
      var c, idx: nat :| SC.LiveIn(s.count, s.blockSize, View(s), p, c, idx);
      FindsOwner(s, p, c, idx);
      PushKeeps(s, it, p, t == 0, idx);
      BalanceUpdate(w.threads, t, Pushed(it));
      SamePush(w, it, p, t == 0);
      assert Settled(w') == PushAndCount(s, it, p, t == 0);
    }
  }

  lemma LiveSettled(w: World)
    requires w.section.Unheld? && Shape(w.cache)
    ensures forall q :: Live(Settled(w), q) <==> Live(w.cache, q)
  {
    assert View(Settled(w)) == View(w.cache);
  }

  lemma {:induction false} SameFindFrom(w: World, p: int, i: nat)
    requires w.section.Unheld? && Shape(w.cache) && i <= |w.cache.ptrs|
    ensures Find(Settled(w), p, i) == Find(w.cache, p, i)
    decreases |w.cache.ptrs| - i
  {
    if i < |w.cache.ptrs| {
      SameFindFrom(w, p, i + 1);
    }
  }

  lemma SameFind(w: World, p: int)
    requires w.section.Unheld? && Shape(w.cache)
    ensures Find(Settled(w), p, 0) == Find(w.cache, p, 0)
  {
    SameFindFrom(w, p, 0);
  }

  lemma SamePush(w: World, it: nat, p: int, own: bool)
    requires w.section.Unheld? && Shape(w.cache) && it < |w.cache.slabs| && ContainsMem(w.cache, w.cache.ptrs[it], p)
    ensures Push(Settled(w), it, p, own) == Push(w.cache, it, p, own).(size := w.cache.size + Balance(w.threads))
  {}

  // ----- deallocate under the exclusive lock

  /** Under the exclusive lock nobody relies on a place that was found. */
  lemma NobodyLocked(w: World, w': World, t: nat, ph: Phase)
    requires Unlocked(w) && t < |w.threads| && w'.threads == w.threads[t := ph] && !HoldsShared(ph)
    ensures PlacesOk(w') && forall u :: 0 <= u < |w'.threads| ==> !HoldsShared(w'.threads[u])
  {
    forall u | 0 <= u < |w'.threads|
      ensures !HoldsShared(w'.threads[u])
    {
      assert u != t ==> w'.threads[u] == w.threads[u];
    }
  }

  /** spliceBoth at a place that still fits. */
  lemma MoveKeeps(s: State, it: nat)
    requires Inv(s) && s.actBlock <= it < |s.slabs| && s.actBlock + 1 < |s.slabs|
    ensures SameBlocks(s, SpliceBoth(s, it))
  {
    if s.actBlock < it {
      SpliceBothKeeps(s, it);
    } else {
      hide FreeTotal, SC.Disjoint, SC.AllOk, SC.LiveAmong, Pairs;
      var s' := SpliceBoth(s, it);
      assert s'.slabs == s.slabs && s'.ptrs == s.ptrs;
      ReorderKeeps(s, s');
    }
  }

  /** Releasing a slab that has blocks in use: the counters no longer agree. */
  lemma ReleaseInUseBreaks(s: State, it: nat)
    requires Inv(s) && it < |s.slabs| && |s.slabs| > 1 && InUse(s, it) != 0
    ensures !Inv(MemToDispatch(s, it))
  {
    hide SC.Disjoint, SC.AllOk, Pairs, SwapPop, Removed;
    var s' := MemToDispatch(s, it);
    FreeRemove(s.slabs, it);
    FreeSwapPop(s.slabs, it);
    hide FreeTotal;
    assert s.count * |s'.slabs| == s.count * |s.slabs| - s.count;
  }

  /** Taking the exclusive lock for a move is good exactly when the recorded place still fits. */
  lemma MoveStepKeepsIff(w: World, t: nat)
    requires Good(w) && Enabled(w, Advance(t)) && w.threads[t].Moving?
    ensures var it, gen := w.threads[t].it, w.threads[t].gen;
            MoveFits(w, it, gen) <==> MoveStep(w, t, it, gen).Some? && Good(MoveStep(w, t, it, gen).value)
    ensures var it, gen := w.threads[t].it, w.threads[t].gen;
            MoveFits(w, it, gen) ==> Keeps(w, Advance(t), MoveStep(w, t, it, gen).value)
  {
    hide Balance, FreeTotal, SC.Disjoint, SC.AllOk, SC.LiveAmong, Pairs, Rotate;
    GoodShapes(w);
    var it, gen := w.threads[t].it, w.threads[t].gen;
    if MoveStep(w, t, it, gen).Some? {
      var w' := MoveStep(w, t, it, gen).value;
      SpliceAtStart(w.cache, it, NOTHING, 0);
      NobodyLocked(w, w', t, Inside);
      BalanceUpdate(w.threads, t, Inside);
      assert Settled(w') == SpliceBoth(Settled(w), it);
      if MoveFits(w, it, gen) {
        MoveKeeps(Settled(w), it);
      }
    }
  }

  /** Taking it for a release is good exactly when the slab at the recorded place is unused at that moment. */
  lemma ReleaseStepKeepsIff(w: World, t: nat)
    requires Good(w) && Enabled(w, Advance(t)) && w.threads[t].Releasing?
    ensures var it, gen := w.threads[t].it, w.threads[t].gen;
            ReleaseFits(w, it, gen) <==> ReleaseStep(w, t, it, gen).Some? && Good(ReleaseStep(w, t, it, gen).value)
    ensures var it, gen := w.threads[t].it, w.threads[t].gen;
            ReleaseFits(w, it, gen) ==> Keeps(w, Advance(t), ReleaseStep(w, t, it, gen).value)
  {
    hide Balance, FreeTotal, SC.Disjoint, SC.AllOk, SC.LiveAmong, Pairs, Inv, SwapPop, Removed, Underway;
    GoodShapes(w);
    var it, gen := w.threads[t].it, w.threads[t].gen;
    if ReleaseStep(w, t, it, gen).Some? {
      var w' := ReleaseStep(w, t, it, gen).value;
      GiveAtStart(w.cache, it, NOTHING, 0);
      NobodyLocked(w, w', t, Inside);
      BalanceUpdate(w.threads, t, Inside);
      assert Settled(w') == MemToDispatch(Settled(w), it);
      if ReleaseFits(w, it, gen) {
        MemToDispatchKeeps(Settled(w), it);
      } else {
        ReleaseInUseBreaks(Settled(w), it);
      }
    }
  }

  /** The effects themselves, and letting the lock go, change nothing about what the cache will be. */
  lemma InsideStepKeeps(w: World, t: nat)
    requires Good(w) && Enabled(w, Advance(t)) && w.threads[t].Inside?
    ensures InsideStep(w).Some? && Keeps(w, Advance(t), InsideStep(w).value)
    ensures Settled(InsideStep(w).value) == Settled(w)
  {
    hide Inv, Live, Balance, Underway, CompletedBy, SpliceEffect, GiveEffect;
    EffectsAtMost(w);
    var s := w.section;
    var w' := InsideStep(w).value;
    if s.done == Effects(s.job) {
      CompletedAtEnd(w.cache, s.job, s.val, s.ptr);
      BalanceUpdate(w.threads, t, CountingDown(false));
    } else if s.job.Splice? {
      SpliceEffectKeeps(w.cache, s.job.a, s.job.it, s.done, s.val, s.ptr);
    } else {
      GiveEffectKeeps(w.cache, s.job, s.done, s.val, s.ptr);
    }
    assert SectionOk(w') && Settled(w') == Settled(w);
    SameSizes(w, w');
  }

  lemma EffectsAtMost(w: World)
    requires SectionOk(w) && w.section.Held?
    ensures w.section.done <= Effects(w.section.job)
  {}

  lemma SameSizes(w: World, w': World)
    requires SectionOk(w) && SectionOk(w') && Settled(w') == Settled(w)
    ensures w'.cache.count == w.cache.count && w'.cache.blockSize == w.cache.blockSize
  {}

  lemma MissingIndex(count: nat, a: SC.Slab) returns (k: nat)
    requires SC.SlabOk(count, a) && |a.availible| < count
    ensures k < count && k !in a.availible
  {
    if forall j: nat :: j < count ==> j in a.availible {
      DistinctCard(a.availible);
      SubsetCard(Below(count), Members(a.availible));
    }
    k :| k < count && k !in a.availible;
  }

  /** A block of a slab that is taken out is nowhere else. */
  lemma GoneWithSlab(count: nat, blockSize: nat, m: multiset<SC.Slab>, a: SC.Slab, k: nat)
    requires count >= 1 && blockSize >= 1 && blockSize * count >= 1 && SC.Disjoint(blockSize * count, m)
    requires a in m && k < count && k !in a.availible
    ensures SC.LiveAmong(count, blockSize, m, a.mem + k * blockSize)
    ensures !SC.LiveAmong(count, blockSize, m - multiset{a}, a.mem + k * blockSize)
  {
    var p := a.mem + k * blockSize;
    assert SC.LiveIn(count, blockSize, m, p, a, k);
    forall c, j: nat | SC.LiveIn(count, blockSize, m, p, c, j)
      ensures c == a
    {
      SP.SameBlock(count, blockSize, m, c, j, a, k);
    }
    assert forall c, j: nat :: SC.LiveIn(count, blockSize, m - multiset{a}, p, c, j)
                               ==> c != a && SC.LiveIn(count, blockSize, m, p, c, j);
  }

  /** A release of a slab in use takes a live block out of the cache. */
  lemma ReleaseInUseLosesBlock(s: State, it: nat) returns (p: int)
    requires Inv(s) && it < |s.slabs| && |s.slabs| > 1 && InUse(s, it) != 0
    ensures Live(s, p) && !Live(MemToDispatch(s, it), p)
  {
    hide FreeTotal, SwapPop, Removed, SC.LiveAmong, SC.Disjoint;
    var a := ViewOf(s.slabs[it], s.ptrs[it]);
    ViewHas(s, it);
    assert SC.SlabOk(s.count, a);
    AtMostCount(s.count, a);
    var k := MissingIndex(s.count, a);
    p := a.mem + k * s.blockSize;
    assert s.blockSize * s.count >= 1;
    GoneWithSlab(s.count, s.blockSize, View(s), a, k);
    ViewsSwapPop(s.slabs, s.ptrs, it);
    ViewsRemove(s.slabs, s.ptrs, it);
    RemoveElements(Views(s.slabs, s.ptrs), it);
    SwapPopElements(Views(s.slabs, s.ptrs), it);
  }

  lemma AtMostCount(count: nat, a: SC.Slab)
    requires SC.SlabOk(count, a)
    ensures |a.availible| <= count
  {
    DistinctCard(a.availible);
    SubsetCard(Members(a.availible), Below(count));
  }
}
