/** What the operations of the per-thread cache keep: the vectors stay in step, every slab's indices stay
    a partition, and the counters stay exact. */
module MultiCacheProofs {
  import opened Common
  import opened SizeTypes
  import opened Indices
  import opened MultiCache
  import SC = SlabCache
  import SP = SlabCacheProofs

  // ----- sequence surgery moves elements and loses none

  /** Where each element of a rotation comes from. */
  lemma RotateAt<T>(l: seq<T>, pos: nat, it: nat, k: nat)
    requires pos <= it < |l| && k < |l|
    ensures Rotate(l, pos, it)[k]
            == if k < pos || it < k then l[k] else if k == pos then l[it] else l[k - 1]
  {}

  lemma RotateElements<T>(l: seq<T>, pos: nat, it: nat)
    requires pos <= it < |l|
    ensures multiset(Rotate(l, pos, it)) == multiset(l)
  {
    assert l == l[..pos] + l[pos..it] + [l[it]] + l[it + 1..];
  }

  lemma SwapElements<T>(l: seq<T>, i: nat, j: nat)
    requires i < |l| && j < |l|
    ensures multiset(Swap(l, i, j)) == multiset(l)
  {
    var m := l[i := l[j]];
    assert multiset(m) == multiset(l) - multiset{l[i]} + multiset{l[j]};
    assert multiset(m[j := l[i]]) == multiset(m) - multiset{m[j]} + multiset{l[i]};
  }

  lemma SwapPopElements<T>(l: seq<T>, i: nat)
    requires i < |l|
    ensures multiset(SwapPop(l, i)) == multiset(l) - multiset{l[i]}
  {
    var m := Swap(l, i, |l| - 1);
    SwapElements(l, i, |l| - 1);
    assert m == m[..|l| - 1] + [l[i]];
  }

  lemma RemoveElements<T>(l: seq<T>, i: nat)
    requires i < |l|
    ensures multiset(Removed(l, i)) == multiset(l) - multiset{l[i]}
  {
    assert l == l[..i] + [l[i]] + l[i + 1..];
  }

  /** The same surgery on both vectors is that surgery on the pairs. */
  lemma ViewsRotate(slabs: seq<Slab>, ptrs: seq<int>, i: nat, j: nat)
    requires |slabs| == |ptrs| && i <= j < |slabs|
    ensures Views(Rotate(slabs, i, j), Rotate(ptrs, i, j)) == Rotate(Views(slabs, ptrs), i, j)
  {
    hide Rotate;
    var v, w := Views(Rotate(slabs, i, j), Rotate(ptrs, i, j)), Rotate(Views(slabs, ptrs), i, j);
    forall k | 0 <= k < |slabs|
      ensures v[k] == w[k]
    {
      RotateAt(slabs, i, j, k);
      RotateAt(ptrs, i, j, k);
      RotateAt(Views(slabs, ptrs), i, j, k);
    }
  }

  lemma ViewsSwap(slabs: seq<Slab>, ptrs: seq<int>, i: nat, j: nat)
    requires |slabs| == |ptrs| && i < |slabs| && j < |slabs|
    ensures Views(Swap(slabs, i, j), Swap(ptrs, i, j)) == Swap(Views(slabs, ptrs), i, j)
  {}

  lemma ViewsSwapPop(slabs: seq<Slab>, ptrs: seq<int>, i: nat)
    requires |slabs| == |ptrs| && i < |slabs|
    ensures Views(SwapPop(slabs, i), SwapPop(ptrs, i)) == SwapPop(Views(slabs, ptrs), i)
  {}

  lemma ViewsRemove(slabs: seq<Slab>, ptrs: seq<int>, i: nat)
    requires |slabs| == |ptrs| && i < |slabs|
    ensures Views(Removed(slabs, i), Removed(ptrs, i)) == Removed(Views(slabs, ptrs), i)
  {}

  lemma ViewUpdate(s: State, it: nat, slab: Slab)
    requires |s.slabs| == |s.ptrs| && it < |s.slabs|
    ensures var a, b := ViewOf(s.slabs[it], s.ptrs[it]), ViewOf(slab, s.ptrs[it]);
            a in View(s) && Pairs(s.slabs[it := slab], s.ptrs) == View(s) - multiset{a} + multiset{b}
  {
    var v := Views(s.slabs, s.ptrs);
    assert Views(s.slabs[it := slab], s.ptrs) == v[it := ViewOf(slab, s.ptrs[it])];
    assert v[it] in v;
  }

  lemma InView(s: State, c: SC.Slab) returns (it: nat)
    requires |s.slabs| == |s.ptrs| && c in View(s)
    ensures it < |s.slabs| && c == ViewOf(s.slabs[it], s.ptrs[it])
  {
    var v := Views(s.slabs, s.ptrs);
    assert c in v;
    it :| 0 <= it < |v| && v[it] == c;
  }

  lemma ViewHas(s: State, it: nat)
    requires |s.slabs| == |s.ptrs| && it < |s.slabs|
    ensures ViewOf(s.slabs[it], s.ptrs[it]) in View(s)
  {
    assert Views(s.slabs, s.ptrs)[it] in Views(s.slabs, s.ptrs);
  }

  // ----- sums

  lemma {:induction false} FreeAppend(a: seq<Slab>, b: seq<Slab>)
    ensures FreeTotal(a + b) == FreeTotal(a) + FreeTotal(b)
  {
    if a == [] {
      assert a + b == b;
    } else {
      FreeAppend(a[1..], b);
      assert (a + b)[1..] == a[1..] + b;
    }
  }

  lemma OneSlab(slab: Slab)
    ensures FreeTotal([slab]) == Free(slab)
  {
    assert FreeTotal([slab][1..]) == 0;
  }

  lemma {:induction false} FreeSplit(l: seq<Slab>, i: nat)
    requires i < |l|
    ensures FreeTotal(l) == FreeTotal(l[..i]) + Free(l[i]) + FreeTotal(l[i + 1..])
  {
    hide FreeTotal;
    assert l == l[..i] + ([l[i]] + l[i + 1..]);
    FreeAppend(l[..i], [l[i]] + l[i + 1..]);
    FreeAppend([l[i]], l[i + 1..]);
    OneSlab(l[i]);
  }

  lemma {:induction false} FreeUpdate(l: seq<Slab>, i: nat, x: Slab)
    requires i < |l|
    ensures FreeTotal(l[i := x]) == FreeTotal(l) - Free(l[i]) + Free(x)
  {
    FreeSplit(l, i);
    FreeSplit(l[i := x], i);
    assert l[i := x][..i] == l[..i] && l[i := x][i + 1..] == l[i + 1..];
  }

  lemma {:induction false} FreeRemove(l: seq<Slab>, i: nat)
    requires i < |l|
    ensures FreeTotal(Removed(l, i)) == FreeTotal(l) - Free(l[i])
  {
    FreeSplit(l, i);
    FreeAppend(l[..i], l[i + 1..]);
  }

  lemma {:induction false} FreeSwap(l: seq<Slab>, i: nat, j: nat)
    requires i < |l| && j < |l|
    ensures FreeTotal(Swap(l, i, j)) == FreeTotal(l)
  {
    FreeUpdate(l, i, l[j]);
    FreeUpdate(l[i := l[j]], j, l[i]);
  }

  lemma {:induction false} FreeSwapPop(l: seq<Slab>, i: nat)
    requires i < |l|
    ensures FreeTotal(SwapPop(l, i)) == FreeTotal(l) - Free(l[i])
  {
    var m := Swap(l, i, |l| - 1);
    FreeSwap(l, i, |l| - 1);
    FreeRemove(m, |l| - 1);
    assert Removed(m, |l| - 1) == SwapPop(l, i);
  }

  lemma RotateRemove<T>(l: seq<T>, pos: nat, it: nat)
    requires pos <= it < |l|
    ensures Removed(Rotate(l, pos, it), pos) == Removed(l, it)
    ensures Rotate(l, pos, it)[pos] == l[it]
  {
    assert Rotate(l, pos, it)[pos + 1..] == l[pos..it] + l[it + 1..];
    assert l[..it] == l[..pos] + l[pos..it];
  }

  lemma {:induction false} FreeRotate(l: seq<Slab>, pos: nat, it: nat)
    requires pos <= it < |l|
    ensures FreeTotal(Rotate(l, pos, it)) == FreeTotal(l)
  {
    hide FreeTotal;
    var r := Rotate(l, pos, it);
    FreeRemove(l, it);
    FreeRemove(r, pos);
    RotateRemove(l, pos, it);
  }

  /** The total is the free blocks of one slab exactly when every other slab is full. */
  lemma {:induction false} OthersFullIff(l: seq<Slab>, i: nat)
    requires i < |l|
    ensures FreeTotal(l) >= Free(l[i])
    ensures FreeTotal(l) == Free(l[i]) <==> forall k :: 0 <= k < |l| && k != i ==> Full(l[k])
  {
    var rest := Removed(l, i);
    FreeRemove(l, i);
    NoneFreeIff(rest);
    if forall k :: 0 <= k < |rest| ==> Full(rest[k]) {
      forall k | 0 <= k < |l| && k != i
        ensures Full(l[k])
      {
        assert l[k] == rest[if k < i then k else k - 1];
      }
    }
  }

  lemma {:induction false} NoneFreeIff(l: seq<Slab>)
    ensures FreeTotal(l) == 0 <==> forall k :: 0 <= k < |l| ==> Full(l[k])
  {
    if l != [] {
      NoneFreeIff(l[1..]);
      assert forall k :: 1 <= k < |l| ==> l[k] == l[1..][k - 1];
    }
  }

  lemma GoodShape(c: State)
    requires Inv(c)
    ensures Shape(c)
  {}

  // ----- allocate

  /** What a successful allocate did. */
  ghost predicate Allocated(s: State, s': State, p: int)
    requires Shape(s)
  {
    && Inv(s')
    && s'.count == s.count && s'.blockSize == s.blockSize && s'.size == s.size + 1
    && !Live(s, p) && forall q :: Live(s', q) <==> Live(s, q) || q == p
  }

  function NextIndex(s: State): nat
    requires Shape(s) && HasRoom(s)
  {
    var a := s.slabs[s.actBlock].availible;
    a[|a| - 1]
  }

  function NextBlock(s: State): int
    requires Shape(s) && HasRoom(s)
  {
    s.ptrs[s.actMem] + NextIndex(s) * s.blockSize
  }

  lemma NextIsFree(s: State)
    requires Inv(s) && HasRoom(s)
    ensures NextIndex(s) < s.count && !Live(s, NextBlock(s))
  {
    hide FreeTotal, Pairs;
    var c := ViewOf(s.slabs[s.actBlock], s.ptrs[s.actMem]);
    var idx := NextIndex(s);
    ViewHas(s, s.actBlock);
    assert c.availible[|c.availible| - 1] == idx && idx in c.availible;
    assert SC.SlabOk(s.count, c);
    if d, k: nat :| SC.LiveIn(s.count, s.blockSize, View(s), NextBlock(s), d, k) {
      SP.SameBlock(s.count, s.blockSize, View(s), d, k, c, idx);
    }
  }

  lemma PopKeeps(s: State)
    requires Inv(s) && HasRoom(s)
    ensures Allocated(s, Pop(s), NextBlock(s))
  {
    hide SC.Disjoint, SC.AllOk, SC.LiveAmong, SC.SlabOk, Pairs;
    var s' := Pop(s);
    var it := s.actBlock;
    var a, b := ViewOf(s.slabs[it], s.ptrs[it]), ViewOf(s'.slabs[it], s.ptrs[it]);
    assert b.availible == a.availible[..|a.availible| - 1];
    assert s.blockSize * s.count >= 1;
    ViewUpdate(s, it, s'.slabs[it]);
    FreeUpdate(s.slabs, it, s'.slabs[it]);
    NextIsFree(s);
    forall q
      ensures SC.SlabOk(s.count, b)
      ensures Live(s', q) <==> Live(s, q) || q == NextBlock(s)
    {
      SP.PopAddsLive(s.count, s.blockSize, View(s), View(s'), a, b, q);
    }
    SP.PopAddsLive(s.count, s.blockSize, View(s), View(s'), a, b, 0);
    SP.ReplaceKeeps(s.count, s.blockSize * s.count, View(s), View(s'), a, b);
  }

  /** The invariant and the live blocks are the same. */
  ghost predicate SameBlocks(s: State, s': State)
    requires Shape(s)
  {
    && Inv(s') && s'.count == s.count && s'.blockSize == s.blockSize && s'.size == s.size
    && forall q :: Live(s', q) <==> Live(s, q)
  }

  lemma MergeKeeps(s: State)
    requires Inv(s) && s.slabs[s.actBlock].availible == []
    ensures SameBlocks(s, s.(slabs := s.slabs[s.actBlock := MergeForeigns(s.slabs[s.actBlock])]))
  {
    var it := s.actBlock;
    var slab := MergeForeigns(s.slabs[it]);
    assert ViewOf(slab, s.ptrs[it]) == ViewOf(s.slabs[it], s.ptrs[it]);
    FreeUpdate(s.slabs, it, slab);
    hide FreeTotal;
    assert Views(s.slabs[it := slab], s.ptrs) == Views(s.slabs, s.ptrs);
  }

  lemma AddCacheKeeps(s: State, mem: int)
    requires Inv(s) && Fresh(s, mem)
    ensures SameBlocks(s, AddCache(s, mem))
  {
    hide SC.Disjoint, SC.AllOk, SC.LiveAmong, SC.SlabOk, SC.Apart, FreeTotal;
    var s' := AddCache(s, mem);
    var slab := Slab(SC.IndexStack(s.count), []);
    SC.IndexStackIff(s.count);
    SP.StackIsFull(s.count);
    SP.MemIrrelevant(s.count, SC.Slab(0, SC.IndexStack(s.count)), ViewOf(slab, mem));
    assert s.blockSize * s.count >= 1;
    SP.AddUnusedSlab(s.count, s.blockSize, View(s), ViewOf(slab, mem));
    assert Views(s'.slabs, s'.ptrs) == Views(s.slabs, s.ptrs) + [ViewOf(slab, mem)];
    FreeAppend(s.slabs, [slab]);
    OneSlab(slab);
    assert s.count * |s'.slabs| == s.count * |s.slabs| + s.count;
  }

  /** Reordering both vectors in step, wherever the active place ends up. */
  lemma ReorderKeeps(s: State, s': State)
    requires Inv(s) && Shape(s') && s'.size == s.size && s'.count == s.count && s'.blockSize == s.blockSize
    requires |s'.slabs| == |s.slabs| && View(s') == View(s) && FreeTotal(s'.slabs) == FreeTotal(s.slabs)
    ensures SameBlocks(s, s')
  {}

  lemma RefillKeeps(s: State, mem: int)
    requires Inv(s) && s.slabs[s.actBlock].availible == []
    requires Full(s.slabs[s.actBlock]) && s.actBlock == 0 ==> Fresh(s, mem)
    ensures SameBlocks(s, Refill(s, mem))
  {
    hide FreeTotal, SC.LiveAmong, SC.AllOk, SC.Disjoint, Pairs;
    var slab := s.slabs[s.actBlock];
    if !Full(slab) {
      MergeKeeps(s);
    } else if s.actBlock > 0 {
      ReorderKeeps(s, Refill(s, mem)) by {
        SameView(s, Refill(s, mem));
      }
    } else {
      var s1, s' := AddCache(s, mem), Refill(s, mem);
      AddCacheKeeps(s, mem);
      var last := |s1.slabs| - 1;
      FreeSwap(s1.slabs, 0, last);
      SwapView(s1, s', 0, last);
      ReorderKeeps(s1, s');
    }
  }

  lemma SameView(s: State, s': State)
    requires |s.slabs| == |s.ptrs| && s'.slabs == s.slabs && s'.ptrs == s.ptrs
    ensures View(s') == View(s)
  {}

  lemma SwapView(s: State, s': State, i: nat, j: nat)
    requires |s.slabs| == |s.ptrs| && i <= j < |s.slabs|
    requires s'.slabs == Swap(s.slabs, i, j) && s'.ptrs == Swap(s.ptrs, i, j)
    ensures View(s') == View(s)
  {
    ViewsSwap(s.slabs, s.ptrs, i, j);
    SwapElements(Views(s.slabs, s.ptrs), i, j);
  }

  /** allocate answers exactly when the active slab has an index of its own left; it then hands out a block
      that was not live, and keeps everything else. */
  lemma AllocateSound(s: State, mem: int)
    requires Inv(s) && (NeedsBlock(s) ==> Fresh(s, mem))
    ensures Allocate(s, mem).Done? <==> HasRoom(s)
    ensures HasRoom(s) ==> Allocate(s, mem).value == NextBlock(s)
                           && Allocated(s, Allocate(s, mem).state, NextBlock(s))
  {
    hide Refill, FreeTotal, Pairs;
    if HasRoom(s) {
      var s1 := Pop(s);
      PopKeeps(s);
      if s1.slabs[s.actBlock].availible == [] {
        if Full(s1.slabs[s.actBlock]) && s.actBlock == 0 {
          PopFresh(s, mem);
        }
        RefillKeeps(s1, mem);
      }
    }
  }

  lemma PopFresh(s: State, mem: int)
    requires Shape(s) && HasRoom(s) && Fresh(s, mem)
    ensures Fresh(Pop(s), mem)
  {
    var s1 := Pop(s);
    forall a | a in View(s1)
      ensures SC.Apart(s.blockSize * s.count, a, SC.Slab(mem, []))
    {
      var it := InView(s1, a);
      ViewHas(s, it);
      assert SC.Apart(s.blockSize * s.count, ViewOf(s.slabs[it], s.ptrs[it]), SC.Slab(mem, []));
    }
  }

  /** allocate leaves an active slab without an index exactly when it took the last one, no other thread has
      freed one, and the slab in front has none of its own: a slab that a foreign free moved there. */
  lemma RoomAfterAllocateIff(s: State, mem: int)
    requires Inv(s) && HasRoom(s)
    ensures var slab := s.slabs[s.actBlock];
            HasRoom(Allocate(s, mem).state)
            <==> !(|slab.availible| == 1 && slab.foreigns == [] && s.actBlock > 0
                   && s.slabs[s.actBlock - 1].availible == [])
  {
    hide FreeTotal, Pairs;
  }

  // ----- deallocate

  /** The search starts at the active slab and tries every slab exactly once. */
  lemma CircleVisitsOnce(act: nat, n: nat)
    requires act < n
    ensures Distinct(CircleOrder(act, n))
    ensures forall k: nat :: k in CircleOrder(act, n) <==> k < n
  {
    var order := CircleOrder(act, n);
    forall k: nat | k < n
      ensures k in order
    {
      assert order[if k >= act then k - act else k + n - act] == k;
    }
  }

  lemma {:induction false} FindNone(s: State, p: int, i: nat, j: nat)
    requires Shape(s) && i <= j < |s.ptrs| && Find(s, p, i).None?
    ensures !ContainsMem(s, s.ptrs[Circle(s.actMem, |s.ptrs|, j)], p)
    decreases |s.ptrs| - i
  {
    if i < j {
      FindNone(s, p, i + 1, j);
    }
  }

  /** The search fails exactly when no slab of this cache holds p. */
  lemma FindNoneIff(s: State, p: int)
    requires Shape(s)
    ensures Find(s, p, 0).None? <==> forall k :: 0 <= k < |s.ptrs| ==> !ContainsMem(s, s.ptrs[k], p)
  {
    if Find(s, p, 0).None? {
      CircleVisitsOnce(s.actMem, |s.ptrs|);
      forall k | 0 <= k < |s.ptrs|
        ensures !ContainsMem(s, s.ptrs[k], p)
      {
        var order := CircleOrder(s.actMem, |s.ptrs|);
        assert k in order;
        var i :| 0 <= i < |order| && order[i] == k;
        FindNone(s, p, 0, i);
      }
    }
  }

  /** The owner of a live block is found, it is the only slab that holds the block, and the division
      gives the block's index. */
  lemma FindsOwner(s: State, p: int, c: SC.Slab, idx: nat)
    requires Inv(s) && SC.LiveIn(s.count, s.blockSize, View(s), p, c, idx)
    ensures Find(s, p, 0).Some?
    ensures var it := Find(s, p, 0).value;
            && ViewOf(s.slabs[it], s.ptrs[it]) == c && (p - s.ptrs[it]) / s.blockSize == idx
            && forall k :: 0 <= k < |s.ptrs| && ContainsMem(s, s.ptrs[k], p) ==> k == it
  {
    hide FreeTotal, Find;
    var own := InView(s, c);
    SP.BlockInSlab(s.count, s.blockSize, idx);
    assert ContainsMem(s, s.ptrs[own], p);
    FindNoneIff(s, p);
    forall k | 0 <= k < |s.ptrs| && ContainsMem(s, s.ptrs[k], p)
      ensures k == own
    {
      SlabsApart(s, k, own);
    }
    IndexByDivision(idx, s.blockSize, 0);
  }

  lemma SlabsApart(s: State, k: nat, j: nat)
    requires |s.slabs| == |s.ptrs| && s.blockSize * s.count >= 1 && SC.Disjoint(s.blockSize * s.count, View(s))
    requires k < |s.slabs| && j < |s.slabs|
    ensures k == j || s.ptrs[k] + s.blockSize * s.count <= s.ptrs[j] || s.ptrs[j] + s.blockSize * s.count <= s.ptrs[k]
  {
    var v := Views(s.slabs, s.ptrs);
    ViewHas(s, k);
    ViewHas(s, j);
    if k < j && v[k] == v[j] {
      OccursTwice(v, k, j);
    } else if j < k && v[k] == v[j] {
      OccursTwice(v, j, k);
    }
  }

  /** What a successful deallocate did. */
  ghost predicate Deallocated(s: State, s': State, p: int)
    requires Shape(s)
  {
    && Inv(s')
    && s'.count == s.count && s'.blockSize == s.blockSize && s'.size == s.size - 1
    && Live(s, p) && forall q :: Live(s', q) <==> Live(s, q) && q != p
  }

  /** The slab that takes a block back, before anything is moved; the block counts as given back. */
  function PushAndCount(s: State, it: nat, p: int, own: bool): State
    requires Shape(s) && it < |s.slabs| && ContainsMem(s, s.ptrs[it], p)
  {
    Push(s, it, p, own).(size := s.size - 1)
  }

  lemma PushedView(s: State, it: nat, p: int, own: bool, idx: nat)
    requires Shape(s) && it < |s.slabs| && ContainsMem(s, s.ptrs[it], p)
    requires (p - s.ptrs[it]) / s.blockSize == idx < s.count
    ensures var s' := Push(s, it, p, own);
            var a, b := ViewOf(s.slabs[it], s.ptrs[it]), ViewOf(s'.slabs[it], s.ptrs[it]);
            && multiset(b.availible) == multiset(a.availible) + multiset{idx}
            && Free(s'.slabs[it]) == Free(s.slabs[it]) + 1
  {
    assert idx % SC.INDEX_VALUES == idx;
  }

  lemma PushKeeps(s: State, it: nat, p: int, own: bool, idx: nat)
    requires Inv(s) && it < |s.slabs| && ContainsMem(s, s.ptrs[it], p)
    requires SC.LiveIn(s.count, s.blockSize, View(s), p, ViewOf(s.slabs[it], s.ptrs[it]), idx)
    requires (p - s.ptrs[it]) / s.blockSize == idx
    ensures Deallocated(s, PushAndCount(s, it, p, own), p)
  {
    hide SC.Disjoint, SC.AllOk, SC.SlabOk, Pairs, FreeTotal;
    var s' := PushAndCount(s, it, p, own);
    var a, b := ViewOf(s.slabs[it], s.ptrs[it]), ViewOf(s'.slabs[it], s.ptrs[it]);
    PushedView(s, it, p, own, idx);
    ViewUpdate(s, it, s'.slabs[it]);
    FreeUpdate(s.slabs, it, s'.slabs[it]);
    assert s.blockSize * s.count >= 1;
    assert a != b by {
      assert |multiset(b.availible)| == |multiset(a.availible)| + 1;
    }
    forall q
      ensures SC.SlabOk(s.count, b)
      ensures Live(s', q) <==> Live(s, q) && q != p
    {
      SP.PushRemovesLive(s.count, s.blockSize, View(s), View(s'), a, b, idx, q);
    }
    SP.PushRemovesLive(s.count, s.blockSize, View(s), View(s'), a, b, idx, p);
    SP.ReplaceKeeps(s.count, s.blockSize * s.count, View(s), View(s'), a, b);
  }

  /** spliceBoth moves slab it to the active place and everything from there on up by one, in both vectors;
      the active place still names the same slab and the same memory. */
  lemma SpliceBothRotates(s: State, it: nat)
    requires Shape(s) && s.actBlock < it < |s.slabs|
    ensures var s' := SpliceBoth(s, it);
            && s'.slabs[s.actBlock] == s.slabs[it] && s'.ptrs[s.actMem] == s.ptrs[it]
            && (forall k :: 0 <= k < s.actBlock || it < k < |s.slabs|
                            ==> s'.slabs[k] == s.slabs[k] && s'.ptrs[k] == s.ptrs[k])
            && (forall k :: s.actBlock < k <= it ==> s'.slabs[k] == s.slabs[k - 1] && s'.ptrs[k] == s.ptrs[k - 1])
            && s'.slabs[s'.actBlock] == s.slabs[s.actBlock] && s'.ptrs[s'.actMem] == s.ptrs[s.actMem]
  {
    hide Rotate;
    forall k: nat | k < |s.slabs|
      ensures SpliceBoth(s, it).slabs[k]
              == s.slabs[if k < s.actBlock || it < k then k else if k == s.actBlock then it else k - 1]
      ensures SpliceBoth(s, it).ptrs[k]
              == s.ptrs[if k < s.actBlock || it < k then k else if k == s.actBlock then it else k - 1]
    {
      RotateAt(s.slabs, s.actBlock, it, k);
      RotateAt(s.ptrs, s.actBlock, it, k);
    }
  }

  /** The pairs of slab and memory are the same after spliceBoth, and so is everything they mean. */
  lemma SpliceBothKeeps(s: State, it: nat)
    requires Inv(s) && s.actBlock < it < |s.slabs|
    ensures View(SpliceBoth(s, it)) == View(s) && SameBlocks(s, SpliceBoth(s, it))
  {
    hide FreeTotal, SC.Disjoint, SC.AllOk, SC.LiveAmong, Rotate;
    var s' := SpliceBoth(s, it);
    ViewsRotate(s.slabs, s.ptrs, s.actBlock, it);
    RotateElements(Views(s.slabs, s.ptrs), s.actBlock, it);
    FreeRotate(s.slabs, s.actBlock, it);
    ReorderKeeps(s, s');
  }

  lemma WithoutOne(count: nat, bytes: nat, m: multiset<SC.Slab>, a: SC.Slab)
    requires SC.AllOk(count, m) && SC.Disjoint(bytes, m) && a in m
    ensures SC.AllOk(count, m - multiset{a}) && SC.Disjoint(bytes, m - multiset{a})
    ensures forall c :: c in m - multiset{a} <==> c in m && c != a
  {}

  lemma LessKeeps(s: State, s': State, it: nat)
    requires Inv(s) && it < |s.slabs| && InUse(s, it) == 0 && Shape(s')
    requires s'.size == s.size && s'.count == s.count && s'.blockSize == s.blockSize
    requires |s'.slabs| == |s.slabs| - 1
    requires View(s') == View(s) - multiset{ViewOf(s.slabs[it], s.ptrs[it])}
    requires FreeTotal(s'.slabs) == FreeTotal(s.slabs) - Free(s.slabs[it])
    ensures SameBlocks(s, s')
  {
    hide FreeTotal, Pairs, SC.AllOk, SC.Disjoint;
    var a := ViewOf(s.slabs[it], s.ptrs[it]);
    ViewHas(s, it);
    assert s.count * |s'.slabs| == s.count * |s.slabs| - s.count;
    WithoutOne(s.count, s.blockSize * s.count, View(s), a);
    forall q
      ensures Live(s', q) <==> Live(s, q)
    {
      if c, k: nat :| SC.LiveIn(s.count, s.blockSize, View(s), q, c, k) {
        NoLiveInUnused(s, a, k);
        assert SC.LiveIn(s.count, s.blockSize, View(s'), q, c, k);
      }
      if c, k: nat :| SC.LiveIn(s.count, s.blockSize, View(s'), q, c, k) {
        assert SC.LiveIn(s.count, s.blockSize, View(s), q, c, k);
      }
    }
  }

  lemma NoLiveInUnused(s: State, a: SC.Slab, k: nat)
    requires |s.slabs| == |s.ptrs| && SC.AllOk(s.count, View(s)) && a in View(s)
    requires |a.availible| == s.count && k < s.count
    ensures k in a.availible
  {
    SP.FullStackHasAll(s.count, a, k);
  }

  /** Giving up an unused slab, in any of the three branches, loses no live block. */
  lemma MemToDispatchKeeps(s: State, it: nat)
    requires Inv(s) && it < |s.slabs| && |s.slabs| > 1 && InUse(s, it) == 0
    ensures SameBlocks(s, MemToDispatch(s, it))
  {
    hide FreeTotal, SC.Disjoint, SC.AllOk, SC.LiveAmong, SwapPop, Removed;
    var s' := MemToDispatch(s, it);
    assert s.count * |s'.slabs| == s.count * |s.slabs| - s.count;
    ViewsSwapPop(s.slabs, s.ptrs, it);
    ViewsRemove(s.slabs, s.ptrs, it);
    RemoveElements(Views(s.slabs, s.ptrs), it);
    SwapPopElements(Views(s.slabs, s.ptrs), it);
    FreeRemove(s.slabs, it);
    FreeSwapPop(s.slabs, it);
    LessKeeps(s, s', it);
  }

  /** deallocate of a live block, by any thread and with no other call under way: its owner is found, the block
      stops being live, nothing else changes, and both counters stay exact. */
  lemma DeallocateSound(s: State, p: int, own: bool)
    requires Inv(s) && Live(s, p)
    ensures Deallocate(s, p, own).Done? && Deallocate(s, p, own).value
    ensures Deallocated(s, Deallocate(s, p, own).state, p)
  {
    hide FreeTotal, SC.Disjoint, SC.AllOk, SC.LiveIn, Find, Push, SpliceBoth, MemToDispatch;
    var c, idx: nat :| SC.LiveIn(s.count, s.blockSize, View(s), p, c, idx);
    FindsOwner(s, p, c, idx);
    var it := Find(s, p, 0).value;
    var s1, s2 := Push(s, it, p, own), PushAndCount(s, it, p, own);
    PushKeeps(s, it, p, own, idx);
    assert s1.count == s.count && |s1.slabs| == |s2.slabs| && s1.slabs == s2.slabs;
    if Splices(s1, it) {
      SpliceBothKeeps(s2, it);
    } else if Releases(s1, it) {
      MemToDispatchKeeps(s2, it);
    }
    SettleCounts(s1, it);
  }

  /** The last decrement commutes with the moves. */
  lemma SettleCounts(s: State, it: nat)
    requires Shape(s) && it < |s.slabs|
    ensures var s2 := s.(size := s.size - 1);
            var r := Settle(s, it);
            r.(size := r.size - 1) == if Splices(s, it) then SpliceBoth(s2, it)
                                      else if Releases(s, it) then MemToDispatch(s2, it)
                                      else s2
  {}

  /** A pointer that no slab here holds is left alone. */
  lemma DeallocateElsewhere(s: State, p: int, own: bool)
    requires Shape(s) && forall k :: 0 <= k < |s.ptrs| ==> !ContainsMem(s, s.ptrs[k], p)
    ensures Deallocate(s, p, own) == Done(s, false)
  {
    FindNoneIff(s, p);
  }
}
