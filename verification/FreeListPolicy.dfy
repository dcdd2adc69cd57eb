/** PolicyT of Allocators/FreeList.h as an object: the list of free chunks kept in a vector or list of
    pairs, or in an ordered map, edited in place. All three storages meet one contract, stated over the
    chunk sequence they represent. */
module FreeListPolicy {
  import opened Common
  import opened FreeChunks
  import opened FreeListHeap
  import opened SizeTypes

  datatype Storage = Flat | List | Tree

  /** Address order, sizes of at least 0, and a total that fits the size type. */
  ghost predicate Fits(l: seq<Chunk>, bound: nat) {
    && Sorted(l)
    && (forall k :: 0 <= k < |l| ==> l[k].size >= 0)
    && Sum(l) < bound
  }

  /** The map m holds exactly the chunks of l, by start. */
  ghost predicate Holds(m: map<int, int>, l: seq<Chunk>) {
    && (forall i :: 0 <= i < |l| ==> l[i].start in m && m[l[i].start] == l[i].size)
    && (forall k :: k in m ==> StartsAt(l, k))
  }

  ghost predicate StartsAt(l: seq<Chunk>, k: int) {
    exists i :: 0 <= i < |l| && l[i].start == k
  }

  /** key is the least key of m that is not below p, if there is one. */
  ghost predicate IsFrom(m: map<int, int>, p: int, key: Option<int>) {
    match key
    case None => forall k :: k in m ==> k < p
    case Some(n) => n in m && n >= p && forall k :: k in m && k >= p ==> n <= k
  }

  /** key is the greatest key of m below p, if there is one. */
  ghost predicate IsBelow(m: map<int, int>, p: int, key: Option<int>) {
    match key
    case None => forall k :: k in m ==> k >= p
    case Some(n) => n in m && n < p && forall k :: k in m && k < p ==> k <= n
  }

  // ----- what the edits do to the sequence and to the map

  lemma FitsInsert(l: seq<Chunk>, bound: nat, start: int, extent: int)
    requires Fits(l, bound) && extent >= 0 && Sum(l) + extent < bound
    requires var i := LowerBound(l, start); i == |l| || l[i].start > start
    ensures Fits(Insert(l, LowerBound(l, start), Chunk(start, extent)), bound)
  {
    SumInsert(l, LowerBound(l, start), Chunk(start, extent));
    hide Sum;
    var i := LowerBound(l, start);
    assert forall k :: i < k < |l| ==> l[i].start < l[k].start;
  }

  lemma FitsErase(l: seq<Chunk>, bound: nat, i: nat)
    requires Fits(l, bound) && i < |l|
    ensures Fits(Erase(l, i), bound)
  {
    SumErase(l, i);
    hide Sum;
  }

  lemma FitsJoin(l: seq<Chunk>, bound: nat, i: nat)
    requires Fits(l, bound) && i + 1 < |l|
    ensures Fits(Join(l, i), bound)
    ensures 0 <= l[i].size + l[i + 1].size < bound
  {
    SumJoin(l, i);
    SumAtLeast(l, i);
    hide Sum;
  }

  lemma StartsInsert(l: seq<Chunk>, i: nat, c: Chunk, k: int)
    requires i <= |l| && (StartsAt(l, k) || k == c.start)
    ensures StartsAt(Insert(l, i, c), k)
  {
    var r := Insert(l, i, c);
    if k == c.start {
      assert r[i].start == k;
    } else {
      var j :| 0 <= j < |l| && l[j].start == k;
      assert r[if j < i then j else j + 1].start == k;
    }
  }

  lemma StartsErase(l: seq<Chunk>, i: nat, k: int)
    requires i < |l| && StartsAt(l, k) && k != l[i].start
    ensures StartsAt(Erase(l, i), k)
  {
    var j :| 0 <= j < |l| && l[j].start == k;
    assert Erase(l, i)[if j < i then j else j - 1].start == k;
  }

  lemma HoldsInsert(m: map<int, int>, l: seq<Chunk>, i: nat, c: Chunk)
    requires Holds(m, l) && i <= |l| && c.start !in m
    ensures Holds(m[c.start := c.size], Insert(l, i, c))
  {
    hide StartsAt;
    forall k | k in m[c.start := c.size]
      ensures StartsAt(Insert(l, i, c), k)
    {
      StartsInsert(l, i, c, k);
    }
  }

  lemma HoldsErase(m: map<int, int>, l: seq<Chunk>, i: nat)
    requires Holds(m, l) && Sorted(l) && i < |l|
    ensures Holds(m - {l[i].start}, Erase(l, i))
  {
    hide StartsAt;
    forall k | k in m - {l[i].start}
      ensures StartsAt(Erase(l, i), k)
    {
      StartsErase(l, i, k);
    }
  }

  lemma HoldsResize(m: map<int, int>, l: seq<Chunk>, i: nat, size: int)
    requires Holds(m, l) && Sorted(l) && i < |l|
    ensures Holds(m[l[i].start := size], l[i := Chunk(l[i].start, size)])
    ensures Sorted(l[i := Chunk(l[i].start, size)])
  {
    var r := l[i := Chunk(l[i].start, size)];
    assert forall j :: 0 <= j < |l| ==> r[j].start == l[j].start;
  }

  lemma HoldsJoin(m: map<int, int>, l: seq<Chunk>, i: nat)
    requires Holds(m, l) && Sorted(l) && i + 1 < |l|
    ensures l[i].start in m && l[i + 1].start in m
    ensures Holds(m[l[i].start := l[i].size + l[i + 1].size] - {l[i + 1].start}, Join(l, i))
  {
    var size := l[i].size + l[i + 1].size;
    HoldsResize(m, l, i, size);
    HoldsErase(m[l[i].start := size], l[i := Chunk(l[i].start, size)], i + 1);
  }

  /** The sum of two sizes does not wrap, and the map then holds the joined chunk. */
  lemma MapJoin(m: map<int, int>, l: seq<Chunk>, bound: nat, i: nat)
    requires Holds(m, l) && Fits(l, bound) && i + 1 < |l|
    ensures bound > 0 && Fits(Join(l, i), bound)
    ensures l[i].start in m && l[i + 1].start in m
    ensures Holds(m[l[i].start := Wrap(m[l[i].start] + m[l[i + 1].start], bound)] - {l[i + 1].start}, Join(l, i))
  {
    FitsJoin(l, bound, i);
    HoldsJoin(m, l, i);
    var sum := m[l[i].start] + m[l[i + 1].start];
    assert sum == l[i].size + l[i + 1].size;
    hide Fits, Holds, Join;
    WrapKeeps(sum, bound);
  }

  lemma InOrder(l: seq<Chunk>, i: int, j: int)
    requires Sorted(l)
    ensures 0 <= i < j < |l| ==> l[i].start < l[j].start
  {}

  lemma {:induction false} LowerBoundIs(l: seq<Chunk>, p: int, i: nat)
    requires i <= |l|
    requires forall k :: 0 <= k < i ==> l[k].start < p
    requires forall k :: i <= k < |l| ==> l[k].start >= p
    ensures i == LowerBound(l, p)
  {
    if i > 0 {
      LowerBoundIs(l[1..], p, i - 1);
    }
  }

  /** A forward search of the map stops at the lower bound of the sequence. */
  lemma FromIsLowerBound(m: map<int, int>, l: seq<Chunk>, p: int, key: Option<int>)
    requires Holds(m, l) && Sorted(l) && IsFrom(m, p, key)
    ensures var i := LowerBound(l, p);
            key == if i < |l| then Some(l[i].start) else None
  {
    var i := LowerBound(l, p);
    if key.Some? {
      var j :| 0 <= j < |l| && l[j].start == key.value;
      InOrder(l, i, j);
    }
  }

  /** The map's neighbours of an entry are the neighbours in the sequence. */
  lemma NextEntry(m: map<int, int>, l: seq<Chunk>, i: nat, next: Option<int>)
    requires Holds(m, l) && Sorted(l) && i < |l| && IsFrom(m, l[i].start + 1, next)
    ensures next == if i + 1 < |l| then Some(l[i + 1].start) else None
  {
    FromIsLowerBound(m, l, l[i].start + 1, next);
    hide Holds, IsFrom;
    var r := LowerBound(l, l[i].start + 1);
    InOrder(l, r, i);
    InOrder(l, i, i + 1);
  }

  lemma PreviousEntry(m: map<int, int>, l: seq<Chunk>, i: nat, prev: Option<int>)
    requires Holds(m, l) && Sorted(l) && i < |l| && IsBelow(m, l[i].start, prev)
    ensures prev == if i > 0 then Some(l[i - 1].start) else None
  {
    if prev.Some? {
      var j :| 0 <= j < |l| && l[j].start == prev.value;
      InOrder(l, i, j);
      InOrder(l, j, i - 1);
    }
  }

  lemma OneChunk(start: int, size: nat, bound: nat)
    requires size < bound
    ensures Fits([Chunk(start, size)], bound) && Holds(map[start := size], [Chunk(start, size)])
  {
    var l := [Chunk(start, size)];
    assert Sum(l[1..]) == 0;
    assert l[0].start == start;
  }

  lemma SameFirstEntry(m: map<int, int>, l: seq<Chunk>, l': seq<Chunk>)
    requires Holds(m, l) && Sorted(l) && Holds(m, l') && Sorted(l')
    ensures l == [] <==> l' == []
    ensures l != [] && l' != [] ==> l[0] == l'[0]
  {
    EmptyMap(m, l);
    EmptyMap(m, l');
    if l != [] && l' != [] {
      LeastEntryFirst(m, l, l'[0].start);
      LeastEntryFirst(m, l', l[0].start);
    }
  }

  /** A map represents one list only, so the contracts below determine what each storage answers. */
  lemma {:induction false} OneListPerMap(m: map<int, int>, l: seq<Chunk>, l': seq<Chunk>)
    requires Holds(m, l) && Sorted(l) && Holds(m, l') && Sorted(l')
    ensures l == l'
    decreases |l|
  {
    hide Holds;
    SameFirstEntry(m, l, l');
    if l != [] {
      HoldsErase(m, l, 0);
      HoldsErase(m, l', 0);
      OneListPerMap(m - {l[0].start}, Erase(l, 0), Erase(l', 0));
      SameErased(l, l');
    }
  }

  lemma SameErased(l: seq<Chunk>, l': seq<Chunk>)
    requires l != [] && l' != [] && l[0] == l'[0] && Erase(l, 0) == Erase(l', 0)
    ensures l == l'
  {
    assert l == [l[0]] + Erase(l, 0) && l' == [l'[0]] + Erase(l', 0);
  }

  lemma LeastEntryFirst(m: map<int, int>, l: seq<Chunk>, k: int)
    requires Holds(m, l) && Sorted(l) && l != [] && k in m
    ensures l[0].start <= k
  {
    assert StartsAt(l, k);
  }

  lemma EmptyMap(m: map<int, int>, l: seq<Chunk>)
    requires Holds(m, l)
    ensures m == map[] <==> l == []
  {
    if l != [] {
      assert l[0].start in m;
    } else if m != map[] {
      assert m.Keys != {};
      var k := SomeElement(m.Keys);
    }
  }

  class Policy {
    const kind: Storage
    const bound: nat             // the number of size_type values
    var cells: seq<Chunk>        // the vector or list of pairs
    var tree: map<int, int>      // the ordered map
    ghost var chunks: seq<Chunk> // what either represents

    ghost predicate Valid()
      reads this
    {
      && Fits(chunks, bound)
      && (if kind.Tree? then Holds(tree, chunks) else cells == chunks)
    }

    constructor (kind: Storage, bound: nat)
      requires bound > 0
      ensures Valid() && chunks == [] && this.kind == kind && this.bound == bound
    {
      this.kind := kind;
      this.bound := bound;
      cells, tree, chunks := [], map[], [];
    }

    // ----- the storages' own searches

    /** lower_bound_linear: bisection to the first chunk that does not start before p. */
    method LowerBoundLinear(p: int) returns (i: nat)
      requires Valid() && !kind.Tree?
      ensures i == LowerBound(chunks, p)
    {
      var lo, hi := 0, |cells|;
      while lo < hi
        invariant 0 <= lo <= hi <= |cells|
        invariant forall k :: 0 <= k < lo ==> cells[k].start < p
        invariant forall k :: hi <= k < |cells| ==> cells[k].start >= p
      {
        var mid := (lo + hi) / 2;
        if cells[mid].start < p {
          lo := mid + 1;
        } else {
          hi := mid;
        }
      }
      i := lo;
      LowerBoundIs(chunks, p, i);
    }

    /** std::map::lower_bound. */
    method LeastFrom(p: int) returns (key: Option<int>)
      ensures IsFrom(tree, p, key)
    {
      var rest := tree.Keys;
      key := None;
      while rest != {}
        invariant rest <= tree.Keys
        invariant key.None? ==> forall k :: k in tree && k !in rest ==> k < p
        invariant key.Some? ==> key.value in tree && key.value >= p
        invariant key.Some? ==> forall k :: k in tree && k !in rest && k >= p ==> key.value <= k
        decreases |rest|
      {
        ghost var some := SomeElement(rest);
        var k :| k in rest;
        rest := rest - {k};
        if k >= p && (key.None? || k < key.value) {
          key := Some(k);
        }
      }
    }

    /** The entry before p in key order. */
    method GreatestBelow(p: int) returns (key: Option<int>)
      ensures IsBelow(tree, p, key)
    {
      var rest := tree.Keys;
      key := None;
      while rest != {}
        invariant rest <= tree.Keys
        invariant key.None? ==> forall k :: k in tree && k !in rest ==> k >= p
        invariant key.Some? ==> key.value in tree && key.value < p
        invariant key.Some? ==> forall k :: k in tree && k !in rest && k < p ==> k <= key.value
        decreases |rest|
      {
        ghost var some := SomeElement(rest);
        var k :| k in rest;
        rest := rest - {k};
        if k < p && (key.None? || k > key.value) {
          key := Some(k);
        }
      }
    }

    /** std::begin of the map. */
    method First() returns (key: Option<int>)
      requires Valid() && kind.Tree?
      ensures key == if chunks == [] then None else Some(chunks[0].start)
    {
      EmptyMap(tree, chunks);
      if tree == map[] {
        return None;
      }
      assert tree.Keys != {};
      ghost var some := SomeElement(tree.Keys);
      var low :| low in tree.Keys;
      var below := GreatestBelow(low);
      ghost var steps: set<int> := tree.Keys;
      while below.Some?
        invariant low in tree && IsBelow(tree, low, below)
        invariant forall k :: k in tree && k < low ==> k in steps
        decreases |steps|
      {
        assert below.value in steps;
        low := below.value;
        steps := steps - {low};
        below := GreatestBelow(low);
      }
      ghost var j :| 0 <= j < |chunks| && chunks[j].start == low;
      InOrder(chunks, 0, j);
      key := Some(low);
    }

    // ----- add

    /** Chunk i takes in the next one, in place in a vector or list; the sum does not wrap. */
    method JoinLinear(i: nat)
      requires Valid() && !kind.Tree? && i + 1 < |chunks|
      modifies this
      ensures Valid() && chunks == Join(old(chunks), i)
    {
      FitsJoin(chunks, bound, i);
      WrapKeeps(cells[i].size + cells[i + 1].size, bound);
      hide Fits, Erase, Wrap;
      cells := cells[i := Chunk(cells[i].start, Wrap(cells[i].size + cells[i + 1].size, bound))];
      cells := Erase(cells, i + 1);
      chunks := Join(chunks, i);
    }

    /** The same in the map, by the keys of both entries. */
    method JoinTree(at: int, next: int, ghost i: nat)
      requires Valid() && kind.Tree? && i + 1 < |chunks|
      requires at == chunks[i].start && next == chunks[i + 1].start
      modifies this
      ensures Valid() && chunks == Join(old(chunks), i)
    {
      MapJoin(tree, chunks, bound, i);
      hide Fits, Holds, Join, Wrap;
      tree := tree[at := Wrap(tree[at] + tree[next], bound)] - {next};
      chunks := Join(chunks, i);
    }

    method CoalesceLinear(i: nat)
      requires Valid() && !kind.Tree? && i < |chunks|
      modifies this
      ensures Valid() && chunks == Coalesce(old(chunks), i)
    {
      hide Fits, Join;
      if i + 1 < |cells| && cells[i].End() == cells[i + 1].start {
        JoinLinear(i);
      }
      if i > 0 && cells[i - 1].End() == cells[i].start {
        JoinLinear(i - 1);
      }
    }

    method JoinNextTree(at: int, ghost i: nat)
      requires Valid() && kind.Tree? && i < |chunks| && chunks[i].start == at
      modifies this
      ensures Valid() && chunks == if TouchesNext(old(chunks), i) then Join(old(chunks), i) else old(chunks)
    {
      var next := LeastFrom(at + 1);
      NextEntry(tree, chunks, i, next);
      hide Fits, IsFrom, Join;
      if next.Some? && at + tree[at] == next.value {
        JoinTree(at, next.value, i);
      }
    }

    method JoinPreviousTree(at: int, ghost i: nat)
      requires Valid() && kind.Tree? && i < |chunks| && chunks[i].start == at
      modifies this
      ensures Valid()
      ensures chunks == if i > 0 && TouchesNext(old(chunks), i - 1) then Join(old(chunks), i - 1) else old(chunks)
    {
      var prev := GreatestBelow(at);
      PreviousEntry(tree, chunks, i, prev);
      assert i > 0 ==> chunks[i - 1].start in tree;
      hide Fits, IsBelow, Join;
      if prev.Some? && prev.value + tree[prev.value] == at {
        JoinTree(prev.value, at, i - 1);
      }
    }

    method CoalesceTree(at: int, ghost i: nat)
      requires Valid() && kind.Tree? && i < |chunks| && chunks[i].start == at
      modifies this
      ensures Valid() && chunks == Coalesce(old(chunks), i)
    {
      hide Fits, Holds;
      JoinNextTree(at, i);
      JoinPreviousTree(at, i);
    }

    method AddLinear(start: int, extent: int)
      requires Valid() && !kind.Tree? && chunks != []
      requires extent >= 0 && Sum(chunks) + extent < bound
      modifies this
      ensures Valid() && chunks == AddExtent(old(chunks), start, extent)
    {
      var i := LowerBoundLinear(start);
      if i == |cells| || cells[i].start > start {
        FitsInsert(chunks, bound, start, extent);
        hide Fits, Sum;
        cells := Insert(cells, i, Chunk(start, extent));
        chunks := Insert(chunks, i, Chunk(start, extent));
      }
      hide Fits, Sum, Coalesce;
      CoalesceLinear(i);
    }

    method AddTree(start: int, extent: int)
      requires Valid() && kind.Tree? && chunks != []
      requires extent >= 0 && Sum(chunks) + extent < bound
      modifies this
      ensures Valid() && chunks == AddExtent(old(chunks), start, extent)
    {
      ghost var i := LowerBound(chunks, start);
      var it := LeastFrom(start);
      FromIsLowerBound(tree, chunks, start, it);
      if it.None? || it.value > start {
        assert start !in tree;
        FitsInsert(chunks, bound, start, extent);
        HoldsInsert(tree, chunks, i, Chunk(start, extent));
        hide Fits, Sum, Holds, IsFrom;
        tree := tree[start := extent];
        chunks := Insert(chunks, i, Chunk(start, extent));
      }
      hide Fits, Sum, Coalesce, Holds, IsFrom;
      CoalesceTree(start, i);
    }

    predicate Empty()
      reads this
    {
      if kind.Tree? then tree == map[] else cells == []
    }

    /** The first entry of an empty list: its size is stored as it is. */
    method AddFirst(start: int, size: nat)
      requires Valid() && chunks == [] && size < bound
      modifies this
      ensures Valid() && chunks == [Chunk(start, size)]
    {
      OneChunk(start, size, bound);
      hide Fits, Holds;
      if kind.Tree? {
        tree := map[start := size];
      } else {
        cells := [Chunk(start, size)];
      }
      chunks := [Chunk(start, size)];
    }

    method AddFurther(start: int, extent: int)
      requires Valid() && chunks != []
      requires extent >= 0 && Sum(chunks) + extent < bound
      modifies this
      ensures Valid() && chunks == AddExtent(old(chunks), start, extent)
    {
      hide AddExtent, Fits, Holds, Sum;
      if kind.Tree? {
        AddTree(start, extent);
      } else {
        AddLinear(start, extent);
      }
    }

    lemma EmptyMeansNoChunks()
      requires Valid()
      ensures Empty() <==> chunks == []
      ensures chunks == [] ==> Sum(chunks) == 0
    {
      if kind.Tree? {
        EmptyMap(tree, chunks);
      }
    }

    /** add: into an empty list the size as given, otherwise size + extra, coalesced with both neighbours. */
    method Add(start: int, size: int, extra: int)
      requires Valid()
      requires size >= 0 && extra >= 0 && Sum(chunks) + size + extra < bound
      modifies this
      ensures Valid() && chunks == AddCall(old(chunks), start, size, extra)
    {
      hide AddExtent, Fits, Holds, Sum, Empty;
      EmptyMeansNoChunks();
      if Empty() {
        AddFirst(start, size);
      } else {
        AddFurther(start, size + extra);
      }
    }

    // ----- firstFit and erase

    /** firstFit and erase: take out the first chunk, in address order, of at least req bytes. */
    method TakeFirstFit(req: int) returns (fit: Option<Chunk>)
      requires Valid()
      modifies this
      ensures Valid()
      ensures var i := FirstFit(old(chunks), req);
              if i == |old(chunks)| then fit == None && chunks == old(chunks)
              else fit == Some(old(chunks)[i]) && chunks == Erase(old(chunks), i)
    {
      if kind.Tree? {
        fit := TakeFirstFitTree(req);
      } else {
        fit := TakeFirstFitLinear(req);
      }
    }

    method TakeFirstFitLinear(req: int) returns (fit: Option<Chunk>)
      requires Valid() && !kind.Tree?
      modifies this
      ensures Valid()
      ensures var i := FirstFit(old(chunks), req);
              if i == |old(chunks)| then fit == None && chunks == old(chunks)
              else fit == Some(old(chunks)[i]) && chunks == Erase(old(chunks), i)
    {
      var i := 0;
      while i < |cells| && cells[i].size < req
        invariant 0 <= i <= |cells|
        invariant forall k :: 0 <= k < i ==> cells[k].size < req
      {
        i := i + 1;
      }
      assert i == FirstFit(chunks, req);
      if i == |cells| {
        return None;
      }
      fit := Some(cells[i]);
      FitsErase(chunks, bound, i);
      cells := Erase(cells, i);
      chunks := cells;
    }

    method TakeFirstFitTree(req: int) returns (fit: Option<Chunk>)
      requires Valid() && kind.Tree?
      modifies this
      ensures Valid()
      ensures var i := FirstFit(old(chunks), req);
              if i == |old(chunks)| then fit == None && chunks == old(chunks)
              else fit == Some(old(chunks)[i]) && chunks == Erase(old(chunks), i)
    {
      ghost var i := 0;
      var it := First();
      while it.Some? && tree[it.value] < req
        invariant 0 <= i <= |chunks|
        invariant Valid() && chunks == old(chunks) && tree == old(tree)
        invariant it == if i < |chunks| then Some(chunks[i].start) else None
        invariant i < |chunks| ==> chunks[i].start in tree && tree[chunks[i].start] == chunks[i].size
        invariant forall k :: 0 <= k < i ==> chunks[k].size < req
        decreases |chunks| - i
      {
        it := Next(it.value, i);
        i := i + 1;
      }
      assert i == FirstFit(chunks, req);
      if it.None? {
        return None;
      }
      fit := Some(Chunk(it.value, tree[it.value]));
      FitsErase(chunks, bound, i);
      HoldsErase(tree, chunks, i);
      hide Fits, Holds;
      tree := tree - {it.value};
      chunks := Erase(chunks, i);
    }

    /** ++it on the map. */
    method Next(at: int, ghost i: nat) returns (key: Option<int>)
      requires Valid() && kind.Tree? && i < |chunks| && chunks[i].start == at
      ensures key == if i + 1 < |chunks| then Some(chunks[i + 1].start) else None
    {
      key := LeastFrom(at + 1);
      NextEntry(tree, chunks, i, key);
    }

    /** freeAll: one chunk again. */
    method FreeAll(bytes: nat)
      requires Valid() && bytes < bound
      modifies this
      ensures Valid() && chunks == [Chunk(0, bytes)]
    {
      cells, tree, chunks := [], map[], [];
      Add(0, bytes, 0);
    }
  }
}
