/** The list of free chunks of Allocators/FreeList.h as a value: the operations
    of PolicyT, and what a list in canonical form says about the bytes it covers. */
module FreeChunks {

  /** A free chunk: its first address and its size. */
  datatype Chunk = Chunk(start: int, size: int) {
    function End(): int { start + size }
  }

  // ----- the operations

  function Insert(l: seq<Chunk>, i: nat, c: Chunk): (r: seq<Chunk>)
    requires i <= |l|
    ensures |r| == |l| + 1
    ensures forall k {:trigger r[k]} :: 0 <= k < |r| ==> r[k] == if k < i then l[k] else if k == i then c else l[k - 1]
  {
    l[..i] + [c] + l[i..]
  }

  function Erase(l: seq<Chunk>, i: nat): (r: seq<Chunk>)
    requires i < |l|
    ensures |r| == |l| - 1
    ensures forall k {:trigger r[k]} :: 0 <= k < |r| ==> r[k] == if k < i then l[k] else l[k + 1]
  {
    l[..i] + l[i + 1..]
  }

  /** The first position whose chunk does not start before p. */
  function LowerBound(l: seq<Chunk>, p: int): (r: nat)
    ensures r <= |l|
    ensures forall k :: 0 <= k < r ==> l[k].start < p
    ensures r < |l| ==> l[r].start >= p
  {
    if l == [] || l[0].start >= p then 0 else 1 + LowerBound(l[1..], p)
  }

  predicate TouchesNext(l: seq<Chunk>, i: nat) {
    i + 1 < |l| && l[i].End() == l[i + 1].start
  }

  /** Chunk i takes in the chunk after it. */
  function Join(l: seq<Chunk>, i: nat): (r: seq<Chunk>)
    requires i + 1 < |l|
    ensures |r| == |l| - 1
    ensures forall k {:trigger r[k]} :: 0 <= k < |r| ==>
              r[k] == if k < i then l[k] else if k == i then Chunk(l[i].start, l[i].size + l[i + 1].size) else l[k + 1]
  {
    Erase(l[i := Chunk(l[i].start, l[i].size + l[i + 1].size)], i + 1)
  }

  /** Coalescing around position i: first with the next chunk, then with the previous one. */
  function Coalesce(l: seq<Chunk>, i: nat): seq<Chunk>
    requires i < |l|
  {
    var l1 := if TouchesNext(l, i) then Join(l, i) else l;
    if i > 0 && TouchesNext(l1, i - 1) then Join(l1, i - 1) else l1
  }

  /** PolicyT::add on a list that stores the given extent: insert in address order, then coalesce. */
  function AddExtent(l: seq<Chunk>, start: int, extent: int): seq<Chunk> {
    var i := LowerBound(l, start);
    if i == |l| || l[i].start > start then Coalesce(Insert(l, i, Chunk(start, extent)), i)
    else Coalesce(l, i)
  }

  /** PolicyT::add (lines 75-104): into an empty list the size as given, otherwise the size and extra more. */
  function AddCall(l: seq<Chunk>, start: int, size: int, extra: int): seq<Chunk> {
    if l == [] then [Chunk(start, size)] else AddExtent(l, start, size + extra)
  }

  lemma AddToEmpty(start: int, extent: int)
    ensures AddExtent([], start, extent) == [Chunk(start, extent)]
  {
    assert Insert([], 0, Chunk(start, extent)) == [Chunk(start, extent)];
  }

  /** PolicyT::firstFit: the first chunk that is large enough, |l| if there is none. */
  function FirstFit(l: seq<Chunk>, req: int): (r: nat)
    ensures r <= |l|
    ensures forall k :: 0 <= k < r ==> l[k].size < req
    ensures r < |l| ==> l[r].size >= req
  {
    if l == [] || l[0].size >= req then 0 else 1 + FirstFit(l[1..], req)
  }

  function Sum(l: seq<Chunk>): int {
    if l == [] then 0 else l[0].size + Sum(l[1..])
  }

  // ----- what a list means

  /** Address a lies in a chunk of the list. */
  ghost predicate Covers(l: seq<Chunk>, a: int) {
    exists i :: 0 <= i < |l| && l[i].start <= a < l[i].End()
  }

  /** Canonical form within [0, hi): nonempty chunks in address order, no two touching. */
  ghost predicate Canonical(l: seq<Chunk>, hi: int) {
    && (forall i :: 0 <= i < |l| ==> l[i].size > 0 && 0 <= l[i].start && l[i].End() <= hi)
    && (forall i, j :: 0 <= i < j < |l| ==> l[i].End() < l[j].start)
  }

  ghost predicate SameCover(l: seq<Chunk>, m: seq<Chunk>) {
    forall a :: Covers(l, a) <==> Covers(m, a)
  }

  /** The req bytes from address a are all free. */
  ghost predicate FreeRun(l: seq<Chunk>, a: int, req: int) {
    forall k :: a <= k < a + req ==> Covers(l, k)
  }

  predicate Sorted(l: seq<Chunk>) {
    forall i, j :: 0 <= i < j < |l| ==> l[i].start < l[j].start
  }

  lemma {:induction false} SumInsert(l: seq<Chunk>, i: nat, c: Chunk)
    requires i <= |l|
    ensures Sum(Insert(l, i, c)) == Sum(l) + c.size
  {
    var r := Insert(l, i, c);
    if i == 0 {
      assert r[1..] == l;
    } else {
      SumInsert(l[1..], i - 1, c);
      assert r[0] == l[0] && r[1..] == Insert(l[1..], i - 1, c);
    }
  }

  lemma SumErase(l: seq<Chunk>, i: nat)
    requires i < |l|
    ensures Sum(Erase(l, i)) == Sum(l) - l[i].size
  {
    hide Sum;
    assert Insert(Erase(l, i), i, l[i]) == l;
    SumInsert(Erase(l, i), i, l[i]);
  }

  lemma {:induction false} SumJoin(l: seq<Chunk>, i: nat)
    requires i + 1 < |l|
    ensures Sum(Join(l, i)) == Sum(l)
  {
    var r := Join(l, i);
    if i == 0 {
      assert r[1..] == l[1..][1..];
    } else {
      SumJoin(l[1..], i - 1);
      assert r[0] == l[0] && r[1..] == Join(l[1..], i - 1);
    }
  }

  lemma {:induction false} SumAtLeast(l: seq<Chunk>, i: nat)
    requires i < |l| && forall k :: 0 <= k < |l| ==> l[k].size >= 0
    ensures 0 <= l[i].size <= Sum(l)
    ensures i + 1 < |l| ==> l[i].size + l[i + 1].size <= Sum(l)
  {
    SumNonNegative(l[1..]);
    if i > 0 {
      SumAtLeast(l[1..], i - 1);
    } else if |l| > 1 {
      SumNonNegative(l[2..]);
      assert l[1..][1..] == l[2..];
    }
  }

  lemma {:induction false} SumNonNegative(l: seq<Chunk>)
    requires forall k :: 0 <= k < |l| ==> l[k].size >= 0
    ensures Sum(l) >= 0
  {
    if l != [] {
      SumNonNegative(l[1..]);
    }
  }

  // ----- add

  /** Chunks in address order that do not overlap but may touch, away from position i. */
  ghost predicate Near(l: seq<Chunk>, hi: int, i: nat) {
    && (forall k :: 0 <= k < |l| ==> l[k].size > 0 && 0 <= l[k].start && l[k].End() <= hi)
    && (forall j, k :: 0 <= j < k < |l| ==> l[j].End() <= l[k].start)
    && (forall j, k :: 0 <= j < k < |l| && j != i && k != i ==> l[j].End() < l[k].start)
  }

  lemma JoinCovers(l: seq<Chunk>, i: nat, a: int)
    requires i + 1 < |l| && l[i].End() == l[i + 1].start && l[i].size >= 0 && l[i + 1].size >= 0
    ensures Covers(Join(l, i), a) <==> Covers(l, a)
  {
    var r := Join(l, i);
    if Covers(l, a) {
      var k :| 0 <= k < |l| && l[k].start <= a < l[k].End();
      var k' := if k <= i then k else k - 1;
      assert r[k'].start <= a < r[k'].End();
    }
    if Covers(r, a) {
      var k :| 0 <= k < |r| && r[k].start <= a < r[k].End();
      var k' := if k < i then k else if k == i then (if a < l[i].End() then i else i + 1) else k + 1;
      assert l[k'].start <= a < l[k'].End();
    }
  }

  lemma JoinNear(l: seq<Chunk>, hi: int, i: nat)
    requires TouchesNext(l, i) && Near(l, hi, i)
    ensures Near(Join(l, i), hi, i)
  {}

  lemma JoinApart(l: seq<Chunk>, hi: int, i: nat)
    requires TouchesNext(l, i) && Near(l, hi, i)
    ensures forall k :: i < k < |Join(l, i)| ==> Join(l, i)[i].End() < Join(l, i)[k].start
  {
    assert forall k :: i + 1 < k < |l| ==> l[i + 1].End() < l[k].start;
    hide Near;
  }

  lemma JoinSame(l: seq<Chunk>, i: nat)
    requires TouchesNext(l, i) && l[i].size >= 0 && l[i + 1].size >= 0
    ensures Sum(Join(l, i)) == Sum(l)
    ensures SameCover(Join(l, i), l)
  {
    SumJoin(l, i);
    forall a ensures Covers(Join(l, i), a) <==> Covers(l, a) {
      JoinCovers(l, i, a);
    }
  }

  lemma JoinPrevCanonical(l: seq<Chunk>, hi: int, i: nat)
    requires 0 < i < |l| && TouchesNext(l, i - 1) && Near(l, hi, i)
    requires forall k :: i < k < |l| ==> l[i].End() < l[k].start
    ensures Canonical(Join(l, i - 1), hi)
  {
    var r := Join(l, i - 1);
    forall j, k | 0 <= j < k < |r|
      ensures r[j].End() < r[k].start
    {
      assert j == i - 1 ==> r[j].End() == l[i].End();
      assert r[k].start == l[if k < i then k else k + 1].start;
    }
  }

  lemma NearIsCanonical(l: seq<Chunk>, hi: int, i: nat)
    requires i < |l| && Near(l, hi, i) && (i > 0 ==> !TouchesNext(l, i - 1))
    requires forall k :: i < k < |l| ==> l[i].End() < l[k].start
    ensures Canonical(l, hi)
  {
    if i > 0 {
      assert forall k :: 0 <= k < i - 1 ==> l[k].End() < l[i - 1].start;
    }
  }

  lemma CoalesceNext(l: seq<Chunk>, hi: int, i: nat)
    requires i < |l| && Near(l, hi, i)
    ensures var r := if TouchesNext(l, i) then Join(l, i) else l;
            && SameCover(r, l) && Near(r, hi, i) && Sum(r) == Sum(l)
            && forall k :: i < k < |r| ==> r[i].End() < r[k].start
  {
    hide Covers;
    if TouchesNext(l, i) {
      JoinSame(l, i);
      hide Sum, SameCover;
      JoinNear(l, hi, i);
      JoinApart(l, hi, i);
    } else {
      NotTouching(l, hi, i);
    }
  }

  lemma CoalesceCanonical(l: seq<Chunk>, hi: int, i: nat)
    requires i < |l| && Near(l, hi, i)
    ensures Canonical(Coalesce(l, i), hi)
    ensures SameCover(Coalesce(l, i), l)
    ensures Sum(Coalesce(l, i)) == Sum(l)
  {
    hide Covers, SameCover, Near, Canonical, Sum, Join;
    var l1 := if TouchesNext(l, i) then Join(l, i) else l;
    CoalesceNext(l, hi, i);
    CoalescePrev(l1, hi, i);
    SameCoverTrans(Coalesce(l, i), l1, l);
  }

  lemma SameCoverTrans(l: seq<Chunk>, m: seq<Chunk>, n: seq<Chunk>)
    requires SameCover(l, m) && SameCover(m, n)
    ensures SameCover(l, n)
  {
    assert forall a :: Covers(l, a) ==> Covers(m, a);
  }

  lemma CoalescePrev(l: seq<Chunk>, hi: int, i: nat)
    requires i < |l| && Near(l, hi, i)
    requires forall k :: i < k < |l| ==> l[i].End() < l[k].start
    ensures var r := if i > 0 && TouchesNext(l, i - 1) then Join(l, i - 1) else l;
            && Canonical(r, hi) && Sum(r) == Sum(l)
            && SameCover(r, l)
  {
    if i > 0 && TouchesNext(l, i - 1) {
      assert l[i - 1].size >= 0 && l[i].size >= 0;
      hide Covers, SameCover, Near, Canonical, Sum, Join;
      JoinPrevCanonical(l, hi, i);
      JoinSame(l, i - 1);
    } else {
      NearIsCanonical(l, hi, i);
    }
  }

  lemma NotTouching(l: seq<Chunk>, hi: int, i: nat)
    requires i < |l| && Near(l, hi, i) && !TouchesNext(l, i)
    ensures forall k :: i < k < |l| ==> l[i].End() < l[k].start
  {
    forall k | i < k < |l|
      ensures l[i].End() < l[k].start
    {
      if k > i + 1 {
        assert l[i + 1].End() < l[k].start;
      }
    }
  }

  /** A chunk that lies in free-standing bytes goes between two chunks of a canonical list. */
  lemma FitsBetween(l: seq<Chunk>, hi: int, start: int, extent: int)
    requires Canonical(l, hi) && extent > 0
    requires forall a :: start <= a < start + extent ==> !Covers(l, a)
    ensures forall k :: 0 <= k < LowerBound(l, start) ==> l[k].End() <= start
    ensures forall k :: LowerBound(l, start) <= k < |l| ==> start + extent <= l[k].start
  {
    forall k | 0 <= k < |l|
      ensures l[k].End() <= start || start + extent <= l[k].start
    {
      var a := if l[k].start >= start then l[k].start else start;
      assert l[k].start <= a < l[k].End() ==> Covers(l, a);
    }
    var i := LowerBound(l, start);
    assert forall k :: i < k < |l| ==> l[i].End() < l[k].start;
  }

  lemma InsertCovers(l: seq<Chunk>, i: nat, c: Chunk, a: int)
    requires i <= |l|
    ensures Covers(Insert(l, i, c), a) <==> Covers(l, a) || c.start <= a < c.End()
  {
    var r := Insert(l, i, c);
    if Covers(l, a) {
      var k :| 0 <= k < |l| && l[k].start <= a < l[k].End();
      var k' := if k < i then k else k + 1;
      assert r[k'].start <= a < r[k'].End();
    }
    if c.start <= a < c.End() {
      assert r[i].start <= a < r[i].End();
    }
    if Covers(r, a) && !(c.start <= a < c.End()) {
      var k :| 0 <= k < |r| && r[k].start <= a < r[k].End();
      var k' := if k < i then k else k - 1;
      assert l[k'].start <= a < l[k'].End();
    }
  }

  lemma InsertNear(l: seq<Chunk>, hi: int, start: int, extent: int)
    requires Canonical(l, hi) && extent > 0 && 0 <= start && start + extent <= hi
    requires forall a :: start <= a < start + extent ==> !Covers(l, a)
    ensures var i := LowerBound(l, start);
            && (i == |l| || l[i].start > start)
            && Near(Insert(l, i, Chunk(start, extent)), hi, i)
  {
    FitsBetween(l, hi, start, extent);
    hide Covers;
    InsertBetween(l, hi, LowerBound(l, start), Chunk(start, extent));
    hide Canonical, Near, Insert;
  }

  lemma InsertBetween(l: seq<Chunk>, hi: int, i: nat, c: Chunk)
    requires Canonical(l, hi) && i <= |l| && c.size > 0 && 0 <= c.start && c.End() <= hi
    requires forall k :: 0 <= k < i ==> l[k].End() <= c.start
    requires forall k :: i <= k < |l| ==> c.End() <= l[k].start
    ensures Near(Insert(l, i, c), hi, i)
  {}

  /** add keeps the list canonical and adds exactly the extent to the free bytes, whichever
      neighbours it merges with. */
  lemma AddExtentCorrect(l: seq<Chunk>, hi: int, start: int, extent: int)
    requires Canonical(l, hi) && extent > 0 && 0 <= start && start + extent <= hi
    requires forall a :: start <= a < start + extent ==> !Covers(l, a)
    ensures Canonical(AddExtent(l, start, extent), hi)
    ensures forall a :: Covers(AddExtent(l, start, extent), a) <==> Covers(l, a) || start <= a < start + extent
    ensures Sum(AddExtent(l, start, extent)) == Sum(l) + extent
  {
    var i := LowerBound(l, start);
    InsertNear(l, hi, start, extent);
    SumInsert(l, i, Chunk(start, extent));
    forall a ensures Covers(Insert(l, i, Chunk(start, extent)), a) <==> Covers(l, a) || start <= a < start + extent {
      InsertCovers(l, i, Chunk(start, extent), a);
    }
    CoalesceCanonical(Insert(l, i, Chunk(start, extent)), hi, i);
  }

  lemma EraseCovers(l: seq<Chunk>, i: nat, a: int)
    requires i < |l|
    requires forall k :: 0 <= k < i ==> l[k].End() <= l[i].start
    requires forall k :: i < k < |l| ==> l[i].End() <= l[k].start
    ensures Covers(Erase(l, i), a) <==> Covers(l, a) && !(l[i].start <= a < l[i].End())
  {
    var r := Erase(l, i);
    if Covers(r, a) {
      var k :| 0 <= k < |r| && r[k].start <= a < r[k].End();
      var k' := if k < i then k else k + 1;
      assert l[k'].start <= a < l[k'].End();
    }
    if Covers(l, a) && !(l[i].start <= a < l[i].End()) {
      var k :| 0 <= k < |l| && l[k].start <= a < l[k].End();
      var k' := if k < i then k else k - 1;
      assert r[k'].start <= a < r[k'].End();
    }
  }

  lemma EraseCanonical(l: seq<Chunk>, hi: int, i: nat)
    requires Canonical(l, hi) && i < |l|
    ensures Canonical(Erase(l, i), hi)
  {}

  /** Taking a chunk out of a canonical list. */
  lemma EraseCorrect(l: seq<Chunk>, hi: int, i: nat)
    requires Canonical(l, hi) && i < |l|
    ensures Canonical(Erase(l, i), hi) && Sum(Erase(l, i)) == Sum(l) - l[i].size
    ensures forall a :: Covers(Erase(l, i), a) <==> Covers(l, a) && !(l[i].start <= a < l[i].End())
  {
    assert forall k :: 0 <= k < i ==> l[k].End() <= l[i].start;
    assert forall k :: i < k < |l| ==> l[i].End() <= l[k].start;
    EraseCanonical(l, hi, i);
    hide Covers, Canonical, Erase, Sum;
    SumErase(l, i);
    forall a ensures Covers(Erase(l, i), a) <==> Covers(l, a) && !(l[i].start <= a < l[i].End()) {
      EraseCovers(l, i, a);
    }
  }

  // ----- the free bytes determine the list

  lemma CoversTail(l: seq<Chunk>, hi: int, a: int)
    requires Canonical(l, hi) && l != []
    ensures Covers(l[1..], a) <==> Covers(l, a) && a > l[0].End()
    ensures !Covers(l, l[0].End())
  {
    if Covers(l[1..], a) {
      var k :| 0 <= k < |l[1..]| && l[1..][k].start <= a < l[1..][k].End();
      assert l[k + 1].start <= a < l[k + 1].End();
    }
    if Covers(l, a) && a > l[0].End() {
      var k :| 0 <= k < |l| && l[k].start <= a < l[k].End();
      assert l[1..][k - 1].start <= a < l[1..][k - 1].End();
    }
  }

  lemma SameFirst(l: seq<Chunk>, m: seq<Chunk>, hi: int)
    requires Canonical(l, hi) && Canonical(m, hi) && l != [] && m != []
    requires SameCover(l, m)
    ensures l[0] == m[0]
  {
    assert Covers(l, l[0].start) && Covers(m, m[0].start);
    assert l[0].start == m[0].start;
    CoversTail(l, hi, m[0].End());
    CoversTail(m, hi, l[0].End());
    var e, f := l[0].End(), m[0].End();
    assert e < f ==> Covers(m, e);
    assert f < e ==> Covers(l, f);
  }

  lemma SameRest(l: seq<Chunk>, m: seq<Chunk>, hi: int)
    requires Canonical(l, hi) && Canonical(m, hi) && l != [] && m != []
    requires SameCover(l, m) && l[0] == m[0]
    ensures SameCover(l[1..], m[1..])
  {
    hide Covers;
    forall a ensures Covers(l[1..], a) <==> Covers(m[1..], a) {
      CoversTail(l, hi, a);
      CoversTail(m, hi, a);
    }
  }

  /** History independence at its root: two canonical lists that cover the same bytes are the same list. */
  lemma {:induction false} CanonicalUnique(l: seq<Chunk>, m: seq<Chunk>, hi: int)
    requires Canonical(l, hi) && Canonical(m, hi)
    requires SameCover(l, m)
    ensures l == m
  {
    if l == [] || m == [] {
      assert l != [] ==> Covers(l, l[0].start);
      assert m != [] ==> Covers(m, m[0].start);
    } else {
      SameFirst(l, m, hi);
      SameRest(l, m, hi);
      hide Covers, SameCover;
      CanonicalUnique(l[1..], m[1..], hi);
      assert l == [l[0]] + l[1..] && m == [m[0]] + m[1..];
    }
  }

  // ----- first fit

  /** A run of free bytes lies inside one chunk: chunks do not touch. */
  lemma {:induction false} RunInOneChunk(l: seq<Chunk>, hi: int, a: int, req: int) returns (i: nat)
    requires Canonical(l, hi) && req > 0 && FreeRun(l, a, req)
    ensures i < |l| && l[i].start <= a && a + req <= l[i].End()
    decreases req
  {
    assert Covers(l, a);
    if req == 1 {
      i :| 0 <= i < |l| && l[i].start <= a < l[i].End();
    } else {
      i := RunInOneChunk(l, hi, a, req - 1);
      var b := a + req - 1;
      assert Covers(l, b);
      var k :| 0 <= k < |l| && l[k].start <= b < l[k].End();
      var c, d := l[i], l[k];
      assert k < i ==> d.End() < c.start;
      assert i < k ==> c.End() < d.start;
    }
  }

  /** First fit is complete and lowest: it fails exactly when no run of req free bytes exists
      anywhere, and otherwise finds the lowest address at which one starts, which begins a chunk. */
  lemma FirstFitLowest(l: seq<Chunk>, hi: int, req: int)
    requires Canonical(l, hi) && req > 0
    ensures FirstFit(l, req) == |l| <==> forall a :: !FreeRun(l, a, req)
    ensures FirstFit(l, req) < |l| ==>
              var a := l[FirstFit(l, req)].start;
              FreeRun(l, a, req) && forall b :: FreeRun(l, b, req) ==> a <= b
  {
    var i := FirstFit(l, req);
    if i < |l| {
      assert FreeRun(l, l[i].start, req) by {
        forall k | l[i].start <= k < l[i].start + req ensures Covers(l, k) {
          assert l[i].start <= k < l[i].End();
        }
      }
    }
    forall b | FreeRun(l, b, req)
      ensures i < |l| && l[i].start <= b
    {
      var k := RunInOneChunk(l, hi, b, req);
      assert i < k ==> l[i].End() < l[k].start;
    }
  }
}
