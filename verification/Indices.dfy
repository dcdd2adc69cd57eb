/** Lists that repeat no element, and what that means for how often an element occurs. */
module Indices {
  predicate Distinct<T(==)>(a: seq<T>) {
    forall i, j :: 0 <= i < j < |a| ==> a[i] != a[j]
  }

  lemma {:induction false} CountDistinct<T>(a: seq<T>, x: T)
    requires Distinct(a)
    ensures multiset(a)[x] == if x in a then 1 else 0
  {
    if a != [] {
      CountDistinct(a[1..], x);
      assert a == [a[0]] + a[1..];
    }
  }

  lemma OccursTwice<T>(a: seq<T>, i: nat, j: nat)
    requires i < j < |a| && a[i] == a[j]
    ensures multiset(a)[a[i]] >= 2
  {
    assert a == a[..j] + a[j..];
    assert a[i] in a[..j] && a[j] in a[j..];
  }

  lemma DistinctIff<T>(a: seq<T>)
    ensures Distinct(a) <==> forall x: T :: multiset(a)[x] <= 1
  {
    if i, j :| 0 <= i < j < |a| && a[i] == a[j] {
      OccursTwice(a, i, j);
    }
    if Distinct(a) {
      forall x: T
        ensures multiset(a)[x] <= 1
      {
        CountDistinct(a, x);
      }
    }
  }

  function Members(a: seq<nat>): set<nat> {
    set x | x in a
  }

  lemma {:induction false} DistinctCard(a: seq<nat>)
    requires Distinct(a)
    ensures |Members(a)| == |a|
  {
    if a != [] {
      DistinctCard(a[1..]);
      assert a == [a[0]] + a[1..];
      assert Members(a) == Members(a[1..]) + {a[0]};
      assert a[0] !in a[1..];
    }
  }

  function Below(n: nat): (r: set<nat>)
    ensures |r| == n
    ensures forall x: nat :: x in r <==> x < n
  {
    if n == 0 then {} else Below(n - 1) + {n - 1}
  }

  lemma SubsetCard(a: set<nat>, b: set<nat>)
    requires a <= b
    ensures |a| <= |b|
  {
    assert b == a + (b - a);
  }
}
