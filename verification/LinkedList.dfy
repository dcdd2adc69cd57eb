/** ListT of Allocators/AllocHelpers.h: heap nodes linked both ways between two sentinels. An iterator is a
    node; the ghost index that goes with it says where in the list it stands. */
module LinkedList {
  import opened Common
  import opened Indices

  class Node<T> {
    var data: T
    var next: Node?<T>
    var prev: Node?<T>

    constructor (data: T)
      ensures this.data == data && next == null && prev == null
    {
      this.data := data;
      next, prev := null, null;
    }
  }

  /** Forward and backward links both spell the sequence. */
  ghost predicate Linked<T>(c: seq<Node<T>>)
    reads c
  {
    forall i :: 0 <= i < |c| - 1 ==> c[i].next == c[i + 1] && c[i + 1].prev == c[i]
  }

  class ListT<T> {
    var MyHead: Node<T>
    var MyEnd: Node<T>
    var MySize: int
    ghost var chain: seq<Node<T>>   // both sentinels and the nodes between them

    /** The links spell this sequence from the head to the end and its reverse. */
    ghost predicate Spells(c: seq<Node<T>>)
      reads this, c
    {
      && |c| >= 2 && c[0] == MyHead && c[|c| - 1] == MyEnd
      && Linked(c) && Distinct(c)
      && MyHead.prev == null && MyEnd.next == null
    }

    ghost predicate Valid()
      reads this, chain
    {
      Spells(chain) && MySize == |chain| - 2
    }

    ghost function Contents(): (r: seq<T>)
      reads this, chain
      requires |chain| >= 2
      ensures |r| == |chain| - 2
    {
      var c := chain;
      seq(|c| - 2, i requires 0 <= i < |c| - 2 reads c => c[i + 1].data)
    }

    lemma {:induction false} SamePrefix(c: seq<Node<T>>, k: nat)
      requires Spells(chain) && Spells(c) && k < |chain|
      ensures k < |c| && c[k] == chain[k]
      decreases k
    {
      if k > 0 {
        SamePrefix(c, k - 1);
        assert c[k - 1] != MyEnd;
      }
    }

    /** A list has one representation: whatever sequence its links spell is the chain. */
    lemma OneChain(c: seq<Node<T>>)
      requires Spells(chain) && Spells(c)
      ensures c == chain
    {
      forall k: nat | k < |chain|
        ensures k < |c| && c[k] == chain[k]
      {
        SamePrefix(c, k);
      }
      assert c[|chain| - 1] == MyEnd;
    }

    constructor (blank: T)
      ensures Valid() && Contents() == [] && fresh(chain)
    {
      var h := new Node<T>(blank);
      var e := new Node<T>(blank);
      MyHead, MyEnd, MySize := h, e, 0;
      chain := [h, e];
      new;
      MyHead.prev, MyEnd.next := null, null;
      MyHead.next, MyEnd.prev := MyEnd, MyHead;
    }

    method Begin() returns (it: Node<T>)
      requires Valid()
      ensures it == chain[1]
    {
      assert chain[0].next == chain[1];
      it := MyHead.next;
    }

    method End() returns (it: Node<T>)
      requires Valid()
      ensures it == chain[|chain| - 1]
    {
      it := MyEnd;
    }

    /** The iterator's ++: one place on, or still at the end. */
    method Advance(it: Node<T>, ghost i: nat) returns (r: Node<T>)
      requires Valid() && i < |chain| && chain[i] == it
      ensures r == chain[if i + 1 < |chain| then i + 1 else i]
    {
      assert i + 1 < |chain| ==> it.next == chain[i + 1];
      r := it;
      if it.next != null {
        r := it.next;
      }
    }

    method Back() returns (x: T)
      requires Valid() && Contents() != []
      ensures x == Contents()[|Contents()| - 1]
    {
      assert chain[|chain| - 2].next == MyEnd;
      x := MyEnd.prev.data;
    }

    method Size() returns (n: int)
      requires Valid()
      ensures n == |Contents()|
    {
      n := MySize;
    }

    method Empty() returns (b: bool)
      requires Valid()
      ensures b <==> Contents() == []
    {
      b := MySize == 0;
    }

    /** Node n is not in the list and it stands at place i of the chain, after the head. */
    ghost predicate CanInsert(n: Node<T>, it: Node<T>, i: nat)
      reads this, chain
    {
      Valid() && n !in chain && 1 <= i < |chain| && chain[i] == it
    }

    /** insertAt: n goes before it. The two links at it are as stated even where n may not go there. */
    method InsertAt(n: Node<T>, it: Node<T>, ghost i: nat) returns (r: Node<T>)
      requires it.prev != null
      modifies this, it.prev, it, n
      ensures r == n && n.next == it && it.prev == n
      ensures MySize == old(MySize) + 1 && MyHead == old(MyHead) && MyEnd == old(MyEnd)
      ensures n.data == old(n.data) && it.data == old(it.data) && old(it.prev).data == old(it.prev.data)
      ensures old(it.prev) != n ==> old(it.prev).next == n
      ensures old(CanInsert(n, it, i)) ==> Valid() && chain == Inserted(old(chain), i, n)
      ensures !old(CanInsert(n, it, i)) ==> chain == old(chain)
    {
      ghost var fits := CanInsert(n, it, i);
      assert fits ==> it.prev == chain[i - 1];
      var prev := it.prev;
      prev.next := n;
      n.next := it;
      n.prev := prev;
      it.prev := n;
      MySize := MySize + 1;
      if fits {
        InsertedLinks(chain, i, n);
        chain := Inserted(chain, i, n);
      }
      r := n;
    }

    method Emplace(it: Node<T>, x: T, ghost i: nat) returns (r: Node<T>)
      requires Valid() && 1 <= i < |chain| && chain[i] == it
      modifies this, chain
      ensures Valid() && fresh(r) && chain == Inserted(old(chain), i, r)
      ensures Contents() == Inserted(old(Contents()), i - 1, x)
    {
      assert it.prev == chain[i - 1];
      var n := new Node<T>(x);
      assert CanInsert(n, it, i);
      hide Spells, Linked;
      r := InsertAt(n, it, i);
    }

    method EmplaceBack(x: T) returns (r: T)
      requires Valid()
      modifies this, chain
      ensures Valid() && r == x && Contents() == old(Contents()) + [x]
      ensures |chain| == |old(chain)| + 1 && fresh(chain[|chain| - 2])
      ensures chain == Inserted(old(chain), |old(chain)| - 1, chain[|chain| - 2])
    {
      var it := End();
      ghost var i := |chain| - 1;
      var n := Emplace(it, x, i);
      assert Contents() == old(Contents()) + [x];
      assert chain[|chain| - 2] == n && Contents()[|chain| - 3] == n.data;
      r := n.data;
    }

    /** What erase and splice do to the list that loses the node. */
    method Unlink(n: Node<T>, ghost j: nat)
      requires Valid() && 1 <= j < |chain| - 1 && chain[j] == n
      modifies this, chain[j - 1], chain[j + 1]
      ensures Valid() && chain == Removed(old(chain), j) && n !in chain
      ensures MyHead == old(MyHead) && MyEnd == old(MyEnd) && MySize == old(MySize) - 1
      ensures forall x :: x in old(chain) ==> x.data == old(x.data)
      ensures n.next == old(n.next) && n.prev == old(n.prev)
    {
      assert n.prev == chain[j - 1] && n.next == chain[j + 1];
      n.prev.next := n.next;
      n.next.prev := n.prev;
      MySize := MySize - 1;
      RemovedLinks(chain, j);
      chain := Removed(chain, j);
    }

    method Erase(pos: Node<T>, ghost j: nat)
      requires Valid() && 1 <= j < |chain| - 1 && chain[j] == pos
      modifies this, chain
      ensures Valid() && chain == Removed(old(chain), j)
      ensures Contents() == Removed(old(Contents()), j - 1)
    {
      Unlink(pos, j);
    }

    lemma NeverSpelled(c: seq<Node<T>>, d: seq<Node<T>>, i: nat, n: Node<T>)
      requires 1 <= i < |d| - 1 && Distinct(d) && d[0] == MyHead && d[|d| - 1] == MyEnd && d[i] == n
      requires forall m :: 0 <= m < i - 1 ==> d[m].next == d[m + 1]
      requires d[i - 1].next == n && n.next == n
      ensures !Spells(c)
    {
      if Spells(c) {
        WalkStops(c, d, i, n, |c| - 1);
      }
    }

    /** Whether the two lists can be spliced: they are the same list or share no node. */
    ghost predicate Separate(other: ListT<T>)
      reads this, other
    {
      other == this || forall x :: x in chain ==> x !in other.chain
    }

    /** The place of pos once node j of the same list is out. */
    ghost function Shifted(other: ListT<T>, i: nat, j: nat): nat
      requires i > 0
    {
      if other == this && j < i then i - 1 else i
    }

    lemma Places(pos: Node<T>, other: ListT<T>, it: Node<T>, i: nat, j: nat)
      requires Valid() && other.Valid() && Separate(other)
      requires 1 <= i < |chain| && chain[i] == pos
      requires 1 <= j < |other.chain| - 1 && other.chain[j] == it
      ensures it.prev == other.chain[j - 1]
      ensures pos == it ==> other == this && i == j
      ensures other != this ==> forall k :: 0 <= k < |other.chain| ==> other.chain[k] !in chain
      ensures other == this && pos != it ==> var r := Removed(chain, j);
              1 <= Shifted(other, i, j) < |r| && r[Shifted(other, i, j)] == pos
    {
      assert chain[i] in chain && other.chain[j] in other.chain;
      if other != this {
        forall k | 0 <= k < |other.chain|
          ensures other.chain[k] !in chain
        {
          assert other.chain[k] in other.chain;
        }
      }
    }

    lemma Before(i: nat)
      requires Valid() && 1 <= i < |chain| - 1
      ensures Distinct(chain) && chain[0] == MyHead && chain[|chain| - 1] == MyEnd
      ensures chain[i - 1] != chain[i]
      ensures forall m :: 0 <= m < i - 1 ==> chain[m].next == chain[m + 1]
      ensures forall m :: 0 <= m < i - 1 ==> chain[m] != chain[i - 1] && chain[m] != chain[i] && chain[m] != chain[i + 1]
    {}

    lemma Between(pos: Node<T>, place: nat, here: bool)
      requires here ==> Valid() && 1 <= place < |chain| && chain[place] == pos
      ensures here ==> pos.prev == chain[place - 1]
    {}

    /** splice: node it of the other list goes before pos in this one. Both lists are good afterwards exactly
        when pos is not it: otherwise the node links to itself, and no sequence is spelled any more. */
    method Splice(pos: Node<T>, other: ListT<T>, it: Node<T>, ghost i: nat, ghost j: nat)
      requires Valid() && other.Valid() && Separate(other)
      requires 1 <= i < |chain| && chain[i] == pos
      requires 1 <= j < |other.chain| - 1 && other.chain[j] == it
      modifies this, other, chain, other.chain
      ensures Valid() && other.Valid() <==> pos != it
      ensures pos == it ==> forall c :: !Spells(c)
      ensures pos != it ==>
                && Separate(other)
                && (other != this ==> other.chain == Removed(old(other.chain), j))
                && chain == Inserted(if other == this then Removed(old(chain), j) else old(chain), Shifted(other, i, j), it)
      ensures pos != it ==> MySize == (if other == this then old(MySize) else old(MySize) + 1)
                            && (other != this ==> other.MySize == old(other.MySize) - 1)
      ensures forall x :: x in old(chain) || x in old(other.chain) ==> x.data == old(x.data)
    {
      hide Spells, Inserted, Removed;
      ghost var place := Shifted(other, i, j);
      ghost var was := chain;
      Places(pos, other, it, i, j);
      other.Before(j);
      Elements(other.chain, j);
      other.Unlink(it, j);
      Between(pos, place, pos != it);
      InsertedElements(chain, place, it);
      assert other != this ==> pos in chain && pos.prev in chain;
      assert other != this ==> pos !in other.chain && pos.prev !in other.chain;
      var n := InsertAt(it, pos, place);
      assert pos != it && other != this ==> other.Valid();
      if pos == it {
        forall c
          ensures !Spells(c)
        {
          NeverSpelled(c, was, i, it);
        }
      }
    }

    /** clear: every node between the sentinels is deleted once, in order; the list is empty. */
    method Clear() returns (ghost deleted: seq<Node<T>>)
      requires Valid()
      modifies this, chain
      ensures Valid() && Contents() == [] && chain == [old(MyHead), old(MyEnd)]
      ensures deleted == old(chain)[1..|old(chain)| - 1]
    {
      deleted := [];
      ghost var i := 1;
      var it := Begin();
      while it != MyEnd
        invariant Valid() && chain == old(chain) && MyHead == old(MyHead) && MyEnd == old(MyEnd)
        invariant 1 <= i < |chain| && it == chain[i] && deleted == chain[1..i]
        decreases |chain| - i
      {
        var ptr := it;
        it := Advance(it, i);
        deleted := deleted + [ptr];
        i := i + 1;
      }
      MySize := 0;
      MyHead.next := MyEnd;
      MyEnd.prev := MyHead;
      chain := [MyHead, MyEnd];
    }
  }

  /** A forward walk that meets a node whose next is itself never leaves it. */
  lemma {:induction false} WalkStops<T>(c: seq<Node<T>>, d: seq<Node<T>>, i: nat, n: Node<T>, k: nat)
    requires 1 <= i < |d| && k < |c| && c[0] == d[0] && Linked(c)
    requires forall m :: 0 <= m < i - 1 ==> d[m].next == d[m + 1]
    requires d[i - 1].next == n && n.next == n
    ensures c[k] == if k < i then d[k] else n
    decreases k
  {
    if k > 0 {
      WalkStops(c, d, i, n, k - 1);
      assert c[k - 1].next == c[k];
    }
  }

  lemma Elements<T>(l: seq<T>, j: nat)
    requires j < |l|
    ensures forall x :: x in Removed(l, j) ==> x in l
    ensures j > 0 ==> l[j - 1] in l
  {}

  lemma InsertedElements<T>(l: seq<T>, i: nat, x: T)
    ensures i <= |l| ==> forall y :: y in Inserted(l, i, x) <==> y in l || y == x
    ensures 0 < i <= |l| ==> l[i - 1] in l
  {
    if i <= |l| {
      assert l == l[..i] + l[i..];
    }
  }

  lemma RemovedLinks<T>(c: seq<Node<T>>, j: nat)
    requires 1 <= j < |c| - 1 && Distinct(c)
    requires c[j - 1].next == c[j + 1] && c[j + 1].prev == c[j - 1]
    requires forall k :: 0 <= k < |c| - 1 && k != j - 1 && k != j ==> c[k].next == c[k + 1] && c[k + 1].prev == c[k]
    ensures Linked(Removed(c, j)) && Distinct(Removed(c, j)) && c[j] !in Removed(c, j)
    ensures Removed(c, j)[0] == c[0] && Removed(c, j)[|c| - 2] == c[|c| - 1]
  {
    var r := Removed(c, j);
    assert forall k :: 0 <= k < |r| ==> r[k] == c[if k < j then k else k + 1];
  }

  lemma InsertedLinks<T>(c: seq<Node<T>>, i: nat, n: Node<T>)
    requires 1 <= i < |c| && n !in c && Distinct(c)
    requires n.next == c[i] && c[i].prev == n && n.prev == c[i - 1] && c[i - 1].next == n
    requires forall k :: 0 <= k < |c| - 1 && k != i - 1 ==> c[k].next == c[k + 1] && c[k + 1].prev == c[k]
    ensures Linked(Inserted(c, i, n)) && Distinct(Inserted(c, i, n))
  {
    var r := Inserted(c, i, n);
    forall k | 0 <= k < |r| - 1
      ensures r[k].next == r[k + 1] && r[k + 1].prev == r[k]
    {
      if k < i - 1 {
        assert r[k] == c[k] && r[k + 1] == c[k + 1];
      } else if k > i {
        assert r[k] == c[k - 1] && r[k + 1] == c[k];
      }
    }
  }
}
