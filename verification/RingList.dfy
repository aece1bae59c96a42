/**
  The intrusive list of trompeloeil: elements and the list itself are nodes of a
  circular doubly linked ring.
 */
module RingList {
  class ListElem {
    var next: ListElem
    var prev: ListElem

    constructor ()
      ensures next == this && prev == this && Ring([this])
    {
      next, prev := this, this;
    }

    /** Takes this node out of its ring, where it is number `k`; the others stay linked in
        their order, and this node is a ring of its own. */
    method Unlink(ghost ns: seq<ListElem>, ghost k: nat)
      requires Ring(ns) && k < |ns| && ns[k] == this
      modifies this, next, prev
      ensures Ring([this])
      ensures |ns| > 1 ==> Ring(Without(ns, k))
    {
      hide Inserted, Ring, Without;
      RingOf(ns);
      Neighbours(ns, k);
      var n, p := next, prev;
      n.prev := p;
      p.next := n;
      next := this;
      prev := this;
      AloneRing(this);
      if |ns| > 1 {
        DistinctWithout(ns, k);
        NextsWithout(ns, k);
        PrevsWithout(ns, k);
        RingOf(Without(ns, k));
      }
    }

    /** Puts this node behind node `r`, number `k` of its ring. */
    method LinkBehind(r: ListElem, ghost ns: seq<ListElem>, ghost k: nat)
      requires Ring(ns) && k < |ns| && ns[k] == r && this !in ns
      modifies this, r, r.next
      ensures Ring(Inserted(ns, k + 1, this))
    {
      hide Inserted, Ring, Without;
      RingOf(ns);
      Neighbours(ns, k);
      next := r.next;
      prev := r;
      next.prev := this;
      r.next := this;
      DistinctWith(ns, k, this);
      NextsWith(ns, k, this);
      PrevsWith(ns, k, this);
      RingOf(Inserted(ns, k + 1, this));
    }

    /** `operator=(list_elem&&)`: this node takes the place of `r`, number `k` of its ring. */
    method Move(r: ListElem, ghost ns: seq<ListElem>, ghost k: nat)
      requires Ring(ns) && k < |ns| && ns[k] == r && (this != r ==> this !in ns)
      modifies this, r, r.next, r.prev
      ensures this != r ==> Ring(ns[k := this]) && Ring([r])
      ensures this == r ==> Ring(ns)
    {
      if this != r {
        ghost var both := Inserted(ns, k + 1, this);
        Replaced(ns, k, this);
        hide Ring, Inserted, Without;
        Neighbours(ns, k);
        LinkBehind(r, ns, k);
        Neighbours(both, k);
        r.Unlink(both, k);
      }
    }
  }

  function Inserted(ns: seq<ListElem>, k: nat, e: ListElem): seq<ListElem>
    requires k <= |ns|
  {
    ns[..k] + [e] + ns[k..]
  }

  function Without(ns: seq<ListElem>, k: nat): seq<ListElem>
    requires k < |ns|
  {
    ns[..k] + ns[k + 1..]
  }

  /** The nodes of a ring, in the order of `next` and against that of `prev`. */
  ghost predicate Ring(ns: seq<ListElem>)
    reads ns
  {
    |ns| > 0 && Distinct(ns) && Nexts(ns) && Prevs(ns)
  }

  ghost predicate Distinct(ns: seq<ListElem>) {
    forall i, j :: 0 <= i < j < |ns| ==> ns[i] != ns[j]
  }

  function After(i: nat, n: nat): nat {
    if i + 1 < n then i + 1 else 0
  }

  function Before(i: nat, n: nat): nat
    requires n > 0
  {
    if i > 0 then i - 1 else n - 1
  }

  ghost predicate Nexts(ns: seq<ListElem>)
    reads ns
  {
    forall i :: 0 <= i < |ns| ==> ns[i].next == ns[After(i, |ns|)]
  }

  ghost predicate Prevs(ns: seq<ListElem>)
    reads ns
  {
    forall i :: 0 <= i < |ns| ==> ns[i].prev == ns[Before(i, |ns|)]
  }

  lemma RingOf(ns: seq<ListElem>)
    ensures Ring(ns) <==> |ns| > 0 && Distinct(ns) && Nexts(ns) && Prevs(ns)
  {
    hide Distinct, Nexts, Prevs;
  }

  lemma AloneRing(e: ListElem)
    requires e.next == e && e.prev == e
    ensures Ring([e])
  {
  }

  lemma Neighbours(ns: seq<ListElem>, k: nat)
    requires Ring(ns) && k < |ns|
    ensures ns[k].next == ns[if k + 1 < |ns| then k + 1 else 0]
    ensures ns[k].prev == ns[if k > 0 then k - 1 else |ns| - 1]
    ensures ns[k].next in ns && ns[k].prev in ns
  {
  }

  // ----- Inserting and removing a node ----------------------------------------------------------

  lemma DistinctWith(ns: seq<ListElem>, k: nat, e: ListElem)
    requires Distinct(ns) && k < |ns| && e !in ns
    ensures Distinct(Inserted(ns, k + 1, e)) && Inserted(ns, k + 1, e) != []
  {
    var all := Inserted(ns, k + 1, e);
    assert forall i :: 0 <= i < |all| ==> all[i] == (if i <= k then ns[i] else if i == k + 1 then e else ns[i - 1]);
  }

  lemma NextsWith(ns: seq<ListElem>, k: nat, e: ListElem)
    requires k < |ns| && e.next == ns[After(k, |ns|)] && ns[k].next == e
    requires forall i :: 0 <= i < |ns| && i != k ==> ns[i].next == ns[After(i, |ns|)]
    ensures Nexts(Inserted(ns, k + 1, e))
  {
    var all := Inserted(ns, k + 1, e);
    forall i | 0 <= i < |all| ensures all[i].next == all[After(i, |all|)] {
      if i <= k {
        assert all[i] == ns[i];
      } else if i > k + 1 {
        assert all[i] == ns[i - 1];
      }
    }
  }

  lemma PrevsWith(ns: seq<ListElem>, k: nat, e: ListElem)
    requires k < |ns| && e.prev == ns[k] && ns[After(k, |ns|)].prev == e
    requires forall i :: 0 <= i < |ns| && i != After(k, |ns|) ==> ns[i].prev == ns[Before(i, |ns|)]
    ensures Prevs(Inserted(ns, k + 1, e))
  {
    var all := Inserted(ns, k + 1, e);
    forall i | 0 <= i < |all| ensures all[i].prev == all[Before(i, |all|)] {
      if i <= k {
        assert all[i] == ns[i];
      } else if i > k + 1 {
        assert all[i] == ns[i - 1];
      }
    }
  }

  lemma LastInserted(head: ListElem, elems: seq<ListElem>, e: ListElem)
    ensures Inserted([head] + elems, |elems| + 1, e) == [head] + (elems + [e])
  {
  }

  lemma ElementRemoved(head: ListElem, elems: seq<ListElem>, k: nat)
    requires k < |elems|
    ensures var ns := [head] + elems; ns[k + 1] == elems[k] && Without(ns, k + 1) == [head] + Without(elems, k)
  {
    var ns := [head] + elems;
    assert ns[..k + 1] == [head] + elems[..k];
    assert ns[k + 2..] == elems[k + 1..];
  }

  lemma Replaced(ns: seq<ListElem>, k: nat, e: ListElem)
    requires k < |ns|
    ensures var both := Inserted(ns, k + 1, e); Without(both, k) == ns[k := e] && both[k] == ns[k]
  {
  }

  lemma DistinctWithout(ns: seq<ListElem>, k: nat)
    requires Distinct(ns) && k < |ns|
    ensures Distinct(Without(ns, k)) && |Without(ns, k)| == |ns| - 1
  {
  }

  lemma NextsWithout(ns: seq<ListElem>, k: nat)
    requires k < |ns| && |ns| > 1 && ns[Before(k, |ns|)].next == ns[After(k, |ns|)]
    requires forall i :: 0 <= i < |ns| && i != k && i != Before(k, |ns|) ==> ns[i].next == ns[After(i, |ns|)]
    ensures Nexts(Without(ns, k))
  {
    var rest := Without(ns, k);
    forall i | 0 <= i < |rest| ensures rest[i].next == rest[After(i, |rest|)] {
      var j := if i < k then i else i + 1;
      assert rest[i] == ns[j];
      assert i == Before(k, |ns|) || j == Before(k, |ns|) || ns[j].next == ns[After(j, |ns|)];
    }
  }

  lemma PrevsWithout(ns: seq<ListElem>, k: nat)
    requires k < |ns| && |ns| > 1 && ns[After(k, |ns|)].prev == ns[Before(k, |ns|)]
    requires forall i :: 0 <= i < |ns| && i != k && i != After(k, |ns|) ==> ns[i].prev == ns[Before(i, |ns|)]
    ensures Prevs(Without(ns, k))
  {
    var rest := Without(ns, k);
    forall i | 0 <= i < |rest| ensures rest[i].prev == rest[Before(i, |rest|)] {
      var j := if i < k then i else i + 1;
      assert rest[i] == ns[j];
      assert j == After(k, |ns|) || ns[j].prev == ns[Before(j, |ns|)];
    }
  }

  /** Two rings with a common node have all nodes of the first in common. */
  lemma {:induction false} Shared(a: seq<ListElem>, b: seq<ListElem>, i: nat)
    requires Ring(a) && Ring(b) && i < |a| && a[i] in b
    ensures a[0] in b
    decreases |a| - i
  {
    if i > 0 {
      var k :| 0 <= k < |b| && b[k] == a[i];
      Neighbours(a, i);
      Neighbours(b, k);
      if i + 1 < |a| { Shared(a, b, i + 1); }
    }
  }

  lemma NextOfHead(head: ListElem, elems: seq<ListElem>)
    requires Ring([head] + elems)
    ensures head.next == if elems == [] then head else elems[0]
  {
    hide Ring;
    Neighbours([head] + elems, 0);
  }

  lemma NextOf(head: ListElem, elems: seq<ListElem>, k: nat)
    requires Ring([head] + elems) && k < |elems|
    ensures elems[k] != head && elems[k].next == if k + 1 < |elems| then elems[k + 1] else head
  {
    var ns := [head] + elems;
    assert ns[0] == head && ns[k + 1] == elems[k] && Distinct(ns);
    hide Ring, Distinct;
    Neighbours(ns, k + 1);
  }

  lemma SliceMore(s: seq<ListElem>, n: nat)
    requires n < |s|
    ensures s[..n] + [s[n]] == s[..n + 1] && (n + 1 == |s| ==> s[..n + 1] == s)
  {
  }

  /** Two rings without a common head have no element in common. */
  lemma RingsApart(head: ListElem, elems: seq<ListElem>, other: ListElem, others: seq<ListElem>)
    requires Ring([head] + elems) && Ring([other] + others) && head !in [other] + others
    ensures elems != [] ==> elems[0] !in others && elems[0] != head
  {
    if elems != [] {
      var ns := [head] + elems;
      assert ns[0] == head && ns[1] == elems[0] && Distinct(ns);
      if elems[0] in [other] + others { Shared([head] + elems, [other] + others, 1); }
    }
  }

  /** Elements that are not in the ring of a head do not form one with it. */
  lemma GivenUp(head: ListElem, lost: seq<ListElem>, now: seq<ListElem>)
    requires Ring([head] + now) && (lost != [] ==> lost[0] !in now && lost[0] != head)
    ensures lost != [] ==> !Ring([head] + lost)
  {
    hide Ring;
    NextOfHead(head, now);
    if Ring([head] + lost) { NextOfHead(head, lost); }
  }

  /** A list is the node before the first and after the last of its elements. */
  class List {
    var head: ListElem
    ghost var elems: seq<ListElem>

    ghost predicate Valid()
      reads this, head, elems
    {
      Ring([head] + elems)
    }

    constructor ()
      ensures Valid() && elems == [] && fresh(head)
    {
      head := new ListElem();
      elems := [];
      new;
      assert [head] + elems == [head];
    }

    method PushFront(t: ListElem)
      requires Valid() && t != head && t !in elems
      modifies this, t, head, head.next
      ensures Valid() && head == old(head) && elems == [t] + old(elems)
    {
      ghost var ns := [head] + elems;
      ghost var more := [t] + elems;
      assert Inserted(ns, 1, t) == [head] + more;
      hide Ring, Inserted;
      t.LinkBehind(head, ns, 0);
      elems := more;
    }

    method PushBack(t: ListElem)
      requires Valid() && t != head && t !in elems
      modifies this, t, head, head.prev
      ensures Valid() && head == old(head) && elems == old(elems) + [t]
    {
      ghost var ns, more := [head] + elems, elems + [t];
      LastInserted(head, elems, t);
      hide Ring, Inserted;
      RingOf(ns);
      Neighbours(ns, 0);
      t.prev := head.prev;
      t.next := head;
      head.prev.next := t;
      head.prev := t;
      elems := more;
      DistinctWith(ns, |ns| - 1, t);
      NextsWith(ns, |ns| - 1, t);
      PrevsWith(ns, |ns| - 1, t);
      RingOf([head] + more);
    }

    /** Takes an element out of the list. */
    method Remove(e: ListElem, ghost k: nat)
      requires Valid() && k < |elems| && elems[k] == e
      modifies this, e, e.next, e.prev
      ensures Valid() && head == old(head) && elems == Without(old(elems), k) && Ring([e])
    {
      ghost var ns, less := [head] + elems, Without(elems, k);
      hide Ring, Without;
      ElementRemoved(head, elems, k);
      e.Unlink(ns, k + 1);
      elems := less;
    }

    /** `list(list&&)` and `operator=(list&&)`: the head moves and all elements of the other list
        stay where they are.  Elements this list had before are given up: they still point at the
        head, but are no longer in its ring. */
    method MoveFrom(other: List)
      requires Valid() && other.Valid() && this != other
      requires head != other.head && head !in other.elems
      modifies this, other, head, other.head, other.head.next, other.head.prev
      ensures Valid() && other.Valid() && head == old(head) && other.head == old(other.head)
      ensures elems == old(other.elems) && other.elems == []
      ensures old(elems) != [] ==> !Ring([head] + old(elems))
    {
      ghost var ns, now, lost := [other.head] + other.elems, other.elems, elems;
      assert ns[0 := head] == [head] + now;
      hide Ring;
      RingsApart(head, lost, other.head, now);
      head.Move(other.head, ns, 0);
      elems := now;
      other.elems := [];
      assert [other.head] + other.elems == [other.head];
      GivenUp(head, lost, now);
    }

    /** Iterating from `begin()` to `end()` visits the elements in their order. */
    method Traverse() returns (visited: seq<ListElem>)
      requires Valid()
      ensures visited == elems
    {
      hide Ring;
      NextOfHead(head, elems);
      visited := [];
      var p := head.next;
      ghost var n := 0;
      while p != head
        invariant n <= |elems| && visited == elems[..n]
        invariant p == if n < |elems| then elems[n] else head
        decreases |elems| - n
      {
        NextOf(head, elems, n);
        SliceMore(elems, n);
        visited := visited + [p];
        p := p.next;
        n := n + 1;
      }
      if n < |elems| { NextOf(head, elems, n); }
    }
  }
}
