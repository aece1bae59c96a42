/**
  Mock expectations and sequences of trompeloeil: which expectation takes a call,
  when it retires from its sequences and when it is saturated.
 */
module Mock {
  import opened Wrappers

  type Id = nat
  type Fn = nat
  type SeqId = nat

  /** An expectation on function `fn`, in the sequences `seqs`. */
  datatype Expectation = Expectation(fn: Fn, min: nat, max: nat, count: nat, seqs: set<SeqId>)

  /** The active and saturated lists of every mock function, and of every sequence the
      matchers still in it and all that were ever registered; `made` are all expectations
      in the order of their registration. */
  datatype State = State(
    exps: map<Id, Expectation>, active: map<Fn, seq<Id>>, saturated: map<Fn, seq<Id>>,
    waiting: map<SeqId, seq<Id>>, registered: map<SeqId, seq<Id>>, made: seq<Id>)

  /** What a call leads to: a report, or the expectation that took it. */
  datatype Outcome = Violation | Taken(id: Id)

  // ----- Lists ---------------------------------------------------------------------------------

  function ListOf(lists: map<nat, seq<Id>>, k: nat): seq<Id> {
    if k in lists then lists[k] else []
  }

  predicate NoDuplicates(l: seq<Id>) {
    forall i, j :: 0 <= i < j < |l| ==> l[i] != l[j]
  }

  /** The list after `unlink` of an element. */
  function Remove(l: seq<Id>, id: Id): seq<Id> {
    if l == [] then [] else if l[0] == id then Remove(l[1..], id) else [l[0]] + Remove(l[1..], id)
  }

  lemma {:induction false} RemoveKeeps(l: seq<Id>, id: Id)
    requires NoDuplicates(l)
    ensures NoDuplicates(Remove(l, id)) && forall x :: x in Remove(l, id) <==> x in l && x != id
  {
    if l != [] {
      RemoveKeeps(l[1..], id);
      assert forall x :: x in l <==> x == l[0] || x in l[1..];
      var rest := Remove(l[1..], id);
      assert l[0] !in rest;
      assert forall j :: 0 < j < |[l[0]] + rest| ==> ([l[0]] + rest)[j] == rest[j - 1];
    }
  }

  /** A matcher stays in its sequences until the last required call; without any required
      call it is never retired. */
  predicate Pending(exps: map<Id, Expectation>, id: Id) {
    id in exps && (exps[id].count < exps[id].min || exps[id].min == 0)
  }

  /** The members of a list that are not retired, in order. */
  function PendingOf(l: seq<Id>, exps: map<Id, Expectation>): seq<Id> {
    if l == [] then [] else (if Pending(exps, l[0]) then [l[0]] else []) + PendingOf(l[1..], exps)
  }

  lemma {:induction false} PendingSame(l: seq<Id>, a: map<Id, Expectation>, b: map<Id, Expectation>)
    requires forall x :: x in l ==> (Pending(a, x) <==> Pending(b, x))
    ensures PendingOf(l, a) == PendingOf(l, b)
  {
    if l != [] { PendingSame(l[1..], a, b); }
  }

  lemma {:induction false} PendingMembers(l: seq<Id>, exps: map<Id, Expectation>)
    ensures forall x :: x in PendingOf(l, exps) <==> x in l && Pending(exps, x)
  {
    if l != [] {
      PendingMembers(l[1..], exps);
      assert forall x :: x in l <==> x == l[0] || x in l[1..];
    }
  }

  /** When one member has had its last required call it leaves the list, and only it. */
  lemma {:induction false} PendingLess(l: seq<Id>, a: map<Id, Expectation>, b: map<Id, Expectation>, id: Id)
    requires !Pending(b, id) && forall x :: x != id ==> (Pending(a, x) <==> Pending(b, x))
    ensures PendingOf(l, b) == Remove(PendingOf(l, a), id)
  {
    if l != [] {
      PendingLess(l[1..], a, b, id);
      if Pending(a, l[0]) {
        assert PendingOf(l, a)[1..] == PendingOf(l[1..], a);
      } else {
        assert PendingOf(l, a) == PendingOf(l[1..], a);
      }
    }
  }

  lemma {:induction false} PendingSnoc(l: seq<Id>, exps: map<Id, Expectation>, id: Id)
    requires Pending(exps, id)
    ensures PendingOf(l + [id], exps) == PendingOf(l, exps) + [id]
  {
    hide *;
    PendingStep(l + [id], exps);
    if l == [] {
      assert [id][1..] == [];
      PendingStep([], exps);
    } else {
      PendingStep(l, exps);
      assert (l + [id])[1..] == l[1..] + [id];
      PendingSnoc(l[1..], exps, id);
    }
  }

  lemma PendingStep(l: seq<Id>, exps: map<Id, Expectation>)
    ensures l == [] ==> PendingOf(l, exps) == []
    ensures l != [] ==> PendingOf(l, exps) == (if Pending(exps, l[0]) then [l[0]] else []) + PendingOf(l[1..], exps)
  {
    hide Pending;
  }

  /** All members before the first pending one have had their required calls. */
  lemma {:induction false} PendingFirst(l: seq<Id>, exps: map<Id, Expectation>, j: nat)
    requires NoDuplicates(l) && j < |l| && PendingOf(l, exps) != [] && PendingOf(l, exps)[0] == l[j]
    ensures forall i :: 0 <= i < j ==> !Pending(exps, l[i])
  {
    if j > 0 {
      PendingFirst(l[1..], exps, j - 1);
      forall i | 0 <= i < j ensures !Pending(exps, l[i]) {
        if i > 0 { assert l[i] == l[1..][i - 1]; }
      }
    }
  }

  /** Conversely, a pending member behind complete ones comes first. */
  lemma {:induction false} PendingFirstBack(l: seq<Id>, exps: map<Id, Expectation>, j: nat)
    requires j < |l| && Pending(exps, l[j]) && forall i :: 0 <= i < j ==> !Pending(exps, l[i])
    ensures PendingOf(l, exps) != [] && PendingOf(l, exps)[0] == l[j]
  {
    hide Pending;
    if j > 0 {
      assert forall i :: 0 <= i < |l[1..]| ==> l[1..][i] == l[i + 1];
      PendingFirstBack(l[1..], exps, j - 1);
    }
  }

  // ----- The invariant ----------------------------------------------------------------------------

  /** An expectation is active until its last allowed call, and saturated after it; one that
      forbids calls stays active. */
  ghost predicate Placed(s: State, id: Id) {
    id in s.exps && var e := s.exps[id];
    && e.min <= e.max && e.count <= e.max
    && (id in ListOf(s.active, e.fn) <==> e.count < e.max || e.max == 0)
    && (id in ListOf(s.saturated, e.fn) <==> e.count == e.max > 0)
  }

  /** The lists of a function hold its own expectations, each once. */
  ghost predicate Owned(s: State, lists: map<Fn, seq<Id>>, fn: Fn) {
    NoDuplicates(ListOf(lists, fn)) && forall id :: id in ListOf(lists, fn) ==> id in s.exps && s.exps[id].fn == fn
  }

  /** A sequence still holds exactly the matchers that are not retired, in the order of
      registration; and none with required calls was called before all earlier ones retired. */
  ghost predicate InSequence(s: State, q: SeqId) {
    && var r := ListOf(s.registered, q);
    && NoDuplicates(r)
    && (forall id :: id in r <==> id in s.exps && q in s.exps[id].seqs)
    && ListOf(s.waiting, q) == PendingOf(r, s.exps)
    && (forall i, j :: 0 <= i < j < |r| && s.exps[r[j]].count > 0 && s.exps[r[j]].min > 0 ==> !Pending(s.exps, r[i]))
  }

  /** `b` was registered after `a`. */
  predicate Later(made: seq<Id>, a: Id, b: Id) {
    exists i, j :: 0 <= i < j < |made| && made[i] == a && made[j] == b
  }

  /** Listed from the latest registered to the earliest. */
  ghost predicate Descending(made: seq<Id>, l: seq<Id>) {
    forall i, j :: 0 <= i < j < |l| ==> Later(made, l[j], l[i])
  }

  /** An active list holds the expectation registered last first. */
  ghost predicate LatestFirst(s: State, fn: Fn) {
    Descending(s.made, ListOf(s.active, fn))
  }

  ghost predicate Made(s: State) {
    NoDuplicates(s.made) && forall id :: id in s.made <==> id in s.exps
  }

  ghost predicate Inv(s: State) {
    && Made(s) && (forall fn :: LatestFirst(s, fn))
    && (forall id :: id in s.exps ==> Placed(s, id))
    && (forall fn :: Owned(s, s.active, fn) && Owned(s, s.saturated, fn))
    && (forall q :: InSequence(s, q))
  }

  /** Before anything is registered. */
  const NOTHING := State(map[], map[], map[], map[], map[], [])

  // ----- Registering --------------------------------------------------------------------------------

  function Appended(lists: map<SeqId, seq<Id>>, seqs: set<SeqId>, id: Id): map<SeqId, seq<Id>> {
    map q | q in lists.Keys + seqs :: if q in seqs then ListOf(lists, q) + [id] else lists[q]
  }

  /** A new expectation: first in the active list, last in its sequences. */
  function Expect(s: State, id: Id, fn: Fn, min: nat, max: nat, seqs: set<SeqId>): State {
    State(s.exps[id := Expectation(fn, min, max, 0, seqs)], s.active[fn := [id] + ListOf(s.active, fn)], s.saturated,
          Appended(s.waiting, seqs, id), Appended(s.registered, seqs, id), s.made + [id])
  }

  /** What registering does to every list: the new expectation is first in the active list of its
      function and last in its sequences, and every other list stays. */
  lemma ExpectIs(s: State, id: Id, fn: Fn, min: nat, max: nat, seqs: set<SeqId>)
    ensures var t := Expect(s, id, fn, min, max, seqs);
            && t.exps == s.exps[id := Expectation(fn, min, max, 0, seqs)] && t.made == s.made + [id]
            && ListOf(t.active, fn) == [id] + ListOf(s.active, fn)
            && (forall g :: g != fn ==> ListOf(t.active, g) == ListOf(s.active, g))
            && t.saturated == s.saturated
            && (forall q :: q in seqs ==> ListOf(t.waiting, q) == ListOf(s.waiting, q) + [id])
            && (forall q :: q !in seqs ==> ListOf(t.waiting, q) == ListOf(s.waiting, q))
            && (forall q :: q in seqs ==> ListOf(t.registered, q) == ListOf(s.registered, q) + [id])
            && (forall q :: q !in seqs ==> ListOf(t.registered, q) == ListOf(s.registered, q))
  {
  }

  lemma {:induction false} LaterSnoc(made: seq<Id>, id: Id, a: Id, b: Id)
    requires Later(made, a, b)
    ensures Later(made + [id], a, b)
  {
    var i, j :| 0 <= i < j < |made| && made[i] == a && made[j] == b;
    var more := made + [id];
    assert more[i] == a && more[j] == b;
  }

  lemma LaterNew(made: seq<Id>, id: Id, a: Id)
    requires a in made
    ensures Later(made + [id], a, id)
  {
    var i :| 0 <= i < |made| && made[i] == a;
    var more := made + [id];
    assert more[i] == a && more[|made|] == id;
  }

  lemma ExpectLatest(s: State, id: Id, fn: Fn, min: nat, max: nat, seqs: set<SeqId>, f: Fn)
    requires Made(s) && LatestFirst(s, f) && Owned(s, s.active, f) && id !in s.exps
    ensures LatestFirst(Expect(s, id, fn, min, max, seqs), f)
  {
    var t := Expect(s, id, fn, min, max, seqs);
    ExpectIs(s, id, fn, min, max, seqs);
    hide Expect, Later, ListOf;
    var l, more := ListOf(s.active, f), ListOf(t.active, f);
    forall i, j | 0 <= i < j < |more| ensures Later(t.made, more[j], more[i]) {
      if f == fn {
        assert more[j] == l[j - 1] && l[j - 1] in l;
        if i == 0 {
          LaterNew(s.made, id, more[j]);
        } else {
          assert more[i] == l[i - 1];
          LaterSnoc(s.made, id, more[j], more[i]);
        }
      } else {
        LaterSnoc(s.made, id, more[j], more[i]);
      }
    }
  }

  lemma ExpectMade(s: State, id: Id, fn: Fn, min: nat, max: nat, seqs: set<SeqId>)
    requires Made(s) && id !in s.exps
    ensures Made(Expect(s, id, fn, min, max, seqs))
  {
    ExpectIs(s, id, fn, min, max, seqs);
    hide Expect;
    assert id !in s.made;
    var more := s.made + [id];
    assert forall x :: x in more <==> x in s.made || x == id;
  }

  lemma ExpectLists(s: State, id: Id, fn: Fn, min: nat, max: nat, seqs: set<SeqId>, q: SeqId)
    ensures var t := Expect(s, id, fn, min, max, seqs);
            && t.exps == s.exps[id := Expectation(fn, min, max, 0, seqs)]
            && ListOf(t.waiting, q) == ListOf(s.waiting, q) + (if q in seqs then [id] else [])
            && ListOf(t.registered, q) == ListOf(s.registered, q) + (if q in seqs then [id] else [])
  {
  }

  lemma ExpectSequence(s: State, id: Id, fn: Fn, min: nat, max: nat, seqs: set<SeqId>, q: SeqId)
    requires InSequence(s, q) && id !in s.exps
    ensures InSequence(Expect(s, id, fn, min, max, seqs), q)
  {
    hide Expect, ListOf, PendingOf;
    var t := Expect(s, id, fn, min, max, seqs);
    var r := ListOf(s.registered, q);
    ExpectLists(s, id, fn, min, max, seqs, q);
    assert id !in r;
    PendingSame(r, s.exps, t.exps);
    if q in seqs {
      PendingSnoc(r, t.exps, id);
    } else {
      assert r + [] == r && ListOf(s.waiting, q) + [] == ListOf(s.waiting, q);
    }
  }

  lemma ExpectInv(s: State, id: Id, fn: Fn, min: nat, max: nat, seqs: set<SeqId>)
    requires Inv(s) && id !in s.exps && min <= max
    ensures Inv(Expect(s, id, fn, min, max, seqs))
  {
    var t := Expect(s, id, fn, min, max, seqs);
    ExpectMade(s, id, fn, min, max, seqs);
    forall f ensures LatestFirst(t, f) {
      assert Owned(s, s.active, f);
      ExpectLatest(s, id, fn, min, max, seqs, f);
    }
    hide Made, LatestFirst;
    forall q ensures InSequence(t, q) { ExpectSequence(s, id, fn, min, max, seqs, q); }
    hide InSequence;
    forall f ensures Owned(t, t.active, f) && Owned(t, t.saturated, f) {
      ExpectOwned(s, id, fn, min, max, seqs, f);
    }
    assert Owned(s, s.saturated, fn);
    hide Owned;
    forall x | x in t.exps ensures Placed(t, x) {
      if x == id {
        ExpectedPlaced(s, id, fn, min, max, seqs);
      } else {
        OthersPlaced(s, id, fn, min, max, seqs, x);
      }
    }
  }

  lemma ExpectOwned(s: State, id: Id, fn: Fn, min: nat, max: nat, seqs: set<SeqId>, f: Fn)
    requires Owned(s, s.active, f) && Owned(s, s.saturated, f) && id !in s.exps
    ensures var t := Expect(s, id, fn, min, max, seqs); Owned(t, t.active, f) && Owned(t, t.saturated, f)
  {
    hide Appended;
    assert id !in ListOf(s.active, f);
  }

  lemma ExpectedPlaced(s: State, id: Id, fn: Fn, min: nat, max: nat, seqs: set<SeqId>)
    requires Owned(s, s.saturated, fn) && id !in s.exps && min <= max
    ensures Placed(Expect(s, id, fn, min, max, seqs), id)
  {
    hide Appended;
  }

  lemma OthersPlaced(s: State, id: Id, fn: Fn, min: nat, max: nat, seqs: set<SeqId>, x: Id)
    requires Placed(s, x) && x != id
    ensures Placed(Expect(s, id, fn, min, max, seqs), x)
  {
    hide Appended;
  }

  // ----- Calls -----------------------------------------------------------------------------------------

  /** `first_in_sequence` */
  predicate FirstInSequence(s: State, id: Id)
    requires id in s.exps
  {
    s.exps[id].count >= s.exps[id].min || IsFirst(s.waiting, s.exps[id].seqs, id)
  }

  predicate IsFirst(waiting: map<SeqId, seq<Id>>, seqs: set<SeqId>, id: Id) {
    forall q :: q in seqs ==> ListOf(waiting, q) != [] && ListOf(waiting, q)[0] == id
  }

  function Retired(waiting: map<SeqId, seq<Id>>, seqs: set<SeqId>, id: Id): map<SeqId, seq<Id>> {
    map q | q in waiting :: if q in seqs then Remove(waiting[q], id) else waiting[q]
  }

  /** `run_actions` after validation: count, retire from the sequences, saturate. */
  function Counted(s: State, id: Id): State
    requires id in s.exps
  {
    var e := s.exps[id].(count := s.exps[id].count + 1);
    var t := s.(exps := s.exps[id := e],
                waiting := if e.count == e.min then Retired(s.waiting, e.seqs, id) else s.waiting);
    if e.count == e.max
    then t.(active := s.active[e.fn := Remove(ListOf(s.active, e.fn), id)],
            saturated := s.saturated[e.fn := ListOf(s.saturated, e.fn) + [id]])
    else t
  }

  lemma CountedExps(s: State, id: Id)
    requires id in s.exps
    ensures Counted(s, id).registered == s.registered && Counted(s, id).made == s.made
    ensures Counted(s, id).exps == s.exps[id := s.exps[id].(count := s.exps[id].count + 1)]
  {
  }

  /** What taking a call does to every list: an expectation leaves its sequences with the last call it
      requires, and moves to the end of the saturated list with the last call it allows. */
  lemma CountedLists(s: State, id: Id)
    requires id in s.exps && NoDuplicates(ListOf(s.active, s.exps[id].fn))
    requires forall q :: q in s.exps[id].seqs ==> NoDuplicates(ListOf(s.waiting, q))
    ensures var t, e := Counted(s, id), s.exps[id];
            && t.exps == s.exps[id := e.(count := e.count + 1)] && t.registered == s.registered && t.made == s.made
            && (forall g :: g != e.fn || e.count + 1 != e.max ==>
                  ListOf(t.active, g) == ListOf(s.active, g) && ListOf(t.saturated, g) == ListOf(s.saturated, g))
            && (e.count + 1 == e.max ==> ListOf(t.saturated, e.fn) == ListOf(s.saturated, e.fn) + [id])
            && (e.count + 1 == e.max ==> Without(ListOf(s.active, e.fn), ListOf(t.active, e.fn), id))
            && (forall q :: q !in e.seqs || e.count + 1 != e.min ==> ListOf(t.waiting, q) == ListOf(s.waiting, q))
            && (forall q ::
                q in e.seqs && e.count + 1 == e.min ==> Without(ListOf(s.waiting, q), ListOf(t.waiting, q), id))
  {
    hide *;
    var e := s.exps[id];
    CountedIs(s, id);
    RemoveTakes(ListOf(s.active, e.fn), id);
    var less, more := Remove(ListOf(s.active, e.fn), id), ListOf(s.saturated, e.fn) + [id];
    forall g ensures ListOf(s.active[e.fn := less], g) == if g == e.fn then less else ListOf(s.active, g) {
      ListOfUpdate(s.active, e.fn, less, g);
    }
    forall g ensures ListOf(s.saturated[e.fn := more], g) == if g == e.fn then more else ListOf(s.saturated, g) {
      ListOfUpdate(s.saturated, e.fn, more, g);
    }
    forall q ensures ListOf(Retired(s.waiting, e.seqs, id), q) ==
                     if q in e.seqs then Remove(ListOf(s.waiting, q), id) else ListOf(s.waiting, q) {
      RetiredAt(s.waiting, e.seqs, id, q);
    }
    forall q | q in e.seqs ensures Without(ListOf(s.waiting, q), Remove(ListOf(s.waiting, q), id), id) {
      RemoveTakes(ListOf(s.waiting, q), id);
    }
  }

  lemma ListOfUpdate(lists: map<nat, seq<Id>>, k: nat, l: seq<Id>, g: nat)
    ensures ListOf(lists[k := l], g) == if g == k then l else ListOf(lists, g)
  {
  }

  lemma RetiredAt(waiting: map<SeqId, seq<Id>>, seqs: set<SeqId>, id: Id, q: SeqId)
    ensures ListOf(Retired(waiting, seqs, id), q) ==
            if q in seqs then Remove(ListOf(waiting, q), id) else ListOf(waiting, q)
  {
    RemoveNothing(id);
    hide Remove;
  }

  lemma RemoveNothing(id: Id)
    ensures Remove([], id) == []
  {
  }

  /** The list `m` is `l` without its element `id`. */
  predicate Without(l: seq<Id>, m: seq<Id>, id: Id) {
    (id !in l ==> m == l) && forall k :: 0 <= k < |l| && l[k] == id ==> m == l[..k] + l[k + 1..]
  }

  lemma RemoveTakes(l: seq<Id>, id: Id)
    requires NoDuplicates(l)
    ensures Without(l, Remove(l, id), id)
  {
    hide Remove;
    if id !in l { RemoveAbsent(l, id); }
    forall k | 0 <= k < |l| && l[k] == id ensures Remove(l, id) == l[..k] + l[k + 1..] {
      RemoveAt(l, id, k);
    }
  }

  lemma {:induction false} RemoveAbsent(l: seq<Id>, id: Id)
    requires id !in l
    ensures Remove(l, id) == l
  {
    if l != [] {
      RemoveAbsent(l[1..], id);
      assert l == [l[0]] + l[1..];
    }
  }

  lemma {:induction false} RemoveAt(l: seq<Id>, id: Id, k: nat)
    requires NoDuplicates(l) && k < |l| && l[k] == id
    ensures Remove(l, id) == l[..k] + l[k + 1..]
  {
    if k == 0 {
      RemoveAbsent(l[1..], id);
    } else {
      RemoveAt(l[1..], id, k - 1);
      assert l[..k] == [l[0]] + l[1..][..k - 1];
      assert l[k + 1..] == l[1..][k..];
    }
  }

  /** The order along a sequence after a call. */
  lemma CountedOrder(s: State, id: Id, q: SeqId, i: nat, j: nat)
    requires InSequence(s, q) && id in s.exps && FirstInSequence(s, id)
    requires i < j < |ListOf(s.registered, q)|
    ensures var t, r := Counted(s, id), ListOf(s.registered, q);
            r[i] in t.exps && r[j] in t.exps
            && (t.exps[r[j]].count > 0 && t.exps[r[j]].min > 0 ==> !Pending(t.exps, r[i]))
  {
    hide Counted, ListOf, PendingOf;
    CountedExps(s, id);
    var r := ListOf(s.registered, q);
    assert r[i] in r && r[j] in r;
    if r[j] == id && s.exps[id].count == 0 && s.exps[id].min > 0 {
      PendingMembers(r, s.exps);
      PendingFirst(r, s.exps, j);
    }
  }

  lemma CountedSequence(s: State, id: Id, q: SeqId)
    requires InSequence(s, q) && id in s.exps && FirstInSequence(s, id)
    ensures InSequence(Counted(s, id), q)
  {
    var t := Counted(s, id);
    var r := ListOf(s.registered, q);
    CountedWaiting(s, id, q);
    CountedExps(s, id);
    hide Counted, ListOf, PendingOf, FirstInSequence;
    forall i, j | 0 <= i < j < |r|
      ensures r[i] in t.exps && r[j] in t.exps
      ensures (t.exps[r[j]].count > 0 && t.exps[r[j]].min > 0 ==> !Pending(t.exps, r[i]))
    {
      CountedOrder(s, id, q, i, j);
    }
  }

  lemma CountedWaiting(s: State, id: Id, q: SeqId)
    requires InSequence(s, q) && id in s.exps
    ensures ListOf(Counted(s, id).waiting, q) == PendingOf(ListOf(s.registered, q), Counted(s, id).exps)
  {
    var t := Counted(s, id);
    hide PendingOf, Remove, NoDuplicates, Pending;
    var e, r := s.exps[id], ListOf(s.registered, q);
    if q in e.seqs && e.count + 1 == e.min {
      PendingLess(r, s.exps, t.exps, id);
    } else {
      PendingSame(r, s.exps, t.exps);
    }
  }

  lemma DescendingLess(made: seq<Id>, l: seq<Id>, id: Id)
    requires NoDuplicates(l) && Descending(made, l)
    ensures Descending(made, Remove(l, id))
  {
    hide Remove, Later, NoDuplicates;
    RemoveTakes(l, id);
    if id in l {
      var k :| 0 <= k < |l| && l[k] == id;
      DescendingWithout(made, l, k);
    }
  }

  lemma DescendingWithout(made: seq<Id>, l: seq<Id>, k: nat)
    requires Descending(made, l) && k < |l|
    ensures Descending(made, l[..k] + l[k + 1..])
  {
    hide Later;
    var m := l[..k] + l[k + 1..];
    forall i, j | 0 <= i < j < |m| ensures Later(made, m[j], m[i]) {
      var i', j' := if i < k then i else i + 1, if j < k then j else j + 1;
      assert m[i] == l[i'] && m[j] == l[j'];
    }
  }

  lemma CountedLatest(s: State, id: Id, fn: Fn)
    requires LatestFirst(s, fn) && Owned(s, s.active, fn) && id in s.exps
    ensures LatestFirst(Counted(s, id), fn) && Counted(s, id).made == s.made
  {
    hide Remove, Later, Retired;
    var e := s.exps[id];
    ListOfUpdate(s.active, e.fn, Remove(ListOf(s.active, e.fn), id), fn);
    CountedIs(s, id);
    DescendingLess(s.made, ListOf(s.active, fn), id);
    hide Counted, ListOf;
  }

  lemma CountedOwned(s: State, id: Id, fn: Fn)
    requires Owned(s, s.active, fn) && Owned(s, s.saturated, fn) && Placed(s, id) && s.exps[id].count < s.exps[id].max
    ensures var t := Counted(s, id); Owned(t, t.active, fn) && Owned(t, t.saturated, fn)
  {
    RemoveKeeps(ListOf(s.active, fn), id);
  }

  lemma CountedPlaced(s: State, id: Id, x: Id)
    requires Placed(s, id) && Placed(s, x) && s.exps[id].count < s.exps[id].max
    requires Owned(s, s.active, s.exps[id].fn)
    ensures Placed(Counted(s, id), x)
  {
    RemoveKeeps(ListOf(s.active, s.exps[id].fn), id);
  }

  /** Taking a call keeps the invariant. */
  lemma CountedInv(s: State, id: Id)
    requires Inv(s) && id in s.exps && s.exps[id].count < s.exps[id].max && FirstInSequence(s, id)
    ensures Inv(Counted(s, id))
  {
    var t := Counted(s, id);
    forall fn ensures LatestFirst(t, fn) {
      assert Owned(s, s.active, fn);
      CountedLatest(s, id, fn);
    }
    CountedExps(s, id);
    assert Made(t);
    hide Made, LatestFirst;
    assert Placed(s, id) && Owned(s, s.active, s.exps[id].fn);
    forall q ensures InSequence(t, q) { CountedSequence(s, id, q); }
    hide InSequence;
    forall fn ensures Owned(t, t.active, fn) && Owned(t, t.saturated, fn) { CountedOwned(s, id, fn); }
    hide Owned;
    forall x | x in t.exps ensures Placed(t, x) { CountedPlaced(s, id, x); }
  }

  /** All mock functions and sequences of a test. */
  class Mocks {
    var s: State

    constructor ()
      ensures Inv(s) && s == NOTHING
    {
      s := NOTHING;
    }

    /** Registers an expectation with call bounds. */
    method Register(id: Id, fn: Fn, min: nat, max: nat, seqs: set<SeqId>)
      requires Inv(s) && id !in s.exps && min <= max
      modifies this
      ensures Inv(s) && s == Expect(old(s), id, fn, min, max, seqs)
      ensures s.exps == old(s).exps[id := Expectation(fn, min, max, 0, seqs)] && s.made == old(s).made + [id]
      ensures ListOf(s.active, fn) == [id] + ListOf(old(s).active, fn) && s.saturated == old(s).saturated
      ensures forall g :: g != fn ==> ListOf(s.active, g) == ListOf(old(s).active, g)
      ensures forall q :: ListOf(s.waiting, q) == ListOf(old(s).waiting, q) + if q in seqs then [id] else []
    {
      hide *;
      ExpectInv(s, id, fn, min, max, seqs);
      ExpectIs(s, id, fn, min, max, seqs);
      s := Expect(s, id, fn, min, max, seqs);
    }

    /** `find`: the first matching expectation that may be called now, or else the first
        matching one. */
    method Find(fn: Fn, matching: set<Id>) returns (found: Option<Id>)
      requires Inv(s)
      ensures found == None ==> forall id :: id in ListOf(s.active, fn) ==> id !in matching
      ensures found.Some? ==> found.value in ListOf(s.active, fn) && found.value in matching && found.value in s.exps
      ensures found.Some? && FirstInSequence(s, found.value) ==>
                var l := ListOf(s.active, fn);
                exists k :: 0 <= k < |l| && l[k] == found.value && NoneBefore(s, l, matching, k)
      ensures found.Some? && !FirstInSequence(s, found.value) ==>
              NoneBefore(s, ListOf(s.active, fn), matching, |ListOf(s.active, fn)|)
    {
      var l := ListOf(s.active, fn);
      assert Owned(s, s.active, fn);
      hide Inv, InSequence, Placed;
      found := None;
      for k := 0 to |l|
        invariant found == None ==> forall i :: 0 <= i < k ==> l[i] !in matching
        invariant found.Some? ==>
                  found.value in l && found.value in matching && found.value in s.exps
                  && !FirstInSequence(s, found.value)
        invariant NoneBefore(s, l, matching, k)
      {
        if l[k] in matching {
          if FirstInSequence(s, l[k]) {
            return Some(l[k]);
          }
          if found == None {
            found := Some(l[k]);
          }
        }
      }
    }

    /** A call of `fn` that matches the expectations `matching`.  It is taken exactly when the first
        matching active expectation that may be called now does not forbid it. */
    method Call(fn: Fn, matching: set<Id>) returns (r: Outcome)
      requires Inv(s)
      modifies this
      ensures r == Violation ==> s == old(s)
      ensures r == Violation <==> var c := Callable(old(s), ListOf(old(s).active, fn), matching);
                c == None || (c.value in old(s).exps && old(s).exps[c.value].max == 0)
      ensures r.Taken? ==> Callable(old(s), ListOf(old(s).active, fn), matching) == Some(r.id)
      ensures r.Taken? ==> r.id in old(s).exps && Inv(s) && s == Counted(old(s), r.id)
      // The latest registered one of those that may be called now takes the call.
      ensures r.Taken? ==> CallableHere(old(s), fn, matching, r.id)
      ensures r.Taken? ==>
                forall x :: CallableHere(old(s), fn, matching, x) && x != r.id ==> Later(old(s).made, x, r.id)
    {
      hide Inv, Counted, Callable, CallableHere, Later;
      var found := Find(fn, matching);
      if found == None {
        NoneMatching(s, ListOf(s.active, fn), matching);
        CallableNone(s, ListOf(s.active, fn), matching);
        return Violation;
      }
      var id := found.value;
      ActiveFacts(s, fn, id);
      FoundIs(s, ListOf(s.active, fn), matching, id);
      var e := s.exps[id];
      if e.max == 0 {
        return Violation;
      }
      if e.count < e.min && e.seqs != {} && !IsFirst(s.waiting, e.seqs, id) {
        return Violation;
      }
      CountedInv(s, id);
      CountedIs(s, id);
      LatestTakes(s, fn, matching, id);
      s := s.(exps := s.exps[id := e.(count := e.count + 1)]);
      if e.count + 1 == e.min {
        s := s.(waiting := Retired(s.waiting, e.seqs, id));
      }
      if e.count + 1 == e.max {
        s := s.(active := s.active[fn := Remove(ListOf(s.active, fn), id)]);
        s := s.(saturated := s.saturated[fn := ListOf(s.saturated, fn) + [id]]);
      }
      r := Taken(id);
    }
  }

  /** The first matching member that may be called now. */
  function Callable(s: State, l: seq<Id>, matching: set<Id>): Option<Id> {
    if l == [] then None
    else if l[0] in matching && l[0] in s.exps && FirstInSequence(s, l[0]) then Some(l[0])
    else Callable(s, l[1..], matching)
  }

  lemma {:induction false} CallableNone(s: State, l: seq<Id>, matching: set<Id>)
    requires NoneBefore(s, l, matching, |l|)
    ensures Callable(s, l, matching) == None
  {
    if l != [] {
      hide FirstInSequence;
      assert forall i :: 0 <= i < |l[1..]| ==> l[1..][i] == l[i + 1];
      CallableNone(s, l[1..], matching);
    }
  }

  lemma NoneMatching(s: State, l: seq<Id>, matching: set<Id>)
    requires forall id :: id in l ==> id !in matching
    ensures NoneBefore(s, l, matching, |l|)
  {
  }

  lemma {:induction false} CallableAt(s: State, l: seq<Id>, matching: set<Id>, k: nat)
    requires k < |l| && l[k] in matching && l[k] in s.exps && FirstInSequence(s, l[k]) && NoneBefore(s, l, matching, k)
    ensures Callable(s, l, matching) == Some(l[k])
  {
    if k > 0 {
      hide FirstInSequence;
      assert forall i :: 0 <= i < |l[1..]| ==> l[1..][i] == l[i + 1];
      CallableAt(s, l[1..], matching, k - 1);
    }
  }

  /** What `find` returns is callable exactly when something is. */
  lemma FoundIs(s: State, l: seq<Id>, matching: set<Id>, id: Id)
    requires id in l && id in matching && id in s.exps
    requires FirstInSequence(s, id) ==> exists k :: 0 <= k < |l| && l[k] == id && NoneBefore(s, l, matching, k)
    requires !FirstInSequence(s, id) ==> NoneBefore(s, l, matching, |l|)
    ensures Callable(s, l, matching) == if FirstInSequence(s, id) then Some(id) else None
  {
    hide FirstInSequence, NoneBefore, Callable;
    if FirstInSequence(s, id) {
      var k :| 0 <= k < |l| && l[k] == id && NoneBefore(s, l, matching, k);
      CallableAt(s, l, matching, k);
    } else {
      CallableNone(s, l, matching);
    }
  }

  /** Of all matching active expectations that may be called now, the one that was registered last
      takes the call. */
  lemma LatestTakes(s: State, fn: Fn, matching: set<Id>, id: Id)
    requires Inv(s)
    ensures Callable(s, ListOf(s.active, fn), matching) == Some(id) <==>
            CallableHere(s, fn, matching, id)
            && forall x :: CallableHere(s, fn, matching, x) && x != id ==> Later(s.made, x, id)
    ensures Callable(s, ListOf(s.active, fn), matching) == None <==> forall x :: !CallableHere(s, fn, matching, x)
  {
    var l := ListOf(s.active, fn);
    assert LatestFirst(s, fn) && Made(s);
    hide Inv, FirstInSequence, Later, ListOf;
    CallableFirst(s, l, matching);
    var c := Callable(s, l, matching);
    if c.Some? {
      assert CallableHere(s, fn, matching, c.value);
      if CallableHere(s, fn, matching, id) && c != Some(id) { NotBoth(s.made, id, c.value); }
    }
  }

  predicate CallableHere(s: State, fn: Fn, matching: set<Id>, x: Id) {
    x in ListOf(s.active, fn) && x in matching && x in s.exps && FirstInSequence(s, x)
  }

  lemma NotBoth(made: seq<Id>, a: Id, b: Id)
    requires NoDuplicates(made) && Later(made, a, b)
    ensures !Later(made, b, a)
  {
  }

  /** The first of a list that matches and may be called. */
  lemma {:induction false} CallableFirst(s: State, l: seq<Id>, matching: set<Id>)
    ensures var c := Callable(s, l, matching);
            && (c.None? ==> forall x :: x in l && x in matching && x in s.exps ==> !FirstInSequence(s, x))
            && (c.Some? ==> c.value in l && c.value in matching && c.value in s.exps && FirstInSequence(s, c.value))
            && (c.Some? ==>
                forall x :: x in l && x in matching && x in s.exps && FirstInSequence(s, x) && x != c.value ==>
                  exists i, j :: 0 <= i < j < |l| && l[i] == c.value && l[j] == x)
  {
    hide FirstInSequence;
    if l != [] {
      CallableFirst(s, l[1..], matching);
      assert forall x :: x in l <==> x == l[0] || x in l[1..];
      var c := Callable(s, l, matching);
      if c.Some? {
        forall x | x in l && x in matching && x in s.exps && FirstInSequence(s, x) && x != c.value
          ensures exists i, j :: 0 <= i < j < |l| && l[i] == c.value && l[j] == x
        {
          if c.value == l[0] && l[0] in matching && l[0] in s.exps && FirstInSequence(s, l[0]) {
            var j :| 0 <= j < |l| && l[j] == x;
            assert l[0] == c.value && 0 < j;
          } else {
            var i, j :| 0 <= i < j < |l[1..]| && l[1..][i] == c.value && l[1..][j] == x;
            assert l[i + 1] == c.value && l[j + 1] == x;
          }
        }
      }
    }
  }

  lemma CountedIs(s: State, id: Id)
    requires id in s.exps
    ensures var e := s.exps[id].(count := s.exps[id].count + 1);
            Counted(s, id) == State(s.exps[id := e],
              if e.count == e.max then s.active[e.fn := Remove(ListOf(s.active, e.fn), id)] else s.active,
              if e.count == e.max then s.saturated[e.fn := ListOf(s.saturated, e.fn) + [id]] else s.saturated,
              if e.count == e.min then Retired(s.waiting, e.seqs, id) else s.waiting, s.registered, s.made)
  {
  }

  /** No matching member before `k` may be called now. */
  ghost predicate NoneBefore(s: State, l: seq<Id>, matching: set<Id>, k: nat) {
    forall i :: 0 <= i < k && i < |l| && l[i] in matching && l[i] in s.exps ==> !FirstInSequence(s, l[i])
  }

  lemma ActiveFacts(s: State, fn: Fn, id: Id)
    requires Inv(s) && id in ListOf(s.active, fn)
    ensures id in s.exps && s.exps[id].fn == fn && (s.exps[id].count < s.exps[id].max || s.exps[id].max == 0)
  {
    assert Owned(s, s.active, fn);
    assert Placed(s, id);
  }

  // ----- What holds in every run -------------------------------------------------------------------------

  /** Every expectation is in exactly one of the two lists of its function and in no other
      list, and never exceeds its limit. */
  lemma ExactlyOne(s: State, id: Id)
    requires Inv(s) && id in s.exps
    ensures s.exps[id].count <= s.exps[id].max
    ensures id in ListOf(s.active, s.exps[id].fn) <==> id !in ListOf(s.saturated, s.exps[id].fn)
    ensures forall fn :: fn != s.exps[id].fn ==> id !in ListOf(s.active, fn) && id !in ListOf(s.saturated, fn)
  {
    assert Placed(s, id);
    forall fn | fn != s.exps[id].fn ensures id !in ListOf(s.active, fn) && id !in ListOf(s.saturated, fn) {
      assert Owned(s, s.active, fn) && Owned(s, s.saturated, fn);
    }
  }

  /** Along a sequence, an expectation with required calls is called only after all that were
      registered before it have required calls and have had them. */
  lemma RegistrationOrder(s: State, q: SeqId, i: nat, j: nat)
    requires Inv(s) && i < j < |ListOf(s.registered, q)|
    ensures var a, b := ListOf(s.registered, q)[i], ListOf(s.registered, q)[j];
            && a in s.exps && b in s.exps
            && (s.exps[b].min > 0 && s.exps[b].count > 0 ==> 0 < s.exps[a].min <= s.exps[a].count)
  {
    assert InSequence(s, q);
    var r := ListOf(s.registered, q);
    assert r[i] in r && r[j] in r;
  }

  /** No expectation that was registered before `id` in one of its sequences still waits there. */
  ghost predicate AllBeforeRetired(s: State, id: Id)
    requires id in s.exps
  {
    forall q, i, j ::
      q in s.exps[id].seqs && 0 <= i < j < |ListOf(s.registered, q)| && ListOf(s.registered, q)[j] == id ==>
      !Pending(s.exps, ListOf(s.registered, q)[i])
  }

  /** An expectation may be called exactly when it has had its required calls, or all that were
      registered before it in its sequences are retired. */
  lemma CallableIff(s: State, id: Id)
    requires Inv(s) && id in s.exps
    ensures FirstInSequence(s, id) <==> s.exps[id].count >= s.exps[id].min || AllBeforeRetired(s, id)
  {
    hide Inv, InSequence, ListOf, PendingOf;
    if s.exps[id].count < s.exps[id].min { OutstandingIff(s, id); }
  }

  lemma OutstandingIff(s: State, id: Id)
    requires Inv(s) && id in s.exps && s.exps[id].count < s.exps[id].min
    ensures FirstInSequence(s, id) <==> AllBeforeRetired(s, id)
  {
    hide Inv, InSequence, ListOf, PendingOf;
    forall q | q in s.exps[id].seqs
      ensures var r := ListOf(s.registered, q);
              ListOf(s.waiting, q) != [] && ListOf(s.waiting, q)[0] == id <==>
              forall i, j :: 0 <= i < j < |r| && r[j] == id ==> !Pending(s.exps, r[i])
    {
      FirstIff(s, id, q);
    }
  }

  /** The same for one sequence. */
  lemma FirstIff(s: State, id: Id, q: SeqId)
    requires Inv(s) && id in s.exps && s.exps[id].count < s.exps[id].min && q in s.exps[id].seqs
    ensures var r := ListOf(s.registered, q);
            ListOf(s.waiting, q) != [] && ListOf(s.waiting, q)[0] == id <==>
            forall i, j :: 0 <= i < j < |r| && r[j] == id ==> !Pending(s.exps, r[i])
  {
    hide *;
    var r := ListOf(s.registered, q);
    var k := Registered(s, id, q);
    if ListOf(s.waiting, q) != [] && ListOf(s.waiting, q)[0] == id {
      PendingFirst(r, s.exps, k);
    }
    if forall i, j :: 0 <= i < j < |r| && r[j] == id ==> !Pending(s.exps, r[i]) {
      PendingFirstBack(r, s.exps, k);
    }
  }

  /** Where an expectation stands in one of its sequences. */
  lemma Registered(s: State, id: Id, q: SeqId) returns (k: nat)
    requires Inv(s) && id in s.exps && s.exps[id].count < s.exps[id].min && q in s.exps[id].seqs
    ensures var r := ListOf(s.registered, q);
            && k < |r| && r[k] == id && Pending(s.exps, id) && NoDuplicates(r)
            && (forall j :: 0 <= j < |r| && r[j] == id ==> j == k)
            && ListOf(s.waiting, q) == PendingOf(r, s.exps)
  {
    hide PendingOf;
    assert InSequence(s, q);
    var r := ListOf(s.registered, q);
    assert id in r;
    k :| 0 <= k < |r| && r[k] == id;
  }

  /** An expectation without required calls blocks its sequences for good: no later one with
      required calls may ever be called. */
  lemma NeverRetired(s: State, q: SeqId, i: nat, j: nat)
    requires Inv(s) && i < j < |ListOf(s.registered, q)|
    ensures var a, b := ListOf(s.registered, q)[i], ListOf(s.registered, q)[j];
            && a in s.exps && b in s.exps
            && (s.exps[a].min == 0 && s.exps[b].min > 0 ==> s.exps[b].count == 0 && !FirstInSequence(s, b))
  {
    RegistrationOrder(s, q, i, j);
    var r := ListOf(s.registered, q);
    var a, b := r[i], r[j];
    assert InSequence(s, q);
    assert b in r;
    hide Inv, InSequence, ListOf, FirstInSequence;
    if s.exps[a].min == 0 && s.exps[b].min > 0 {
      CallableIff(s, b);
    }
  }

  /** A test that is stuck: the first expectation of a sequence has no required calls, so the
      call that the second one requires is reported. */
  method BlockedCall() returns (m: Mocks, r: Outcome)
    ensures Inv(m.s) && r == Violation
    ensures m.s == Expect(Expect(NOTHING, 0, 0, 0, 1, {0}), 1, 1, 1, 1, {0})
  {
    hide *;
    m := new Mocks();
    EmptyExps(m.s);
    m.Register(0, 0, 0, 1, {0});
    OneExps(m.s);
    m.Register(1, 1, 1, 1, {0});
    Stuck(m.s);
    r := m.Call(1, {1});
  }

  lemma EmptyExps(s: State)
    requires s == NOTHING
    ensures 0 !in s.exps
  {
  }

  lemma OneExps(s: State)
    requires s == Expect(NOTHING, 0, 0, 0, 1, {0})
    ensures 1 !in s.exps
  {
  }

  lemma Stuck(s: State)
    requires s == Expect(Expect(NOTHING, 0, 0, 0, 1, {0}), 1, 1, 1, 1, {0})
    ensures ListOf(s.active, 1) == [1] && ListOf(s.registered, 0) == [0, 1]
    ensures Callable(s, ListOf(s.active, 1), {1}) == None
  {
  }
}
