/**
  `Profile.find_cycles`: Tarjan's algorithm, run again from every root that was
  not visited yet, each time with fresh `orders` and `lowlinks`.

  A `Cycle` object is identified by its position in the order of allocation:
  `members[c]` is the `functions` set of cycle `c` and `cycleOf[f]` is the
  `cycle` attribute of function `f` (absent when it is `None`).
 */
module Tarjan {
  import opened CallGraph

  /** Everything `_tarjan` updates: its four mutable arguments and the cycles. */
  datatype State = State(
    visited: set<Id>, stack: seq<Id>, orders: map<Id, nat>, lowlinks: map<Id, nat>,
    members: seq<set<Id>>, cycleOf: map<Id, nat>)

  function Min(a: nat, b: nat): nat {
    if b < a then b else a
  }

  ghost function Elems(s: seq<Id>): set<Id> {
    set x | x in s
  }

  ghost predicate OnStack(s: State, x: Id) {
    x in s.stack
  }

  ghost predicate Extends(a: map<Id, nat>, b: map<Id, nat>) {
    forall x :: x in a ==> x in b && b[x] == a[x]
  }

  // ----- Invariants of one search ---------------------------------------------

  /** `grey` are the functions whose call to `_tarjan` is still active.  A stack
      entry reaches every later entry and some active function at or below it;
      finished functions have all their callees ordered; and a component is
      removed from the stack as a whole. */
  ghost predicate Search(g: Graph, grey: set<Id>, s: State, order: nat) {
    && Numbered(g, s, order)
    && Ascending(s)
    && (forall x :: x in grey ==> OnStack(s, x))
    && Scanned(g, grey, s)
    && Linked(g, s.stack)
    && AllReachGrey(g, grey, s.stack)
    && RemovedWhole(g, s)
  }

  ghost predicate Numbered(g: Graph, s: State, order: nat) {
    && s.orders.Keys <= g.calls.Keys && s.lowlinks.Keys == s.orders.Keys && s.orders.Keys <= s.visited
    && (forall x :: x in s.orders ==> s.orders[x] < order)
  }

  ghost predicate Ascending(s: State) {
    && (forall i :: 0 <= i < |s.stack| ==> s.stack[i] in s.orders)
    && (forall i, j {:trigger s.orders[s.stack[i]], s.orders[s.stack[j]]} ::
          0 <= i < j < |s.stack| ==> s.orders[s.stack[i]] < s.orders[s.stack[j]])
  }

  ghost predicate Scanned(g: Graph, grey: set<Id>, s: State) {
    forall x, y {:trigger Edge(g, x, y)} :: x in s.orders && x !in grey && Edge(g, x, y) ==> y in s.orders
  }

  ghost predicate Linked(g: Graph, stack: seq<Id>) {
    forall i, j {:trigger Reach(g, stack[i], stack[j])} :: 0 <= i <= j < |stack| ==> Reach(g, stack[i], stack[j])
  }

  ghost predicate AllReachGrey(g: Graph, grey: set<Id>, stack: seq<Id>) {
    forall i :: 0 <= i < |stack| ==> ReachesGrey(g, grey, stack, i)
  }

  ghost predicate RemovedWhole(g: Graph, s: State) {
    forall x, y {:trigger Mutual(g, x, y)} ::
      x in s.orders && !OnStack(s, x) && Mutual(g, x, y) ==> y in s.orders && !OnStack(s, y)
  }

  ghost predicate ReachesGrey(g: Graph, grey: set<Id>, stack: seq<Id>, i: nat)
    requires i < |stack|
  {
    exists k :: 0 <= k <= i && stack[k] in grey && Reach(g, stack[i], stack[k])
  }

  /** Every edge from the stack above position `pos` back to the stack below
      `pos` was taken into account by `low`. */
  ghost predicate LowCovers(g: Graph, s: State, pos: nat, low: nat) {
    forall i, j {:trigger Edge(g, s.stack[i], s.stack[j])} ::
      pos <= i < |s.stack| && 0 <= j < pos && Edge(g, s.stack[i], s.stack[j]) && s.stack[j] in s.orders
      ==> low <= s.orders[s.stack[j]]
  }

  /** `low` is the order of `x` itself or of a function further down the stack
      that `x` reaches. */
  ghost predicate LowWitness(g: Graph, below: seq<Id>, orders: map<Id, nat>, x: Id, low: nat) {
    || (x in orders && low == orders[x])
    || exists j :: 0 <= j < |below| && below[j] in orders && low == orders[below[j]] && Reach(g, x, below[j])
  }

  /** What holds inside `_tarjan(f, ...)`, whose frame starts at `pos`, when the
      callees in `seen` were handled and the lowlink is `low`. */
  ghost predicate Frame(g: Graph, grey: set<Id>, s: State, order: nat, pos: nat, f: Id, low: nat, seen: set<Id>) {
    && Search(g, grey, s, order)
    && pos < |s.stack| && s.stack[pos] == f && f in grey
    && (forall k :: pos < k < |s.stack| ==> s.stack[k] !in grey)
    && seen <= s.orders.Keys
    && low <= s.orders[f]
    && LowWitness(g, s.stack[..pos], s.orders, f, low)
    && (forall u, j {:trigger Edge(g, s.stack[u], s.stack[j])} ::
          pos < u < |s.stack| && 0 <= j < pos && Edge(g, s.stack[u], s.stack[j]) ==> low <= s.orders[s.stack[j]])
    && (forall j :: 0 <= j < pos && s.stack[j] in seen ==> low <= s.orders[s.stack[j]])
  }

  /** What a finished call `_tarjan(f, start, ...)` leaves behind. */
  ghost predicate Finished(g: Graph, before: State, s: State, f: Id, start: nat) {
    && f in s.orders && s.orders[f] == start && f in s.lowlinks
    && before.stack <= s.stack
    && Extends(before.lowlinks, s.lowlinks)
    && LowWitness(g, before.stack, s.orders, f, s.lowlinks[f])
    && LowCovers(g, s, |before.stack|, s.lowlinks[f])
  }

  // ----- Invariants of the cycle assignment -----------------------------------

  /** Function `x` carries a cycle, and it is its component, shared by all of it. */
  ghost predicate Assigned(g: Graph, members: seq<set<Id>>, cycleOf: map<Id, nat>, x: Id) {
    && x in cycleOf
    && cycleOf[x] < |members|
    && |Scc(g, x)| > 1
    && members[cycleOf[x]] == Scc(g, x)
    && forall y :: y in Scc(g, x) ==> y in cycleOf && cycleOf[y] == cycleOf[x]
  }

  ghost predicate Cycles(g: Graph, members: seq<set<Id>>, cycleOf: map<Id, nat>) {
    && cycleOf.Keys <= g.calls.Keys
    && forall x :: x in cycleOf ==> Assigned(g, members, cycleOf, x)
  }

  ghost predicate Settled(g: Graph, cycleOf: map<Id, nat>, x: Id) {
    |Scc(g, x)| > 1 ==> x in cycleOf
  }

  /** The cycles found so far are right, and every function this search took off
      the stack has the cycle it needs. */
  ghost predicate Sound(g: Graph, s: State) {
    && Cycles(g, s.members, s.cycleOf)
    && forall x :: x in s.orders && !OnStack(s, x) ==> Settled(g, s.cycleOf, x)
  }

  /** What never gets lost while a search runs. */
  ghost predicate Grows(a: State, b: State) {
    && a.cycleOf.Keys <= b.cycleOf.Keys
    && Extends(a.orders, b.orders)
    && b.visited == a.visited + b.orders.Keys
  }

  lemma GrowsTrans(a: State, b: State, c: State)
    requires Grows(a, b) && Grows(b, c)
    ensures Grows(a, c) && Extends(b.orders, c.orders)
  {
  }

  // ----- Proof steps of one search ---------------------------------------------

  /** `s` after `_tarjan(x, order, ...)` registered its function. */
  function Entered(s: State, x: Id, order: nat): State {
    s.(visited := s.visited + {x}, orders := s.orders[x := order],
       lowlinks := s.lowlinks[x := order], stack := s.stack + [x])
  }

  /** Pushing a function every stack entry reaches. */
  lemma Push(g: Graph, grey: set<Id>, s: State, order: nat, x: Id)
    requires Search(g, grey, s, order)
    requires x in g.calls && x !in s.orders
    requires forall i :: 0 <= i < |s.stack| ==> Reach(g, s.stack[i], x)
    ensures Search(g, grey + {x}, Entered(s, x, order), order + 1)
  {
    hide Reach;
    var s', grey' := Entered(s, x, order), grey + {x};
    ReachRefl(g, x);
    assert s'.stack[|s.stack|] == x;
    forall i | 0 <= i < |s'.stack| ensures ReachesGrey(g, grey', s'.stack, i) {
      if i < |s.stack| {
        assert ReachesGrey(g, grey, s.stack, i);
        var k :| 0 <= k <= i && s.stack[k] in grey && Reach(g, s.stack[i], s.stack[k]);
        assert s'.stack[k] in grey' && s'.stack[i] == s.stack[i];
      } else {
        assert s'.stack[i] in grey';
      }
    }
    forall y | y in grey' ensures OnStack(s', y) {
      if y != x { assert OnStack(s, y); }
    }
    forall u, v | u in s'.orders && !OnStack(s', u) && Mutual(g, u, v)
      ensures v in s'.orders && !OnStack(s', v)
    {
      assert u != x;
      assert !OnStack(s, u);
      assert v in s.orders && !OnStack(s, v);
    }
  }

  /** What holds in `_tarjan(f, start, ...)` after the callees in `seen`, when it
      was entered in state `entry`. */
  ghost predicate Scanning(g: Graph, grey: set<Id>, entry: State, f: Id, start: nat, seen: set<Id>, s: State,
                           order: nat) {
    && f in s.orders && s.orders[f] == start && f in s.lowlinks && f !in entry.lowlinks
    && Frame(g, grey, s, order, |entry.stack|, f, s.lowlinks[f], seen)
    && Sound(g, s) && Grows(entry, s) && Extends(entry.lowlinks, s.lowlinks)
    && entry.stack <= s.stack
  }

  /** Entering a frame. */
  lemma Enter(g: Graph, grey: set<Id>, s: State, order: nat, x: Id)
    requires Search(g, grey, s, order) && Sound(g, s)
    requires x in g.calls && x !in s.orders
    requires forall i :: 0 <= i < |s.stack| ==> Reach(g, s.stack[i], x)
    ensures grey + {x} - {x} == grey
    ensures Scanning(g, grey + {x}, s, x, order, {}, Entered(s, x, order), order + 1)
    ensures Entered(s, x, order).orders.Keys == s.orders.Keys + {x} <= g.calls.Keys
  {
    hide *;
    NotGrey(g, grey, s, order, x);
    Push(g, grey, s, order, x);
    EnterSound(g, s, order, x);
    EnterFrame(g, grey, s, order, x);
    EnterScanning(g, grey + {x}, s, order, x);
  }

  lemma EnterScanning(g: Graph, grey: set<Id>, s: State, order: nat, x: Id)
    requires x in g.calls && x !in s.orders && x !in s.lowlinks && s.orders.Keys <= g.calls.Keys * s.visited
    requires Frame(g, grey, Entered(s, x, order), order + 1, |s.stack|, x, order, {}) && Sound(g, Entered(s, x, order))
    ensures Scanning(g, grey, s, x, order, {}, Entered(s, x, order), order + 1)
    ensures Entered(s, x, order).orders.Keys == s.orders.Keys + {x} <= g.calls.Keys
  {
    hide Frame, Sound;
  }

  lemma EnterFrame(g: Graph, grey: set<Id>, s: State, order: nat, x: Id)
    requires Search(g, grey + {x}, Entered(s, x, order), order + 1)
    requires forall k :: 0 <= k < |s.stack| ==> s.stack[k] in s.orders
    ensures Frame(g, grey + {x}, Entered(s, x, order), order + 1, |s.stack|, x, order, {})
  {
    hide Search, Edge, Reach;
  }

  lemma NotGrey(g: Graph, grey: set<Id>, s: State, order: nat, x: Id)
    requires Search(g, grey, s, order) && x !in s.orders
    ensures x !in grey && x !in s.lowlinks && s.orders.Keys <= g.calls.Keys * s.visited
    ensures forall k :: 0 <= k < |s.stack| ==> s.stack[k] in s.orders
  {
    hide Reach, Linked, Scanned, AllReachGrey, RemovedWhole;
    assert x in grey ==> OnStack(s, x);
  }

  lemma EnterSound(g: Graph, s: State, order: nat, x: Id)
    requires Sound(g, s)
    ensures Sound(g, Entered(s, x, order))
  {
    var s' := Entered(s, x, order);
    assert s'.stack[|s.stack|] == x;
    forall y | y in s'.orders && !OnStack(s', y) ensures Settled(g, s'.cycleOf, y) {
      assert y in s.orders && !OnStack(s, y);
    }
  }

  /** Every stack entry reaches the topmost active function. */
  lemma AllReachTop(g: Graph, grey: set<Id>, s: State, order: nat, pos: nat)
    requires Search(g, grey, s, order)
    requires pos < |s.stack| && forall k :: pos < k < |s.stack| ==> s.stack[k] !in grey
    ensures forall i :: 0 <= i < |s.stack| ==> Reach(g, s.stack[i], s.stack[pos])
  {
    hide Reach;
    forall i | 0 <= i < |s.stack| ensures Reach(g, s.stack[i], s.stack[pos]) {
      assert ReachesGrey(g, grey, s.stack, i);
      var k :| 0 <= k <= i && s.stack[k] in grey && Reach(g, s.stack[i], s.stack[k]);
      assert k <= pos;
      ReachTrans(g, s.stack[i], s.stack[k], s.stack[pos]);
    }
  }

  /** The parts of a frame its function looks at. */
  lemma ScanningFacts(g: Graph, grey: set<Id>, entry: State, f: Id, start: nat, seen: set<Id>, s: State, order: nat,
                      callee: Id)
    requires Scanning(g, grey, entry, f, start, seen, s, order) && Validated(g) && Edge(g, f, callee)
    ensures f in s.orders && f in s.lowlinks && s.orders.Keys <= g.calls.Keys && callee in g.calls
    ensures Frame(g, grey, s, order, |entry.stack|, f, s.lowlinks[f], seen) && Sound(g, s)
  {
    hide Reach, Sound, Grows, Extends, LowWitness, Ascending, Scanned, Linked, AllReachGrey, RemovedWhole;
  }

  lemma CalleeSteps(g: Graph, f: Id)
    requires f in g.calls
    ensures Elems(g.calls[f][..0]) == {} && g.calls[f][..|g.calls[f]|] == g.calls[f]
    ensures forall i :: 0 <= i < |g.calls[f]| ==>
              Edge(g, f, g.calls[f][i]) && Elems(g.calls[f][..i + 1]) == Elems(g.calls[f][..i]) + {g.calls[f][i]}
  {
    ElemsSteps(g.calls[f]);
    hide Elems;
  }

  /** A callee without an order may be visited next. */
  lemma Descend(g: Graph, grey: set<Id>, s: State, order: nat, pos: nat, f: Id, low: nat, seen: set<Id>, callee: Id)
    requires Frame(g, grey, s, order, pos, f, low, seen) && Edge(g, f, callee)
    ensures Search(g, grey, s, order)
    ensures forall i :: 0 <= i < |s.stack| ==> Reach(g, s.stack[i], callee)
  {
    hide Reach;
    AllReachTop(g, grey, s, order, pos);
    ReachEdge(g, f, callee);
    forall k | 0 <= k < |s.stack| ensures Reach(g, s.stack[k], callee) {
      ReachTrans(g, s.stack[k], f, callee);
    }
  }

  /** Taking over the link of a callee keeps the witness of the caller. */
  lemma LowerLink(g: Graph, s: State, pos: nat, before: seq<Id>, f: Id, callee: Id, low: nat, calleeLow: nat)
    requires pos < |before| && before <= s.stack && before[pos] == f && Edge(g, f, callee)
    requires forall i :: 0 <= i < |s.stack| ==> s.stack[i] in s.orders
    requires forall i, j :: 0 <= i < j < |s.stack| ==> s.orders[s.stack[i]] < s.orders[s.stack[j]]
    requires callee in s.orders && s.orders[f] < s.orders[callee] && low <= s.orders[f]
    requires LowWitness(g, before, s.orders, callee, calleeLow)
    requires calleeLow < low
    ensures LowWitness(g, s.stack[..pos], s.orders, f, calleeLow)
  {
    hide Reach;
    var j :| 0 <= j < |before| && calleeLow == s.orders[before[j]] && Reach(g, callee, before[j]);
    assert before[j] == s.stack[j] && before[pos] == s.stack[pos];
    assert j < pos;
    ReachEdge(g, f, callee);
    ReachTrans(g, f, callee, s.stack[j]);
  }

  /** A recursive search leaves no active function above the caller. */
  lemma GreyBelow(g: Graph, grey: set<Id>, b: State, s: State, pos: nat)
    requires b.stack <= s.stack && NoDup(s.stack)
    requires forall x :: x in grey ==> OnStack(b, x)
    requires forall k :: pos < k < |b.stack| ==> b.stack[k] !in grey
    ensures forall k :: pos < k < |s.stack| ==> s.stack[k] !in grey
  {
    forall k | pos < k < |s.stack| ensures s.stack[k] !in grey {
      if k < |b.stack| {
        assert s.stack[k] == b.stack[k];
      } else {
        forall x | x in grey ensures x != s.stack[k] {
          assert OnStack(b, x);
          var m :| 0 <= m < |b.stack| && b.stack[m] == x;
          assert s.stack[m] == x;
        }
      }
    }
  }

  /** Handling a callee by a recursive search. */
  lemma Returned(g: Graph, grey: set<Id>, b: State, start: nat, pos: nat, f: Id, low: nat, seen: set<Id>, callee: Id,
                 s: State, order: nat)
    requires Frame(g, grey, b, start, pos, f, low, seen)
    requires callee !in b.orders && Edge(g, f, callee)
    requires Search(g, grey, s, order) && Extends(b.orders, s.orders) && Finished(g, b, s, callee, start)
    ensures Frame(g, grey, s, order, pos, f, Min(low, s.lowlinks[callee]), seen + {callee})
    ensures s.stack[..pos] == b.stack[..pos]
  {
    hide Reach, Edge, LowCovers, Linked, Scanned, AllReachGrey, RemovedWhole, Numbered, LowWitness;
    ReturnedLow(g, grey, b, start, pos, f, low, seen, callee, s, order);
    ReturnedWitness(g, grey, b, start, pos, f, low, seen, callee, s, order);
    assert s.stack[..pos] == b.stack[..pos] && s.stack[pos] == b.stack[pos];
    hide Extends;
    GreyBelow(g, grey, b, s, pos);
    hide Ascending, OnStack;
  }

  lemma ReturnedWitness(g: Graph, grey: set<Id>, b: State, start: nat, pos: nat, f: Id, low: nat, seen: set<Id>,
                        callee: Id,
                        s: State, order: nat)
    requires Frame(g, grey, b, start, pos, f, low, seen)
    requires callee !in b.orders && Edge(g, f, callee)
    requires Search(g, grey, s, order) && Extends(b.orders, s.orders) && Finished(g, b, s, callee, start)
    ensures seen + {callee} <= s.orders.Keys && f in s.orders && low <= s.orders[f]
    ensures LowWitness(g, s.stack[..pos], s.orders, f, Min(low, s.lowlinks[callee]))
  {
    hide Reach, Edge, LowCovers, Linked, Scanned, AllReachGrey, RemovedWhole, LowWitness;
    assert s.stack[..pos] == b.stack[..pos] && s.stack[pos] == b.stack[pos];
    if s.lowlinks[callee] < low {
      LowerLink(g, s, pos, b.stack, f, callee, low, s.lowlinks[callee]);
    } else {
      SameLink(g, s.stack[..pos], b.orders, s.orders, f, low);
    }
  }

  lemma SameLink(g: Graph, below: seq<Id>, a: map<Id, nat>, b: map<Id, nat>, f: Id, low: nat)
    requires LowWitness(g, below, a, f, low) && Extends(a, b)
    ensures LowWitness(g, below, b, f, low)
  {
    hide Reach;
  }

  lemma ReturnedLow(g: Graph, grey: set<Id>, b: State, start: nat, pos: nat, f: Id, low: nat, seen: set<Id>, callee: Id,
                    s: State, order: nat)
    requires Frame(g, grey, b, start, pos, f, low, seen)
    requires callee !in b.orders
    requires Search(g, grey, s, order) && Extends(b.orders, s.orders) && Finished(g, b, s, callee, start)
    ensures forall u, j {:trigger Edge(g, s.stack[u], s.stack[j])} ::
              pos < u < |s.stack| && 0 <= j < pos && Edge(g, s.stack[u], s.stack[j]) ==>
              Min(low, s.lowlinks[callee]) <= s.orders[s.stack[j]]
    ensures forall j :: 0 <= j < pos && s.stack[j] in seen + {callee} ==> low <= s.orders[s.stack[j]]
  {
    hide Reach;
    forall u, j | pos < u < |s.stack| && 0 <= j < pos && Edge(g, s.stack[u], s.stack[j])
      ensures Min(low, s.lowlinks[callee]) <= s.orders[s.stack[j]]
    {
      assert s.stack[j] == b.stack[j];
      if u < |b.stack| {
        assert s.stack[u] == b.stack[u];
      }
    }
    forall j | 0 <= j < pos && s.stack[j] in seen + {callee} ensures low <= s.orders[s.stack[j]] {
      assert s.stack[j] == b.stack[j];
    }
  }

  /** Handling a callee that already has an order. */
  lemma Known(g: Graph, grey: set<Id>, s: State, order: nat, pos: nat, f: Id, low: nat, seen: set<Id>, callee: Id)
    requires Frame(g, grey, s, order, pos, f, low, seen)
    requires callee in s.orders && Edge(g, f, callee)
    ensures callee in s.stack ==> Frame(g, grey, s, order, pos, f, Min(low, s.orders[callee]), seen + {callee})
    ensures callee !in s.stack ==> Frame(g, grey, s, order, pos, f, low, seen + {callee})
  {
    hide Reach;
    if callee in s.stack && s.orders[callee] < low {
      ReachEdge(g, f, callee);
      var j :| 0 <= j < |s.stack| && s.stack[j] == callee;
      assert j < pos;
      assert s.stack[..pos][j] == callee;
    }
  }

  /** Storing the lowlink of the active function changes nothing else. */
  lemma SetLink(g: Graph, grey: set<Id>, s: State, order: nat, pos: nat, f: Id, low: nat, seen: set<Id>)
    requires Frame(g, grey, s, order, pos, f, low, seen) && Sound(g, s)
    ensures Frame(g, grey, s.(lowlinks := s.lowlinks[f := low]), order, pos, f, low, seen)
    ensures Sound(g, s.(lowlinks := s.lowlinks[f := low]))
  {
    var s' := s.(lowlinks := s.lowlinks[f := low]);
    SetLinkSearch(g, grey, s, order, f, low);
    hide Search, Cycles, Reach, Edge, LowWitness, Settled;
    assert forall x :: OnStack(s', x) <==> OnStack(s, x);
  }

  lemma SetLinkSearch(g: Graph, grey: set<Id>, s: State, order: nat, f: Id, low: nat)
    requires Search(g, grey, s, order) && f in s.orders
    ensures Search(g, grey, s.(lowlinks := s.lowlinks[f := low]), order)
  {
    hide Reach, Edge, Linked, AllReachGrey, Mutual;
    var s' := s.(lowlinks := s.lowlinks[f := low]);
    assert s'.lowlinks.Keys == s.lowlinks.Keys;
    assert forall x :: OnStack(s', x) <==> OnStack(s, x);
  }

  /** One turn of the loop over the callees: the callee had no order. */
  lemma ScannedNew(g: Graph, grey: set<Id>, entry: State, f: Id, start: nat, seen: set<Id>, b: State, order0: nat,
                   callee: Id,
                   s: State, order: nat)
    requires Scanning(g, grey, entry, f, start, seen, b, order0) && callee !in b.orders && Edge(g, f, callee)
    requires Search(g, grey, s, order) && Sound(g, s) && Grows(b, s) && Finished(g, b, s, callee, order0)
    ensures f in s.lowlinks && callee in s.lowlinks && b.orders.Keys <= s.orders.Keys
    ensures var s' := s.(lowlinks := s.lowlinks[f := Min(s.lowlinks[f], s.lowlinks[callee])]);
            Scanning(g, grey, entry, f, start, seen + {callee}, s', order)
  {
    hide Search, Sound, Frame, Edge, Reach, LowWitness, LowCovers, Grows, Min;
    var pos, low := |entry.stack|, b.lowlinks[f];
    GrowsTrans(entry, b, s);
    Returned(g, grey, b, order0, pos, f, low, seen, callee, s, order);
    SetLink(g, grey, s, order, pos, f, Min(low, s.lowlinks[callee]), seen + {callee});
    LinkGrows(entry, s, f, Min(low, s.lowlinks[callee]));
  }

  lemma LinkGrows(a: State, s: State, f: Id, low: nat)
    requires Grows(a, s)
    ensures Grows(a, s.(lowlinks := s.lowlinks[f := low]))
  {
  }

  /** One turn of the loop over the callees: the callee had an order. */
  lemma ScannedOld(g: Graph, grey: set<Id>, entry: State, f: Id, start: nat, seen: set<Id>, s: State, order: nat,
                   callee: Id)
    requires Scanning(g, grey, entry, f, start, seen, s, order) && callee in s.orders && Edge(g, f, callee)
    ensures f in s.lowlinks
    ensures callee !in s.stack ==> Scanning(g, grey, entry, f, start, seen + {callee}, s, order)
    ensures callee in s.stack ==>
              var s' := s.(lowlinks := s.lowlinks[f := Min(s.lowlinks[f], s.orders[callee])]);
              Scanning(g, grey, entry, f, start, seen + {callee}, s', order)
  {
    hide Search, Sound, Frame, Edge, Reach, LowWitness, LowCovers, Grows, Extends, Min;
    var pos, low := |entry.stack|, s.lowlinks[f];
    Known(g, grey, s, order, pos, f, low, seen, callee);
    if callee in s.stack {
      var min := Min(low, s.orders[callee]);
      SetLink(g, grey, s, order, pos, f, min, seen + {callee});
      LinkGrows(entry, s, f, min);
      LinkExtends(entry.lowlinks, s.lowlinks, f, min);
    }
  }

  lemma LinkExtends(a: map<Id, nat>, b: map<Id, nat>, f: Id, low: nat)
    requires Extends(a, b) && f !in a
    ensures Extends(a, b[f := low])
  {
  }

  // ----- Leaving a frame ------------------------------------------------------------

  /** A removed function and one on the stack are in different components. */
  lemma OffStackApart(g: Graph, grey: set<Id>, s: State, order: nat, w: Id, f: Id)
    requires Search(g, grey, s, order) && w in s.orders && !OnStack(s, w) && OnStack(s, f)
    ensures !Mutual(g, w, f)
  {
    hide Reach;
  }

  /** An edge that leaves the stack above `pos` ends in a removed component. */
  lemma NoExit(g: Graph, grey: set<Id>, s: State, order: nat, pos: nat, f: Id, low: nat, u: Id, w: Id)
    requires f in g.calls
    requires Frame(g, grey, s, order, pos, f, low, Elems(g.calls[f])) && low == s.orders[f]
    requires u in Elems(s.stack[pos..]) && w !in Elems(s.stack[pos..]) && Edge(g, u, w)
    ensures w in s.orders && !OnStack(s, w)
  {
    hide Reach;
    var i :| pos <= i < |s.stack| && s.stack[i] == u;
    assert w in s.orders;
    forall j | 0 <= j < |s.stack| ensures s.stack[j] != w {
      if j >= pos {
        assert s.stack[j] == s.stack[pos..][j - pos];
      } else {
        assert s.orders[s.stack[j]] < s.orders[s.stack[pos]];
      }
    }
  }

  /** The heart of the algorithm: when nothing above `pos` points below `pos`,
      the stack from `pos` on is one whole component. */
  lemma ComponentFound(g: Graph, grey: set<Id>, s: State, order: nat, pos: nat, f: Id, low: nat)
    requires Validated(g) && f in g.calls
    requires Frame(g, grey, s, order, pos, f, low, Elems(g.calls[f])) && low == s.orders[f]
    ensures Elems(s.stack[pos..]) == Scc(g, f)
  {
    hide Reach;
    var ms := Elems(s.stack[pos..]);
    AllReachTop(g, grey, s, order, pos);
    forall y | y in Scc(g, f) && y !in ms ensures false {
      var u, w := ExitEdge(g, ms, f, y);
      NoExit(g, grey, s, order, pos, f, low, u, w);
      assert OnStack(s, f);
      OffStackApart(g, grey, s, order, w, f);
      ReachTrans(g, w, y, f);
      ReachEdge(g, u, w);
      ReachTrans(g, f, u, w);
      assert false;
    }
    forall y | y in ms ensures y in Scc(g, f) {
      var i :| pos <= i < |s.stack| && s.stack[i] == y;
      assert Reach(g, s.stack[pos], s.stack[i]) && Reach(g, s.stack[i], s.stack[pos]);
    }
  }

  /** Removing a whole component from the stack. */
  lemma Pop(g: Graph, grey: set<Id>, s: State, order: nat, pos: nat, f: Id, low: nat)
    requires Validated(g) && f in g.calls
    requires Frame(g, grey, s, order, pos, f, low, Elems(g.calls[f]))
    requires Elems(s.stack[pos..]) == Scc(g, f)
    ensures Search(g, grey - {f}, s.(stack := s.stack[..pos]), order)
  {
    var grey', s' := grey - {f}, s.(stack := s.stack[..pos]);
    PopActive(g, grey, s, pos, f);
    PopReaches(g, grey, s, pos, f);
    PopWhole(g, s, pos, f);
    PopRest(g, grey, s, order, pos, f);
    hide Numbered, Ascending, Scanned, Linked, AllReachGrey, RemovedWhole, LowWitness, Edge, Scc, Elems, OnStack;
  }

  /** The active functions other than `f` lie below it. */
  lemma PopActive(g: Graph, grey: set<Id>, s: State, pos: nat, f: Id)
    requires pos < |s.stack| && s.stack[pos] == f
    requires forall k :: pos < k < |s.stack| ==> s.stack[k] !in grey
    requires forall x :: x in grey ==> OnStack(s, x)
    ensures forall x :: x in grey - {f} ==> OnStack(s.(stack := s.stack[..pos]), x)
  {
    forall x | x in grey - {f} ensures OnStack(s.(stack := s.stack[..pos]), x) {
      assert OnStack(s, x);
      var k :| 0 <= k < |s.stack| && s.stack[k] == x;
      assert s.stack[..pos][k] == x;
    }
  }

  lemma PopReaches(g: Graph, grey: set<Id>, s: State, pos: nat, f: Id)
    requires pos < |s.stack| && s.stack[pos] == f && AllReachGrey(g, grey, s.stack) && Ascending(s)
    ensures AllReachGrey(g, grey - {f}, s.stack[..pos])
  {
    hide Reach;
    var below := s.stack[..pos];
    forall i | 0 <= i < pos ensures ReachesGrey(g, grey - {f}, below, i) {
      assert ReachesGrey(g, grey, s.stack, i);
      var k :| 0 <= k <= i && s.stack[k] in grey && Reach(g, s.stack[i], s.stack[k]);
      assert s.orders[s.stack[k]] < s.orders[s.stack[pos]];
      assert below[k] == s.stack[k] && below[i] == s.stack[i];
    }
  }

  lemma PopRest(g: Graph, grey: set<Id>, s: State, order: nat, pos: nat, f: Id)
    requires f in g.calls && pos < |s.stack| && Numbered(g, s, order) && Ascending(s) && Scanned(g, grey, s)
    requires Linked(g, s.stack)
    requires Elems(g.calls[f]) <= s.orders.Keys
    ensures var s' := s.(stack := s.stack[..pos]);
            Numbered(g, s', order) && Ascending(s') && Scanned(g, grey - {f}, s') && Linked(g, s'.stack)
  {
    hide Reach;
    var below := s.stack[..pos];
    assert forall i :: 0 <= i < pos ==> below[i] == s.stack[i];
  }

  lemma PopWhole(g: Graph, s: State, pos: nat, f: Id)
    requires Validated(g) && f in g.calls && Ascending(s) && RemovedWhole(g, s)
    requires pos < |s.stack| && Elems(s.stack[pos..]) == Scc(g, f)
    ensures RemovedWhole(g, s.(stack := s.stack[..pos]))
  {
    hide Mutual, Scc, Elems, Validated;
    var s' := s.(stack := s.stack[..pos]);
    forall x, y {:trigger Mutual(g, x, y)} | x in s'.orders && !OnStack(s', x) && Mutual(g, x, y)
      ensures y in s'.orders && !OnStack(s', y)
    {
      if OnStack(s, x) {
        PopClosed(g, s.stack, pos, f, x, y);
      } else {
        assert y in s.orders && !OnStack(s, y);
        assert forall k :: 0 <= k < pos ==> s'.stack[k] == s.stack[k];
      }
    }
  }

  /** A function of the popped part takes those it is mutual with along. */
  lemma PopClosed(g: Graph, stack: seq<Id>, pos: nat, f: Id, x: Id, y: Id)
    requires Validated(g) && f in g.calls && NoDup(stack)
    requires pos < |stack| && Elems(stack[pos..]) == Scc(g, f)
    requires x in stack && x !in stack[..pos] && Mutual(g, x, y)
    ensures y in stack && y !in stack[..pos]
  {
    hide *;
    UpperPart(stack, pos, x);
    SccIs(g, f, x);
    MutualTrans(g, f, x, y);
    MutualInside(g, f, y);
    SccIs(g, f, y);
    UpperPart(stack, pos, y);
  }

  lemma UpperPart(stack: seq<Id>, pos: nat, x: Id)
    requires pos <= |stack| && NoDup(stack)
    ensures x in Elems(stack[pos..]) <==> x in stack && x !in stack[..pos]
  {
    assert stack == stack[..pos] + stack[pos..];
    if x in stack[pos..] {
      var j :| 0 <= j < |stack| - pos && stack[pos..][j] == x;
      assert forall k :: 0 <= k < pos ==> stack[..pos][k] == stack[k] != stack[pos + j];
    }
  }

  lemma SccIs(g: Graph, x: Id, y: Id)
    ensures y in Scc(g, x) <==> y in g.calls && Mutual(g, x, y)
  {
    hide Mutual;
  }

  lemma MutualInside(g: Graph, x: Id, y: Id)
    requires Validated(g) && x in g.calls && Mutual(g, x, y)
    ensures y in g.calls
  {
    hide Reach;
    ReachInside(g, x, y);
  }

  /** Leaving a function on the stack that reaches further down. */
  lemma Keep(g: Graph, grey: set<Id>, s: State, order: nat, pos: nat, f: Id, low: nat)
    requires f in g.calls
    requires Frame(g, grey, s, order, pos, f, low, Elems(g.calls[f])) && low < s.orders[f]
    ensures Search(g, grey - {f}, s, order)
  {
    KeepReaches(g, grey, s, pos, f, low);
    hide Reach, AllReachGrey, LowWitness, Linked, Ascending, Numbered, RemovedWhole;
    assert forall x {:trigger Edge(g, f, x)} :: Edge(g, f, x) ==> x in Elems(g.calls[f]);
  }

  lemma KeepReaches(g: Graph, grey: set<Id>, s: State, pos: nat, f: Id, low: nat)
    requires pos < |s.stack| && s.stack[pos] == f && AllReachGrey(g, grey, s.stack) && Ascending(s)
    requires LowWitness(g, s.stack[..pos], s.orders, f, low) && low < s.orders[f]
    ensures AllReachGrey(g, grey - {f}, s.stack)
  {
    hide Reach;
    var below := s.stack[..pos];
    var j :| 0 <= j < |below| && below[j] in s.orders && low == s.orders[below[j]] && Reach(g, f, below[j]);
    assert below[j] == s.stack[j] && ReachesGrey(g, grey, s.stack, j);
    var m :| 0 <= m <= j && s.stack[m] in grey && Reach(g, s.stack[j], s.stack[m]);
    assert s.orders[s.stack[m]] < s.orders[s.stack[pos]];
    ReachTrans(g, f, s.stack[j], s.stack[m]);
    forall i | 0 <= i < |s.stack| ensures ReachesGrey(g, grey - {f}, s.stack, i) {
      KeepReachesAt(g, grey, s.stack, pos, f, m, i);
    }
  }

  lemma KeepReachesAt(g: Graph, grey: set<Id>, stack: seq<Id>, pos: nat, f: Id, m: nat, i: nat)
    requires m < pos < |stack| && stack[pos] == f && stack[m] in grey && stack[m] != f && Reach(g, f, stack[m])
    requires i < |stack| && NoDup(stack) && ReachesGrey(g, grey, stack, i)
    ensures ReachesGrey(g, grey - {f}, stack, i)
  {
    hide Reach;
    var k :| 0 <= k <= i && stack[k] in grey && Reach(g, stack[i], stack[k]);
    if stack[k] == f {
      assert k == pos;
      ReachTrans(g, stack[i], f, stack[m]);
      assert stack[m] in grey - {f};
    } else {
      assert stack[k] in grey - {f};
    }
  }

  // ----- Proof steps of the cycle assignment -----------------------------------

  /** `cycleOf` after giving cycle `c` to every function of `ms`. */
  ghost function Overwrite(cycleOf: map<Id, nat>, ms: set<Id>, c: nat): map<Id, nat> {
    map x | x in cycleOf.Keys + ms :: if x in ms then c else cycleOf[x]
  }

  lemma OwnScc(g: Graph, x: Id)
    ensures x in g.calls ==> x in Scc(g, x)
    ensures Scc(g, x) <= g.calls.Keys
  {
    ReachRefl(g, x);
  }

  lemma OverwriteStep(cycleOf: map<Id, nat>, ms: set<Id>, x: Id, c: nat)
    ensures Overwrite(cycleOf, ms, c)[x := c] == Overwrite(cycleOf, ms + {x}, c)
    ensures Overwrite(cycleOf, {}, c) == cycleOf
  {
  }

  /** A new cycle for a whole component replaces whatever an earlier search found. */
  lemma NewCycle(g: Graph, members: seq<set<Id>>, cycleOf: map<Id, nat>, f: Id)
    requires Cycles(g, members, cycleOf) && |Scc(g, f)| > 1
    ensures Cycles(g, members + [Scc(g, f)], Overwrite(cycleOf, Scc(g, f), |members|))
  {
    hide Reach, Mutual, Scc;
    var ms := Scc(g, f);
    OwnScc(g, f);
    var members', cycleOf' := members + [ms], Overwrite(cycleOf, ms, |members|);
    forall x | x in cycleOf' ensures Assigned(g, members', cycleOf', x) {
      if x in ms {
        NewAssigned(g, members, cycleOf, f, x);
      } else {
        OldAssigned(g, members, cycleOf, f, x);
      }
    }
  }

  lemma NewAssigned(g: Graph, members: seq<set<Id>>, cycleOf: map<Id, nat>, f: Id, x: Id)
    requires |Scc(g, f)| > 1 && x in Scc(g, f)
    ensures Assigned(g, members + [Scc(g, f)], Overwrite(cycleOf, Scc(g, f), |members|), x)
  {
    SccSame(g, f, x);
    hide Scc;
  }

  lemma OldAssigned(g: Graph, members: seq<set<Id>>, cycleOf: map<Id, nat>, f: Id, x: Id)
    requires x in g.calls && x !in Scc(g, f) && Assigned(g, members, cycleOf, x)
    ensures Assigned(g, members + [Scc(g, f)], Overwrite(cycleOf, Scc(g, f), |members|), x)
  {
    SccApart(g, f, x);
    hide Scc;
  }

  lemma SccApart(g: Graph, f: Id, x: Id)
    requires x in g.calls && x !in Scc(g, f)
    ensures forall y :: y in Scc(g, x) ==> y !in Scc(g, f)
  {
    hide Reach, Mutual, Scc;
    forall y | y in Scc(g, x) ensures y !in Scc(g, f) {
      SccSame(g, x, y);
      OwnScc(g, x);
      if y in Scc(g, f) { SccSame(g, f, y); }
    }
  }

  /** `s` after the component above `pos` was taken off and reported. */
  ghost function Reported(s: State, pos: nat): State
    requires pos <= |s.stack|
  {
    var ms := Elems(s.stack[pos..]);
    if |ms| > 1 then
      s.(stack := s.stack[..pos], members := s.members + [ms], cycleOf := Overwrite(s.cycleOf, ms, |s.members|))
    else
      s.(stack := s.stack[..pos])
  }

  /** `s` after `f` was added to cycle `c`. */
  ghost function Added(s: State, c: nat, f: Id): State
    requires c < |s.members|
  {
    s.(members := s.members[c := s.members[c] + {f}], cycleOf := s.cycleOf[f := c])
  }

  /** `base` with its new cycle for the first `i` functions of `ms`. */
  ghost function PartReported(base: State, ms: seq<Id>, i: nat): State
    requires i <= |ms|
  {
    base.(members := base.members
          + [Elems(ms[..i])], cycleOf := Overwrite(base.cycleOf, Elems(ms[..i]), |base.members|))
  }

  lemma ReportedIs(s: State, pos: nat)
    requires pos <= |s.stack| && NoDup(s.stack[pos..])
    ensures var ms, base := s.stack[pos..], s.(stack := s.stack[..pos]);
            Reported(s, pos) == if |ms| > 1 then PartReported(base, ms, |ms|) else base
  {
    hide Elems, Overwrite, NoDup;
    var ms := s.stack[pos..];
    SetSize(ms);
    WholeSlice(ms);
  }

  lemma WholeSlice(s: seq<Id>)
    ensures s[..|s|] == s
  {
  }

  lemma PartOfNone(base: State, ms: seq<Id>)
    ensures base.(members := base.members + [{}]) == PartReported(base, ms, 0) && Elems(ms[..0]) == {}
  {
    ElemsSteps(ms);
    OverwriteStep(base.cycleOf, {}, 0, |base.members|);
  }

  lemma PartOfNext(base: State, ms: seq<Id>, i: nat)
    requires NoDup(ms) && i < |ms|
    ensures var s, c := PartReported(base, ms, i), |base.members|;
            c < |s.members| && ms[i] !in s.members[c] && Added(s, c, ms[i]) == PartReported(base, ms, i + 1)
  {
    ElemsSteps(ms);
    ElemsNew(ms, i);
    OverwriteStep(base.cycleOf, Elems(ms[..i]), ms[i], |base.members|);
    hide Elems, Overwrite;
  }

  lemma ReportSound(g: Graph, s: State, pos: nat, f: Id)
    requires Sound(g, s) && pos <= |s.stack| && Elems(s.stack[pos..]) == Scc(g, f)
    ensures Sound(g, Reported(s, pos))
    ensures s.cycleOf.Keys <= Reported(s, pos).cycleOf.Keys
  {
    hide Reach, Scc, Assigned, Settled;
    var s' := Reported(s, pos);
    if |Scc(g, f)| > 1 {
      NewCycle(g, s.members, s.cycleOf, f);
    }
    assert s.cycleOf.Keys <= s'.cycleOf.Keys;
    forall x | x in s'.orders && !OnStack(s', x) ensures Settled(g, s'.cycleOf, x) {
      if x in s.stack {
        PoppedSettled(g, s, pos, f, x);
      } else {
        assert !OnStack(s, x);
        StaysSettled(g, s.cycleOf, s'.cycleOf, x);
      }
    }
  }

  lemma StaysSettled(g: Graph, a: map<Id, nat>, b: map<Id, nat>, x: Id)
    requires Settled(g, a, x) && a.Keys <= b.Keys
    ensures Settled(g, b, x)
  {
  }

  lemma PoppedSettled(g: Graph, s: State, pos: nat, f: Id, x: Id)
    requires pos <= |s.stack| && Elems(s.stack[pos..]) == Scc(g, f) && x in s.stack && x !in s.stack[..pos]
    ensures Settled(g, Reported(s, pos).cycleOf, x)
  {
    hide Scc;
    assert s.stack == s.stack[..pos] + s.stack[pos..];
    SccSame(g, f, x);
  }

  /** Reporting touches only the stack and the cycles. */
  lemma ReportFrame(g: Graph, grey: set<Id>, s: State, order: nat, pos: nat, low: nat)
    requires pos <= |s.stack| && Search(g, grey, s.(stack := s.stack[..pos]), order)
    ensures Search(g, grey, Reported(s, pos), order)
    ensures LowCovers(g, Reported(s, pos), pos, low)
    ensures Reported(s, pos).stack == s.stack[..pos] && Reported(s, pos).orders == s.orders
    ensures Reported(s, pos).lowlinks == s.lowlinks && Reported(s, pos).visited == s.visited
  {
    hide Reach, Edge, Elems, Overwrite;
    var a, b := s.(stack := s.stack[..pos]), Reported(s, pos);
    assert b == a.(members := b.members, cycleOf := b.cycleOf);
    assert forall x :: OnStack(a, x) <==> OnStack(b, x);
  }

  /** What the end of `_tarjan` knows. */
  lemma LeavingFacts(g: Graph, grey: set<Id>, entry: State, f: Id, start: nat, s: State, order: nat)
    requires f in g.calls && Scanning(g, grey, entry, f, start, Elems(g.calls[f]), s, order)
    ensures |entry.stack| < |s.stack| && f in s.orders && f in s.lowlinks && NoDup(s.stack[|entry.stack|..])
  {
    hide Reach, Sound, Grows, Extends, LowWitness, Numbered, Scanned, Linked, AllReachGrey, RemovedWhole;
  }

  /** What a finished search leaves behind while its function stays on the stack. */
  lemma FinishedHere(g: Graph, grey: set<Id>, entry: State, f: Id, start: nat, s: State, order: nat)
    requires f in g.calls && Scanning(g, grey, entry, f, start, Elems(g.calls[f]), s, order)
    ensures Finished(g, entry, s, f, start)
  {
    hide Reach, Sound, Grows, Extends, Numbered, Scanned, Linked, AllReachGrey, RemovedWhole;
    assert s.stack[..|entry.stack|] == entry.stack;
    assert forall x {:trigger Edge(g, f, x)} :: Edge(g, f, x) ==> x in Elems(g.calls[f]);
  }

  lemma Kept(g: Graph, grey: set<Id>, entry: State, f: Id, start: nat, s: State, order: nat)
    requires f in g.calls && Scanning(g, grey, entry, f, start, Elems(g.calls[f]), s, order)
    requires s.lowlinks[f] != s.orders[f]
    ensures Search(g, grey - {f}, s, order) && Sound(g, s) && Grows(entry, s)
    ensures Finished(g, entry, s, f, start)
  {
    FinishedHere(g, grey, entry, f, start, s, order);
    assert s.lowlinks[f] <= s.orders[f] by {
      hide Search, Sound, Reach, LowWitness, Edge, Grows, Extends;
    }
    Keep(g, grey, s, order, |entry.stack|, f, s.lowlinks[f]);
    hide Search, Sound, Frame, Finished, Grows, Extends;
  }

  lemma Removed(g: Graph, grey: set<Id>, entry: State, f: Id, start: nat, s: State, order: nat)
    requires Validated(g) && f in g.calls && Scanning(g, grey, entry, f, start, Elems(g.calls[f]), s, order)
    requires s.lowlinks[f] == s.orders[f]
    ensures |entry.stack| < |s.stack|
    ensures var s' := Reported(s, |entry.stack|);
            && Search(g, grey - {f}, s', order) && Sound(g, s') && Grows(entry, s')
            && Finished(g, entry, s', f, start)
  {
    var pos, low := |entry.stack|, s.lowlinks[f];
    LeavingFacts(g, grey, entry, f, start, s, order);
    FinishedHere(g, grey, entry, f, start, s, order);
    assert s.stack[..pos] == entry.stack;
    ComponentFound(g, grey, s, order, pos, f, low);
    Pop(g, grey, s, order, pos, f, low);
    ReportSound(g, s, pos, f);
    ReportFrame(g, grey - {f}, s, order, pos, low);
    hide Search, Sound, Frame, LowWitness, Reported, Scc, Elems, Edge, Reach, Validated;
  }

  /** The set of a duplicate-free list has as many elements as the list. */
  lemma SetSize(s: seq<Id>)
    requires NoDup(s)
    ensures |Elems(s)| == |s|
  {
    if s != [] {
      var t := s[1..];
      SetSize(t);
      assert Elems(s) == Elems(t) + {s[0]};
      assert s[0] !in t;
    }
  }

  lemma ElemsSteps(s: seq<Id>)
    ensures Elems(s[..0]) == {}
    ensures forall i :: 0 <= i < |s| ==> Elems(s[..i + 1]) == Elems(s[..i]) + {s[i]}
    ensures s[..|s|] == s
  {
    forall i | 0 <= i < |s| ensures Elems(s[..i + 1]) == Elems(s[..i]) + {s[i]} {
      assert s[..i + 1] == s[..i] + [s[i]];
    }
  }

  lemma ElemsNew(s: seq<Id>, i: nat)
    requires NoDup(s) && i < |s|
    ensures s[i] !in Elems(s[..i])
  {
  }

  // ----- Proof steps of find_cycles ---------------------------------------------

  /** Every visited function has the cycle it needs. */
  ghost predicate AllSettled(g: Graph, s: State) {
    forall x :: x in s.visited ==> Settled(g, s.cycleOf, x)
  }

  lemma OrderInside(g: Graph)
    requires Validated(g)
    ensures WellFormed(g) && forall i :: 0 <= i < |g.order| ==> g.order[i] in g.calls
  {
  }

  /** A search that starts with nothing. */
  lemma FreshSearch(g: Graph, s: State)
    requires Cycles(g, s.members, s.cycleOf) && s.stack == [] && s.orders == map[] && s.lowlinks == map[]
    ensures Search(g, {}, s, 0) && Sound(g, s)
  {
  }

  /** When no function is active any more the stack is empty, so the search
      settled everything it ordered. */
  lemma SearchDone(g: Graph, before: State, s: State, order: nat, f: Id)
    requires Search(g, {}, s, order) && Sound(g, s) && Grows(before, s) && Finished(g, before, s, f, 0)
    requires AllSettled(g, before)
    ensures AllSettled(g, s)
    ensures before.visited <= s.visited && f in s.visited && Cycles(g, s.members, s.cycleOf)
  {
    assert |s.stack| > 0 ==> ReachesGrey(g, {}, s.stack, 0);
    assert s.stack == [];
    forall x | x in before.visited ensures Settled(g, s.cycleOf, x) {
      assert Settled(g, before.cycleOf, x);
    }
  }

  lemma {:induction false} Subset(s: set<Id>, t: set<Id>)
    requires s <= t
    ensures |s| <= |t|
  {
    if s != {} {
      var x :| x in s;
      Subset(s - {x}, t - {x});
    }
  }

  lemma SmallSet(s: set<Id>, x: Id)
    requires x in s
    ensures |s| > 1 <==> s != {x}
  {
    if s != {x} {
      var y :| y in s && y != x;
      Subset({x, y}, s);
    }
  }

  /** What one cycle attribute says once its function is settled. */
  lemma CycleMeaning(g: Graph, members: seq<set<Id>>, cycleOf: map<Id, nat>, x: Id)
    requires Cycles(g, members, cycleOf) && x in g.calls && Settled(g, cycleOf, x)
    ensures x in cycleOf <==> Scc(g, x) != {x}
    ensures x in Scc(g, x)
  {
    hide Reach;
    ReachRefl(g, x);
    SmallSet(Scc(g, x), x);
    if x in cycleOf { assert Assigned(g, members, cycleOf, x); }
  }

  /** What two cycle attributes say together. */
  lemma SharedCycleMeaning(g: Graph, members: seq<set<Id>>, cycleOf: map<Id, nat>, x: Id, y: Id)
    requires Cycles(g, members, cycleOf) && x in g.calls && y in g.calls && x != y
    requires Settled(g, cycleOf, x)
    ensures x in cycleOf && y in cycleOf && cycleOf[x] == cycleOf[y] <==> Reach(g, x, y) && Reach(g, y, x)
  {
    hide Reach;
    CycleMeaning(g, members, cycleOf, x);
    ReachRefl(g, y);
    assert y in Scc(g, y);
    if x in cycleOf { assert Assigned(g, members, cycleOf, x); }
    if y in cycleOf { assert Assigned(g, members, cycleOf, y); }
    if Mutual(g, x, y) { assert y in Scc(g, x); }
  }

  lemma AllMeaning(g: Graph, s: State)
    requires WellFormed(g) && Cycles(g, s.members, s.cycleOf) && AllSettled(g, s)
    requires forall k :: 0 <= k < |g.order| ==> g.order[k] in s.visited
    ensures s.cycleOf.Keys <= g.calls.Keys
    ensures forall x :: x in g.calls ==> (x in s.cycleOf <==> Scc(g, x) != {x})
    ensures forall x, y :: x in g.calls && y in g.calls && x != y ==>
              (x in s.cycleOf && y in s.cycleOf && s.cycleOf[x] == s.cycleOf[y] <==> Reach(g, x, y) && Reach(g, y, x))
  {
    var members, cycleOf := s.members, s.cycleOf;
    assert cycleOf.Keys <= g.calls.Keys;
    hide Reach, Scc, Settled, Cycles;
    forall x | x in g.calls
      ensures Settled(g, cycleOf, x) && (x in cycleOf <==> Scc(g, x) != {x})
    {
      assert x in g.order;
      CycleMeaning(g, members, cycleOf, x);
    }
    forall x, y | x in g.calls && y in g.calls && x != y
      ensures (x in cycleOf && y in cycleOf && cycleOf[x] == cycleOf[y]) <==> (Reach(g, x, y) && Reach(g, y, x))
    {
      SharedCycleMeaning(g, members, cycleOf, x, y);
    }
  }

  // ----- The profile ------------------------------------------------------------

  class Profile {
    const g: Graph
    var s: State
    /** `Profile.cycles` */
    var cycles: seq<nat>

    constructor (graph: Graph)
      ensures g == graph && s == State({}, [], map[], map[], [], map[]) && cycles == []
    {
      g, cycles := graph, [];
      s := State({}, [], map[], map[], [], map[]);
    }

    /** `Cycle.add_function` on cycle `c`.  The source loops over the members of
        the function's previous cycle, but its guard asks for `function`, which
        was added just before, so that loop never adds anything. */
    method AddFunction(c: nat, f: Id)
      requires c < |s.members| && f !in s.members[c]
      modifies `s
      ensures s == Added(old(s), c, f)
    {
      s := s.(members := s.members[c := s.members[c] + {f}]);
      s := s.(cycleOf := s.cycleOf[f := c]);
    }

    /** Popping a component and, if it has several members, making a `Cycle`. */
    method Report(pos: nat)
      requires pos <= |s.stack| && NoDup(s.stack[pos..])
      modifies `s
      ensures s == Reported(old(s), pos)
    {
      var ms := s.stack[pos..];
      ReportedIs(s, pos);
      hide *;
      s := s.(stack := s.stack[..pos]);
      if |ms| > 1 {
        var c := |s.members|;
        ghost var base := s;
        PartOfNone(base, ms);
        s := s.(members := s.members + [{}]);
        for i := 0 to |ms|
          invariant s == PartReported(base, ms, i)
        {
          PartOfNext(base, ms, i);
          AddFunction(c, ms[i]);
        }
      }
    }

    /** `_tarjan(function, order, stack, orders, lowlinks, visited)` */
    method Visit(f: Id, start: nat, ghost grey: set<Id>) returns (order: nat)
      requires Validated(g) && f in g.calls && f !in s.orders
      requires Search(g, grey, s, start) && Sound(g, s)
      requires forall i :: 0 <= i < |s.stack| ==> Reach(g, s.stack[i], f)
      modifies `s
      decreases g.calls.Keys - s.orders.Keys, 1
      ensures Search(g, grey, s, order) && Sound(g, s) && Grows(old(s), s)
      ensures Finished(g, old(s), s, f, start)
    {
      hide *;
      ghost var entry, grey' := s, grey + {f};
      Enter(g, grey, s, start, f);
      order := start + 1;
      var pos := |s.stack|;
      s := Entered(s, f, start);
      var callees := g.calls[f];
      CalleeSteps(g, f);
      for i := 0 to |callees|
        invariant Scanning(g, grey', entry, f, start, Elems(callees[..i]), s, order)
        invariant entry.orders.Keys + {f} <= s.orders.Keys
      {
        order := Scan(f, callees[i], start, order, grey', Elems(callees[..i]), entry);
      }
      Leave(f, start, order, grey', pos, entry);
    }

    /** One turn of the loop over `function.calls`. */
    method Scan(f: Id, callee: Id, ghost start: nat, order0: nat, ghost grey: set<Id>, ghost seen: set<Id>,
                ghost entry: State)
      returns (order: nat)
      requires Validated(g) && Edge(g, f, callee) && Scanning(g, grey, entry, f, start, seen, s, order0)
      modifies `s
      decreases g.calls.Keys - s.orders.Keys, 2
      ensures Scanning(g, grey, entry, f, start, seen + {callee}, s, order)
      ensures old(s.orders.Keys) <= s.orders.Keys
    {
      hide *;
      ScanningFacts(g, grey, entry, f, start, seen, s, order0, callee);
      order := order0;
      if callee !in s.orders {
        Descend(g, grey, s, order, |entry.stack|, f, s.lowlinks[f], seen, callee);
        order := Visit(callee, order, grey);
        ScannedNew(g, grey, entry, f, start, seen, old(s), order0, callee, s, order);
        s := s.(lowlinks := s.lowlinks[f := Min(s.lowlinks[f], s.lowlinks[callee])]);
      } else {
        ScannedOld(g, grey, entry, f, start, seen, s, order, callee);
        if callee in s.stack {
          s := s.(lowlinks := s.lowlinks[f := Min(s.lowlinks[f], s.orders[callee])]);
        }
      }
    }

    /** The end of `_tarjan`: take the component off the stack if `f` is its root. */
    method Leave(f: Id, ghost start: nat, ghost order: nat, ghost grey: set<Id>, pos: nat, ghost entry: State)
      requires Validated(g) && f in g.calls && pos == |entry.stack|
      requires Scanning(g, grey, entry, f, start, Elems(g.calls[f]), s, order)
      modifies `s
      ensures Search(g, grey - {f}, s, order) && Sound(g, s) && Grows(entry, s)
      ensures Finished(g, entry, s, f, start)
    {
      hide *;
      LeavingFacts(g, grey, entry, f, start, s, order);
      if s.lowlinks[f] == s.orders[f] {
        Removed(g, grey, entry, f, start, s, order);
        Report(pos);
      } else {
        Kept(g, grey, entry, f, start, s, order);
      }
    }

    /** `find_cycles`.  Afterwards two distinct functions share a cycle exactly
        when each reaches the other, a function has no cycle exactly when it is
        alone in its component, and `cycles` lists every cycle in use once. */
    method FindCycles()
      requires Validated(g) && s == State({}, [], map[], map[], [], map[])
      modifies this
      ensures Cycles(g, s.members, s.cycleOf)
      ensures forall x :: x in g.calls ==> (x in s.cycleOf <==> Scc(g, x) != {x})
      ensures forall x, y :: x in g.calls && y in g.calls && x != y ==>
                (x in s.cycleOf && y in s.cycleOf && s.cycleOf[x] == s.cycleOf[y] <==> Reach(g, x, y) && Reach(g, y, x))
      ensures NoDup(cycles) && forall c :: c in cycles <==> exists x :: x in s.cycleOf && s.cycleOf[x] == c
      ensures s.cycleOf.Keys <= g.calls.Keys
    {
      assert Cycles(g, s.members, s.cycleOf) && AllSettled(g, s);
      OrderInside(g);
      hide *;
      for i := 0 to |g.order|
        invariant Cycles(g, s.members, s.cycleOf) && AllSettled(g, s)
        invariant forall k :: 0 <= k < i ==> g.order[k] in s.visited
      {
        if g.order[i] !in s.visited {
          SearchFrom(g.order[i]);
        }
      }
      AllMeaning(g, s);
      CollectCycles();
    }

    /** The body of the first loop of `find_cycles`, for a function not visited yet. */
    method SearchFrom(f: Id)
      requires Validated(g) && f in g.calls
      requires Cycles(g, s.members, s.cycleOf) && AllSettled(g, s)
      modifies `s
      ensures Cycles(g, s.members, s.cycleOf) && AllSettled(g, s)
      ensures old(s.visited) + {f} <= s.visited
    {
      s := s.(stack := [], orders := map[], lowlinks := map[]);
      FreshSearch(g, s);
      hide *;
      ghost var before := s;
      var order := Visit(f, 0, {});
      SearchDone(g, before, s, order, f);
    }

    /** The second loop of `find_cycles`. */
    method CollectCycles()
      requires WellFormed(g) && s.cycleOf.Keys <= g.calls.Keys
      modifies `cycles
      ensures NoDup(cycles)
      ensures forall c :: c in cycles <==> exists x :: x in s.cycleOf && s.cycleOf[x] == c
    {
      cycles := [];
      for i := 0 to |g.order|
        invariant NoDup(cycles)
        invariant forall c :: c in cycles <==>
                  exists k :: 0 <= k < i && g.order[k] in s.cycleOf && s.cycleOf[g.order[k]] == c
      {
        var f := g.order[i];
        if f in s.cycleOf && s.cycleOf[f] !in cycles {
          cycles := cycles + [s.cycleOf[f]];
        }
      }
      forall x | x in s.cycleOf ensures s.cycleOf[x] in cycles {
        assert x in g.order;
        var k :| 0 <= k < |g.order| && g.order[k] == x;
      }
    }
  }
}
