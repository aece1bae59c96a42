/**
  The call graph of a profile and reachability along its call edges.

  A profile keeps its functions in a dictionary and every function keeps its
  calls in a dictionary keyed by callee id.  Only the iteration order of these
  dictionaries matters to the algorithms, so the model keeps the keys as
  sequences.
 */
module CallGraph {

  type Id = nat

  /** `order` is the iteration order of `Profile.functions`; `calls[f]` is the
      iteration order of the keys of `Function.calls` of function `f`. */
  datatype Graph = Graph(order: seq<Id>, calls: map<Id, seq<Id>>)

  ghost predicate NoDup<T>(s: seq<T>) {
    forall i, j :: 0 <= i < j < |s| ==> s[i] != s[j]
  }

  /** Dictionary keys are distinct, and `order` lists exactly the functions. */
  ghost predicate WellFormed(g: Graph) {
    && NoDup(g.order)
    && (forall f :: f in g.order <==> f in g.calls)
    && (forall f :: f in g.calls ==> NoDup(g.calls[f]))
  }

  /** What `Profile.validate` establishes: no call leaves the profile. */
  ghost predicate Validated(g: Graph) {
    && WellFormed(g)
    && forall f, c :: f in g.calls && c in g.calls[f] ==> c in g.calls
  }

  ghost predicate Edge(g: Graph, x: Id, y: Id) {
    x in g.calls && y in g.calls[x]
  }

  // ----- Reachability ---------------------------------------------------------

  ghost predicate IsPath(g: Graph, p: seq<Id>) {
    && 0 < |p|
    && forall i :: 0 <= i < |p| - 1 ==> Edge(g, p[i], p[i + 1])
  }

  ghost predicate PathFromTo(g: Graph, p: seq<Id>, x: Id, y: Id) {
    IsPath(g, p) && p[0] == x && p[|p| - 1] == y
  }

  /** `y` can be reached from `x` along zero or more call edges. */
  ghost predicate Reach(g: Graph, x: Id, y: Id) {
    exists p :: PathFromTo(g, p, x, y)
  }

  lemma ReachRefl(g: Graph, x: Id)
    ensures Reach(g, x, x)
  {
    assert PathFromTo(g, [x], x, x);
  }

  lemma ReachEdge(g: Graph, x: Id, y: Id)
    requires Edge(g, x, y)
    ensures Reach(g, x, y)
  {
    assert PathFromTo(g, [x, y], x, y);
  }

  lemma ReachTrans(g: Graph, x: Id, y: Id, z: Id)
    requires Reach(g, x, y) && Reach(g, y, z)
    ensures Reach(g, x, z)
  {
    var p :| PathFromTo(g, p, x, y);
    var q :| PathFromTo(g, q, y, z);
    var r := p + q[1..];
    forall i | 0 <= i < |r| - 1
      ensures Edge(g, r[i], r[i + 1])
    {
      if i == |p| - 1 {
        assert r[i] == q[0] && r[i + 1] == q[1];
      } else if i >= |p| {
        assert r[i] == q[i - |p| + 1] && r[i + 1] == q[i - |p| + 2];
      }
    }
    assert PathFromTo(g, r, x, z);
  }

  /** A path that leaves a set does so over an edge. */
  lemma ExitEdge(g: Graph, s: set<Id>, x: Id, y: Id) returns (u: Id, w: Id)
    requires Reach(g, x, y) && x in s && y !in s
    ensures u in s && w !in s && Edge(g, u, w)
    ensures Reach(g, x, u) && Reach(g, w, y)
  {
    var p :| PathFromTo(g, p, x, y);
    var i := 0;
    while p[i + 1] in s
      invariant 0 <= i < |p| - 1 && p[i] in s
      decreases |p| - i
    {
      i := i + 1;
    }
    u, w := p[i], p[i + 1];
    assert Edge(g, p[i], p[i + 1]);
    assert PathFromTo(g, p[..i + 1], x, u);
    assert PathFromTo(g, p[i + 1..], w, y);
  }

  /** Reachability stays inside a validated profile. */
  lemma ReachInside(g: Graph, x: Id, y: Id)
    requires Validated(g) && Reach(g, x, y) && x in g.calls
    ensures y in g.calls
  {
    if y !in g.calls {
      var u, w := ExitEdge(g, g.calls.Keys, x, y);
    }
  }

  // ----- Strongly connected components ---------------------------------------

  ghost predicate Mutual(g: Graph, x: Id, y: Id) {
    Reach(g, x, y) && Reach(g, y, x)
  }

  ghost function Scc(g: Graph, x: Id): set<Id> {
    set y | y in g.calls && Mutual(g, x, y)
  }

  lemma MutualTrans(g: Graph, x: Id, y: Id, z: Id)
    requires Mutual(g, x, y) && Mutual(g, y, z)
    ensures Mutual(g, x, z)
  {
    ReachTrans(g, x, y, z);
    ReachTrans(g, z, y, x);
  }

  lemma SccSame(g: Graph, x: Id, y: Id)
    requires y in Scc(g, x)
    ensures Scc(g, x) == Scc(g, y)
  {
    forall z ensures Mutual(g, x, z) <==> Mutual(g, y, z) {
      if Mutual(g, x, z) { MutualTrans(g, y, x, z); }
      if Mutual(g, y, z) { MutualTrans(g, x, y, z); }
    }
  }

  // ----- Profile.validate -----------------------------------------------------

  /** The calls of one function that stay inside the profile, in order. */
  function Defined(calls: seq<Id>, known: set<Id>): (r: seq<Id>)
    ensures forall c :: c in r <==> c in calls && c in known
    ensures NoDup(calls) ==> NoDup(r)
  {
    if calls == [] then []
    else if calls[0] in known then [calls[0]] + Defined(calls[1..], known)
    else Defined(calls[1..], known)
  }

  /** `Profile.validate`: drop every call to a function the profile lacks; every
      other call, and every function, stays. */
  method Validate(g: Graph) returns (v: Graph)
    requires WellFormed(g)
    ensures Validated(v)
    ensures v.order == g.order
    ensures forall x, y :: Edge(v, x, y) <==> Edge(g, x, y) && y in g.calls
  {
    var calls := g.calls;
    for i := 0 to |g.order|
      invariant calls.Keys == g.calls.Keys
      invariant forall k :: 0 <= k < i ==> calls[g.order[k]] == Defined(g.calls[g.order[k]], g.calls.Keys)
      invariant forall k :: i <= k < |g.order| ==> calls[g.order[k]] == g.calls[g.order[k]]
    {
      var f := g.order[i];
      calls := calls[f := Defined(calls[f], g.calls.Keys)];
    }
    v := Graph(g.order, calls);
    forall f | f in g.calls ensures calls[f] == Defined(g.calls[f], g.calls.Keys) {
      assert f in g.order;
      var k :| 0 <= k < |g.order| && g.order[k] == f;
    }
  }
}
