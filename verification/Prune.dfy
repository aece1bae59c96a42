/**
  `prune_root` and `prune_leaf`: cutting a profile down to the functions that lie
  on a call path from a root to a leaf.
 */
module Prune {
  import opened CallGraph

  /** The functions that `root` reaches, all of them, and from a validated profile. */
  method Below(g: Graph, root: Id) returns (visited: set<Id>)
    requires Validated(g) && root in g.calls
    ensures forall x :: x in visited <==> Reach(g, root, x)
    ensures visited <= g.calls.Keys
  {
    hide Reach;
    visited := {};
    var frontier := {root};
    ReachRefl(g, root);
    while frontier != {}
      invariant root in visited + frontier && visited + frontier <= g.calls.Keys && visited !! frontier
      invariant forall x :: x in visited + frontier ==> Reach(g, root, x)
      invariant forall x, y :: x in visited && y in g.calls[x] ==> y in visited + frontier
      decreases g.calls.Keys - visited
    {
      var node :| node in frontier;
      forall y | y in g.calls[node] ensures Reach(g, root, y) {
        ReachEdge(g, node, y);
        ReachTrans(g, root, node, y);
      }
      frontier := frontier - {node};
      visited := visited + {node};
      frontier := frontier + ((set c | c in g.calls[node]) - visited);
    }
    forall x | Reach(g, root, x) ensures x in visited {
      if x !in visited { var u, w := ExitEdge(g, visited, root, x); }
    }
  }

  /** The dictionary comprehension of the functions kept, in the order of the set. */
  method Listed(s: set<Id>) returns (order: seq<Id>)
    ensures NoDup(order) && forall x :: x in order <==> x in s
  {
    order := [];
    var todo := s;
    while todo != {}
      invariant NoDup(order) && todo <= s && forall x :: x in order <==> x in s - todo
    {
      var x :| x in todo;
      assert x !in order;
      todo := todo - {x};
      order := order + [x];
    }
  }

  /** `prune_root` keeps exactly the functions the root reaches, with all their calls. */
  method PruneRoot(g: Graph, root: Id) returns (v: Graph)
    requires Validated(g) && root in g.calls
    ensures Validated(v)
    ensures forall x :: x in v.calls <==> Reach(g, root, x)
    ensures forall x :: x in v.calls ==> x in g.calls && v.calls[x] == g.calls[x]
  {
    hide Reach;
    var visited := Below(g, root);
    var order := Listed(visited);
    v := Graph(order, map x | x in visited :: g.calls[x]);
    forall f, c | f in v.calls && c in v.calls[f] ensures c in v.calls {
      ReachEdge(g, f, c);
      ReachTrans(g, root, f, c);
    }
  }

  ghost predicate CallersIn(g: Graph, fs: set<Id>, up: map<Id, set<Id>>) {
    && (forall n, f :: n in up && f in up[n] ==> f in fs && Edge(g, f, n))
    && (forall f, n :: f in fs && Edge(g, f, n) ==> n in up && f in up[n])
  }

  /** `edgesUp`: the callers of every function. */
  method EdgesUp(g: Graph) returns (up: map<Id, set<Id>>)
    requires WellFormed(g)
    ensures CallersIn(g, g.calls.Keys, up)
  {
    up := map[];
    var todo := g.calls.Keys;
    while todo != {}
      invariant todo <= g.calls.Keys && CallersIn(g, g.calls.Keys - todo, up)
    {
      var f :| f in todo;
      ghost var done := g.calls.Keys - todo;
      var calls := g.calls[f];
      for k := 0 to |calls|
        invariant forall n, h :: n in up && h in up[n] ==> (h in done && Edge(g, h, n)) || (h == f && n in calls[..k])
        invariant forall h, n :: h in done && Edge(g, h, n) ==> n in up && h in up[n]
        invariant forall n :: n in calls[..k] ==> n in up && f in up[n]
      {
        var n := calls[k];
        assert calls[..k + 1] == calls[..k] + [n];
        up := up[n := (if n in up then up[n] else {}) + {f}];
      }
      assert calls[..|calls|] == calls;
      todo := todo - {f};
      assert g.calls.Keys - todo == done + {f};
    }
    assert g.calls.Keys - todo == g.calls.Keys;
  }

  /** The functions that reach `leaf`. */
  method Above(g: Graph, leaf: Id) returns (visited: set<Id>)
    requires Validated(g)
    ensures forall x :: x in visited <==> Reach(g, x, leaf)
  {
    hide Reach;
    var up := EdgesUp(g);
    visited := {};
    var frontier := {leaf};
    ReachRefl(g, leaf);
    while frontier != {}
      invariant leaf in visited + frontier && visited + frontier <= g.calls.Keys + {leaf} && visited !! frontier
      invariant forall x :: x in visited + frontier ==> Reach(g, x, leaf)
      invariant forall x, y :: y in visited && Edge(g, x, y) ==> x in visited + frontier
      decreases g.calls.Keys + {leaf} - visited
    {
      var node :| node in frontier;
      var callers := if node in up then up[node] else {};
      forall x | x in callers ensures Reach(g, x, leaf) {
        ReachEdge(g, x, node);
        ReachTrans(g, x, node, leaf);
      }
      frontier := frontier - {node};
      visited := visited + {node};
      frontier := frontier + (callers - visited);
    }
    forall x | Reach(g, x, leaf) ensures x in visited {
      if x !in visited { var u, w := ExitEdge(g, g.calls.Keys + {x} - visited, x, leaf); }
    }
  }

  /** What `prune_leaf` makes of a profile: the functions that reach the leaf, with the
      calls among them. */
  ghost predicate UpTo(g: Graph, leaf: Id, v: Graph) {
    && Validated(v)
    && (forall x :: x in v.calls <==> x in g.calls && Reach(g, x, leaf))
    && (forall x, y :: Edge(v, x, y) <==> Edge(g, x, y) && Reach(g, y, leaf))
  }

  method PruneLeaf(g: Graph, leaf: Id) returns (v: Graph)
    requires Validated(g)
    ensures UpTo(g, leaf, v)
  {
    hide Reach;
    var upTree := Above(g, leaf);
    var path := g.calls.Keys * upTree;
    var order := Listed(path);
    v := Graph(order, map x | x in path :: Defined(g.calls[x], path));
    forall x, y | Edge(g, x, y) && Reach(g, y, leaf) ensures Reach(g, x, leaf) {
      ReachEdge(g, x, y);
      ReachTrans(g, x, y, leaf);
    }
  }

  // ----- Both together ---------------------------------------------------------------------

  /** A path of functions that all stay is a path of the pruned profile. */
  lemma PathStays(g: Graph, v: Graph, p: seq<Id>)
    requires IsPath(g, p) && forall i :: 0 <= i < |p| - 1 ==> (Edge(g, p[i], p[i + 1]) ==> Edge(v, p[i], p[i + 1]))
    ensures IsPath(v, p)
  {
  }

  /** Reaching stays reaching when every step towards the target is kept. */
  lemma ReachStays(g: Graph, v: Graph, x: Id, y: Id, leaf: Id)
    requires Reach(g, x, y) && Reach(g, y, leaf)
    requires forall u, w :: Edge(g, u, w) && Reach(g, x, u) && Reach(g, w, leaf) ==> Edge(v, u, w)
    ensures Reach(v, x, y)
  {
    var p :| PathFromTo(g, p, x, y);
    forall i | 0 <= i < |p| - 1 ensures Edge(v, p[i], p[i + 1]) {
      assert PathFromTo(g, p[..i + 1], x, p[i]);
      assert PathFromTo(g, p[i + 1..], p[i + 1], y);
      ReachTrans(g, p[i + 1], y, leaf);
    }
    PathStays(g, v, p);
    assert PathFromTo(v, p, x, y);
  }

  /** Pruning to a root and then to a leaf keeps exactly the functions on a call path from
      the root to the leaf, and each of them is still on such a path in what is left. */
  lemma OnlyPathsLeft(g: Graph, root: Id, leaf: Id, a: Graph, b: Graph)
    requires Validated(g) && root in g.calls && Validated(a) && UpTo(a, leaf, b)
    requires forall x :: x in a.calls <==> Reach(g, root, x)
    requires forall x :: x in a.calls ==> x in g.calls && a.calls[x] == g.calls[x]
    ensures forall x :: x in b.calls <==> Reach(g, root, x) && Reach(g, x, leaf)
    ensures forall x :: x in b.calls ==> Reach(b, root, x) && Reach(b, x, leaf)
  {
    hide Reach;
    forall x ensures x in a.calls ==> (Reach(a, x, leaf) <==> Reach(g, x, leaf)) {
      if x in a.calls { SameAbove(g, root, a, x, leaf); }
    }
    forall x | x in b.calls ensures Reach(b, root, x) && Reach(b, x, leaf) {
      ReachRefl(g, root);
      SameAbove(g, root, a, root, x);
      BothEnds(a, b, root, x, leaf);
    }
  }

  lemma BothEnds(a: Graph, b: Graph, root: Id, x: Id, leaf: Id)
    requires UpTo(a, leaf, b) && Reach(a, root, x) && Reach(a, x, leaf)
    ensures Reach(b, root, x) && Reach(b, x, leaf)
  {
    ReachRefl(a, leaf);
    ReachStays(a, b, root, x, leaf);
    ReachStays(a, b, x, leaf, leaf);
  }

  /** Below the root, the pruned profile has the same paths. */
  lemma SameAbove(g: Graph, root: Id, a: Graph, x: Id, y: Id)
    requires x in a.calls
    requires forall z :: z in a.calls <==> Reach(g, root, z)
    requires forall z :: z in a.calls ==> z in g.calls && a.calls[z] == g.calls[z]
    ensures Reach(a, x, y) <==> Reach(g, x, y)
  {
    ReachRefl(g, y);
    ReachRefl(a, y);
    if Reach(g, x, y) {
      forall u, w | Edge(g, u, w) && Reach(g, x, u) ensures Edge(a, u, w) {
        ReachTrans(g, root, x, u);
      }
      ReachStays(g, a, x, y, y);
    }
    if Reach(a, x, y) {
      ReachStays(a, g, x, y, y);
    }
  }
}
