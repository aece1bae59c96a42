/**
  The connections of connectors, by the names they lead from and to: what a configuration
  entry asks for, and what a reload leaves alone.
 */
module Wiring {
  import opened Handlers
  import opened Reload
  import opened Rebuild
  import opened ReloadSteps

  /** The same connections in the same order; addresses may differ. */
  ghost predicate SameWires(cs: seq<Connection>, ds: seq<Connection>) {
    |cs| == |ds| && forall k :: 0 <= k < |cs| ==> cs[k].sender == ds[k].sender && cs[k].peer == ds[k].peer
  }

  /** The pairs of which both handlers are live. */
  function PairsOf(live: set<Name>, links: seq<(Name, Name)>): seq<(Name, Name)> {
    if links == [] then []
    else (if links[0].0 in live && links[0].1 in live then [links[0]] else []) + PairsOf(live, links[1..])
  }

  /** For each pair of live handlers, in order, the connection from the first to the second and
      the one back; and no other. */
  ghost predicate Wired(cs: seq<Connection>, live: set<Name>, links: seq<(Name, Name)>) {
    var ps := PairsOf(live, links);
    && |cs| == 2 * |ps|
    && forall k :: 0 <= k < |ps| ==>
         && cs[2 * k].sender == ps[k].0 && cs[2 * k].peer == ps[k].1
         && cs[2 * k + 1].sender == ps[k].1 && cs[2 * k + 1].peer == ps[k].0
  }

  lemma {:induction false} PairsSnoc(live: set<Name>, links: seq<(Name, Name)>, l: (Name, Name))
    ensures PairsOf(live, links + [l]) == PairsOf(live, links) + if l.0 in live && l.1 in live then [l] else []
  {
    if links == [] {
      assert [l][1..] == [];
    } else {
      assert (links + [l])[1..] == links[1..] + [l];
      PairsSnoc(live, links[1..], l);
    }
  }

  /** What `ProcessElements` inserts is what the entry asks for. */
  lemma {:induction false} LinksWired(registry: map<Name, Addr>, links: seq<(Name, Name)>)
    ensures Wired(LinksOf(registry, links), registry.Keys, links)
  {
    hide Wired;
    if links == [] {
      NothingWired(registry.Keys);
    } else {
      var n := |links| - 1;
      LinksWired(registry, links[..n]);
      assert links == links[..n] + [links[n]];
      WiredMore(registry, LinksOf(registry, links[..n]), links[..n], links[n]);
    }
  }

  lemma NothingWired(live: set<Name>)
    ensures Wired([], live, [])
  {
  }

  lemma WiredMore(registry: map<Name, Addr>, cs: seq<Connection>, links: seq<(Name, Name)>, l: (Name, Name))
    requires Wired(cs, registry.Keys, links)
    ensures Wired(cs + LinkOf(registry, l), registry.Keys, links + [l])
  {
    PairsSnoc(registry.Keys, links, l);
    var ps, more, ds := PairsOf(registry.Keys, links), PairsOf(registry.Keys, links + [l]), cs + LinkOf(registry, l);
    hide PairsOf;
    if l.0 in registry && l.1 in registry {
      forall k | 0 <= k < |more|
        ensures ds[2 * k].sender == more[k].0 && ds[2 * k].peer == more[k].1
        ensures ds[2 * k + 1].sender == more[k].1 && ds[2 * k + 1].peer == more[k].0
      {
        if k < |ps| {
          assert more[k] == ps[k] && ds[2 * k] == cs[2 * k] && ds[2 * k + 1] == cs[2 * k + 1];
        }
      }
    } else {
      assert ds == cs && more == ps;
    }
  }

  lemma WiredSame(cs: seq<Connection>, ds: seq<Connection>, live: set<Name>, links: seq<(Name, Name)>)
    requires Wired(cs, live, links) && SameWires(cs, ds)
    ensures Wired(ds, live, links)
  {
    hide PairsOf;
  }

  lemma SameWiresTrans(cs: seq<Connection>, ds: seq<Connection>, es: seq<Connection>)
    requires SameWires(cs, ds) && SameWires(ds, es)
    ensures SameWires(cs, es)
  {
  }

  lemma SameWiresRefl(cs: seq<Connection>)
    ensures SameWires(cs, cs)
  {
  }

  /** The connectors of both states that live at the same address have the same connections. */
  ghost predicate WiresKept(a: State, b: State) {
    forall x :: x in a.conns ==> x in b.conns && SameWires(a.conns[x], b.conns[x])
  }

  lemma WiresSame(a: State, b: State)
    requires b.conns == a.conns
    ensures WiresKept(a, b)
  {
  }

  lemma ReaddressedWires(a: State, b: State, ch: set<Name>, needs: NeedsNewAddr)
    requires Readdressed(a, b, ch, needs)
    ensures WiresKept(a, b)
  {
    ReaddressedUnfold(a, b, ch, needs);
    forall x | x in a.conns ensures x in b.conns && SameWires(a.conns[x], b.conns[x]) {
      ReaddressedAt(a, b, ch, needs, x);
    }
  }

  /** Connector `n` has the connections of the first valid entry of its name, between the live ports. */
  ghost predicate WiredFrom(s: State, n: Name, es: seq<Entry>) {
    n in s.connectors && s.connectors[n] in s.conns &&
    exists k :: FirstValid(es, n, k) && Wired(s.conns[s.connectors[n]], s.ports.Keys, es[k].links)
  }

  /** New connectors, when the addresses of changed ports have been replaced. */
  lemma MadeWired(a: State, b: State, made: map<Name, Addr>, es: seq<Entry>, n: Name)
    requires MadeFrom(a, made, es) && n in made && n in a.connectors && a.connectors[n] == made[n]
    requires WiresKept(a, b) && b.connectors == a.connectors && b.ports == a.ports
    ensures WiredFrom(b, n, es)
  {
    hide LinksOf, Wired, SameWires;
    assert HasLinksOf(es, n, a.ports, a.conns[made[n]]);
    var k :| FirstValid(es, n, k) && a.conns[made[n]] == LinksOf(a.ports, es[k].links);
    LinksWired(a.ports, es[k].links);
    WiredSame(a.conns[made[n]], b.conns[made[n]], a.ports.Keys, es[k].links);
  }
}
