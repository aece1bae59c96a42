/**
  What the loops of a reload keep, as functions and lemmas on the live objects.
 */
module ReloadSteps {
  import opened Handlers
  import opened Reload
  import opened Rebuild

  function PeersOf(cs: seq<Connection>): (r: set<Addr>)
    ensures forall x :: x in r <==> exists k :: 0 <= k < |cs| && cs[k].addr == x
  {
    set k | 0 <= k < |cs| :: cs[k].addr
  }

  // ----- Disabling --------------------------------------------------------------------------------

  /** Every handler at an address of `off` is disabled. */
  function SwitchedOff(s: State, off: set<Addr>): State {
    s.(enabled := map x | x in s.enabled :: s.enabled[x] && x !in off)
  }

  /** The names of the handlers in `off` outside `d` that were enabled. */
  function WereOn(s: State, d: set<Name>, off: set<Addr>): set<Name> {
    set x | x in off && x in s.names && s.names[x] !in d && x in s.enabled && s.enabled[x] :: s.names[x]
  }

  lemma SwitchMore(s: State, d: set<Name>, off: set<Addr>, x: Addr)
    requires x in s.enabled && x in s.names
    ensures var t := SwitchedOff(s, off);
            && x in t.enabled && t.(enabled := t.enabled[x := false]) == SwitchedOff(s, off + {x})
            && (t.enabled[x] && s.names[x] !in d ==> WereOn(s, d, off + {x}) == WereOn(s, d, off) + {s.names[x]})
            && (!t.enabled[x] || s.names[x] in d ==> WereOn(s, d, off + {x}) == WereOn(s, d, off))
  {
    var t := SwitchedOff(s, off);
    assert t.enabled[x := false] == SwitchedOff(s, off + {x}).enabled;
    var more, before := WereOn(s, d, off + {x}), WereOn(s, d, off);
    if t.enabled[x] && s.names[x] !in d {
      assert x in off + {x};
      assert s.names[x] in more;
      assert more == before + {s.names[x]};
    } else {
      assert more <= before;
    }
  }

  lemma SwitchNone(s: State, d: set<Name>)
    ensures SwitchedOff(s, {}) == s && WereOn(s, d, {}) == {}
  {
    assert SwitchedOff(s, {}).enabled == s.enabled;
  }

  /** The peers of a connector that are not themselves going away. */
  ghost function StayingPeers(s: State, d: set<Name>, cs: seq<Connection>): set<Addr> {
    set x | x in PeersOf(cs) && x in s.names && s.names[x] !in d
  }

  lemma StayingPeersSnoc(s: State, d: set<Name>, cs: seq<Connection>, k: nat)
    requires k < |cs| && cs[k].addr in s.names
    ensures StayingPeers(s, d, cs[..k + 1]) ==
            StayingPeers(s, d, cs[..k]) + if s.names[cs[k].addr] in d then {} else {cs[k].addr}
  {
    PeersSnoc(cs, k);
  }

  lemma PeersSnoc(cs: seq<Connection>, k: nat)
    requires k < |cs|
    ensures PeersOf(cs[..k + 1]) == PeersOf(cs[..k]) + {cs[k].addr}
  {
    var a, b := cs[..k + 1], cs[..k];
    forall x | x in PeersOf(b) + {cs[k].addr} ensures x in PeersOf(a) {
      if x == cs[k].addr { assert a[k].addr == x; } else {
        var i :| 0 <= i < |b| && b[i].addr == x;
        assert a[i].addr == x;
      }
    }
    forall x | x in PeersOf(a) ensures x in PeersOf(b) + {cs[k].addr} {
      var i :| 0 <= i < |a| && a[i].addr == x;
      if i < k { assert b[i].addr == x; }
    }
  }

  ghost predicate PeerOfSome(s: State, d: set<Name>, done: set<Name>, x: Addr) {
    exists n ::
      n in done && n in s.registry && s.registry[n] in s.conns && x in StayingPeers(s, d, s.conns[s.registry[n]])
  }

  /** `off` holds the handlers of `done` and the staying peers of its connectors. */
  ghost predicate OffFor(s: State, d: set<Name>, done: set<Name>, off: set<Addr>) {
    && (forall n :: n in done && n in s.registry ==> s.registry[n] in off)
    && (forall n ::
        n in done && n in s.registry && s.registry[n] in s.conns ==> StayingPeers(s, d, s.conns[s.registry[n]]) <= off)
    && (forall x :: x in off ==> x in s.names)
    && (forall x :: x in off ==> s.names[x] in done || PeerOfSome(s, d, done, x))
  }

  lemma OffMore(s: State, d: set<Name>, done: set<Name>, off: set<Addr>, n: Name)
    requires OffFor(s, d, done, off) && n in s.registry && s.registry[n] in s.names && s.names[s.registry[n]] == n
    ensures var x := s.registry[n];
            OffFor(s, d, done + {n}, off + {x} + if x in s.conns then StayingPeers(s, d, s.conns[x]) else {})
  {
    hide PeersOf;
  }

  /** Port `n` stays, and a connector of `d` is connected to it. */
  ghost predicate Affected(s: State, d: set<Name>, n: Name) {
    n in s.ports && n !in d &&
    exists m :: m in d && m in s.connectors && s.connectors[m] in s.conns && ConnectedTo(s.conns[s.connectors[m]], n)
  }

  /** The peers of a connector are the ports it is connected to. */
  lemma PeersAreConnected(s: State, m: Name, p: Name)
    requires Inv(s) && m in s.connectors && p in s.ports
    ensures s.connectors[m] in s.conns
    ensures (s.ports[p] in PeersOf(s.conns[s.connectors[m]]) <==> ConnectedTo(s.conns[s.connectors[m]], p))
  {
    hide Inv, Tables, Filed, Addressed;
    ConnectorFacts(s, m);
    PortFacts(s, p);
    var cs := s.conns[s.connectors[m]];
    forall k | 0 <= k < |cs| && cs[k].addr == s.ports[p] ensures cs[k].peer == p {
      PortFacts(s, cs[k].peer);
    }
  }

  lemma PeersArePorts(s: State, m: Name, x: Addr)
    requires Inv(s) && m in s.connectors && s.connectors[m] in s.conns && x in PeersOf(s.conns[s.connectors[m]])
    ensures x in s.names && s.names[x] in s.ports && s.ports[s.names[x]] == x
  {
    hide Inv, Tables, Filed, Addressed;
    ConnectorFacts(s, m);
    var k :| 0 <= k < |s.conns[s.connectors[m]]| && s.conns[s.connectors[m]][k].addr == x;
    PortFacts(s, s.conns[s.connectors[m]][k].peer);
  }

  lemma ConnectorOf(s: State, n: Name)
    requires Inv(s) && n in s.registry
    ensures s.registry[n] in s.conns <==> n in s.connectors
    ensures n in s.connectors ==> s.registry[n] == s.connectors[n]
    ensures s.registry[n] in s.names && s.names[s.registry[n]] == n && s.registry[n] in s.enabled
    ensures s.registry[n] in s.subs
  {
    hide Inv, Tables, Filed, Addressed;
    InvTables(s);
    RegisteredAt(s, n);
    PortOrConnector(s, n);
  }

  lemma OffAffected(s: State, d: set<Name>, off: set<Addr>, p: Name)
    requires Inv(s) && d <= s.registry.Keys && OffFor(s, d, d, off) && p in s.registry && p !in d
    ensures s.registry[p] in off <==> Affected(s, d, p)
  {
    hide Inv, Tables, Filed, Addressed, PeersOf, ConnectedTo;
    var x := s.registry[p];
    ConnectorOf(s, p);
    InvTables(s);
    PortOrConnector(s, p);
    if x in off {
      var m :| m in d && m in s.registry && s.registry[m] in s.conns && x in StayingPeers(s, d, s.conns[s.registry[m]]);
      ConnectorOf(s, m);
      PeersArePorts(s, m, x);
      PeersAreConnected(s, m, p);
    }
    if Affected(s, d, p) {
      var m :| m in d && m in s.connectors && s.connectors[m] in s.conns && ConnectedTo(s.conns[s.connectors[m]], p);
      ConnectorOf(s, m);
      PeersAreConnected(s, m, p);
    }
  }

  lemma SwitchedAt(s: State, off: set<Addr>, x: Addr)
    requires x in s.enabled
    ensures x in SwitchedOff(s, off).enabled && SwitchedOff(s, off).enabled[x] == (s.enabled[x] && x !in off)
  {
  }

  lemma WereOnAt(s: State, d: set<Name>, off: set<Addr>, n: Name)
    requires Inv(s)
    ensures n in WereOn(s, d, off) <==>
            n in s.registry && n !in d && s.registry[n] in s.enabled && s.enabled[s.registry[n]] && s.registry[n] in off
  {
    hide Inv, Tables, Filed, Addressed;
    InvTables(s);
    if n in WereOn(s, d, off) {
      var x :| x in off && x in s.names && s.names[x] == n && x in s.enabled && s.enabled[x];
      NamedAt(s, x);
    }
    if n in s.registry { RegisteredAt(s, n); }
  }

  lemma SwitchedShape(s: State, off: set<Addr>)
    ensures var t := SwitchedOff(s, off); t == s.(enabled := t.enabled) && t.enabled.Keys == s.enabled.Keys
  {
  }

  lemma OffDone(s: State, d: set<Name>, done: set<Name>, off: set<Addr>, n: Name)
    requires OffFor(s, d, done, off) && n in done && n in s.registry
    ensures s.registry[n] in off
  {
  }

  lemma DisabledFold(a: State, b: State, d: set<Name>, re: set<Name>)
    requires b == a.(enabled := b.enabled) && b.enabled.Keys == a.enabled.Keys
    requires forall n :: n in re ==>
             n in a.registry && n !in d && a.registry[n] in a.enabled && a.enabled[a.registry[n]]
    requires forall x :: x in a.names && x in a.enabled && a.names[x] !in d ==>
             b.enabled[x] == (a.enabled[x] && a.names[x] !in re)
    ensures Disabled(a, b, d, re)
  {
  }

  lemma DisabledIs(s: State, d: set<Name>, off: set<Addr>)
    requires Inv(s)
    ensures Disabled(s, SwitchedOff(s, off), d, WereOn(s, d, off))
  {
    hide *;
    InvTables(s);
    SwitchedShape(s, off);
    var t, re := SwitchedOff(s, off), WereOn(s, d, off);
    forall n | n in re ensures n in s.registry && n !in d && s.registry[n] in s.enabled && s.enabled[s.registry[n]] {
      WereOnAt(s, d, off, n);
    }
    forall x | x in s.names && x in s.enabled && s.names[x] !in d
      ensures t.enabled[x] == (s.enabled[x] && s.names[x] !in re)
    {
      NamedAt(s, x);
      SwitchedAt(s, off, x);
      WereOnAt(s, d, off, s.names[x]);
    }
    DisabledFold(s, t, d, re);
  }

  /** What the whole disabling loop has done. */
  lemma DisabledDone(s: State, t: State, d: set<Name>, off: set<Addr>, re: set<Name>)
    requires Inv(s) && d <= s.registry.Keys && OffFor(s, d, d, off) && t == SwitchedOff(s, off)
    requires re == WereOn(s, d, off)
    ensures Disabled(s, t, d, re)
    ensures forall n :: n in re <==>
            Affected(s, d, n) && n in s.registry && s.registry[n] in s.enabled && s.enabled[s.registry[n]]
    ensures forall n :: n in d ==> s.registry[n] in t.enabled && !t.enabled[s.registry[n]]
  {
    hide *;
    DisabledIs(s, d, off);
    forall n
      ensures n in re <==>
              Affected(s, d, n) && n in s.registry && s.registry[n] in s.enabled && s.enabled[s.registry[n]]
    {
      WereOnAt(s, d, off, n);
      if n in s.registry && n !in d { OffAffected(s, d, off, n); } else { NotAffected(s, d, n); }
    }
    forall n | n in d ensures s.registry[n] in t.enabled && !t.enabled[s.registry[n]] {
      ConnectorOf(s, n);
      OffDone(s, d, d, off, n);
      SwitchedAt(s, off, s.registry[n]);
    }
  }

  lemma NotAffected(s: State, d: set<Name>, n: Name)
    requires n !in s.registry || n in d
    ensures !(Affected(s, d, n) && n in s.registry)
  {
  }

  lemma OffNone(s: State, d: set<Name>)
    ensures OffFor(s, d, {}, {})
  {
  }

  /** Disabling a handler twice changes nothing. */
  lemma SwitchedAgain(s: State, off: set<Addr>, x: Addr)
    requires x in s.enabled && (!s.enabled[x] || x in off)
    ensures SwitchedOff(s, off + {x}) == SwitchedOff(s, off)
  {
    assert SwitchedOff(s, off + {x}).enabled == SwitchedOff(s, off).enabled;
  }

  lemma PeersLive(s: State, n: Name)
    requires Inv(s) && n in s.registry && s.registry[n] in s.conns
    ensures forall k :: 0 <= k < |s.conns[s.registry[n]]| ==>
              s.conns[s.registry[n]][k].addr in s.names && s.conns[s.registry[n]][k].addr in s.enabled
              && s.conns[s.registry[n]][k].addr in s.subs
  {
    hide *;
    ConnectorOf(s, n);
    ConnectorFacts(s, n);
    forall k | 0 <= k < |s.conns[s.registry[n]]|
      ensures s.conns[s.registry[n]][k].addr in s.names && s.conns[s.registry[n]][k].addr in s.enabled
      ensures s.conns[s.registry[n]][k].addr in s.subs
    {
      PortFacts(s, s.conns[s.registry[n]][k].peer);
      ConnectorOf(s, s.conns[s.registry[n]][k].peer);
    }
  }

  // ----- Unsubscribing ----------------------------------------------------------------------------

  type Subs = map<Addr, map<Name, Addr>>

  /** Handler `n` is no subscriber at the addresses `xs` any more. */
  function Dropped(subs: Subs, n: Name, xs: set<Addr>): Subs {
    map x | x in subs :: if x in xs then subs[x] - {n} else subs[x]
  }

  /** No handler of `done` is a subscriber anywhere. */
  function LessNames(subs: Subs, done: set<Name>): Subs {
    map x | x in subs :: subs[x] - done
  }

  lemma DropMore(subs: Subs, n: Name, xs: set<Addr>, x: Addr)
    requires x in subs
    ensures x in Dropped(subs, n, xs)
    ensures Dropped(subs, n, xs)[x := Dropped(subs, n, xs)[x] - {n}] == Dropped(subs, n, xs + {x})
  {
    assert subs[x] - {n} - {n} == subs[x] - {n};
  }

  lemma DropNone(subs: Subs, n: Name)
    ensures Dropped(subs, n, {}) == subs && LessNames(subs, {}) == subs
  {
    assert forall x :: x in subs ==> subs[x] - {} == subs[x];
  }

  lemma LessKeys(subs: Subs, done: set<Name>)
    ensures LessNames(subs, done).Keys == subs.Keys
    ensures forall x :: x in subs ==> LessNames(subs, done)[x] == subs[x] - done
  {
  }

  /** Only a connector is a subscriber, and only at its peers. */
  lemma SubscriberIsPeer(s: State, n: Name, x: Addr)
    requires Inv(s) && x in s.subs && n in s.subs[x]
    ensures n in s.connectors && s.connectors[n] in s.conns && x in PeersOf(s.conns[s.connectors[n]])
  {
    hide *;
    InvTables(s);
    SubsNamed(s, x);
    NamedAt(s, x);
    var p := s.names[x];
    PortOrConnector(s, p);
    if p in s.connectors {
      ConnectorFacts(s, p);
    } else {
      PortFacts(s, p);
      PeersAreConnected(s, n, p);
    }
  }

  lemma SubsNamed(s: State, x: Addr)
    requires Addressed(s) && x in s.subs
    ensures x in s.names
  {
  }

  lemma DropPeers(s: State, done: set<Name>, n: Name)
    requires Inv(s) && n in s.registry
    ensures s.registry[n] in s.conns ==>
              Dropped(LessNames(s.subs, done), n, PeersOf(s.conns[s.registry[n]])) == LessNames(s.subs, done + {n})
    ensures s.registry[n] !in s.conns ==> LessNames(s.subs, done) == LessNames(s.subs, done + {n})
  {
    hide Inv, Tables, Filed, Addressed, PeersOf;
    ConnectorOf(s, n);
    forall x | x in s.subs && !(s.registry[n] in s.conns && x in PeersOf(s.conns[s.registry[n]]))
      ensures s.subs[x] - done == s.subs[x] - (done + {n})
    {
      if n in s.subs[x] { SubscriberIsPeer(s, n, x); }
    }
    forall x | x in s.subs ensures s.subs[x] - done - {n} == s.subs[x] - (done + {n}) {
    }
  }

  // ----- Removing ---------------------------------------------------------------------------------

  function NeedsOf(conns: map<Addr, seq<Connection>>, d: set<Name>, n: Name, subs: map<Name, Addr>): NeedsNewAddr {
    set m | m in subs && m !in d && subs[m] in conns :: (n, subs[m])
  }

  lemma NoteMore(s: State, d: set<Name>, names: set<Name>, oldSubs: OldSubs, needs: NeedsNewAddr, n: Name)
    requires NotedFor(s, d, names, oldSubs, needs) && n !in names && n in s.registry && s.registry[n] in s.subs
    ensures NotedFor(s, d, names + {n}, oldSubs[n := s.subs[s.registry[n]]], needs
                     + NeedsOf(s.conns, d, n, s.subs[s.registry[n]]))
  {
    var olds, all := oldSubs[n := s.subs[s.registry[n]]], needs + NeedsOf(s.conns, d, n, s.subs[s.registry[n]]);
    forall p, a | (p, a) in all
      ensures p in olds && a in s.conns && exists m :: m in olds[p] && olds[p][m] == a && m !in d
    {
      if (p, a) in needs {
        assert p != n;
        assert olds[p] == oldSubs[p];
      }
    }
    forall p, a | p in olds && a in s.conns && exists m :: m in olds[p] && olds[p][m] == a && m !in d
      ensures (p, a) in all
    {
    }
  }

  lemma DeletedAre(s: State, d: set<Name>, gone: set<Addr>)
    requires Addressed(s) && d <= s.registry.Keys && gone == set n | n in d :: s.registry[n]
    ensures gone == AddressesOf(s, d)
  {
    forall x | x in gone ensures x in AddressesOf(s, d) {
      var n :| n in d && s.registry[n] == x;
      RegisteredAt(s, n);
    }
    forall x | x in AddressesOf(s, d) ensures x in gone {
      NamedAt(s, x);
      assert s.names[x] in d;
    }
  }

  lemma NoteNone(s: State, d: set<Name>)
    ensures NotedFor(s, d, {}, map[], {})
  {
  }

  lemma WithoutIs(s: State, d: set<Name>, gone: set<Addr>)
    requires gone == AddressesOf(s, d)
    ensures Without(s, d) ==
            State(s.names - gone, s.enabled - gone, s.subs - gone, s.conns - gone, s.registry - d, s.ports - d,
                  s.connectors - d)
  {
  }

  lemma NotedFold(s: State, d: set<Name>, ch: set<Name>, oldSubs: OldSubs, needs: NeedsNewAddr)
    requires NotedFor(s, d, d * ch, oldSubs, needs)
    ensures Noted(s, d, ch, oldSubs, needs)
  {
  }

  // ----- Building ports -----------------------------------------------------------------------------

  /** The names a list of entries yields, when those of `taken` are ignored as duplicates. */
  function Buildable(es: seq<Entry>, taken: set<Name>): (r: set<Name>)
    ensures r <= NamesOf(es) - taken
    ensures AllValid(es) ==> r == NamesOf(es) - taken
  {
    set k | 0 <= k < |es| && es[k].valid && es[k].name !in taken :: es[k].name
  }

  lemma BuildableSnoc(es: seq<Entry>, taken: set<Name>, k: nat)
    requires k < |es|
    ensures Buildable(es[..k + 1], taken) ==
            Buildable(es[..k], taken) + if es[k].valid && es[k].name !in taken then {es[k].name} else {}
  {
    var a, b := es[..k + 1], es[..k];
    forall n | n in Buildable(b, taken) ensures n in Buildable(a, taken) {
      var i :| 0 <= i < |b| && b[i].valid && b[i].name == n;
      assert a[i].name == n;
    }
    if es[k].valid && es[k].name !in taken { assert a[k].name in Buildable(a, taken); }
    forall n | n in Buildable(a, taken) ensures n in Buildable(b, taken) || (n == es[k].name && es[k].valid) {
      var i :| 0 <= i < |a| && a[i].valid && a[i].name == n;
      if i < k { assert b[i].name == n; }
    }
  }

  lemma BuildableAll(es: seq<Entry>, taken: set<Name>)
    ensures es[..|es|] == es && Buildable(es[..0], taken) == {}
  {
  }

  /** The constructor of a port: `IOHandler` registers it under its name. */
  function WithPort(s: State, n: Name, x: Addr): State {
    s.(names := s.names[x := n], enabled := s.enabled[x := false], subs := s.subs[x := map[]],
       registry := s.registry[n := x], ports := s.ports[n := x])
  }

  lemma AllocatedNone(a: State)
    ensures Allocated(a, a, map[])
  {
    var none: map<Name, Addr> := map[];
    assert none.Values == {};
    assert a.registry + none == a.registry;
  }

  lemma PortsMadeNone(a: State)
    ensures PortsMade(a, a, map[])
  {
    AllocatedNone(a);
    hide Allocated;
    var none: map<Name, Addr> := map[];
    assert none.Values == {};
    assert a.ports + none == a.ports;
  }

  lemma ValuesMore(made: map<Name, Addr>, n: Name, x: Addr)
    requires n !in made
    ensures made[n := x].Values == made.Values + {x}
  {
    forall y | y in made.Values ensures y in made[n := x].Values {
      var m :| m in made && made[m] == y;
      assert made[n := x][m] == y;
    }
    assert made[n := x][n] == x;
  }

  lemma MergeMore(m: map<Name, Addr>, made: map<Name, Addr>, n: Name, x: Addr)
    ensures (m + made)[n := x] == m + made[n := x]
  {
  }

  lemma KeysMore<V>(m: map<Addr, V>, ks: set<Addr>, vs: set<Addr>, x: Addr, v: V)
    requires m.Keys == ks + vs
    ensures m[x := v].Keys == ks + (vs + {x})
  {
  }

  lemma AllocatedValues(a: State, b: State, made: map<Name, Addr>)
    requires Allocated(a, b, made)
    ensures forall y :: y in a.names ==> y in b.names && b.names[y] == a.names[y]
    ensures forall y :: y in a.enabled && y in a.names ==> y in b.enabled && b.enabled[y] == a.enabled[y]
    ensures forall m :: m in made ==> made[m] in made.Values && made[m] in b.names && b.names[made[m]] == m
    ensures forall m :: m in made ==> made[m] in b.enabled && !b.enabled[made[m]]
  {
  }

  lemma AllocatedFold(a: State, b: State, made: map<Name, Addr>)
    requires b.registry == a.registry + made && made.Values !! a.names.Keys
    requires b.names.Keys == a.names.Keys + made.Values && b.enabled.Keys == a.enabled.Keys + made.Values
    requires forall y :: y in a.names ==> b.names[y] == a.names[y]
    requires forall y :: y in a.enabled && y in a.names ==> b.enabled[y] == a.enabled[y]
    requires forall m :: m in made ==> made[m] in made.Values && b.names[made[m]] == m && !b.enabled[made[m]]
    ensures Allocated(a, b, made)
  {
  }

  /** One more allocation. */
  lemma AllocatedMore(a: State, b: State, made: map<Name, Addr>, c: State, n: Name, x: Addr)
    requires Allocated(a, b, made) && n !in made && x !in b.names
    requires c.names == b.names[x := n] && c.enabled == b.enabled[x := false] && c.registry == b.registry[n := x]
    ensures Allocated(a, c, made[n := x])
  {
    hide *;
    AllocatedMoreKeys(a, b, made, c, n, x);
    AllocatedMoreOld(a, b, made, c, n, x);
    AllocatedMoreNew(a, b, made, c, n, x);
    AllocatedFold(a, c, made[n := x]);
  }

  lemma AllocatedMoreKeys(a: State, b: State, made: map<Name, Addr>, c: State, n: Name, x: Addr)
    requires Allocated(a, b, made) && n !in made && x !in b.names
    requires c.names == b.names[x := n] && c.enabled == b.enabled[x := false] && c.registry == b.registry[n := x]
    ensures var more := made[n := x];
            && c.registry == a.registry + more && more.Values !! a.names.Keys
            && c.names.Keys == a.names.Keys + more.Values && c.enabled.Keys == a.enabled.Keys + more.Values
  {
    hide *;
    AllocatedKeys(a, b, made);
    ValuesMore(made, n, x);
    MergeMore(a.registry, made, n, x);
    KeysMore(b.names, a.names.Keys, made.Values, x, n);
    KeysMore(b.enabled, a.enabled.Keys, made.Values, x, false);
  }

  lemma AllocatedMoreOld(a: State, b: State, made: map<Name, Addr>, c: State, n: Name, x: Addr)
    requires Allocated(a, b, made) && x !in b.names && c.names == b.names[x := n] && c.enabled == b.enabled[x := false]
    ensures forall y :: y in a.names ==> y in c.names && c.names[y] == a.names[y]
    ensures forall y :: y in a.enabled && y in a.names ==> y in c.enabled && c.enabled[y] == a.enabled[y]
  {
    hide *;
    AllocatedValues(a, b, made);
  }

  lemma AllocatedMoreNew(a: State, b: State, made: map<Name, Addr>, c: State, n: Name, x: Addr)
    requires Allocated(a, b, made) && n !in made && x !in b.names && c.names == b.names[x := n]
    requires c.enabled == b.enabled[x := false]
    ensures var more := made[n := x];
            forall m :: m in more ==>
              more[m] in more.Values && more[m] in c.names && c.names[more[m]] == m && more[m] in c.enabled
              && !c.enabled[more[m]]
  {
    hide *;
    AllocatedValues(a, b, made);
  }

  lemma PortsMadeSubs(a: State, b: State, made: map<Name, Addr>)
    requires PortsMade(a, b, made)
    ensures forall y :: y in a.subs && y in a.names ==> y in b.subs && b.subs[y] == a.subs[y]
    ensures forall m :: m in made ==> made[m] in b.subs && b.subs[made[m]] == map[]
  {
    hide Allocated;
  }

  lemma PortsMadeFold(a: State, b: State, made: map<Name, Addr>)
    requires Allocated(a, b, made)
    requires b.ports == a.ports + made && b.connectors == a.connectors && b.conns == a.conns
    requires b.subs.Keys == a.subs.Keys + made.Values
    requires forall y :: y in a.subs && y in a.names ==> b.subs[y] == a.subs[y]
    requires forall m :: m in made ==> made[m] in b.subs && b.subs[made[m]] == map[]
    ensures PortsMade(a, b, made)
  {
    hide Allocated;
  }

  lemma WithPortIs(s: State, n: Name, x: Addr)
    ensures var c := WithPort(s, n, x);
            && c.names == s.names[x := n] && c.enabled == s.enabled[x := false] && c.registry == s.registry[n := x]
            && c.subs == s.subs[x := map[]] && c.ports == s.ports[n := x] && c.connectors == s.connectors
            && c.conns == s.conns
  {
  }

  lemma PortsMadeMore(a: State, b: State, made: map<Name, Addr>, n: Name, x: Addr)
    requires PortsMade(a, b, made) && n !in made && x !in b.names
    ensures PortsMade(a, WithPort(b, n, x), made[n := x])
  {
    hide *;
    var c := WithPort(b, n, x);
    WithPortIs(b, n, x);
    PortsMadeUnfold(a, b, made);
    AllocatedMore(a, b, made, c, n, x);
    ValuesMore(made, n, x);
    MergeMore(a.ports, made, n, x);
    KeysMore(b.subs, a.subs.Keys, made.Values, x, map[]);
    PortsMadeMoreSubs(a, b, made, c, n, x);
    PortsMadeFold(a, c, made[n := x]);
  }

  lemma PortsMadeMoreSubs(a: State, b: State, made: map<Name, Addr>, c: State, n: Name, x: Addr)
    requires PortsMade(a, b, made) && n !in made && x !in b.names && c.subs == b.subs[x := map[]]
    ensures forall y :: y in a.subs && y in a.names ==> y in c.subs && c.subs[y] == a.subs[y]
    ensures var more := made[n := x]; forall m :: m in more ==> more[m] in c.subs && c.subs[more[m]] == map[]
  {
    hide *;
    PortsMadeUnfold(a, b, made);
    AllocatedKeys(a, b, made);
    PortsMadeSubs(a, b, made);
  }

  lemma FreshAddr(used: set<Addr>) returns (x: Addr)
    ensures forall y :: y in used ==> y < x
    decreases used
  {
    x := 0;
    if used != {} {
      var y :| y in used;
      x := FreshAddr(used - {y});
      assert used == used - {y} + {y};
      if x <= y { x := y + 1; }
    }
  }

  lemma LessOne(m: map<Name, Addr>, done: set<Name>, n: Name)
    ensures m - done - {n} == m - (done + {n})
  {
  }

  // ----- Subscribing again ------------------------------------------------------------------------

  lemma ResubscribedNone(a: State, oldSubs: OldSubs)
    ensures Resubscribed(a, a, {}, oldSubs)
  {
  }

  lemma OldSubsMore(a: State, done: set<Name>, oldSubs: OldSubs, n: Name, y: Addr)
    requires Addressed(a) && n !in done && y in a.subs
    ensures WithOldSubs(a, done + {n}, oldSubs, y) ==
            if n in a.registry && a.registry[n] == y && y !in a.conns && n in oldSubs
            then WithOldSubs(a, done, oldSubs, y) + oldSubs[n] else WithOldSubs(a, done, oldSubs, y)
  {
    hide Addressed;
    if n in a.registry { RegisteredAt(a, n); }
    if y in a.names { NamedAt(a, y); }
  }

  lemma ResubscribedMore(a: State, b: State, done: set<Name>, oldSubs: OldSubs, n: Name)
    requires Addressed(a) && Resubscribed(a, b, done, oldSubs) && n !in done
    ensures n in a.registry ==> a.registry[n] in b.subs
    ensures if n in a.registry && a.registry[n] !in a.conns && n in oldSubs then
              var x := a.registry[n];
              Resubscribed(a, b.(subs := b.subs[x := b.subs[x] + oldSubs[n]]), done + {n}, oldSubs)
            else Resubscribed(a, b, done + {n}, oldSubs)
  {
    hide Addressed, WithOldSubs;
    if n in a.registry { RegisteredAt(a, n); }
    forall y | y in a.subs
      ensures WithOldSubs(a, done + {n}, oldSubs, y) ==
              if n in a.registry && a.registry[n] == y && y !in a.conns && n in oldSubs
              then WithOldSubs(a, done, oldSubs, y) + oldSubs[n] else WithOldSubs(a, done, oldSubs, y)
    {
      OldSubsMore(a, done, oldSubs, n, y);
    }
  }

  // ----- Building connectors ------------------------------------------------------------------------

  /** The connections a Port1-Port2 pair yields, both ways; pairs with an
      unregistered name are skipped. */
  function LinkOf(registry: map<Name, Addr>, link: (Name, Name)): seq<Connection> {
    if link.0 in registry && link.1 in registry then
      [Connection(link.0, link.1, registry[link.1]), Connection(link.1, link.0, registry[link.0])]
    else []
  }

  function LinksOf(registry: map<Name, Addr>, links: seq<(Name, Name)>): seq<Connection> {
    if links == [] then []
    else LinksOf(registry, links[..|links| - 1]) + LinkOf(registry, links[|links| - 1])
  }

  lemma LinksSnoc(registry: map<Name, Addr>, links: seq<(Name, Name)>, k: nat)
    requires k < |links|
    ensures LinksOf(registry, links[..k + 1]) == LinksOf(registry, links[..k]) + LinkOf(registry, links[k])
  {
    assert links[..k + 1][..k] == links[..k];
  }

  /** Every connection made leads to a registered handler that the links name. */
  lemma {:induction false} LinksRegistered(registry: map<Name, Addr>, links: seq<(Name, Name)>, k: nat)
    requires k < |LinksOf(registry, links)|
    ensures var c := LinksOf(registry, links)[k];
            && c.sender in registry && c.peer in registry && c.addr == registry[c.peer]
            && exists i :: 0 <= i < |links| && (c.peer == links[i].0 || c.peer == links[i].1)
  {
    var most := LinksOf(registry, links[..|links| - 1]);
    if k < |most| {
      LinksRegistered(registry, links[..|links| - 1], k);
      var i :| 0 <= i < |links| - 1
      && (most[k].peer == links[..|links| - 1][i].0 || most[k].peer == links[..|links| - 1][i].1);
      assert links[..|links| - 1][i] == links[i];
    } else {
      assert LinksOf(registry, links)[k] in LinkOf(registry, links[|links| - 1]);
    }
  }

  /** The constructor of a connector before it reads its file. */
  function WithConnector(s: State, n: Name, x: Addr): State {
    s.(names := s.names[x := n], enabled := s.enabled[x := false], subs := s.subs[x := map[]],
       conns := s.conns[x := []],
       registry := s.registry[n := x], connectors := s.connectors[n := x])
  }

  /** Connector `n` at `x` is subscribed at the addresses `at`. */
  function Subscribed(subs: Subs, n: Name, x: Addr, at: set<Addr>): Subs {
    map y | y in subs :: if y in at then subs[y][n := x] else subs[y]
  }

  lemma SubscribeMore(subs: Subs, n: Name, x: Addr, at: set<Addr>, y: Addr)
    requires y in subs
    ensures y in Subscribed(subs, n, x, at)
    ensures Subscribed(subs, n, x, at)[y := Subscribed(subs, n, x, at)[y][n := x]] == Subscribed(subs, n, x, at + {y})
  {
    assert subs[y][n := x][n := x] == subs[y][n := x];
  }

  lemma SubscribeNone(subs: Subs, n: Name, x: Addr)
    ensures Subscribed(subs, n, x, {}) == subs
  {
  }

  lemma PeersPlus(cs: seq<Connection>, ds: seq<Connection>)
    ensures PeersOf(cs + ds) == PeersOf(cs) + PeersOf(ds)
  {
    forall x | x in PeersOf(cs) ensures x in PeersOf(cs + ds) {
      var i :| 0 <= i < |cs| && cs[i].addr == x;
      assert (cs + ds)[i].addr == x;
    }
    forall x | x in PeersOf(ds) ensures x in PeersOf(cs + ds) {
      var i :| 0 <= i < |ds| && ds[i].addr == x;
      assert (cs + ds)[|cs| + i].addr == x;
    }
    forall x | x in PeersOf(cs + ds) ensures x in PeersOf(cs) + PeersOf(ds) {
      var i :| 0 <= i < |cs + ds| && (cs + ds)[i].addr == x;
      if i < |cs| { assert cs[i].addr == x; } else { assert ds[i - |cs|].addr == x; }
    }
  }

  lemma PeersOfLink(registry: map<Name, Addr>, p: Name, q: Name)
    requires p in registry && q in registry
    ensures PeersOf(LinkOf(registry, (p, q))) == {registry[p], registry[q]}
    ensures LinkOf(registry, (p, q)) == [Connection(p, q, registry[q]), Connection(q, p, registry[p])]
  {
    var l := LinkOf(registry, (p, q));
    assert l[0].addr == registry[q] && l[1].addr == registry[p];
  }

  lemma PeersOfNone()
    ensures PeersOf([]) == {}
  {
  }

  lemma LinksNone(registry: map<Name, Addr>, links: seq<(Name, Name)>)
    ensures LinksOf(registry, links[..0]) == []
  {
  }

  lemma LinkSkipped(registry: map<Name, Addr>, p: Name, q: Name)
    requires p !in registry || q !in registry
    ensures LinkOf(registry, (p, q)) == []
  {
  }

  lemma SubscribeBoth(subs: Subs, n: Name, x: Addr, at: set<Addr>, more: set<Addr>)
    ensures Subscribed(Subscribed(subs, n, x, at), n, x, more) == Subscribed(subs, n, x, at + more)
  {
    assert forall y :: y in subs ==> subs[y][n := x][n := x] == subs[y][n := x];
  }

  lemma SubscribeKeys(subs: Subs, n: Name, x: Addr, at: set<Addr>)
    ensures Subscribed(subs, n, x, at).Keys == subs.Keys
    ensures forall y :: y in subs ==> Subscribed(subs, n, x, at)[y] == if y in at then subs[y][n := x] else subs[y]
  {
  }

  /** A new connector with its connections, subscribed to its peers. */
  function Built(s: State, n: Name, x: Addr, cs: seq<Connection>): State {
    s.(names := s.names[x := n], enabled := s.enabled[x := false],
       subs := Subscribed(s.subs[x := map[]], n, x, PeersOf(cs)),
       conns := s.conns[x := cs], registry := s.registry[n := x], connectors := s.connectors[n := x])
  }

  /** All peers are ports, with their addresses. */
  ghost predicate LeadToPorts(s: State, cs: seq<Connection>) {
    forall k :: 0 <= k < |cs| ==> cs[k].peer in s.ports && s.ports[cs[k].peer] == cs[k].addr
  }

  lemma PortAddress(s: State, p: Name)
    requires Tables(s) && p in s.ports
    ensures s.ports[p] in s.names && s.names[s.ports[p]] == p && s.ports[p] !in s.conns && s.ports[p] in s.subs
  {
  }

  lemma ConnectorAddress(s: State, m: Name)
    requires Tables(s) && m in s.connectors
    ensures s.connectors[m] in s.names && s.names[s.connectors[m]] == m && s.connectors[m] in s.conns
    ensures s.connectors[m] in s.subs
  {
  }

  lemma PeersOfPorts(s: State, cs: seq<Connection>, y: Addr)
    requires Tables(s) && LeadToPorts(s, cs) && y in PeersOf(cs)
    ensures y in s.names && y !in s.conns && s.names[y] in s.ports && ConnectedTo(cs, s.names[y])
  {
    hide Tables;
    var k :| 0 <= k < |cs| && cs[k].addr == y;
    PortAddress(s, cs[k].peer);
  }

  lemma PeerIffConnected(s: State, cs: seq<Connection>, p: Name)
    requires Tables(s) && LeadToPorts(s, cs) && p in s.ports
    ensures s.ports[p] in PeersOf(cs) <==> ConnectedTo(cs, p)
  {
    hide Tables;
    PortAddress(s, p);
    if s.ports[p] in PeersOf(cs) { PeersOfPorts(s, cs, s.ports[p]); }
  }

  /** The subscribers of a port when one more connector is made. */
  lemma JoinedMore(before: map<Name, Addr>, after: map<Name, Addr>, conns: map<Addr, seq<Connection>>,
                   made: map<Name, Addr>, p: Name,
                   n: Name, x: Addr, cs: seq<Connection>)
    requires Joined(before, after, conns, made, p) && n !in made && n !in before && x !in conns
    ensures Joined(before, if ConnectedTo(cs, p) then after[n := x] else after, conns[x := cs], made[n := x], p)
  {
    hide ConnectedTo;
  }

  lemma BuiltIs(b: State, n: Name, x: Addr, cs: seq<Connection>)
    ensures var c := Built(b, n, x, cs);
            && c.names == b.names[x := n] && c.enabled == b.enabled[x := false] && c.registry == b.registry[n := x]
            && c.connectors == b.connectors[n := x] && c.ports == b.ports && c.conns == b.conns[x := cs]
            && c.subs.Keys == b.subs.Keys + {x}
    ensures forall y :: y in b.subs && y !in PeersOf(cs) && y != x ==> Built(b, n, x, cs).subs[y] == b.subs[y]
    ensures forall y :: y in b.subs && y in PeersOf(cs) && y != x ==> Built(b, n, x, cs).subs[y] == b.subs[y][n := x]
    ensures x !in PeersOf(cs) ==> Built(b, n, x, cs).subs[x] == map[]
  {
    hide PeersOf;
  }

  lemma ConnectorsMadeFold(a: State, b: State, made: map<Name, Addr>)
    requires Allocated(a, b, made) && b.connectors == a.connectors + made && b.ports == a.ports
    requires b.conns.Keys == a.conns.Keys + made.Values && b.subs.Keys == a.subs.Keys + made.Values
    requires forall x :: x in a.conns && x in a.names ==> b.conns[x] == a.conns[x]
    requires forall n :: n in made ==> made[n] in b.subs && b.subs[made[n]] == map[] && Linked(b, made[n])
    requires forall n :: n in a.connectors ==>
             a.connectors[n] in a.subs && b.subs[a.connectors[n]] == a.subs[a.connectors[n]]
    requires forall p :: p in a.ports ==>
             a.ports[p] in a.subs && Joined(a.subs[a.ports[p]], b.subs[a.ports[p]], b.conns, made, p)
    ensures ConnectorsMade(a, b, made)
  {
    hide Allocated, Linked, Joined;
  }

  lemma ConnectorsMadeNone(a: State)
    requires Tables(a)
    ensures ConnectorsMade(a, a, map[])
  {
    hide *;
    AllocatedNone(a);
    var none: map<Name, Addr> := map[];
    assert none.Values == {};
    assert a.connectors + none == a.connectors;
    forall n | n in a.connectors ensures a.connectors[n] in a.subs { ConnectorAddress(a, n); }
    forall p | p in a.ports
      ensures a.ports[p] in a.subs && Joined(a.subs[a.ports[p]], a.subs[a.ports[p]], a.conns, none, p)
    {
      PortAddress(a, p);
      JoinedNone(a.subs[a.ports[p]], a.conns, p);
    }
    ConnectorsMadeFold(a, a, none);
  }

  lemma JoinedNone(before: map<Name, Addr>, conns: map<Addr, seq<Connection>>, p: Name)
    ensures Joined(before, before, conns, map[], p)
  {
  }

  /** A connector that was there, while another one is built. */
  lemma BuildKeepsConnector(b: State, n: Name, x: Addr, cs: seq<Connection>, m: Name)
    requires Tables(b) && LeadToPorts(b, cs) && x !in b.names && m in b.connectors && m != n
    ensures var c := Built(b, n, x, cs); var y := b.connectors[m];
            y in b.subs && y in c.subs && c.subs[y] == b.subs[y] && y in b.conns && y in c.conns
            && c.conns[y] == b.conns[y]
    ensures Linked(b, b.connectors[m]) ==> Linked(Built(b, n, x, cs), b.connectors[m])
  {
    hide Tables, Built, PeersOf;
    BuiltIs(b, n, x, cs);
    ConnectorAddress(b, m);
    if b.connectors[m] in PeersOf(cs) { PeersOfPorts(b, cs, b.connectors[m]); }
  }

  lemma BuildLinks(b: State, n: Name, x: Addr, cs: seq<Connection>)
    requires Tables(b) && LeadToPorts(b, cs) && x !in b.names
    ensures var c := Built(b, n, x, cs); x in c.subs && c.subs[x] == map[] && Linked(c, x)
  {
    hide Tables, Built, PeersOf;
    BuiltIs(b, n, x, cs);
    if x in PeersOf(cs) { PeersOfPorts(b, cs, x); }
  }

  lemma BuildKeepsPort(b: State, n: Name, x: Addr, cs: seq<Connection>, before: map<Name, Addr>, made: map<Name, Addr>,
                       p: Name)
    requires Tables(b) && LeadToPorts(b, cs) && x !in b.names && p in b.ports && n !in made && n !in before
    requires b.ports[p] in b.subs && Joined(before, b.subs[b.ports[p]], b.conns, made, p)
    ensures var c := Built(b, n, x, cs);
            b.ports[p] in c.subs && Joined(before, c.subs[b.ports[p]], c.conns, made[n := x], p)
  {
    hide Built, PeersOf, Joined, LeadToPorts, ConnectedTo;
    BuiltIs(b, n, x, cs);
    PortAddress(b, p);
    PeerIffConnected(b, cs, p);
    assert x !in b.conns;
    JoinedMore(before, b.subs[b.ports[p]], b.conns, made, p, n, x, cs);
  }

  /** The tables with one more connector. */
  lemma MadeTablesMore(a: State, b: State, made: map<Name, Addr>, n: Name, x: Addr, cs: seq<Connection>)
    requires ConnectorsMade(a, b, made) && n !in b.registry && x !in b.names
    ensures var c := Built(b, n, x, cs); var all := made[n := x];
            && n !in made && n !in a.registry && Allocated(a, c, all)
            && c.connectors == a.connectors + all && c.ports == a.ports
            && c.conns.Keys == a.conns.Keys + all.Values && c.subs.Keys == a.subs.Keys + all.Values
  {
    hide *;
    var c := Built(b, n, x, cs);
    BuiltIs(b, n, x, cs);
    ConnectorsMadeUnfold(a, b, made);
    AllocatedKeys(a, b, made);
    AllocatedMore(a, b, made, c, n, x);
    ValuesMore(made, n, x);
    MergeMore(a.connectors, made, n, x);
    KeysMore(b.conns, a.conns.Keys, made.Values, x, cs);
    KeysMore(b.subs, a.subs.Keys, made.Values, x, map[]);
  }

  lemma MadeNewMore(a: State, b: State, made: map<Name, Addr>, n: Name, x: Addr, cs: seq<Connection>, m: Name)
    requires Tables(b) && ConnectorsMade(a, b, made) && n !in b.registry && x !in b.names && LeadToPorts(b, cs)
    requires m in made[n := x]
    ensures var c := Built(b, n, x, cs); var y := made[n := x][m]; y in c.subs && c.subs[y] == map[] && Linked(c, y)
  {
    hide *;
    ConnectorsMadeUnfold(a, b, made);
    if m == n {
      BuildLinks(b, n, x, cs);
    } else {
      ConnectorsMadeNew(a, b, made, m);
      BuildKeepsConnector(b, n, x, cs, m);
    }
  }

  lemma MadeOldMore(a: State, b: State, made: map<Name, Addr>, n: Name, x: Addr, cs: seq<Connection>, m: Name)
    requires Tables(a) && Tables(b) && ConnectorsMade(a, b, made) && n !in a.registry && x !in b.names
    requires LeadToPorts(b, cs)
    requires made.Keys !! a.registry.Keys && m in a.connectors
    ensures var c := Built(b, n, x, cs); var y := a.connectors[m];
            y in a.subs && y in c.subs && c.subs[y] == a.subs[y] && y in a.conns && y in c.conns
            && c.conns[y] == a.conns[y]
  {
    hide *;
    TablesParts(a);
    FiledKeys(a);
    ConnectorsMadeUnfold(a, b, made);
    ConnectorAddress(a, m);
    ConnectorsMadeOld(a, b, made, m);
    BuildKeepsConnector(b, n, x, cs, m);
  }

  lemma ConnsNamed(s: State, y: Addr)
    requires Tables(s) && y in s.conns
    ensures y in s.names && s.names[y] in s.connectors && s.connectors[s.names[y]] == y
  {
  }

  /** One more connector. */
  lemma ConnectorsMadeMore(a: State, b: State, made: map<Name, Addr>, n: Name, x: Addr, cs: seq<Connection>)
    requires Tables(b) && ConnectorsMade(a, b, made) && n !in b.registry && x !in b.names && LeadToPorts(b, cs)
    requires made.Keys !! a.registry.Keys
    requires Tables(a) && forall p :: p in a.ports && a.ports[p] in a.subs ==> n !in a.subs[a.ports[p]]
    ensures ConnectorsMade(a, Built(b, n, x, cs), made[n := x])
  {
    hide *;
    var c, all := Built(b, n, x, cs), made[n := x];
    MadeTablesMore(a, b, made, n, x, cs);
    forall y | y in a.conns && y in a.names ensures y in c.conns && c.conns[y] == a.conns[y] {
      ConnsNamed(a, y);
      MadeOldMore(a, b, made, n, x, cs, a.names[y]);
    }
    forall m | m in all ensures all[m] in c.subs && c.subs[all[m]] == map[] && Linked(c, all[m]) {
      MadeNewMore(a, b, made, n, x, cs, m);
    }
    forall m | m in a.connectors
      ensures a.connectors[m] in a.subs && a.connectors[m] in c.subs
      ensures c.subs[a.connectors[m]] == a.subs[a.connectors[m]]
    {
      MadeOldMore(a, b, made, n, x, cs, m);
    }
    forall p | p in a.ports
      ensures a.ports[p] in a.subs && a.ports[p] in c.subs
      ensures Joined(a.subs[a.ports[p]], c.subs[a.ports[p]], c.conns, all, p)
    {
      ConnectorsMadeUnfold(a, b, made);
      ConnectorsMadePort(a, b, made, p);
      BuildKeepsPort(b, n, x, cs, a.subs[a.ports[p]], made, p);
    }
    ConnectorsMadeFold(a, c, all);
  }

  // ----- Connections of new connectors ----------------------------------------------------------------

  /** No link names a handler of `names`. */
  ghost predicate Avoids(links: seq<(Name, Name)>, names: set<Name>) {
    forall i :: 0 <= i < |links| ==> links[i].0 !in names && links[i].1 !in names
  }

  /** Registries that agree on the names outside `names` give the same connections. */
  lemma {:induction false} LinksSame(r1: map<Name, Addr>, r2: map<Name, Addr>, links: seq<(Name, Name)>,
                                     names: set<Name>)
    requires Avoids(links, names)
    requires forall p :: p !in names ==> (p in r1 <==> p in r2) && (p in r1 ==> r1[p] == r2[p])
    ensures LinksOf(r1, links) == LinksOf(r2, links)
  {
    if links != [] {
      var most := links[..|links| - 1];
      forall i | 0 <= i < |most| ensures most[i].0 !in names && most[i].1 !in names {
        assert most[i] == links[i];
      }
      LinksSame(r1, r2, most, names);
    }
  }

  lemma LinksLead(s: State, links: seq<(Name, Name)>)
    requires Filed(s) && Avoids(links, s.connectors.Keys)
    ensures LinksOf(s.registry, links) == LinksOf(s.ports, links) && LeadToPorts(s, LinksOf(s.ports, links))
  {
    LinksSame(s.registry, s.ports, links, s.connectors.Keys);
    hide Filed, Avoids;
    var cs := LinksOf(s.ports, links);
    forall k | 0 <= k < |cs| ensures cs[k].peer in s.ports && s.ports[cs[k].peer] == cs[k].addr {
      LinksRegistered(s.ports, links, k);
    }
  }

  lemma AvoidsLess(links: seq<(Name, Name)>, names: set<Name>, less: set<Name>)
    requires Avoids(links, names) && less <= names
    ensures Avoids(links, less)
  {
  }

  lemma WithConnectorIs(s: State, n: Name, x: Addr, cs: seq<Connection>)
    ensures var t := WithConnector(s, n, x);
            && t.registry == s.registry[n := x] && x in t.conns && t.conns[x] == []
            && t.subs == s.subs[x := map[]] && t.subs.Keys == s.subs.Keys + {x}
            && t.(conns := t.conns[x := cs], subs := Subscribed(t.subs, n, x, PeersOf(cs))) == Built(s, n, x, cs)
  {
    hide PeersOf, Subscribed;
    assert s.conns[x := []][x := cs] == s.conns[x := cs];
  }

  lemma RegistryLive(s: State, n: Name, x: Addr, r: map<Name, Addr>)
    requires Tables(s) && r == s.registry[n := x]
    ensures forall p :: p in r ==> r[p] in s.subs.Keys + {x}
  {
  }

  /** Each connector made has the connections of the first valid entry of its name. */
  ghost predicate MadeFrom(s: State, made: map<Name, Addr>, es: seq<Entry>) {
    forall n :: n in made ==> made[n] in s.conns && HasLinksOf(es, n, s.ports, s.conns[made[n]])
  }

  ghost predicate HasLinksOf(es: seq<Entry>, n: Name, ports: map<Name, Addr>, cs: seq<Connection>) {
    exists k :: FirstValid(es, n, k) && cs == LinksOf(ports, es[k].links)
  }

  lemma MadeFromMore(b: State, made: map<Name, Addr>, es: seq<Entry>, k: nat, x: Addr)
    requires k < |es|
    requires MadeFrom(b, made, es) && FirstValid(es, es[k].name, k) && x !in b.conns
    ensures var cs := LinksOf(b.ports, es[k].links);
            MadeFrom(Built(b, es[k].name, x, cs), made[es[k].name := x], es)
  {
    hide Built, LinksOf, FirstValid;
    BuiltIs(b, es[k].name, x, LinksOf(b.ports, es[k].links));
  }

  // ----- Replacing addresses -----------------------------------------------------------------------------

  function Replaced(cs: seq<Connection>, port: Name, addr: Addr): (r: seq<Connection>)
    ensures |r| == |cs|
    ensures forall k :: 0 <= k < |cs| ==> r[k] == if cs[k].peer == port then cs[k].(addr := addr) else cs[k]
  {
    seq(|cs|, k requires 0 <= k < |cs| => if cs[k].peer == port then cs[k].(addr := addr) else cs[k])
  }

  /** The connectors at `xs` have the new address of a port. */
  function ReplacedAt(conns: map<Addr, seq<Connection>>, xs: set<Addr>, port: Name, addr: Addr): map<Addr,
    seq<Connection>> {
    map y | y in conns :: if y in xs then Replaced(conns[y], port, addr) else conns[y]
  }

  lemma ReplacedAtMore(conns: map<Addr, seq<Connection>>, xs: set<Addr>, port: Name, addr: Addr, x: Addr)
    requires x in conns && x !in xs
    ensures x in ReplacedAt(conns, xs, port, addr) && ReplacedAt(conns, xs, port, addr)[x] == conns[x]
    ensures ReplacedAt(conns, xs, port, addr).Keys == conns.Keys
    ensures ReplacedAt(conns, xs, port, addr)[x := Replaced(conns[x], port, addr)] ==
            ReplacedAt(conns, xs + {x}, port, addr)
  {
    hide Replaced;
  }

  lemma ReplacedAtNone(conns: map<Addr, seq<Connection>>, port: Name, addr: Addr)
    ensures ReplacedAt(conns, {}, port, addr) == conns
  {
    hide Replaced;
  }

  /** The connectors that need the new address of a port. */
  function Waiting(needs: NeedsNewAddr, n: Name): (xs: set<Addr>)
    ensures forall x :: x in xs <==> (n, x) in needs
  {
    var xs := set e | e in needs && e.0 == n :: e.1;
    assert forall x :: (n, x) in needs ==> (n, x).1 in xs;
    xs
  }

  lemma NewAddrMore(registry: map<Name, Addr>, done: set<Name>, needs: NeedsNewAddr, n: Name, x: Addr, c: Connection)
    requires n !in done && n in registry
    ensures var b := NewAddr(registry, done, needs, x, c);
            NewAddr(registry, done + {n}, needs, x, c) ==
              if x in Waiting(needs, n) && b.peer == n then b.(addr := registry[n]) else b
  {
    hide Waiting;
  }

  lemma ReaddressedNone(a: State, needs: NeedsNewAddr)
    ensures Readdressed(a, a, {}, needs)
  {
  }

  lemma ReaddressedFold(a: State, b: State, ch: set<Name>, needs: NeedsNewAddr)
    requires b == a.(conns := b.conns) && b.conns.Keys == a.conns.Keys
    requires forall x :: x in a.conns ==> |b.conns[x]| == |a.conns[x]|
    requires forall x, k ::
             x in a.conns && 0 <= k < |a.conns[x]| ==> b.conns[x][k] == NewAddr(a.registry, ch, needs, x, a.conns[x][k])
    ensures Readdressed(a, b, ch, needs)
  {
    hide NewAddr;
  }

  lemma ReaddressedMore(a: State, b: State, done: set<Name>, needs: NeedsNewAddr, n: Name)
    requires Readdressed(a, b, done, needs) && n !in done && n in a.registry
    ensures Readdressed(a, b.(conns := ReplacedAt(b.conns, Waiting(needs, n), n, a.registry[n])), done + {n}, needs)
  {
    ReaddressedUnfold(a, b, done, needs);
    hide NewAddr, Readdressed, Waiting, Replaced;
    var c := b.(conns := ReplacedAt(b.conns, Waiting(needs, n), n, a.registry[n]));
    assert c.conns.Keys == a.conns.Keys;
    forall x | x in a.conns ensures |c.conns[x]| == |a.conns[x]| {
      ReaddressedAt(a, b, done, needs, x);
    }
    forall x, k | x in a.conns && 0 <= k < |a.conns[x]|
      ensures c.conns[x][k] == NewAddr(a.registry, done + {n}, needs, x, a.conns[x][k])
    {
      ReaddressedAt(a, b, done, needs, x);
      NewAddrMore(a.registry, done, needs, n, x, a.conns[x][k]);
    }
    ReaddressedFold(a, c, done + {n}, needs);
  }

  lemma ReaddressedSkip(a: State, b: State, done: set<Name>, needs: NeedsNewAddr, n: Name)
    requires Readdressed(a, b, done, needs) && n !in a.registry
    ensures Readdressed(a, b, done + {n}, needs)
  {
    ReaddressedUnfold(a, b, done, needs);
    hide NewAddr, Readdressed;
    forall x | x in a.conns ensures |b.conns[x]| == |a.conns[x]| {
      ReaddressedAt(a, b, done, needs, x);
    }
    forall x, k | x in a.conns && 0 <= k < |a.conns[x]|
      ensures b.conns[x][k] == NewAddr(a.registry, done + {n}, needs, x, a.conns[x][k])
    {
      ReaddressedAt(a, b, done, needs, x);
      NewAddrSkip(a.registry, done, needs, n, x, a.conns[x][k]);
    }
    ReaddressedFold(a, b, done + {n}, needs);
  }

  lemma NewAddrSkip(registry: map<Name, Addr>, done: set<Name>, needs: NeedsNewAddr, n: Name, x: Addr, c: Connection)
    requires n !in registry
    ensures NewAddr(registry, done + {n}, needs, x, c) == NewAddr(registry, done, needs, x, c)
  {
  }

  // ----- Enabling -------------------------------------------------------------------------------------------

  lemma OnlyAt(s: State, n: Name, y: Addr)
    requires Addressed(s) && n in s.registry && y in s.names
    ensures s.names[y] == n <==> s.registry[n] == y
  {
  }

  lemma ReenabledMore(a: State, b: State, done: set<Name>, n: Name)
    requires Addressed(a) && Reenabled(a, b, done) && n in a.registry
    ensures a.registry[n] in b.enabled && b.registry == a.registry
    ensures Reenabled(a, b.(enabled := b.enabled[a.registry[n] := true]), done + {n})
  {
    hide Addressed;
    RegisteredAt(a, n);
    var c := b.(enabled := b.enabled[a.registry[n] := true]);
    assert c.enabled.Keys == a.enabled.Keys;
    forall y | y in a.enabled && y in a.names ensures c.enabled[y] == (a.enabled[y] || a.names[y] in done + {n}) {
      OnlyAt(a, n, y);
    }
  }

  lemma NoneWaiting(needs: NeedsNewAddr, n: Name)
    requires Waiting(needs, n) == {}
    ensures forall e :: e in needs ==> e.0 != n
  {
    forall e | e in needs ensures e.0 != n {
      assert (n, e.1) !in needs;
    }
  }

  lemma ReenabledNone(a: State)
    ensures Reenabled(a, a, {})
  {
  }
}
