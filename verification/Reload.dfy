/**
  `DataConcentrator::ReloadConfig` between parking and unparking the threads: it
  tears down the deleted and changed handlers, builds their replacements and
  repairs the pointers of the handlers that stay.
 */
module Reload {
  import opened Handlers

  type OldSubs = map<Name, map<Name, Addr>>

  /** Port names and connectors whose stored address of that port must be replaced. */
  type NeedsNewAddr = set<(Name, Addr)>

  // ----- What the single steps do ------------------------------------------------------------

  /** The handlers of `d` and the ports of their connectors are disabled; the ports
      that have to be enabled again are in `re`. */
  ghost predicate Disabled(a: State, b: State, d: set<Name>, re: set<Name>) {
    && b == a.(enabled := b.enabled) && b.enabled.Keys == a.enabled.Keys
    && re <= a.registry.Keys - d
    && (forall n :: n in re ==> a.registry[n] in a.enabled && a.enabled[a.registry[n]])
    && (forall x ::
        x in a.names && x in a.enabled && a.names[x] !in d ==> b.enabled[x] == (a.enabled[x] && a.names[x] !in re))
  }

  /** The connectors of `d` are in no subscriber table any more. */
  ghost predicate Unsubscribed(a: State, b: State, d: set<Name>) {
    && b == a.(subs := b.subs) && b.subs.Keys == a.subs.Keys
    && forall x :: x in a.subs ==> b.subs[x] == a.subs[x] - d
  }

  function AddressesOf(s: State, d: set<Name>): set<Addr> {
    set x | x in s.names && s.names[x] in d
  }

  /** The state without the handlers of `d`. */
  function Without(s: State, d: set<Name>): State {
    var gone := AddressesOf(s, d);
    State(s.names - gone, s.enabled - gone, s.subs - gone, s.conns - gone, s.registry - d, s.ports - d,
          s.connectors - d)
  }

  /** What was noted about the handlers `names` before they were deleted: their
      subscribers, and the connectors among these that are not in `d`. */
  ghost predicate NotedFor(s: State, d: set<Name>, names: set<Name>, oldSubs: OldSubs, needs: NeedsNewAddr) {
    && oldSubs.Keys == names
    && (forall n :: n in oldSubs ==> n in s.registry && s.registry[n] in s.subs && oldSubs[n] == s.subs[s.registry[n]])
    && (forall n, a :: (n, a) in needs <==>
          n in oldSubs && a in s.conns && exists m :: m in oldSubs[n] && oldSubs[n][m] == a && m !in d)
  }

  ghost predicate Noted(s: State, d: set<Name>, ch: set<Name>, oldSubs: OldSubs, needs: NeedsNewAddr) {
    NotedFor(s, d, d * ch, oldSubs, needs)
  }

  /** New handlers `made` with fresh addresses, registered under their names. */
  ghost predicate Allocated(a: State, b: State, made: map<Name, Addr>) {
    && made.Values !! a.names.Keys
    && (forall n, m :: n in made && m in made && made[n] == made[m] ==> n == m)
    && b.registry == a.registry + made
    && b.names.Keys == a.names.Keys + made.Values
    && b.enabled.Keys == a.enabled.Keys + made.Values
    && (forall x :: x in a.names ==> b.names[x] == a.names[x])
    && (forall x :: x in a.enabled && x in a.names ==> b.enabled[x] == a.enabled[x])
    && (forall n :: n in made ==> b.names[made[n]] == n && !b.enabled[made[n]])
  }

  ghost predicate PortsMade(a: State, b: State, made: map<Name, Addr>) {
    && Allocated(a, b, made)
    && b.ports == a.ports + made && b.connectors == a.connectors && b.conns == a.conns
    && b.subs.Keys == a.subs.Keys + made.Values
    && (forall x :: x in a.subs && x in a.names ==> b.subs[x] == a.subs[x])
    && (forall n :: n in made ==> b.subs[made[n]] == map[])
  }

  /** The subscribers at `x` when those of the replaced ports are back. */
  function WithOldSubs(s: State, ch: set<Name>, oldSubs: OldSubs, x: Addr): map<Name, Addr>
    requires x in s.subs
  {
    if x in s.names && s.names[x] in ch && s.names[x] in oldSubs && x !in s.conns then s.subs[x] + oldSubs[s.names[x]]
    else s.subs[x]
  }

  /** The subscriptions of the replaced ports are back. */
  ghost predicate Resubscribed(a: State, b: State, ch: set<Name>, oldSubs: OldSubs) {
    && b == a.(subs := b.subs) && b.subs.Keys == a.subs.Keys
    && forall x :: x in a.subs ==> b.subs[x] == WithOldSubs(a, ch, oldSubs, x)
  }

  /** New connectors with connections to live ports, subscribed to those ports. */
  ghost predicate ConnectorsMade(a: State, b: State, made: map<Name, Addr>) {
    && Allocated(a, b, made)
    && b.connectors == a.connectors + made && b.ports == a.ports
    && b.conns.Keys == a.conns.Keys + made.Values
    && (forall x :: x in a.conns && x in a.names ==> b.conns[x] == a.conns[x])
    && b.subs.Keys == a.subs.Keys + made.Values
    && (forall n :: n in made ==> b.subs[made[n]] == map[] && Linked(b, made[n]))
    && (forall n ::
        n in a.connectors ==> a.connectors[n] in a.subs && b.subs[a.connectors[n]] == a.subs[a.connectors[n]])
    && (forall p ::
        p in a.ports ==> a.ports[p] in a.subs && Joined(a.subs[a.ports[p]], b.subs[a.ports[p]], b.conns, made, p))
  }

  /** All connections of the connector at `x` lead to live ports. */
  ghost predicate Linked(s: State, x: Addr) {
    x in s.conns && forall k :: 0 <= k < |s.conns[x]| ==>
      s.conns[x][k].peer in s.ports && s.ports[s.conns[x][k].peer] == s.conns[x][k].addr
  }

  /** The subscribers of port `p` before and after making the connectors `made`. */
  ghost predicate Joined(before: map<Name, Addr>, after: map<Name, Addr>, conns: map<Addr, seq<Connection>>,
                         made: map<Name, Addr>, p: Name) {
    && (forall n :: n in made ==> made[n] in conns)
    && (forall n :: n in after <==> if n in made then ConnectedTo(conns[made[n]], p) else n in before)
    && (forall n :: n in after ==> after[n] == if n in made then made[n] else before[n])
  }

  /** Every connection that needed it has the new address of its port. */
  ghost predicate Readdressed(a: State, b: State, ch: set<Name>, needs: NeedsNewAddr) {
    && b == a.(conns := b.conns) && b.conns.Keys == a.conns.Keys
    && (forall x :: x in a.conns ==> |b.conns[x]| == |a.conns[x]|)
    && (forall x, k ::
        x in a.conns && 0 <= k < |a.conns[x]| ==> b.conns[x][k] == NewAddr(a.registry, ch, needs, x, a.conns[x][k]))
  }

  function NewAddr(registry: map<Name, Addr>, ch: set<Name>, needs: NeedsNewAddr, x: Addr, c: Connection): Connection {
    if c.peer in ch && c.peer in registry && (c.peer, x) in needs then c.(addr := registry[c.peer]) else c
  }

  ghost predicate Reenabled(a: State, b: State, re: set<Name>) {
    && b == a.(enabled := b.enabled) && b.enabled.Keys == a.enabled.Keys
    && forall x :: x in a.enabled && x in a.names ==> b.enabled[x] == (a.enabled[x] || a.names[x] in re)
  }

  // ----- The invariant between tearing down and repairing ------------------------------------

  /** A connection is right, or noted as needing the new address of a changed port. */
  ghost predicate RightOrNoted(s: State, ch: set<Name>, needs: NeedsNewAddr, x: Addr, c: Connection) {
    || (c.peer in s.ports && s.ports[c.peer] == c.addr)
    || (c.peer in ch && (c.peer, x) in needs)
  }

  ghost predicate SubscribersNoted(s: State, oldSubs: OldSubs, p: Name) {
    && p in oldSubs
    && (forall n :: n in oldSubs[p] <==>
          n in s.connectors && s.connectors[n] in s.conns && ConnectedTo(s.conns[s.connectors[n]], p))
    && (forall n :: n in oldSubs[p] ==> n in s.connectors && oldSubs[p][n] == s.connectors[n])
  }

  ghost predicate ConnectorRight(s: State, ch: set<Name>, needs: NeedsNewAddr, n: Name) {
    && n in s.connectors && s.connectors[n] in s.conns
    && s.connectors[n] in s.subs && s.subs[s.connectors[n]] == map[]
    && forall k :: 0 <= k < |s.conns[s.connectors[n]]| ==>
         RightOrNoted(s, ch, needs, s.connectors[n], s.conns[s.connectors[n]][k])
  }

  /** The tables agree, and connections are right or noted. */
  ghost predicate Torn(s: State, ch: set<Name>, needs: NeedsNewAddr) {
    Tables(s) && forall n :: n in s.connectors ==> ConnectorRight(s, ch, needs, n)
  }

  /** While ports are being replaced: subscriber tables are right, or still empty
      with their old content noted. */
  ghost predicate Mid(s: State, ch: set<Name>, oldSubs: OldSubs, needs: NeedsNewAddr) {
    && Torn(s, ch, needs)
    && (forall p :: p in s.ports && p !in ch ==> SubscribersMatch(s, p) && SubscriberAddrs(s, p))
    && (forall p :: p in s.ports && p in ch ==> s.ports[p] in s.subs && s.subs[s.ports[p]] == map[])
    && (forall p :: p in ch ==> SubscribersNoted(s, oldSubs, p))
  }

  /** When all subscriber tables are right again. */
  ghost predicate Late(s: State, ch: set<Name>, needs: NeedsNewAddr) {
    Torn(s, ch, needs) && forall p :: p in s.ports ==> SubscribersMatch(s, p) && SubscriberAddrs(s, p)
  }

  // ----- Tearing down ---------------------------------------------------------------------------

  /** No connector that stays is subscribed to a handler that is only deleted. */
  ghost predicate NoneLeftDangling(s: State, d: set<Name>, ch: set<Name>) {
    forall n, m ::
      n in d && n !in ch && n in s.registry && s.registry[n] in s.subs && m in s.subs[s.registry[n]] ==> m in d
  }

  lemma TablesWithout(s: State, d: set<Name>)
    requires Tables(s)
    ensures Tables(Without(s, d))
  {
    FiledWithout(s, d);
    AddressedWithout(s, d);
  }

  lemma FiledWithout(s: State, d: set<Name>)
    requires Filed(s)
    ensures Filed(Without(s, d))
  {
    hide AddressesOf;
    assert (s.registry - d).Keys == s.registry.Keys - d;
  }

  lemma AddressedWithout(s: State, d: set<Name>)
    requires Addressed(s)
    ensures Addressed(Without(s, d))
  {
    WithoutKeys(s, d);
    hide *;
    var u := Without(s, d);
    WithoutTables(s, d);
    forall n | n in u.registry
      ensures u.registry[n] in u.names && u.names[u.registry[n]] == n
      ensures (u.registry[n] in u.conns <==> n in u.connectors)
    {
      RegisteredAt(s, n);
      WithoutAt(s, d, s.registry[n]);
    }
    forall x | x in u.names ensures u.names[x] in u.registry && u.registry[u.names[x]] == x {
      WithoutName(s, d, x);
      NamedAt(s, x);
      WithoutAt(s, d, x);
    }
    AddressedFold(u);
  }

  lemma WithoutKeys(s: State, d: set<Name>)
    requires s.names.Keys == s.enabled.Keys == s.subs.Keys && s.conns.Keys <= s.names.Keys
    ensures var u := Without(s, d); u.names.Keys == u.enabled.Keys == u.subs.Keys && u.conns.Keys <= u.names.Keys
  {
    hide AddressesOf;
    var u, gone := Without(s, d), AddressesOf(s, d);
    assert u.names.Keys == s.names.Keys - gone && u.enabled.Keys == s.enabled.Keys - gone;
    assert u.subs.Keys == s.subs.Keys - gone && u.conns.Keys == s.conns.Keys - gone;
  }

  lemma RegisteredAt(s: State, n: Name)
    requires Addressed(s) && n in s.registry
    ensures s.registry[n] in s.names && s.names[s.registry[n]] == n && (s.registry[n] in s.conns <==> n in s.connectors)
    ensures s.registry[n] in s.enabled && s.registry[n] in s.subs
  {
  }

  lemma AddressedFold(s: State)
    requires s.names.Keys == s.enabled.Keys == s.subs.Keys && s.conns.Keys <= s.names.Keys
    requires forall n :: n in s.registry ==>
             s.registry[n] in s.names && s.names[s.registry[n]] == n
             && (s.registry[n] in s.conns <==> n in s.connectors)
    requires forall x :: x in s.names ==> s.names[x] in s.registry && s.registry[s.names[x]] == x
    ensures Addressed(s)
  {
  }

  lemma NamedAt(s: State, x: Addr)
    requires Addressed(s) && x in s.names
    ensures s.names[x] in s.registry && s.registry[s.names[x]] == x
    ensures x in s.enabled && x in s.subs
  {
  }

  lemma WithoutName(s: State, d: set<Name>, x: Addr)
    requires x in Without(s, d).names
    ensures x in s.names && s.names[x] !in d
  {
  }

  lemma InvTables(s: State)
    requires Inv(s)
    ensures Filed(s) && Addressed(s) && Tables(s)
  {
  }

  lemma TablesParts(s: State)
    requires Tables(s)
    ensures Filed(s) && Addressed(s)
  {
    hide Filed, Addressed;
  }

  lemma FiledKeys(s: State)
    requires Filed(s)
    ensures s.registry.Keys == s.ports.Keys + s.connectors.Keys && s.ports.Keys !! s.connectors.Keys
  {
  }

  /** A handler is a port or a connector. */
  lemma PortOrConnector(s: State, n: Name)
    requires Filed(s) && n in s.registry
    ensures if n in s.ports then n !in s.connectors && s.registry[n] == s.ports[n]
            else n in s.connectors && s.registry[n] == s.connectors[n]
  {
  }

  lemma TablesSame(a: State, b: State)
    requires Tables(a) && b == a.(enabled := b.enabled, subs := b.subs)
    requires b.enabled.Keys == a.enabled.Keys && b.subs.Keys == a.subs.Keys
    ensures Tables(b)
  {
  }

  lemma DetachedTables(s: State, t: State, d: set<Name>)
    requires Tables(s) && Detached(s, t, d)
    ensures Tables(t) && t.registry == s.registry && t.ports == s.ports && t.connectors == s.connectors
  {
    TablesSame(s, t);
  }

  /** What the invariant says about one connector. */
  lemma ConnectorFacts(s: State, n: Name)
    requires Inv(s) && n in s.connectors
    ensures var x := s.connectors[n];
            && x in s.names && s.names[x] == n && x in s.conns && x in s.subs && s.subs[x] == map[]
            && (forall k ::
                0 <= k < |s.conns[x]| ==>
                  s.conns[x][k].peer in s.ports && s.ports[s.conns[x][k].peer] == s.conns[x][k].addr)
  {
    assert NoDangling(s, n);
  }

  /** What the invariant says about one port. */
  lemma PortFacts(s: State, p: Name)
    requires Inv(s) && p in s.ports
    ensures var x := s.ports[p];
            && p in s.registry && s.registry[p] == x && x in s.names && s.names[x] == p && x in s.subs && x !in s.conns
            && p !in s.connectors
            && (forall n :: n in s.subs[x] <==>
                  n in s.connectors && s.connectors[n] in s.conns && ConnectedTo(s.conns[s.connectors[n]], p))
            && (forall n :: n in s.subs[x] ==> s.subs[x][n] == s.connectors[n])
  {
    assert SubscribersMatch(s, p) && SubscriberAddrs(s, p);
  }

  /** What removing handlers does to a handler that stays. */
  lemma WithoutAt(s: State, d: set<Name>, x: Addr)
    requires x in s.names && s.names[x] !in d
    ensures var u := Without(s, d);
            && x in u.names && u.names[x] == s.names[x]
            && (x in s.conns <==> x in u.conns) && (x in s.conns ==> u.conns[x] == s.conns[x])
            && (x in s.subs <==> x in u.subs) && (x in s.subs ==> u.subs[x] == s.subs[x])
            && (x in s.enabled <==> x in u.enabled) && (x in s.enabled ==> u.enabled[x] == s.enabled[x])
    ensures Without(s, d).ports == s.ports - d && Without(s, d).connectors == s.connectors - d
    ensures Without(s, d).registry == s.registry - d
  {
  }

  lemma WithoutTables(s: State, d: set<Name>)
    ensures Without(s, d).ports == s.ports - d && Without(s, d).connectors == s.connectors - d
    ensures Without(s, d).registry == s.registry - d
  {
  }

  /** What tearing down has done so far: flags and subscriptions. */
  ghost predicate Detached(s: State, t: State, d: set<Name>) {
    && t == s.(enabled := t.enabled, subs := t.subs) && t.enabled.Keys == s.enabled.Keys && t.subs.Keys == s.subs.Keys
    && forall x :: x in s.subs ==> t.subs[x] == s.subs[x] - d
  }

  lemma DetachedAt(s: State, t: State, d: set<Name>, x: Addr)
    requires Detached(s, t, d) && x in s.subs
    ensures x in t.subs && t.subs[x] == s.subs[x] - d
    ensures t.names == s.names && t.conns == s.conns && t.registry == s.registry && t.ports == s.ports
    ensures t.connectors == s.connectors
    ensures t.enabled.Keys == s.enabled.Keys && t.subs.Keys == s.subs.Keys
    ensures t == s.(enabled := t.enabled, subs := t.subs)
  {
  }

  lemma NotedAt(t: State, d: set<Name>, ch: set<Name>, oldSubs: OldSubs, needs: NeedsNewAddr, p: Name)
    requires Noted(t, d, ch, oldSubs, needs) && p in ch && p in d
    ensures p in oldSubs && p in t.registry && t.registry[p] in t.subs && oldSubs[p] == t.subs[t.registry[p]]
    ensures forall m :: m in oldSubs[p] && oldSubs[p][m] in t.conns && m !in d ==> (p, oldSubs[p][m]) in needs
  {
  }

  /** A connector that stays keeps right connections, or ones that are noted. */
  lemma StayingConnector(s: State, d: set<Name>, ch: set<Name>, oldSubs: OldSubs, needs: NeedsNewAddr, t: State,
                         n: Name)
    requires Inv(s) && ch <= d && NoneLeftDangling(s, d, ch)
    requires Detached(s, t, d) && Noted(t, d, ch, oldSubs, needs)
    requires n in s.connectors && n !in d
    ensures ConnectorRight(Without(t, d), ch, needs, n)
  {
    hide Inv, Tables, Detached, Noted, Without, NoneLeftDangling, NoDangling, SubscribersMatch, SubscriberAddrs,
         ConnectedTo;
    var u := Without(t, d);
    var x := s.connectors[n];
    ConnectorFacts(s, n);
    DetachedAt(s, t, d, x);
    WithoutAt(t, d, x);
    forall k | 0 <= k < |s.conns[x]| ensures RightOrNoted(u, ch, needs, x, s.conns[x][k]) {
      var p := s.conns[x][k].peer;
      PortFacts(s, p);
      IsConnected(s.conns[x], k);
      if p in ch {
        NotedAt(t, d, ch, oldSubs, needs, p);
        DetachedAt(s, t, d, s.ports[p]);
      } else if p in d {
        Dangles(s, d, ch, p, n);
      }
    }
  }

  lemma IsConnected(cs: seq<Connection>, k: nat)
    requires k < |cs|
    ensures ConnectedTo(cs, cs[k].peer)
  {
  }

  lemma Dangles(s: State, d: set<Name>, ch: set<Name>, p: Name, n: Name)
    requires NoneLeftDangling(s, d, ch) && p in d && p !in ch && p in s.registry && s.registry[p] in s.subs
    requires n in s.subs[s.registry[p]]
    ensures n in d
  {
  }

  /** A port that stays keeps right subscribers. */
  lemma StayingPort(s: State, d: set<Name>, t: State, p: Name)
    requires Inv(s) && Detached(s, t, d)
    requires p in s.ports && p !in d
    ensures SubscribersMatch(Without(t, d), p) && SubscriberAddrs(Without(t, d), p)
  {
    hide Inv, Tables, Detached, Without, ConnectedTo;
    var u := Without(t, d);
    var x := s.ports[p];
    PortFacts(s, p);
    DetachedAt(s, t, d, x);
    WithoutAt(t, d, x);
    forall n | n in s.connectors && n !in d
      ensures s.connectors[n] in s.conns && s.connectors[n] in u.conns
      ensures u.conns[s.connectors[n]] == s.conns[s.connectors[n]]
    {
      ConnectorFacts(s, n);
      WithoutAt(t, d, s.connectors[n]);
    }
  }

  /** The connectors that stay keep their connections. */
  lemma StayingConnections(s: State, d: set<Name>, t: State, p: Name, n: Name)
    requires Inv(s) && Detached(s, t, d) && n in s.connectors && n !in d
    ensures var u := Without(t, d);
            && n in u.connectors && u.connectors[n] == s.connectors[n]
            && s.connectors[n] in s.conns && s.connectors[n] in u.conns
            && u.conns[s.connectors[n]] == s.conns[s.connectors[n]]
            && (p !in s.ports ==> !ConnectedTo(u.conns[s.connectors[n]], p))
  {
    hide Inv, Tables, Filed, Addressed, Detached, Without, AddressesOf;
    WithoutTables(t, d);
    ConnectorFacts(s, n);
    DetachedAt(s, t, d, s.connectors[n]);
    WithoutAt(t, d, s.connectors[n]);
  }

  /** The old subscribers of a changed port are noted. */
  lemma ChangedPortNoted(s: State, d: set<Name>, ch: set<Name>, oldSubs: OldSubs, needs: NeedsNewAddr, t: State,
                         p: Name)
    requires Inv(s) && ch <= d && Detached(s, t, d)
    requires Noted(t, d, ch, oldSubs, needs) && p in ch && p in s.ports
    ensures SubscribersNoted(Without(t, d), oldSubs, p)
  {
    hide Inv, Tables, Filed, Addressed, Detached, Without, AddressesOf, Noted, NoDangling, SubscribersMatch,
         SubscriberAddrs, ConnectedTo;
    NotedAt(t, d, ch, oldSubs, needs, p);
    WithoutTables(t, d);
    PortFacts(s, p);
    DetachedAt(s, t, d, s.ports[p]);
    forall n | n in s.connectors && n !in d
      ensures var u := Without(t, d);
              && n in u.connectors && u.connectors[n] == s.connectors[n]
              && s.connectors[n] in s.conns && s.connectors[n] in u.conns
              && u.conns[s.connectors[n]] == s.conns[s.connectors[n]]
    {
      StayingConnections(s, d, t, p, n);
    }
  }

  /** A changed connector has no subscribers to note. */
  lemma ChangedConnectorNoted(s: State, d: set<Name>, ch: set<Name>, oldSubs: OldSubs, needs: NeedsNewAddr, t: State,
                              p: Name)
    requires Inv(s) && ch <= d && Detached(s, t, d)
    requires Noted(t, d, ch, oldSubs, needs) && p in ch && p in s.connectors && p !in s.ports
    requires s.registry[p] == s.connectors[p]
    ensures SubscribersNoted(Without(t, d), oldSubs, p)
  {
    hide Inv, Tables, Filed, Addressed, Detached, Without, AddressesOf, Noted, NoDangling, SubscribersMatch,
         SubscriberAddrs, ConnectedTo;
    NotedAt(t, d, ch, oldSubs, needs, p);
    WithoutTables(t, d);
    ConnectorFacts(s, p);
    DetachedAt(s, t, d, s.connectors[p]);
    assert oldSubs[p] == map[];
    forall n | n in s.connectors && n !in d
      ensures var u := Without(t, d);
              && n in u.connectors && u.connectors[n] == s.connectors[n]
              && s.connectors[n] in u.conns && !ConnectedTo(u.conns[s.connectors[n]], p)
    {
      StayingConnections(s, d, t, p, n);
    }
  }

  lemma TornDown(s: State, d: set<Name>, ch: set<Name>, oldSubs: OldSubs, needs: NeedsNewAddr, t: State)
    requires Inv(s) && ch <= d <= s.registry.Keys && NoneLeftDangling(s, d, ch)
    requires Detached(s, t, d) && Noted(t, d, ch, oldSubs, needs)
    ensures Mid(Without(t, d), ch, oldSubs, needs)
  {
    hide *;
    var u := Without(t, d);
    InvTables(s);
    DetachedTables(s, t, d);
    TablesWithout(t, d);
    WithoutTables(t, d);
    forall n | n in u.connectors ensures ConnectorRight(u, ch, needs, n) {
      StayingConnector(s, d, ch, oldSubs, needs, t, n);
    }
    TornFold(u, ch, needs);
    forall p | p in u.ports && p !in ch ensures SubscribersMatch(u, p) && SubscriberAddrs(u, p) {
      StayingPort(s, d, t, p);
    }
    forall p | p in ch ensures SubscribersNoted(u, oldSubs, p) {
      ChangedNoted(s, d, ch, oldSubs, needs, t, p);
    }
    MidFold(u, ch, oldSubs, needs);
  }

  lemma ChangedNoted(s: State, d: set<Name>, ch: set<Name>, oldSubs: OldSubs, needs: NeedsNewAddr, t: State, p: Name)
    requires Inv(s) && ch <= d <= s.registry.Keys && Detached(s, t, d) && Noted(t, d, ch, oldSubs, needs) && p in ch
    ensures SubscribersNoted(Without(t, d), oldSubs, p)
  {
    hide *;
    InvTables(s);
    PortOrConnector(s, p);
    if p in s.ports {
      ChangedPortNoted(s, d, ch, oldSubs, needs, t, p);
    } else {
      ChangedConnectorNoted(s, d, ch, oldSubs, needs, t, p);
    }
  }

  lemma TornFold(s: State, ch: set<Name>, needs: NeedsNewAddr)
    requires Tables(s) && forall n :: n in s.connectors ==> ConnectorRight(s, ch, needs, n)
    ensures Torn(s, ch, needs)
  {
    hide Tables, ConnectorRight;
  }

  lemma MidFold(s: State, ch: set<Name>, oldSubs: OldSubs, needs: NeedsNewAddr)
    requires Torn(s, ch, needs)
    requires forall p :: p in s.ports && p !in ch ==> SubscribersMatch(s, p) && SubscriberAddrs(s, p)
    requires forall p :: p in s.ports && p in ch ==> s.ports[p] in s.subs && s.subs[s.ports[p]] == map[]
    requires forall p :: p in ch ==> SubscribersNoted(s, oldSubs, p)
    ensures Mid(s, ch, oldSubs, needs)
  {
    hide Torn, SubscribersMatch, SubscriberAddrs, SubscribersNoted;
  }
}
