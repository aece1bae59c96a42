/**
  The second half of a reload: building ports and connectors, subscribing the
  connectors that stay to the new ports, and replacing the old addresses.
 */
module Rebuild {
  import opened Handlers
  import opened Reload

  // ----- Allocation ---------------------------------------------------------------------------

  /** Where the new handlers are filed: as connectors or as ports. */
  ghost predicate FiledAs(a: State, b: State, made: map<Name, Addr>, connectors: bool) {
    && b.registry == a.registry + made
    && b.ports == (if connectors then a.ports else a.ports + made)
    && b.connectors == (if connectors then a.connectors + made else a.connectors)
    && b.conns.Keys == (if connectors then a.conns.Keys + made.Values else a.conns.Keys)
    && b.subs.Keys == a.subs.Keys + made.Values
  }

  lemma PortsFiledAs(a: State, b: State, made: map<Name, Addr>)
    requires PortsMade(a, b, made)
    ensures FiledAs(a, b, made, false) && Allocated(a, b, made)
  {
    hide *;
    PortsMadeUnfold(a, b, made);
    AllocatedKeys(a, b, made);
    FiledAsFold(a, b, made, false);
  }

  lemma PortsMadeUnfold(a: State, b: State, made: map<Name, Addr>)
    requires PortsMade(a, b, made)
    ensures Allocated(a, b, made) && b.ports == a.ports + made && b.connectors == a.connectors && b.conns == a.conns
    ensures b.subs.Keys == a.subs.Keys + made.Values
  {
    hide Allocated;
  }

  lemma ConnectorsMadeUnfold(a: State, b: State, made: map<Name, Addr>)
    requires ConnectorsMade(a, b, made)
    ensures Allocated(a, b, made) && b.ports == a.ports && b.connectors == a.connectors + made
    ensures b.conns.Keys == a.conns.Keys + made.Values && b.subs.Keys == a.subs.Keys + made.Values
  {
    hide Allocated, Linked, Joined;
  }

  lemma FiledAsFold(a: State, b: State, made: map<Name, Addr>, connectors: bool)
    requires b.registry == a.registry + made
    requires b.ports == (if connectors then a.ports else a.ports + made)
    requires b.connectors == (if connectors then a.connectors + made else a.connectors)
    requires b.conns.Keys == (if connectors then a.conns.Keys + made.Values else a.conns.Keys)
    requires b.subs.Keys == a.subs.Keys + made.Values
    ensures FiledAs(a, b, made, connectors)
  {
  }

  lemma ConnectorsFiledAs(a: State, b: State, made: map<Name, Addr>)
    requires ConnectorsMade(a, b, made)
    ensures FiledAs(a, b, made, true) && Allocated(a, b, made)
  {
    hide *;
    ConnectorsMadeUnfold(a, b, made);
    AllocatedKeys(a, b, made);
    FiledAsFold(a, b, made, true);
  }

  lemma FiledFold(s: State)
    requires s.registry.Keys == s.ports.Keys + s.connectors.Keys && s.ports.Keys !! s.connectors.Keys
    requires forall n :: n in s.registry ==>
               if n in s.ports then s.registry[n] == s.ports[n]
               else n in s.connectors && s.registry[n] == s.connectors[n]
    ensures Filed(s)
  {
  }

  lemma FiledAfter(a: State, b: State, made: map<Name, Addr>, connectors: bool)
    requires Filed(a) && FiledAs(a, b, made, connectors) && made.Keys !! a.registry.Keys
    ensures Filed(b)
  {
    hide *;
    FiledAfterKeys(a, b, made, connectors);
    forall n | n in b.registry
      ensures if n in b.ports then b.registry[n] == b.ports[n]
              else n in b.connectors && b.registry[n] == b.connectors[n]
    {
      FiledAfterAt(a, b, made, connectors, n);
    }
    FiledFold(b);
  }

  lemma FiledAfterKeys(a: State, b: State, made: map<Name, Addr>, connectors: bool)
    requires Filed(a) && FiledAs(a, b, made, connectors) && made.Keys !! a.registry.Keys
    ensures b.registry.Keys == b.ports.Keys + b.connectors.Keys && b.ports.Keys !! b.connectors.Keys
  {
    hide *;
    FiledKeys(a);
    FiledAsUnfold(a, b, made, connectors);
    MoreKeys(a.registry.Keys, a.ports.Keys, a.connectors.Keys, made.Keys, connectors);
  }

  lemma MoreKeys(all: set<Name>, ports: set<Name>, others: set<Name>, made: set<Name>, connectors: bool)
    requires all == ports + others && ports !! others && made !! all
    ensures var ports', others' :=
              if connectors then ports else ports + made, if connectors then others + made else others;
            all + made == ports' + others' && ports' !! others'
  {
  }

  lemma FiledAfterAt(a: State, b: State, made: map<Name, Addr>, connectors: bool, n: Name)
    requires Filed(a) && FiledAs(a, b, made, connectors) && made.Keys !! a.registry.Keys && n in b.registry
    ensures if n in b.ports then b.registry[n] == b.ports[n] else n in b.connectors && b.registry[n] == b.connectors[n]
  {
    hide *;
    FiledKeys(a);
    FiledAsUnfold(a, b, made, connectors);
    if n !in made { PortOrConnector(a, n); }
  }

  lemma FiledAsUnfold(a: State, b: State, made: map<Name, Addr>, connectors: bool)
    requires FiledAs(a, b, made, connectors)
    ensures b.registry == a.registry + made && b.registry.Keys == a.registry.Keys + made.Keys
    ensures b.ports == (if connectors then a.ports else a.ports + made)
    ensures b.connectors == (if connectors then a.connectors + made else a.connectors)
    ensures b.ports.Keys == (if connectors then a.ports.Keys else a.ports.Keys + made.Keys)
    ensures b.connectors.Keys == (if connectors then a.connectors.Keys + made.Keys else a.connectors.Keys)
    ensures b.conns.Keys == (if connectors then a.conns.Keys + made.Values else a.conns.Keys)
  {
  }

  /** An old handler after an allocation. */
  lemma AllocatedOld(a: State, b: State, made: map<Name, Addr>, n: Name)
    requires Addressed(a) && Allocated(a, b, made) && made.Keys !! a.registry.Keys && n in a.registry
    ensures n in b.registry && b.registry[n] == a.registry[n] && a.registry[n] in b.names && b.names[a.registry[n]] == n
    ensures a.registry[n] !in made.Values
  {
  }

  /** A new handler after an allocation. */
  lemma AllocatedNew(a: State, b: State, made: map<Name, Addr>, n: Name)
    requires Allocated(a, b, made) && n in made
    ensures n in b.registry && b.registry[n] == made[n] && made[n] in b.names && b.names[made[n]] == n
    ensures made[n] in made.Values && made[n] !in a.names
  {
    assert made[n] in made.Values;
  }

  /** The handler at an address after an allocation. */
  lemma AllocatedAt(a: State, b: State, made: map<Name, Addr>, x: Addr)
    requires Addressed(a) && Allocated(a, b, made) && made.Keys !! a.registry.Keys && x in b.names
    ensures b.names[x] in b.registry && b.registry[b.names[x]] == x
  {
    hide Addressed, Allocated;
    AllocatedKeys(a, b, made);
    if x in a.names {
      NamedAt(a, x);
      AllocatedOld(a, b, made, a.names[x]);
    } else {
      var n :| n in made && made[n] == x;
      AllocatedNew(a, b, made, n);
    }
  }

  lemma AllocatedKeys(a: State, b: State, made: map<Name, Addr>)
    requires Allocated(a, b, made)
    ensures b.registry == a.registry + made && made.Values !! a.names.Keys
    ensures b.names.Keys == a.names.Keys + made.Values
    ensures b.enabled.Keys == a.enabled.Keys + made.Values
  {
  }

  lemma AddressedKeys(a: State)
    requires Addressed(a)
    ensures a.names.Keys == a.enabled.Keys == a.subs.Keys && a.conns.Keys <= a.names.Keys
  {
  }

  lemma KeysAfter(a: State, b: State, made: map<Name, Addr>, connectors: bool)
    requires Addressed(a) && Allocated(a, b, made) && FiledAs(a, b, made, connectors)
    ensures b.names.Keys == b.enabled.Keys == b.subs.Keys && b.conns.Keys <= b.names.Keys
  {
    hide Allocated, Addressed;
    AllocatedKeys(a, b, made);
    AddressedKeys(a);
  }

  lemma RegisteredAfter(a: State, b: State, made: map<Name, Addr>, connectors: bool, n: Name)
    requires Addressed(a) && Allocated(a, b, made) && FiledAs(a, b, made, connectors)
    requires made.Keys !! a.registry.Keys && a.connectors.Keys <= a.registry.Keys && n in b.registry
    ensures b.registry[n] in b.names && b.names[b.registry[n]] == n && (b.registry[n] in b.conns <==> n in b.connectors)
  {
    hide *;
    FiledAsUnfold(a, b, made, connectors);
    AddressedKeys(a);
    if n in made {
      AllocatedNew(a, b, made, n);
    } else {
      AllocatedOld(a, b, made, n);
      RegisteredAt(a, n);
    }
  }

  lemma AddressedAfter(a: State, b: State, made: map<Name, Addr>, connectors: bool)
    requires Addressed(a) && Allocated(a, b, made) && FiledAs(a, b, made, connectors)
    requires made.Keys !! a.registry.Keys && a.connectors.Keys <= a.registry.Keys
    ensures Addressed(b)
  {
    hide *;
    KeysAfter(a, b, made, connectors);
    forall n | n in b.registry
      ensures b.registry[n] in b.names && b.names[b.registry[n]] == n
      ensures (b.registry[n] in b.conns <==> n in b.connectors)
    {
      RegisteredAfter(a, b, made, connectors, n);
    }
    forall x | x in b.names ensures b.names[x] in b.registry && b.registry[b.names[x]] == x {
      AllocatedAt(a, b, made, x);
    }
    AddressedFold(b);
  }

  lemma TablesAfter(a: State, b: State, made: map<Name, Addr>, connectors: bool)
    requires Tables(a) && Allocated(a, b, made) && FiledAs(a, b, made, connectors) && made.Keys !! a.registry.Keys
    ensures Tables(b)
  {
    assert a.connectors.Keys <= a.registry.Keys;
    hide Filed, Addressed, Allocated, FiledAs;
    FiledAfter(a, b, made, connectors);
    AddressedAfter(a, b, made, connectors);
  }

  // ----- The invariant along the building steps ------------------------------------------------

  lemma TornTables(s: State, ch: set<Name>, needs: NeedsNewAddr)
    requires Torn(s, ch, needs)
    ensures Tables(s) && Filed(s) && Addressed(s)
    ensures s.connectors.Keys <= s.registry.Keys && s.ports.Keys <= s.registry.Keys && s.ports.Keys !! s.connectors.Keys
  {
  }

  /** What holds of a connector whose connections may still be waiting for an address. */
  lemma TornConnector(s: State, ch: set<Name>, needs: NeedsNewAddr, n: Name)
    requires Torn(s, ch, needs) && n in s.connectors
    ensures var x := s.connectors[n];
            && n in s.registry && s.registry[n] == x && x in s.names && s.names[x] == n && x in s.conns && x in s.subs
            && s.subs[x] == map[]
            && (forall k :: 0 <= k < |s.conns[x]| ==> RightOrNoted(s, ch, needs, x, s.conns[x][k]))
  {
    hide RightOrNoted;
    assert ConnectorRight(s, ch, needs, n);
  }

  lemma TornPort(s: State, ch: set<Name>, needs: NeedsNewAddr, p: Name)
    requires Torn(s, ch, needs) && p in s.ports
    ensures var x := s.ports[p];
            p in s.registry && s.registry[p] == x && x in s.names && s.names[x] == p && x in s.subs && x !in s.conns
            && p !in s.connectors
  {
    hide ConnectorRight;
  }

  lemma ConnectorFold(s: State, ch: set<Name>, needs: NeedsNewAddr, n: Name)
    requires n in s.connectors && s.connectors[n] in s.conns && s.connectors[n] in s.subs
    requires s.subs[s.connectors[n]] == map[]
    requires forall k :: 0 <= k < |s.conns[s.connectors[n]]| ==>
             RightOrNoted(s, ch, needs, s.connectors[n], s.conns[s.connectors[n]][k])
    ensures ConnectorRight(s, ch, needs, n)
  {
    hide RightOrNoted;
  }

  /** More ports leave right connections right. */
  lemma StillRight(a: State, b: State, ch: set<Name>, needs: NeedsNewAddr, x: Addr, c: Connection)
    requires RightOrNoted(a, ch, needs, x, c)
    requires forall p :: p in a.ports ==> p in b.ports && b.ports[p] == a.ports[p]
    ensures RightOrNoted(b, ch, needs, x, c)
  {
  }

  lemma PortsMadeAt(a: State, b: State, made: map<Name, Addr>, x: Addr)
    requires PortsMade(a, b, made)
    ensures x in a.subs && x in a.names ==> x in b.subs && b.subs[x] == a.subs[x]
    ensures forall n :: n in made && made[n] == x ==> x in b.subs && b.subs[x] == map[]
  {
    hide Allocated;
  }

  /** A connector while ports are being made. */
  lemma PortsKeepConnector(a: State, b: State, made: map<Name, Addr>, ch: set<Name>, needs: NeedsNewAddr, n: Name)
    requires Torn(a, ch, needs) && PortsMade(a, b, made) && made.Keys !! a.registry.Keys && n in a.connectors
    ensures ConnectorRight(b, ch, needs, n)
  {
    hide *;
    TornTables(a, ch, needs);
    PortsMadeUnfold(a, b, made);
    TornConnector(a, ch, needs, n);
    var x := a.connectors[n];
    PortsMadeAt(a, b, made, x);
    forall k | 0 <= k < |a.conns[x]| ensures RightOrNoted(b, ch, needs, x, b.conns[x][k]) {
      StillRight(a, b, ch, needs, x, a.conns[x][k]);
    }
    ConnectorFold(b, ch, needs, n);
  }

  lemma MidUnfold(s: State, ch: set<Name>, oldSubs: OldSubs, needs: NeedsNewAddr)
    requires Mid(s, ch, oldSubs, needs)
    ensures Torn(s, ch, needs)
    ensures forall p :: p in s.ports && p !in ch ==> SubscribersMatch(s, p) && SubscriberAddrs(s, p)
    ensures forall p :: p in s.ports && p in ch ==> s.ports[p] in s.subs && s.subs[s.ports[p]] == map[]
    ensures forall p :: p in ch ==> SubscribersNoted(s, oldSubs, p)
  {
    hide Torn, SubscribersMatch, SubscriberAddrs, SubscribersNoted;
  }

  lemma PortsKeepTorn(a: State, b: State, made: map<Name, Addr>, ch: set<Name>, needs: NeedsNewAddr)
    requires Torn(a, ch, needs) && PortsMade(a, b, made) && made.Keys !! a.registry.Keys
    ensures Torn(b, ch, needs)
  {
    hide *;
    TornTables(a, ch, needs);
    PortsMadeUnfold(a, b, made);
    PortsFiledAs(a, b, made);
    TablesAfter(a, b, made, false);
    forall n | n in b.connectors ensures ConnectorRight(b, ch, needs, n) {
      PortsKeepConnector(a, b, made, ch, needs, n);
    }
    TornFold(b, ch, needs);
  }

  /** The subscribers of an old port stay right while ports are made. */
  lemma PortsKeepPort(a: State, b: State, made: map<Name, Addr>, ch: set<Name>, needs: NeedsNewAddr, p: Name)
    requires Torn(a, ch, needs) && PortsMade(a, b, made) && made.Keys !! a.registry.Keys
    requires p in a.ports && SubscribersMatch(a, p) && SubscriberAddrs(a, p)
    ensures SubscribersMatch(b, p) && SubscriberAddrs(b, p)
  {
    hide *;
    TornTables(a, ch, needs);
    PortsMadeUnfold(a, b, made);
    TornPort(a, ch, needs, p);
    PortsMadeAt(a, b, made, a.ports[p]);
    assert p !in made;
    forall n ensures SubscribedRight(b, p, n) {
      SubscribersAt(a, p, n);
      SubscribedIs(a, p, n);
      SubscribedIs(b, p, n);
    }
    SubscribersFold(b, p);
  }

  /** What the subscriber table of a port says about one name is right. */
  ghost predicate SubscribedRight(s: State, p: Name, n: Name) {
    && p in s.ports && s.ports[p] in s.subs
    && (n in s.subs[s.ports[p]] <==>
        n in s.connectors && s.connectors[n] in s.conns && ConnectedTo(s.conns[s.connectors[n]], p))
    && (n in s.subs[s.ports[p]] ==> n in s.connectors && s.subs[s.ports[p]][n] == s.connectors[n])
  }

  lemma SubscribersAt(s: State, p: Name, n: Name)
    requires SubscribersMatch(s, p) && SubscriberAddrs(s, p)
    ensures SubscribedRight(s, p, n)
  {
    hide ConnectedTo;
  }

  lemma SubscribedIs(s: State, p: Name, n: Name)
    ensures SubscribedRight(s, p, n) <==>
            && p in s.ports && s.ports[p] in s.subs
            && (n in s.subs[s.ports[p]] <==>
                n in s.connectors && s.connectors[n] in s.conns && ConnectedTo(s.conns[s.connectors[n]], p))
            && (n in s.subs[s.ports[p]] ==> n in s.connectors && s.subs[s.ports[p]][n] == s.connectors[n])
  {
    hide ConnectedTo;
  }

  lemma NobodyConnected(s: State, ch: set<Name>, needs: NeedsNewAddr, p: Name, n: Name)
    requires Torn(s, ch, needs) && p !in ch && p !in s.ports && n in s.connectors
    ensures s.connectors[n] in s.conns && !ConnectedTo(s.conns[s.connectors[n]], p)
  {
    hide Torn;
    TornConnector(s, ch, needs, n);
  }

  /** A port that is really new has no subscribers, and nobody is connected to it. */
  lemma NewPort(a: State, b: State, made: map<Name, Addr>, ch: set<Name>, needs: NeedsNewAddr, p: Name)
    requires Torn(a, ch, needs) && PortsMade(a, b, made) && made.Keys !! a.registry.Keys
    requires p in made && p !in ch
    ensures SubscribersMatch(b, p) && SubscriberAddrs(b, p)
  {
    hide Torn, Tables, Filed, Addressed, PortsMade, Allocated, ConnectedTo;
    TornTables(a, ch, needs);
    PortsMadeUnfold(a, b, made);
    PortsMadeAt(a, b, made, made[p]);
    forall n | n in a.connectors ensures a.connectors[n] in a.conns && !ConnectedTo(a.conns[a.connectors[n]], p) {
      NobodyConnected(a, ch, needs, p, n);
    }
  }

  lemma PortsKeepMid(a: State, b: State, made: map<Name, Addr>, ch: set<Name>, oldSubs: OldSubs, needs: NeedsNewAddr)
    requires Mid(a, ch, oldSubs, needs) && PortsMade(a, b, made) && made.Keys !! a.registry.Keys
    ensures Mid(b, ch, oldSubs, needs)
  {
    hide *;
    MidUnfold(a, ch, oldSubs, needs);
    PortsMadeUnfold(a, b, made);
    PortsKeepTorn(a, b, made, ch, needs);
    forall p | p in b.ports && p !in ch ensures SubscribersMatch(b, p) && SubscriberAddrs(b, p) {
      if p in made { NewPort(a, b, made, ch, needs, p); } else { PortsKeepPort(a, b, made, ch, needs, p); }
    }
    forall p | p in b.ports && p in ch ensures b.ports[p] in b.subs && b.subs[b.ports[p]] == map[] {
      PortsMadeAt(a, b, made, b.ports[p]);
      if p !in made { TornPort(a, ch, needs, p); }
    }
    forall p | p in ch ensures SubscribersNoted(b, oldSubs, p) {
      NotedSame(a, b, oldSubs, p);
    }
    MidFold(b, ch, oldSubs, needs);
  }

  lemma NotedSame(a: State, b: State, oldSubs: OldSubs, p: Name)
    requires SubscribersNoted(a, oldSubs, p) && b.connectors == a.connectors && b.conns == a.conns
    ensures SubscribersNoted(b, oldSubs, p)
  {
  }

  // ----- Subscribing again ------------------------------------------------------------------------

  lemma ResubscribedAt(a: State, b: State, ch: set<Name>, oldSubs: OldSubs, x: Addr)
    requires Resubscribed(a, b, ch, oldSubs) && x in a.subs
    ensures x in b.subs
    ensures b.subs[x] == if x in a.names && a.names[x] in ch && a.names[x] in oldSubs && x !in a.conns
                         then a.subs[x] + oldSubs[a.names[x]] else a.subs[x]
  {
  }

  lemma ResubscribedUnfold(a: State, b: State, ch: set<Name>, oldSubs: OldSubs)
    requires Resubscribed(a, b, ch, oldSubs)
    ensures b == a.(subs := b.subs) && b.subs.Keys == a.subs.Keys
  {
  }

  lemma ResubscribedConnector(a: State, b: State, ch: set<Name>, oldSubs: OldSubs, needs: NeedsNewAddr, n: Name)
    requires Torn(a, ch, needs) && Resubscribed(a, b, ch, oldSubs) && n in a.connectors
    ensures ConnectorRight(b, ch, needs, n)
  {
    hide *;
    TornConnector(a, ch, needs, n);
    ResubscribedUnfold(a, b, ch, oldSubs);
    var x := a.connectors[n];
    ResubscribedAt(a, b, ch, oldSubs, x);
    forall k | 0 <= k < |a.conns[x]| ensures RightOrNoted(b, ch, needs, x, b.conns[x][k]) {
      StillRight(a, b, ch, needs, x, a.conns[x][k]);
    }
    ConnectorFold(b, ch, needs, n);
  }

  lemma ResubscribedTorn(a: State, b: State, ch: set<Name>, oldSubs: OldSubs, needs: NeedsNewAddr)
    requires Torn(a, ch, needs) && Resubscribed(a, b, ch, oldSubs)
    ensures Torn(b, ch, needs)
  {
    hide *;
    TornTables(a, ch, needs);
    ResubscribedUnfold(a, b, ch, oldSubs);
    TablesSame(a, b);
    forall n | n in b.connectors ensures ConnectorRight(b, ch, needs, n) {
      ResubscribedConnector(a, b, ch, oldSubs, needs, n);
    }
    TornFold(b, ch, needs);
  }

  /** A port that was replaced gets its noted subscribers back. */
  lemma ResubscribedReplaced(a: State, b: State, ch: set<Name>, oldSubs: OldSubs, needs: NeedsNewAddr, p: Name)
    requires Torn(a, ch, needs) && Resubscribed(a, b, ch, oldSubs)
    requires p in a.ports && p in ch && a.ports[p] in a.subs && a.subs[a.ports[p]] == map[]
    requires SubscribersNoted(a, oldSubs, p)
    ensures SubscribersMatch(b, p) && SubscriberAddrs(b, p)
  {
    hide Torn, Tables, Filed, Addressed, Resubscribed, ConnectedTo;
    TornPort(a, ch, needs, p);
    ResubscribedUnfold(a, b, ch, oldSubs);
    ResubscribedAt(a, b, ch, oldSubs, a.ports[p]);
    assert map[] + oldSubs[p] == oldSubs[p];
  }

  lemma ResubscribedPort(a: State, b: State, ch: set<Name>, oldSubs: OldSubs, needs: NeedsNewAddr, p: Name)
    requires Torn(a, ch, needs) && Resubscribed(a, b, ch, oldSubs)
    requires p in a.ports && p !in ch && SubscribersMatch(a, p) && SubscriberAddrs(a, p)
    ensures SubscribersMatch(b, p) && SubscriberAddrs(b, p)
  {
    hide Torn, Tables, Filed, Addressed, Resubscribed, ConnectedTo;
    TornPort(a, ch, needs, p);
    ResubscribedUnfold(a, b, ch, oldSubs);
    ResubscribedAt(a, b, ch, oldSubs, a.ports[p]);
  }

  lemma ResubscribedLate(a: State, b: State, ch: set<Name>, oldSubs: OldSubs, needs: NeedsNewAddr)
    requires Mid(a, ch, oldSubs, needs) && Resubscribed(a, b, ch, oldSubs)
    ensures Late(b, ch, needs)
  {
    hide *;
    MidUnfold(a, ch, oldSubs, needs);
    ResubscribedUnfold(a, b, ch, oldSubs);
    ResubscribedTorn(a, b, ch, oldSubs, needs);
    forall p | p in b.ports ensures SubscribersMatch(b, p) && SubscriberAddrs(b, p) {
      if p in ch { ResubscribedReplaced(a, b, ch, oldSubs, needs, p); }
      else { ResubscribedPort(a, b, ch, oldSubs, needs, p); }
    }
    LateFold(b, ch, needs);
  }

  lemma LateFold(s: State, ch: set<Name>, needs: NeedsNewAddr)
    requires Torn(s, ch, needs) && forall p :: p in s.ports ==> SubscribersMatch(s, p) && SubscriberAddrs(s, p)
    ensures Late(s, ch, needs)
  {
    hide Torn, SubscribersMatch, SubscriberAddrs;
  }

  lemma LateUnfold(s: State, ch: set<Name>, needs: NeedsNewAddr)
    requires Late(s, ch, needs)
    ensures Torn(s, ch, needs) && forall p :: p in s.ports ==> SubscribersMatch(s, p) && SubscriberAddrs(s, p)
  {
    hide Torn, SubscribersMatch, SubscriberAddrs;
  }

  // ----- New connectors ---------------------------------------------------------------------------

  lemma ConnectorsMadeOld(a: State, b: State, made: map<Name, Addr>, n: Name)
    requires ConnectorsMade(a, b, made) && n in a.connectors && a.connectors[n] in a.conns && a.connectors[n] in a.names
    ensures a.connectors[n] in a.subs && a.connectors[n] in b.subs && b.subs[a.connectors[n]] == a.subs[a.connectors[n]]
    ensures a.connectors[n] in b.conns && b.conns[a.connectors[n]] == a.conns[a.connectors[n]]
  {
    hide Allocated, Linked, Joined;
  }

  lemma ConnectorsMadeNew(a: State, b: State, made: map<Name, Addr>, n: Name)
    requires ConnectorsMade(a, b, made) && n in made
    ensures made[n] in b.subs && b.subs[made[n]] == map[] && Linked(b, made[n])
  {
    hide Allocated, Joined;
  }

  lemma ConnectorsMadePort(a: State, b: State, made: map<Name, Addr>, p: Name)
    requires ConnectorsMade(a, b, made) && p in a.ports
    ensures a.ports[p] in a.subs && a.ports[p] in b.subs
    ensures Joined(a.subs[a.ports[p]], b.subs[a.ports[p]], b.conns, made, p)
  {
    hide Allocated, Linked;
  }

  lemma LinkedRight(s: State, ch: set<Name>, needs: NeedsNewAddr, x: Addr)
    requires Linked(s, x)
    ensures x in s.conns && forall k :: 0 <= k < |s.conns[x]| ==> RightOrNoted(s, ch, needs, x, s.conns[x][k])
  {
  }

  lemma ConnectorsKeepConnector(a: State, b: State, made: map<Name, Addr>, ch: set<Name>, needs: NeedsNewAddr, n: Name)
    requires Torn(a, ch, needs) && ConnectorsMade(a, b, made) && made.Keys !! a.registry.Keys && n in b.connectors
    ensures ConnectorRight(b, ch, needs, n)
  {
    hide *;
    TornTables(a, ch, needs);
    ConnectorsMadeUnfold(a, b, made);
    if n in made {
      ConnectorsMadeNew(a, b, made, n);
      LinkedRight(b, ch, needs, made[n]);
    } else {
      TornConnector(a, ch, needs, n);
      ConnectorsMadeOld(a, b, made, n);
      var x := a.connectors[n];
      forall k | 0 <= k < |a.conns[x]| ensures RightOrNoted(b, ch, needs, x, b.conns[x][k]) {
        StillRight(a, b, ch, needs, x, a.conns[x][k]);
      }
    }
    ConnectorFold(b, ch, needs, n);
  }

  lemma ConnectorsKeepTorn(a: State, b: State, made: map<Name, Addr>, ch: set<Name>, needs: NeedsNewAddr)
    requires Torn(a, ch, needs) && ConnectorsMade(a, b, made) && made.Keys !! a.registry.Keys
    ensures Torn(b, ch, needs)
  {
    hide *;
    TornTables(a, ch, needs);
    ConnectorsFiledAs(a, b, made);
    TablesAfter(a, b, made, true);
    forall n | n in b.connectors ensures ConnectorRight(b, ch, needs, n) {
      ConnectorsKeepConnector(a, b, made, ch, needs, n);
    }
    TornFold(b, ch, needs);
  }

  lemma JoinedAt(before: map<Name, Addr>, after: map<Name, Addr>, conns: map<Addr, seq<Connection>>,
                 made: map<Name, Addr>, p: Name, n: Name)
    requires Joined(before, after, conns, made, p)
    ensures n in made ==>
            made[n] in conns && (n in after <==> ConnectedTo(conns[made[n]], p)) && (n in after ==> after[n] == made[n])
    ensures n !in made ==> (n in after <==> n in before) && (n in after ==> after[n] == before[n])
  {
    hide ConnectedTo;
  }

  /** One possible subscriber of a port, after new connectors were made. */
  lemma ConnectorsKeepSubscriber(a: State, b: State, made: map<Name, Addr>, ch: set<Name>, needs: NeedsNewAddr,
                                 p: Name, n: Name)
    requires Torn(a, ch, needs) && ConnectorsMade(a, b, made) && made.Keys !! a.registry.Keys
    requires p in a.ports && SubscribersMatch(a, p) && SubscriberAddrs(a, p)
    ensures SubscribedRight(b, p, n)
  {
    hide *;
    TornTables(a, ch, needs);
    ConnectorsMadeUnfold(a, b, made);
    ConnectorsMadePort(a, b, made, p);
    SubscribersAt(a, p, n);
    SubscribedIs(a, p, n);
    SubscribedIs(b, p, n);
    JoinedAt(a.subs[a.ports[p]], b.subs[a.ports[p]], b.conns, made, p, n);
    if n !in made && n in a.connectors {
      TornConnector(a, ch, needs, n);
      ConnectorsMadeOld(a, b, made, n);
    }
  }

  lemma SubscribersFold(s: State, p: Name)
    requires p in s.ports && s.ports[p] in s.subs && forall n :: SubscribedRight(s, p, n)
    ensures SubscribersMatch(s, p) && SubscriberAddrs(s, p)
  {
    hide ConnectedTo;
    assert forall n :: SubscribedRight(s, p, n) ==>
        (n in s.subs[s.ports[p]] <==>
         n in s.connectors && s.connectors[n] in s.conns && ConnectedTo(s.conns[s.connectors[n]], p));
    assert forall n :: n in s.subs[s.ports[p]] ==> SubscribedRight(s, p, n);
  }

  lemma ConnectorsKeepPort(a: State, b: State, made: map<Name, Addr>, ch: set<Name>, needs: NeedsNewAddr, p: Name)
    requires Torn(a, ch, needs) && ConnectorsMade(a, b, made) && made.Keys !! a.registry.Keys
    requires p in a.ports && SubscribersMatch(a, p) && SubscriberAddrs(a, p)
    ensures SubscribersMatch(b, p) && SubscriberAddrs(b, p)
  {
    hide *;
    ConnectorsMadeUnfold(a, b, made);
    ConnectorsMadePort(a, b, made, p);
    forall n ensures SubscribedRight(b, p, n) {
      ConnectorsKeepSubscriber(a, b, made, ch, needs, p, n);
    }
    SubscribersFold(b, p);
  }

  lemma ConnectorsKeepLate(a: State, b: State, made: map<Name, Addr>, ch: set<Name>, needs: NeedsNewAddr)
    requires Late(a, ch, needs) && ConnectorsMade(a, b, made) && made.Keys !! a.registry.Keys
    ensures Late(b, ch, needs)
  {
    hide *;
    LateUnfold(a, ch, needs);
    ConnectorsMadeUnfold(a, b, made);
    ConnectorsKeepTorn(a, b, made, ch, needs);
    forall p | p in b.ports ensures SubscribersMatch(b, p) && SubscriberAddrs(b, p) {
      ConnectorsKeepPort(a, b, made, ch, needs, p);
    }
    LateFold(b, ch, needs);
  }

  // ----- New addresses -----------------------------------------------------------------------------

  lemma ReaddressedAt(a: State, b: State, ch: set<Name>, needs: NeedsNewAddr, x: Addr)
    requires Readdressed(a, b, ch, needs) && x in a.conns
    ensures x in b.conns && |b.conns[x]| == |a.conns[x]|
    ensures forall k :: 0 <= k < |a.conns[x]| ==> b.conns[x][k] == NewAddr(a.registry, ch, needs, x, a.conns[x][k])
  {
    hide NewAddr;
  }

  lemma ReaddressedUnfold(a: State, b: State, ch: set<Name>, needs: NeedsNewAddr)
    requires Readdressed(a, b, ch, needs)
    ensures b == a.(conns := b.conns) && b.conns.Keys == a.conns.Keys
  {
    hide NewAddr;
  }

  /** Every noted port was built again. */
  ghost predicate AllBack(s: State, ch: set<Name>, needs: NeedsNewAddr) {
    forall e :: e in needs && e.0 in ch ==> e.0 in s.ports
  }

  lemma AllBackAt(s: State, ch: set<Name>, needs: NeedsNewAddr, p: Name, x: Addr)
    requires AllBack(s, ch, needs) && p in ch && (p, x) in needs
    ensures p in s.ports
  {
    assert (p, x).0 in ch;
  }

  lemma ConnectionRight(a: State, ch: set<Name>, needs: NeedsNewAddr, x: Addr, c: Connection)
    requires Torn(a, ch, needs) && RightOrNoted(a, ch, needs, x, c) && AllBack(a, ch, needs)
    ensures var d := NewAddr(a.registry, ch, needs, x, c);
            d.peer == c.peer && d.peer in a.ports && a.ports[d.peer] == d.addr
  {
    hide Torn, AllBack;
    if c.peer in ch && (c.peer, x) in needs {
      AllBackAt(a, ch, needs, c.peer, x);
    }
    TornPort(a, ch, needs, c.peer);
  }

  /** A connector afterwards: the same peers, all of them live at the stored addresses. */
  lemma ReaddressedConnector(a: State, b: State, ch: set<Name>, needs: NeedsNewAddr, n: Name)
    requires Torn(a, ch, needs) && Readdressed(a, b, ch, needs) && AllBack(a, ch, needs) && n in a.connectors
    ensures NoDangling(b, n) && a.connectors[n] in a.conns && a.connectors[n] in b.conns && b.connectors == a.connectors
    ensures forall p :: ConnectedTo(b.conns[a.connectors[n]], p) <==> ConnectedTo(a.conns[a.connectors[n]], p)
    ensures a.connectors[n] in b.subs && b.subs[a.connectors[n]] == map[]
  {
    hide Torn, Readdressed, AllBack, RightOrNoted, NewAddr;
    TornConnector(a, ch, needs, n);
    ReaddressedUnfold(a, b, ch, needs);
    var x := a.connectors[n];
    ReaddressedAt(a, b, ch, needs, x);
    forall k | 0 <= k < |a.conns[x]|
      ensures var c := b.conns[x][k]; c.peer == a.conns[x][k].peer && c.peer in a.ports && a.ports[c.peer] == c.addr
    {
      ConnectionRight(a, ch, needs, x, a.conns[x][k]);
    }
  }

  lemma ReaddressedPort(a: State, b: State, ch: set<Name>, needs: NeedsNewAddr, p: Name)
    requires Torn(a, ch, needs) && Readdressed(a, b, ch, needs) && AllBack(a, ch, needs)
    requires p in a.ports && SubscribersMatch(a, p) && SubscriberAddrs(a, p)
    ensures SubscribersMatch(b, p) && SubscriberAddrs(b, p)
  {
    hide Torn, Readdressed, AllBack, ConnectedTo, NoDangling;
    ReaddressedUnfold(a, b, ch, needs);
    forall n | n in a.connectors
      ensures a.connectors[n] in a.conns && a.connectors[n] in b.conns
      ensures ConnectedTo(b.conns[a.connectors[n]], p) <==> ConnectedTo(a.conns[a.connectors[n]], p)
    {
      ReaddressedConnector(a, b, ch, needs, n);
    }
  }

  lemma ReaddressedTables(a: State, b: State, ch: set<Name>, needs: NeedsNewAddr)
    requires Tables(a) && Readdressed(a, b, ch, needs)
    ensures Tables(b)
  {
    ReaddressedUnfold(a, b, ch, needs);
    hide Readdressed;
    SameFiled(a, b);
    SameAddressed(a, b);
    hide Filed, Addressed;
  }

  lemma SameFiled(a: State, b: State)
    requires Filed(a) && b == a.(conns := b.conns)
    ensures Filed(b)
  {
  }

  lemma SameAddressed(a: State, b: State)
    requires Addressed(a) && b == a.(conns := b.conns) && b.conns.Keys == a.conns.Keys
    ensures Addressed(b)
  {
    assert forall x :: x in b.conns <==> x in a.conns;
  }

  lemma InvFold(s: State)
    requires Tables(s)
    requires forall n :: n in s.connectors ==> NoDangling(s, n)
    requires forall p :: p in s.ports ==> SubscribersMatch(s, p) && SubscriberAddrs(s, p)
    requires forall n :: n in s.connectors ==> s.connectors[n] in s.subs && s.subs[s.connectors[n]] == map[]
    ensures Inv(s)
  {
    hide Tables, NoDangling, SubscribersMatch, SubscriberAddrs;
  }

  /** With all noted addresses replaced, the invariant holds again. */
  lemma Repaired(a: State, b: State, ch: set<Name>, needs: NeedsNewAddr)
    requires Late(a, ch, needs) && Readdressed(a, b, ch, needs) && AllBack(a, ch, needs)
    ensures Inv(b)
  {
    hide *;
    LateUnfold(a, ch, needs);
    TornTables(a, ch, needs);
    ReaddressedUnfold(a, b, ch, needs);
    ReaddressedTables(a, b, ch, needs);
    forall n | n in b.connectors
      ensures NoDangling(b, n) && b.connectors[n] in b.subs && b.subs[b.connectors[n]] == map[]
    {
      ReaddressedConnector(a, b, ch, needs, n);
    }
    forall p | p in b.ports ensures SubscribersMatch(b, p) && SubscriberAddrs(b, p) {
      ReaddressedPort(a, b, ch, needs, p);
    }
    InvFold(b);
  }

  lemma FlagsOnly(a: State, b: State, n: Name)
    requires b == a.(enabled := b.enabled)
    ensures NoDangling(a, n) ==> NoDangling(b, n)
    ensures SubscribersMatch(a, n) && SubscriberAddrs(a, n) ==> SubscribersMatch(b, n) && SubscriberAddrs(b, n)
  {
    hide ConnectedTo;
  }

  lemma InvUnfold(s: State)
    requires Inv(s)
    ensures Tables(s)
    ensures forall n :: n in s.connectors ==> NoDangling(s, n)
    ensures forall p :: p in s.ports ==> SubscribersMatch(s, p) && SubscriberAddrs(s, p)
    ensures forall n :: n in s.connectors ==> s.connectors[n] in s.subs && s.subs[s.connectors[n]] == map[]
  {
    hide Tables, NoDangling, SubscribersMatch, SubscriberAddrs;
  }

  /** Enabling and disabling change flags only. */
  lemma FlagsInv(a: State, b: State)
    requires Inv(a) && b == a.(enabled := b.enabled) && b.enabled.Keys == a.enabled.Keys
    ensures Inv(b)
  {
    hide *;
    InvUnfold(a);
    TablesSame(a, b);
    forall n ensures n in b.connectors ==> NoDangling(b, n) {
      FlagsOnly(a, b, n);
    }
    forall p ensures p in b.ports ==> SubscribersMatch(b, p) && SubscriberAddrs(b, p) {
      FlagsOnly(a, b, p);
    }
    InvFold(b);
  }
}
