/**
  The steps of a reload put together: what one whole reload keeps.
 */
module ReloadRun {
  import opened Handlers
  import opened Reload
  import opened Rebuild
  import opened ReloadSteps
  import opened Wiring

  // ----- Handlers that stay ---------------------------------------------------------------------------

  /** Handler `n` is the same object in both states, enabled as the flag says; a connector has the
      same connections in the same order. */
  ghost predicate Stays(a: State, b: State, n: Name, flag: bool) {
    && n in a.registry && n in b.registry && b.registry[n] == a.registry[n]
    && a.registry[n] in a.names && a.registry[n] in b.names && b.names[a.registry[n]] == n
    && a.names[a.registry[n]] == n
    && a.registry[n] in b.enabled && b.enabled[a.registry[n]] == flag
    && (a.registry[n] in a.conns ==>
          a.registry[n] in b.conns && SameWires(a.conns[a.registry[n]], b.conns[a.registry[n]]))
  }

  lemma StaysIn(a: State, n: Name)
    requires Addressed(a) && n in a.registry
    ensures a.registry[n] in a.enabled && Stays(a, a, n, a.enabled[a.registry[n]])
  {
    hide Addressed, SameWires;
    RegisteredAt(a, n);
    if a.registry[n] in a.conns { SameWiresRefl(a.conns[a.registry[n]]); }
  }

  lemma StaysWithout(a: State, b: State, d: set<Name>, n: Name, flag: bool)
    requires Stays(a, b, n, flag) && n !in d
    ensures Stays(a, Without(b, d), n, flag)
  {
    hide Without, AddressesOf, SameWires;
    WithoutAt(b, d, a.registry[n]);
  }

  lemma StaysAllocated(a: State, b: State, c: State, made: map<Name, Addr>, n: Name, flag: bool)
    requires Stays(a, b, n, flag) && Allocated(b, c, made) && n !in made && WiresKeptAt(b, c)
    ensures Stays(a, c, n, flag)
  {
    hide SameWires;
    var x := a.registry[n];
    if x in a.conns { SameWiresTrans(a.conns[x], b.conns[x], c.conns[x]); }
  }

  /** The connectors among the live objects of both states have the same connections. */
  ghost predicate WiresKeptAt(a: State, b: State) {
    forall x :: x in a.conns && x in a.names ==> x in b.conns && SameWires(a.conns[x], b.conns[x])
  }

  lemma PortsKeepWires(a: State, b: State, made: map<Name, Addr>)
    requires PortsMade(a, b, made)
    ensures WiresKeptAt(a, b)
  {
    hide Allocated;
  }

  lemma ConnectorsKeepWires(a: State, b: State, made: map<Name, Addr>)
    requires ConnectorsMade(a, b, made)
    ensures WiresKeptAt(a, b)
  {
    hide Allocated, Linked, Joined;
  }

  lemma StaysSame(a: State, b: State, c: State, n: Name, flag: bool)
    requires Stays(a, b, n, flag) && c == b.(subs := c.subs, conns := c.conns) && WiresKept(b, c)
    ensures Stays(a, c, n, flag)
  {
    hide SameWires;
    var x := a.registry[n];
    if x in a.conns { SameWiresTrans(a.conns[x], b.conns[x], c.conns[x]); }
  }

  lemma StaysEnabled(a: State, b: State, c: State, names: set<Name>, n: Name, flag: bool)
    requires Stays(a, b, n, flag) && Reenabled(b, c, names)
    ensures Stays(a, c, n, flag || n in names)
  {
  }

  // ----- Names ----------------------------------------------------------------------------------------

  /** What a reload may assume about the names in `d` and in the new entries. */
  ghost predicate NamesFit(s: State, d: set<Name>, ch: set<Name>, ps: seq<Entry>, cs: seq<Entry>) {
    && ch <= d <= s.registry.Keys
    && NamesOf(ps) !! s.connectors.Keys - d
    && NamesOf(cs) !! s.ports.Keys - d
    && NamesOf(cs) !! NamesOf(ps)
    && NamesOf(cs) !! ch * s.ports.Keys
    && (forall k :: 0 <= k < |cs| ==> Avoids(cs[k].links, s.connectors.Keys - d + NamesOf(cs)))
  }

  /** A staying connector is connected to port `p`. */
  ghost predicate Awaited(s: State, d: set<Name>, p: Name) {
    p in s.registry && s.registry[p] in s.subs && exists m :: m in s.subs[s.registry[p]] && m !in d
  }

  /** The connectors waiting for an address are live ones, after the handlers were removed. */
  lemma WaitingLive(t: State, ch: set<Name>, oldSubs: OldSubs, needs: NeedsNewAddr, s: State, d: set<Name>,
                    e: (Name, Addr))
    requires Mid(t, ch, oldSubs, needs) && Noted(s, d, ch, oldSubs, needs) && e in needs
    ensures e.0 in ch && e.1 in t.conns
  {
    hide *;
    var m := NeedsOrigin(s, d, ch, oldSubs, needs, e);
    MidUnfold(t, ch, oldSubs, needs);
    NotedConnector(t, oldSubs, e.0, m);
  }

  lemma NeedsOrigin(s: State, d: set<Name>, ch: set<Name>, oldSubs: OldSubs, needs: NeedsNewAddr, e: (Name, Addr))
    returns (m: Name)
    requires Noted(s, d, ch, oldSubs, needs) && e in needs
    ensures e.0 in ch && e.0 in d && e.0 in oldSubs && m in oldSubs[e.0] && oldSubs[e.0][m] == e.1 && m !in d
    ensures e.0 in s.registry && s.registry[e.0] in s.subs && oldSubs[e.0] == s.subs[s.registry[e.0]]
  {
    assert e == (e.0, e.1);
    m :| m in oldSubs[e.0] && oldSubs[e.0][m] == e.1 && m !in d;
  }

  lemma NotedConnector(s: State, oldSubs: OldSubs, p: Name, m: Name)
    requires SubscribersNoted(s, oldSubs, p) && m in oldSubs[p]
    ensures m in s.connectors && s.connectors[m] in s.conns && oldSubs[p][m] == s.connectors[m]
  {
    hide ConnectedTo;
  }

  /** Some connector waits for changed port `p` exactly when a staying one is connected to it. */
  lemma AwaitedIff(a: State, s: State, d: set<Name>, ch: set<Name>, oldSubs: OldSubs, needs: NeedsNewAddr, p: Name)
    requires Inv(a) && Unsubscribed(a, s, d) && Noted(s, d, ch, oldSubs, needs) && p in ch && p in d
    ensures (exists e :: e in needs && e.0 == p) <==> Awaited(a, d, p)
    ensures Awaited(a, d, p) ==> p in a.ports
  {
    hide Inv, Noted, Unsubscribed;
    NotedAt(s, d, ch, oldSubs, needs, p);
    UnsubscribedAt(a, s, d, s.registry[p]);
    if e :| e in needs && e.0 == p {
      var m := NeedsOrigin(s, d, ch, oldSubs, needs, e);
      assert m in a.subs[a.registry[p]];
    }
    if Awaited(a, d, p) {
      var m :| m in a.subs[a.registry[p]] && m !in d;
      AwaitedPort(a, p, m);
      assert m in oldSubs[p];
      assert (p, oldSubs[p][m]).0 == p;
    }
  }

  lemma UnsubscribedAt(a: State, b: State, d: set<Name>, x: Addr)
    requires Unsubscribed(a, b, d)
    ensures b == a.(subs := b.subs) && b.subs.Keys == a.subs.Keys && (x in a.subs ==> b.subs[x] == a.subs[x] - d)
  {
  }

  lemma AwaitedPort(s: State, p: Name, m: Name)
    requires Inv(s) && p in s.registry && s.registry[p] in s.subs && m in s.subs[s.registry[p]]
    ensures p in s.ports && m in s.connectors && s.subs[s.registry[p]][m] == s.connectors[m]
    ensures s.connectors[m] in s.conns
  {
    hide *;
    InvTables(s);
    PortOrConnector(s, p);
    if p in s.ports {
      PortFacts(s, p);
    } else {
      ConnectorFacts(s, p);
    }
  }

  lemma UnsubscribedDetached(a: State, b: State, d: set<Name>)
    requires Unsubscribed(a, b, d)
    ensures Detached(a, b, d)
  {
  }

  lemma MidTables(s: State, ch: set<Name>, oldSubs: OldSubs, needs: NeedsNewAddr)
    requires Mid(s, ch, oldSubs, needs)
    ensures Tables(s) && Filed(s) && Addressed(s)
    ensures s.registry.Keys == s.ports.Keys + s.connectors.Keys && s.ports.Keys !! s.connectors.Keys
  {
    hide *;
    MidUnfold(s, ch, oldSubs, needs);
    TornTables(s, ch, needs);
    FiledKeys(s);
  }

  lemma LateTables(s: State, ch: set<Name>, needs: NeedsNewAddr)
    requires Late(s, ch, needs)
    ensures Tables(s) && Filed(s) && Addressed(s)
    ensures s.registry.Keys == s.ports.Keys + s.connectors.Keys && s.ports.Keys !! s.connectors.Keys
    ensures forall p :: p in s.ports ==> SubscriberAddrs(s, p)
  {
    hide *;
    LateUnfold(s, ch, needs);
    TornTables(s, ch, needs);
    FiledKeys(s);
  }

  lemma AllBackFold(s: State, ch: set<Name>, needs: NeedsNewAddr)
    requires forall e :: e in needs && e.0 in ch ==> e.0 in s.ports
    ensures AllBack(s, ch, needs)
  {
  }

  lemma StaysNamed(s: State, n: Name, flag: bool)
    requires Stays(s, s, n, flag)
    ensures n in s.registry
  {
  }

  // ----- Comparing configurations -------------------------------------------------------------------------

  datatype Outcome = Reloaded | Rejected | ShuttingDown | Terminal

  /** `createdIOHs`, `changedIOHs` and `deletedIOHs`, the entries to build, and
      whether the plugins changed. */
  datatype Diff = Diff(created: set<Name>, changed: set<Name>, deleted: set<Name>, ports: seq<Entry>,
                       connectors: seq<Entry>, uis: bool)

  function DeletedNames(old_: Config, new_: Config): set<Name> {
    (NamesOf(old_.ports) - NamesOf(new_.ports)) + (NamesOf(old_.connectors) - NamesOf(new_.connectors))
  }

  function ChangedNames(before: Files, after: Files, old_: Config, new_: Config): set<Name> {
    ReplacedNames(before, after, old_.ports, new_.ports)
      + ReplacedNames(before, after, old_.connectors, new_.connectors)
  }

  /** The live handlers that a reload deletes, for good or to replace them. */
  function GoneNames(s: State, before: Files, after: Files, old_: Config, new_: Config): set<Name> {
    (DeletedNames(old_, new_) + ChangedNames(before, after, old_, new_)) * s.registry.Keys
  }

  /** `confs` are the entries of `new_` to build. */
  ghost predicate ToBuild(before: Files, after: Files, old_: seq<Entry>, new_: seq<Entry>, confs: seq<Entry>) {
    && confs == Selected(before, after, old_, new_)
    && NamesOf(confs) == (NamesOf(new_) - NamesOf(old_)) + ReplacedNames(before, after, old_, new_)
    && forall e :: e in confs <==> e in new_ && Rebuilds(before, after, old_, e)
  }

  /** Something of a collection is new, changed or gone. */
  ghost predicate Changes(before: Files, after: Files, old_: seq<Entry>, new_: seq<Entry>) {
    NamesOf(new_) - NamesOf(old_) != {} || NamesOf(old_) - NamesOf(new_) != {}
    || ReplacedNames(before, after, old_, new_) != {}
  }

  ghost predicate IsDiff(before: Files, after: Files, old_: Config, new_: Config, x: Diff) {
    && (x.uis <==> Changes(before, after, old_.plugins, new_.plugins))
    && x.created == (NamesOf(new_.ports) - NamesOf(old_.ports)) + (NamesOf(new_.connectors) - NamesOf(old_.connectors))
    && x.changed == ChangedNames(before, after, old_, new_)
    && x.deleted == DeletedNames(old_, new_)
    && ToBuild(before, after, old_.ports, new_.ports, x.ports)
    && ToBuild(before, after, old_.connectors, new_.connectors, x.connectors)
  }

  /** A port or connector of that name is built: a valid new or changed entry. */
  ghost predicate Rebuilt(before: Files, after: Files, old_: seq<Entry>, new_: seq<Entry>, n: Name) {
    exists k :: 0 <= k < |new_| && new_[k].name == n && new_[k].valid && Rebuilds(before, after, old_, new_[k])
  }

  /** What the source takes for granted about a configuration: the names of ports and
      connectors differ, and links name no connector. */
  ghost predicate WellFormedConfig(c: Config) {
    DisjointNames(c) && forall k :: 0 <= k < |c.connectors| ==> Avoids(c.connectors[k].links, NamesOf(c.connectors))
  }

  /** Live handlers stem from the configuration. */
  ghost predicate LiveFrom(s: State, c: Config) {
    s.ports.Keys <= NamesOf(c.ports) && s.connectors.Keys <= NamesOf(c.connectors)
  }

  ghost predicate WellNamed(s: State, old_: Config, new_: Config) {
    DisjointNames(old_) && LiveFrom(s, old_) && WellFormedConfig(new_)
  }

  /** A connector that stays is subscribed to a handler of `deleted`. */
  predicate WouldDangle(s: State, deleted: set<Name>, d: set<Name>)
    requires forall n :: n in deleted ==> n in s.registry && s.registry[n] in s.subs
  {
    exists n | n in deleted :: exists m | m in s.subs[s.registry[n]] :: s.subs[s.registry[n]][m] in s.conns && m !in d
  }

  /** The names of handlers that stay, are built or are enabled do not clash. */
  lemma NamesFitSets(before: Files, after: Files, old_: Config, new_: Config, s: State, x: Diff, d: set<Name>,
                     ch: set<Name>)
    requires WellNamed(s, old_, new_) && IsDiff(before, after, old_, new_, x) && Filed(s)
    requires d == (x.deleted + x.changed) * s.registry.Keys && ch == x.changed * s.registry.Keys
    ensures ch <= d <= s.registry.Keys
    ensures NamesOf(x.ports) !! s.connectors.Keys - d
    ensures NamesOf(x.connectors) !! s.ports.Keys - d
    ensures NamesOf(x.connectors) !! NamesOf(x.ports)
    ensures NamesOf(x.connectors) !! ch * s.ports.Keys
    ensures x.created + x.changed !! s.registry.Keys - d
    ensures s.connectors.Keys - d + NamesOf(x.connectors) <= NamesOf(new_.connectors)
    ensures s.ports.Keys - d + NamesOf(x.ports) <= NamesOf(new_.ports)
    ensures x.deleted !! x.changed
  {
    FiledKeys(s);
    ReplacedWithin(before, after, old_.ports, new_.ports);
    ReplacedWithin(before, after, old_.connectors, new_.connectors);
    hide ReplacedNames, NamesOf, Rebuilds, Filed, Avoids;
  }

  lemma ReplacedWithin(before: Files, after: Files, old_: seq<Entry>, new_: seq<Entry>)
    ensures ReplacedNames(before, after, old_, new_) <= NamesOf(old_) * NamesOf(new_)
  {
  }

  lemma NamesFitFold(new_: Config, s: State, d: set<Name>, ch: set<Name>, ps: seq<Entry>, cs: seq<Entry>)
    requires ch <= d <= s.registry.Keys
    requires NamesOf(ps) !! s.connectors.Keys - d && NamesOf(cs) !! s.ports.Keys - d && NamesOf(cs) !! NamesOf(ps)
    requires NamesOf(cs) !! ch * s.ports.Keys
    requires s.connectors.Keys - d + NamesOf(cs) <= NamesOf(new_.connectors)
    requires forall e :: e in cs ==> e in new_.connectors
    requires forall k :: 0 <= k < |new_.connectors| ==> Avoids(new_.connectors[k].links, NamesOf(new_.connectors))
    ensures NamesFit(s, d, ch, ps, cs)
  {
    hide NamesOf, Avoids;
    forall k | 0 <= k < |cs| ensures Avoids(cs[k].links, s.connectors.Keys - d + NamesOf(cs)) {
      assert cs[k] in new_.connectors;
      AvoidsLess(cs[k].links, NamesOf(new_.connectors), s.connectors.Keys - d + NamesOf(cs));
    }
  }

  /** A reload that was not rejected leaves no connector dangling. */
  lemma CheckedDangling(s: State, deleted: set<Name>, d: set<Name>, ch: set<Name>)
    requires Inv(s) && deleted <= s.registry.Keys && d <= deleted + ch
    ensures forall n :: n in deleted ==> n in s.registry && s.registry[n] in s.subs
    ensures !WouldDangle(s, deleted, d) ==> NoneLeftDangling(s, d, ch)
  {
    hide Inv, Tables, Filed, Addressed;
    InvTables(s);
    forall n | n in deleted ensures n in s.registry && s.registry[n] in s.subs {
      RegisteredAt(s, n);
    }
    if !WouldDangle(s, deleted, d) {
      forall n, m | n in d && n !in ch && n in s.registry && s.registry[n] in s.subs && m in s.subs[s.registry[n]]
        ensures m in d
      {
        AwaitedPort(s, n, m);
      }
    }
  }

  /** Which names are built from the entries that changed. */
  lemma BuildableIs(before: Files, after: Files, old_: seq<Entry>, new_: seq<Entry>, confs: seq<Entry>,
                    taken: set<Name>)
    requires ToBuild(before, after, old_, new_, confs) && taken !! NamesOf(confs)
    ensures forall n :: n in Buildable(confs, taken) <==> Rebuilt(before, after, old_, new_, n)
    ensures AllValid(new_) ==> Buildable(confs, taken) == NamesOf(confs)
  {
    hide Rebuilds, ReplacedNames;
    forall n | n in Buildable(confs, taken) ensures Rebuilt(before, after, old_, new_, n) {
      var k :| 0 <= k < |confs| && confs[k].valid && confs[k].name == n;
      assert confs[k] in new_;
    }
    forall n | Rebuilt(before, after, old_, new_, n) ensures n in Buildable(confs, taken) {
      var k :| 0 <= k < |new_| && new_[k].name == n && new_[k].valid && Rebuilds(before, after, old_, new_[k]);
      assert new_[k] in confs;
      var i :| 0 <= i < |confs| && confs[i] == new_[k];
      NameIn(confs, i);
    }
    if AllValid(new_) {
      forall k | 0 <= k < |confs| ensures confs[k].valid { assert confs[k] in new_; }
    }
  }

  /** With all old handlers live and all new entries valid, exactly the new names are live. */
  lemma AllLive(before: Files, after: Files, old_: seq<Entry>, new_: seq<Entry>, confs: seq<Entry>, live: set<Name>,
                d: set<Name>)
    requires ToBuild(before, after, old_, new_, confs) && live == NamesOf(old_)
    requires forall n :: n in live ==>
             (n in d <==> n !in NamesOf(new_) || n in ReplacedNames(before, after, old_, new_))
    ensures live - d + NamesOf(confs) == NamesOf(new_)
  {
    ReplacedWithin(before, after, old_, new_);
    hide Rebuilds, ReplacedNames, NamesOf;
  }

  /** Of the live ports, those are gone that the new configuration lacks or changes. */
  lemma GonePorts(before: Files, after: Files, old_: Config, new_: Config, s: State)
    requires WellNamed(s, old_, new_) && Filed(s)
    ensures forall n :: n in s.ports ==>
              (n in GoneNames(s, before, after, old_, new_) <==>
                n !in NamesOf(new_.ports) || n in ReplacedNames(before, after, old_.ports, new_.ports))
    ensures forall n :: n in s.connectors ==>
              (n in GoneNames(s, before, after, old_, new_) <==>
                n !in NamesOf(new_.connectors) || n in ReplacedNames(before, after, old_.connectors, new_.connectors))
  {
    FiledKeys(s);
    ReplacedWithin(before, after, old_.ports, new_.ports);
    ReplacedWithin(before, after, old_.connectors, new_.connectors);
    hide ReplacedNames, NamesOf, Filed, Avoids;
  }

  lemma NamesFitUnfold(s: State, d: set<Name>, ch: set<Name>, ps: seq<Entry>, cs: seq<Entry>)
    requires NamesFit(s, d, ch, ps, cs)
    ensures ch <= d <= s.registry.Keys
    ensures NamesOf(ps) !! s.connectors.Keys - d && NamesOf(cs) !! s.ports.Keys - d && NamesOf(cs) !! NamesOf(ps)
    ensures NamesOf(cs) !! ch * s.ports.Keys
    ensures forall k :: 0 <= k < |cs| ==> Avoids(cs[k].links, s.connectors.Keys - d + NamesOf(cs))
  {
  }

  lemma ReenabledShape(a: State, b: State, names: set<Name>)
    requires Reenabled(a, b, names)
    ensures b == a.(enabled := b.enabled) && b.enabled.Keys == a.enabled.Keys
  {
  }

  lemma StaysBoth(a: State, b: State, n: Name, flag: bool)
    requires Stays(a, b, n, flag)
    ensures n in a.registry && n in b.registry && Stays(b, b, n, flag)
  {
    hide SameWires;
    var x := b.registry[n];
    if x in b.conns { SameWiresRefl(b.conns[x]); }
  }

  // ----- Handlers that were built -------------------------------------------------------------------------------

  /** Handler `n` is live, and enabled as the flag says. */
  ghost predicate Flagged(s: State, n: Name, flag: bool) {
    n in s.registry && s.registry[n] in s.enabled && s.registry[n] in s.names && s.enabled[s.registry[n]] == flag
    && s.names[s.registry[n]] == n
  }

  ghost predicate Off(s: State, n: Name) {
    Flagged(s, n, false)
  }

  lemma MadeOff(a: State, b: State, made: map<Name, Addr>, n: Name)
    requires Allocated(a, b, made) && n in made
    ensures Off(b, n)
  {
    assert made[n] in made.Values;
  }

  lemma OffKept(a: State, b: State, n: Name)
    requires Off(a, n) && b == a.(subs := b.subs, conns := b.conns)
    ensures Off(b, n)
  {
  }

  lemma OffAllocated(a: State, b: State, made: map<Name, Addr>, n: Name)
    requires Off(a, n) && Allocated(a, b, made) && n !in made
    ensures Off(b, n)
  {
  }

  /** After enabling the handlers of a set, a new one is enabled exactly when it is in it. */
  lemma OffThenOn(a: State, b: State, names: set<Name>, n: Name)
    requires Off(a, n) && Reenabled(a, b, names * a.registry.Keys)
    ensures Flagged(b, n, n in names)
  {
  }

  lemma FlaggedStill(a: State, b: State, names: set<Name>, n: Name, flag: bool)
    requires Flagged(a, n, flag) && Reenabled(a, b, names) && n !in names
    ensures Flagged(b, n, flag)
  {
  }

  lemma WiredStill(a: State, b: State, n: Name, es: seq<Entry>)
    requires WiredFrom(a, n, es) && b == a.(enabled := b.enabled)
    ensures WiredFrom(b, n, es)
  {
    hide Wired, FirstValid;
  }

  lemma StaysVia(a: State, b: State, c: State, n: Name, flag: bool)
    requires Stays(a, b, n, flag) && Stays(b, c, n, flag)
    ensures Stays(a, c, n, flag)
  {
    hide SameWires;
    var x := a.registry[n];
    if x in a.conns { SameWiresTrans(a.conns[x], b.conns[x], c.conns[x]); }
  }

  // ----- The whole reload --------------------------------------------------------------------------------------

  /** Connector `m` is subscribed to handler `n`. */
  ghost predicate Linking(s: State, n: Name, m: Name) {
    n in s.registry && s.registry[n] in s.subs && m in s.subs[s.registry[n]] && s.subs[s.registry[n]][m] in s.conns
  }

  ghost predicate NoObjects(c: Config) {
    c.ports == [] && c.connectors == [] && c.plugins == []
  }

  /** A connector that stays is subscribed to a handler that the new configuration lacks. */
  ghost predicate LeavesDangling(s: State, before: Files, after: Files, old_: Config, new_: Config) {
    exists n, m ::
      n in DeletedNames(old_, new_) && n in s.registry && Linking(s, n, m)
      && m !in GoneNames(s, before, after, old_, new_)
  }

  /** Something of the configuration is new, changed or gone. */
  ghost predicate Differs(before: Files, after: Files, old_: Config, new_: Config) {
    || Changes(before, after, old_.ports, new_.ports)
    || Changes(before, after, old_.connectors, new_.connectors)
    || Changes(before, after, old_.plugins, new_.plugins)
  }

  /** A changed live port to which a staying connector is subscribed has no valid new entry. */
  ghost predicate MissesPort(s: State, before: Files, after: Files, old_: Config, new_: Config) {
    exists p :: p in ChangedNames(before, after, old_, new_) && p in s.registry &&
      Awaited(s, GoneNames(s, before, after, old_, new_), p) && !Rebuilt(before, after, old_.ports, new_.ports, p)
  }

  /** How a reload ends, by its inputs. */
  ghost function OutcomeOf(s: State, before: Files, after: Files, old_: Config, new_: Config, parked: bool): Outcome {
    if NoObjects(new_) || LeavesDangling(s, before, after, old_, new_) then Rejected
    else if !Differs(before, after, old_, new_) then Reloaded
    else if !parked then ShuttingDown
    else if MissesPort(s, before, after, old_, new_) then Terminal
    else Reloaded
  }

  lemma OutcomeIs(s: State, before: Files, after: Files, old_: Config, new_: Config, parked: bool)
    ensures var o := OutcomeOf(s, before, after, old_, new_, parked);
            && (NoObjects(new_) || LeavesDangling(s, before, after, old_, new_) ==> o == Rejected)
            && (!NoObjects(new_) && !LeavesDangling(s, before, after, old_, new_) ==>
                  o == if !Differs(before, after, old_, new_) then Reloaded else if !parked then ShuttingDown
                       else if MissesPort(s, before, after, old_, new_) then Terminal else Reloaded)
  {
    hide NoObjects, LeavesDangling, Differs, MissesPort;
  }

  /** When the check finds a connector that would dangle. */
  lemma DanglingIs(s: State, before: Files, after: Files, old_: Config, new_: Config, deleted: set<Name>, d: set<Name>)
    requires deleted == DeletedNames(old_, new_) * s.registry.Keys && d == GoneNames(s, before, after, old_, new_)
    requires forall n :: n in deleted ==> n in s.registry && s.registry[n] in s.subs
    ensures WouldDangle(s, deleted, d) <==> LeavesDangling(s, before, after, old_, new_)
  {
    hide DeletedNames, GoneNames, WouldDangle;
    DangleIs(s, deleted, d);
  }

  /** The sets are all empty exactly when nothing differs. */
  lemma DiffersIs(before: Files, after: Files, old_: Config, new_: Config, x: Diff)
    requires IsDiff(before, after, old_, new_, x)
    ensures (x.created + x.changed + x.deleted == {} && !x.uis) <==> !Differs(before, after, old_, new_)
    ensures x.changed == ChangedNames(before, after, old_, new_)
    ensures x.deleted == {} ==> DeletedNames(old_, new_) == {}
  {
    hide NamesOf, ReplacedNames, ToBuild;
  }

  lemma NothingDeleted(s: State, before: Files, after: Files, old_: Config, new_: Config)
    requires DeletedNames(old_, new_) == {}
    ensures !LeavesDangling(s, before, after, old_, new_)
  {
    hide DeletedNames, GoneNames;
  }

  /** When a port that staying connectors wait for is missing. */
  lemma MissesIs(s: State, t: State, before: Files, after: Files, old_: Config, new_: Config, ch: set<Name>,
                 d: set<Name>, built: set<Name>)
    requires t == s.(enabled := t.enabled) && ch == ChangedNames(before, after, old_, new_) * s.registry.Keys
    requires d == GoneNames(s, before, after, old_, new_)
    requires forall n :: n in built <==> Rebuilt(before, after, old_.ports, new_.ports, n)
    ensures (forall p :: p in ch && Awaited(t, d, p) ==> p in built) <==> !MissesPort(s, before, after, old_, new_)
  {
    hide ChangedNames, GoneNames, Rebuilt;
    assert forall p :: Awaited(s, d, p) <==> Awaited(t, d, p);
    hide Awaited;
  }

  lemma GoneIs(before: Files, after: Files, old_: Config, new_: Config, s: State, x: Diff, d: set<Name>)
    requires IsDiff(before, after, old_, new_, x) && d == (x.deleted + x.changed) * s.registry.Keys
    ensures d == GoneNames(s, before, after, old_, new_) && x.deleted == DeletedNames(old_, new_)
  {
    hide DeletedNames, ChangedNames, ToBuild, NamesOf;
  }

  lemma DangleIs(s: State, deleted: set<Name>, d: set<Name>)
    requires forall n :: n in deleted ==> n in s.registry && s.registry[n] in s.subs
    ensures WouldDangle(s, deleted, d) <==>
            exists n, m :: n in deleted && n in s.registry && Linking(s, n, m) && m !in d
  {
    if WouldDangle(s, deleted, d) {
      var n :| n in deleted && exists m | m in s.subs[s.registry[n]] :: s.subs[s.registry[n]][m] in s.conns && m !in d;
      var m :| m in s.subs[s.registry[n]] && s.subs[s.registry[n]][m] in s.conns && m !in d;
      assert Linking(s, n, m);
    }
  }

  /** The ports and connectors after the reload, by name. */
  lemma FinalNames(before: Files, after: Files, old_: Config, new_: Config, s: State, x: Diff, d: set<Name>)
    requires WellNamed(s, old_, new_) && IsDiff(before, after, old_, new_, x) && Filed(s)
    requires d == GoneNames(s, before, after, old_, new_)
    ensures forall n :: n in Buildable(x.ports, s.ports.Keys - d) <==> Rebuilt(before, after, old_.ports, new_.ports, n)
    ensures forall n :: n in Buildable(x.connectors, s.connectors.Keys - d) <==>
            Rebuilt(before, after, old_.connectors, new_.connectors, n)
    ensures s.ports.Keys == NamesOf(old_.ports) && AllValid(new_.ports) ==>
              s.ports.Keys - d + Buildable(x.ports, s.ports.Keys - d) == NamesOf(new_.ports)
    ensures s.connectors.Keys == NamesOf(old_.connectors) && AllValid(new_.connectors) ==>
              s.connectors.Keys - d + Buildable(x.connectors, s.connectors.Keys - d) == NamesOf(new_.connectors)
    ensures AllValid(new_.ports) ==>
            forall p :: p in x.changed && p in s.ports ==> p in Buildable(x.ports, s.ports.Keys - d)
  {
    hide *;
    GonePorts(before, after, old_, new_, s);
    DiffUnfold(before, after, old_, new_, x);
    WellNamedUnfold(s, old_, new_);
    NotTaken(before, after, old_.ports, new_.ports, x.ports, s.ports.Keys, d);
    NotTaken(before, after, old_.connectors, new_.connectors, x.connectors, s.connectors.Keys, d);
    ReplacedWithin(before, after, old_.connectors, new_.connectors);
  }

  lemma NotTaken(before: Files, after: Files, old_: seq<Entry>, new_: seq<Entry>, confs: seq<Entry>, live: set<Name>,
                 d: set<Name>)
    requires ToBuild(before, after, old_, new_, confs) && live <= NamesOf(old_)
    requires forall n :: n in live ==>
             (n in d <==> n !in NamesOf(new_) || n in ReplacedNames(before, after, old_, new_))
    ensures forall n :: n in Buildable(confs, live - d) <==> Rebuilt(before, after, old_, new_, n)
    ensures live == NamesOf(old_) && AllValid(new_) ==> live - d + Buildable(confs, live - d) == NamesOf(new_)
    ensures AllValid(new_) ==> ReplacedNames(before, after, old_, new_) <= Buildable(confs, live - d)
  {
    assert NamesOf(confs) == (NamesOf(new_) - NamesOf(old_)) + ReplacedNames(before, after, old_, new_);
    hide *;
    BuildableIs(before, after, old_, new_, confs, live - d);
    if live == NamesOf(old_) { AllLive(before, after, old_, new_, confs, live, d); }
  }

  lemma DiffUnfold(before: Files, after: Files, old_: Config, new_: Config, x: Diff)
    requires IsDiff(before, after, old_, new_, x)
    ensures ToBuild(before, after, old_.ports, new_.ports, x.ports)
    ensures ToBuild(before, after, old_.connectors, new_.connectors, x.connectors)
    ensures x.changed == ReplacedNames(before, after, old_.ports, new_.ports)
            + ReplacedNames(before, after, old_.connectors, new_.connectors)
    ensures NamesOf(x.ports) + NamesOf(x.connectors) <= x.created + x.changed
  {
    hide ReplacedNames, NamesOf, Rebuilds;
  }

  /** After a reload, live handlers stem from the new configuration. */
  lemma LiveFromNew(before: Files, after: Files, old_: Config, new_: Config, s: State, x: Diff, d: set<Name>, t: State)
    requires WellNamed(s, old_, new_) && IsDiff(before, after, old_, new_, x) && Filed(s)
    requires d == (x.deleted + x.changed) * s.registry.Keys
    requires t.ports.Keys == s.ports.Keys - d + Buildable(x.ports, s.ports.Keys - d)
    requires t.connectors.Keys == s.connectors.Keys - d + Buildable(x.connectors, s.connectors.Keys - d)
    ensures LiveFrom(t, new_)
  {
    NamesFitSets(before, after, old_, new_, s, x, d, x.changed * s.registry.Keys);
    BuildableWithin(x.ports, s.ports.Keys - d);
    BuildableWithin(x.connectors, s.connectors.Keys - d);
    hide Buildable, NamesOf, IsDiff, WellNamed, Filed;
  }

  /** Connector `n` has the connections of the first valid entry of its name that had to be built. */
  ghost predicate RebuiltWired(t: State, before: Files, after: Files, old_: seq<Entry>, new_: seq<Entry>, n: Name) {
    n in t.connectors && t.connectors[n] in t.conns &&
    exists j :: FirstToBuild(before, after, old_, new_, n, j)
                && Wired(t.conns[t.connectors[n]], t.ports.Keys, new_[j].links)
  }

  /** What a successful reload does: it leaves the handlers alone that are neither deleted nor
      changed, connections included, and adds exactly the valid entries that are new or changed,
      with their connections, enabled as far as their enabling has run. */
  ghost predicate ReloadedAs(s: State, t: State, before: Files, after: Files, old_: Config, new_: Config,
                             started: set<Name>) {
    var gone := GoneNames(s, before, after, old_, new_);
    && (forall n ::
        n in s.registry && n !in gone ==> s.registry[n] in s.enabled && Stays(s, t, n, s.enabled[s.registry[n]]))
    && (forall n :: n in t.ports <==> n in s.ports.Keys - gone || Rebuilt(before, after, old_.ports, new_.ports, n))
    && (forall n ::
        n in t.connectors <==>
          n in s.connectors.Keys - gone || Rebuilt(before, after, old_.connectors, new_.connectors, n))
    && (s.ports.Keys == NamesOf(old_.ports) && AllValid(new_.ports) ==> t.ports.Keys == NamesOf(new_.ports))
    && (s.connectors.Keys == NamesOf(old_.connectors) && AllValid(new_.connectors) ==>
        t.connectors.Keys == NamesOf(new_.connectors))
    && (forall n :: n in t.connectors && n !in s.connectors.Keys - gone ==>
          RebuiltWired(t, before, after, old_.connectors, new_.connectors, n))
    && (forall n :: n in t.ports && n !in s.ports.Keys - gone ==> Flagged(t, n, n in started))
    && (forall n :: n in t.connectors && n !in s.connectors.Keys - gone ==> Flagged(t, n, n in started))
  }

  lemma WiredRebuilt(before: Files, after: Files, old_: seq<Entry>, new_: seq<Entry>, confs: seq<Entry>, t: State,
                     n: Name)
    requires ToBuild(before, after, old_, new_, confs) && WiredFrom(t, n, confs)
    ensures RebuiltWired(t, before, after, old_, new_, n)
  {
    hide Selected, FirstToBuild, Wired, Rebuilds, NamesOf, ReplacedNames;
    var k :| FirstValid(confs, n, k) && Wired(t.conns[t.connectors[n]], t.ports.Keys, confs[k].links);
    var j := SelectedFirst(before, after, old_, new_, n, k);
    FirstBuilt(before, after, old_, new_, n, j);
  }

  lemma FirstBuilt(before: Files, after: Files, old_: seq<Entry>, new_: seq<Entry>, n: Name, j: int)
    requires FirstToBuild(before, after, old_, new_, n, j)
    ensures 0 <= j < |new_|
  {
    hide Rebuilds;
  }

  lemma Succeeded(before: Files, after: Files, old_: Config, new_: Config, s: State, x: Diff, d: set<Name>, t: State,
                  started: set<Name>)
    requires WellNamed(s, old_, new_) && IsDiff(before, after, old_, new_, x) && Filed(s)
    requires d == (x.deleted + x.changed) * s.registry.Keys
    requires forall n :: n in s.registry && n !in d ==>
             s.registry[n] in s.enabled && Stays(s, t, n, s.enabled[s.registry[n]])
    requires t.ports.Keys == s.ports.Keys - d + Buildable(x.ports, s.ports.Keys - d)
    requires t.connectors.Keys == s.connectors.Keys - d + Buildable(x.connectors, s.connectors.Keys - d)
    requires forall n :: n in Buildable(x.connectors, s.connectors.Keys - d) ==> WiredFrom(t, n, x.connectors)
    requires forall n :: n in Buildable(x.ports, s.ports.Keys - d) + Buildable(x.connectors, s.connectors.Keys - d) ==>
             Flagged(t, n, n in started)
    ensures LiveFrom(t, new_) && ReloadedAs(s, t, before, after, old_, new_, started)
  {
    hide WellNamed, IsDiff, Filed, Buildable, NamesOf, AllValid, Rebuilt, Stays, GoneNames, LiveFrom, WiredFrom,
         RebuiltWired, Flagged, ToBuild;
    GoneIs(before, after, old_, new_, s, x, d);
    FinalNames(before, after, old_, new_, s, x, d);
    LiveFromNew(before, after, old_, new_, s, x, d, t);
    DiffUnfold(before, after, old_, new_, x);
    forall n | n in Buildable(x.connectors, s.connectors.Keys - d)
      ensures RebuiltWired(t, before, after, old_.connectors, new_.connectors, n)
    {
      WiredRebuilt(before, after, old_.connectors, new_.connectors, x.connectors, t, n);
    }
  }

  /** A reload whose changes were applied to the state `b` with the handlers disabled. */
  lemma Applied(before: Files, after: Files, old_: Config, new_: Config, a: State, b: State, x: Diff, d: set<Name>,
                re: set<Name>, c: State, started: set<Name>, names: set<Name>)
    requires Filed(a) && Addressed(a) && WellNamed(a, old_, new_) && IsDiff(before, after, old_, new_, x)
    requires d == (x.deleted + x.changed) * a.registry.Keys && Disabled(a, b, d, re)
    requires forall n :: n in b.registry && n !in d ==>
             b.registry[n] in b.enabled && Stays(b, c, n, b.enabled[b.registry[n]] || n in re)
    requires c.ports.Keys == b.ports.Keys - d + Buildable(x.ports, b.ports.Keys - d)
    requires c.connectors.Keys == b.connectors.Keys - d + Buildable(x.connectors, b.connectors.Keys - d)
    requires forall n :: n in Buildable(x.connectors, b.connectors.Keys - d) ==> WiredFrom(c, n, x.connectors)
    requires names == (x.created + x.changed) * started
    requires forall n :: n in Buildable(x.ports, b.ports.Keys - d) + Buildable(x.connectors, b.connectors.Keys - d) ==>
             Flagged(c, n, n in names)
    ensures LiveFrom(c, new_) && ReloadedAs(a, c, before, after, old_, new_, started)
  {
    hide *;
    DisabledShape(a, b, d, re);
    forall n | n in a.registry && n !in d
      ensures a.registry[n] in a.enabled && Stays(a, c, n, a.enabled[a.registry[n]])
    {
      FlagBack(a, b, d, re, c, n);
    }
    DiffUnfold(before, after, old_, new_, x);
    BuildableWithin(x.ports, b.ports.Keys - d);
    BuildableWithin(x.connectors, b.connectors.Keys - d);
    forall n | n in Buildable(x.ports, a.ports.Keys - d) + Buildable(x.connectors, a.connectors.Keys - d)
      ensures Flagged(c, n, n in started)
    {
      assert n in names <==> n in started;
    }
    Succeeded(before, after, old_, new_, a, x, d, c, started);
  }

  /** A reload that finds no difference. */
  lemma NothingToDo(before: Files, after: Files, old_: Config, new_: Config, s: State, x: Diff, started: set<Name>)
    requires Inv(s) && WellNamed(s, old_, new_) && IsDiff(before, after, old_, new_, x)
    requires x.created + x.changed + x.deleted == {}
    ensures !LeavesDangling(s, before, after, old_, new_)
    ensures LiveFrom(s, new_) && ReloadedAs(s, s, before, after, old_, new_, started)
  {
    hide *;
    var d := (x.deleted + x.changed) * s.registry.Keys;
    InvTables(s);
    DiffersIs(before, after, old_, new_, x);
    NothingChanged(before, after, old_, new_, s, x, d);
    NothingDeleted(s, before, after, old_, new_);
    Succeeded(before, after, old_, new_, s, x, d, s, started);
  }

  /** With the same files and the same configuration, without a name used twice, nothing differs. */
  lemma SameConfig(s: State, files: Files, c: Config, parked: bool)
    requires DistinctConfig(c)
    ensures !Differs(files, files, c, c)
    ensures OutcomeOf(s, files, files, c, c, parked) == if NoObjects(c) then Rejected else Reloaded
  {
    hide *;
    DistinctParts(c);
    SameEntries(files, c.ports);
    SameEntries(files, c.connectors);
    SameEntries(files, c.plugins);
    NoChanges(files, files, c, c);
    NothingDeleted(s, files, files, c, c);
    OutcomeIs(s, files, files, c, c, parked);
  }

  lemma DistinctParts(c: Config)
    requires DistinctConfig(c)
    ensures DistinctEntries(c.ports) && DistinctEntries(c.connectors) && DistinctEntries(c.plugins)
  {
  }

  lemma NoChanges(before: Files, after: Files, old_: Config, new_: Config)
    requires !Changes(before, after, old_.ports, new_.ports)
    requires !Changes(before, after, old_.connectors, new_.connectors)
    requires !Changes(before, after, old_.plugins, new_.plugins)
    ensures !Differs(before, after, old_, new_) && DeletedNames(old_, new_) == {}
  {
    hide NamesOf, ReplacedNames;
  }

  lemma SameEntries(files: Files, es: seq<Entry>)
    requires DistinctEntries(es)
    ensures !Changes(files, files, es, es)
  {
    forall k | 0 <= k < |es| ensures !Replaces(files, files, es, es[k]) {
      FindSelf(es, k);
    }
  }

  /** When applying the changes fails, and that an invalid port is the reason. */
  lemma FailsIff(before: Files, after: Files, old_: Config, new_: Config, s: State, t: State, x: Diff, d: set<Name>,
                 ch: set<Name>)
    requires WellNamed(s, old_, new_) && IsDiff(before, after, old_, new_, x) && Filed(s)
    requires d == (x.deleted + x.changed) * s.registry.Keys && ch == x.changed * s.registry.Keys
    requires t == s.(enabled := t.enabled)
    requires Inv(t) && x.changed == ChangedNames(before, after, old_, new_)
    ensures (forall p :: p in ch && Awaited(t, d, p) ==> p in Buildable(x.ports, s.ports.Keys - d)) <==>
            !MissesPort(s, before, after, old_, new_)
    ensures AllValid(new_.ports) ==> !MissesPort(s, before, after, old_, new_)
  {
    hide *;
    var built := Buildable(x.ports, s.ports.Keys - d);
    GoneIs(before, after, old_, new_, s, x, d);
    FinalNames(before, after, old_, new_, s, x, d);
    MissesIs(s, t, before, after, old_, new_, ch, d, built);
    forall p | p in ch && Awaited(t, d, p) ensures p in s.ports {
      AwaitedIn(t, d, p);
    }
  }

  lemma WellNamedUnfold(s: State, old_: Config, new_: Config)
    requires WellNamed(s, old_, new_)
    ensures NamesOf(old_.ports) !! NamesOf(old_.connectors) && NamesOf(new_.ports) !! NamesOf(new_.connectors)
    ensures s.ports.Keys <= NamesOf(old_.ports) && s.connectors.Keys <= NamesOf(old_.connectors)
    ensures forall k :: 0 <= k < |new_.connectors| ==> Avoids(new_.connectors[k].links, NamesOf(new_.connectors))
  {
    hide NamesOf, Avoids;
  }

  lemma DiffEntries(before: Files, after: Files, old_: Config, new_: Config, x: Diff)
    requires IsDiff(before, after, old_, new_, x)
    ensures forall e :: e in x.connectors ==> e in new_.connectors
  {
    hide ReplacedNames, NamesOf, Rebuilds;
  }

  /** Without differences nothing is deleted and nothing built. */
  lemma NothingChanged(before: Files, after: Files, old_: Config, new_: Config, s: State, x: Diff, d: set<Name>)
    requires Inv(s) && WellNamed(s, old_, new_) && IsDiff(before, after, old_, new_, x)
    requires d == (x.deleted + x.changed) * s.registry.Keys && x.created + x.changed + x.deleted == {}
    ensures d == {} && x.deleted == {} && Buildable(x.ports, s.ports.Keys - d) == {}
    ensures Buildable(x.connectors, s.connectors.Keys - d) == {}
    ensures forall n :: n in s.registry ==> s.registry[n] in s.enabled && Stays(s, s, n, s.enabled[s.registry[n]])
  {
    hide *;
    DiffUnfold(before, after, old_, new_, x);
    assert x.created == {} && x.changed == {} && x.deleted == {};
    BuildableWithin(x.ports, s.ports.Keys - d);
    BuildableWithin(x.connectors, s.connectors.Keys - d);
    InvTables(s);
    forall n | n in s.registry ensures s.registry[n] in s.enabled && Stays(s, s, n, s.enabled[s.registry[n]]) {
      StaysIn(s, n);
    }
  }

  lemma BuildableWithin(es: seq<Entry>, taken: set<Name>)
    ensures Buildable(es, taken) <= NamesOf(es)
  {
  }

  lemma DisabledShape(a: State, b: State, d: set<Name>, re: set<Name>)
    requires Disabled(a, b, d, re)
    ensures b == a.(enabled := b.enabled) && b.enabled.Keys == a.enabled.Keys && re <= a.registry.Keys - d
  {
  }

  lemma SameSubs(a: State, b: State, d: set<Name>, ch: set<Name>)
    requires b == a.(enabled := b.enabled) && NoneLeftDangling(a, d, ch)
    ensures NoneLeftDangling(b, d, ch)
  {
  }

  lemma AwaitedIn(s: State, d: set<Name>, p: Name)
    requires Inv(s) && Awaited(s, d, p)
    ensures p in s.ports
  {
    hide Inv;
    var m :| m in s.subs[s.registry[p]] && m !in d;
    AwaitedPort(s, p, m);
  }

  /** Disabled for the reload and enabled again: the flag is what it was. */
  lemma FlagBack(a: State, b: State, d: set<Name>, re: set<Name>, c: State, n: Name)
    requires Addressed(a) && Disabled(a, b, d, re) && n in a.registry && n !in d
    requires a.registry[n] in b.enabled && Stays(b, c, n, b.enabled[a.registry[n]] || n in re)
    ensures a.registry[n] in a.enabled && Stays(a, c, n, a.enabled[a.registry[n]])
  {
    RegisteredAt(a, n);
    hide Addressed;
  }

  // ----- Start-up ---------------------------------------------------------------------------------------------

  /** Before the configuration is processed there are no objects. */
  const EMPTY := State(map[], map[], map[], map[], map[], map[], map[])

  lemma EmptyMid()
    ensures Mid(EMPTY, {}, map[], {}) && EMPTY.ports == map[] && EMPTY.connectors == map[]
    ensures EMPTY.ports.Keys == {} && EMPTY.connectors.Keys == {}
  {
  }
}
