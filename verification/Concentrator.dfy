/**
  `DataConcentrator` and the parts of `DataConnector` and `IOHandler` that a reload
  calls: the methods change the live objects step by step.
 */
module Concentrator {
  import opened Handlers
  import opened Reload
  import opened Rebuild
  import opened ReloadSteps
  import opened Wiring
  import opened ReloadRun

  /** The running data concentrator: its live objects and the name of its main
      configuration file. */
  class DataConcentrator {
    var s: State
    var confFilename: FileName

    /** Start-up: the ports and then the connectors of the configuration are built. */
    constructor (config: Config, filename: FileName)
      requires WellFormedConfig(config)
      ensures Inv(s) && LiveFrom(s, config) && confFilename == filename
      ensures s.ports.Keys == Buildable(config.ports, {}) && s.connectors.Keys == Buildable(config.connectors, {})
      ensures forall n :: n in s.connectors ==> WiredFrom(s, n, config.connectors)
    {
      s, confFilename := EMPTY, filename;
      new;
      hide *;
      EmptyMid();
      StartUp(config);
      var _ := BuildNew({}, map[], {}, config.ports, config.connectors);
      LiveFromFold(s, config);
    }

    /** Disables the peers of a connector, and notes those that were enabled. */
    method DisablePeers(cs: seq<Connection>, d: set<Name>, re0: set<Name>, ghost a: State, ghost off0: set<Addr>)
      returns (re: set<Name>, ghost off: set<Addr>)
      requires s == SwitchedOff(a, off0) && re0 == WereOn(a, d, off0)
      requires forall k :: 0 <= k < |cs| ==> cs[k].addr in a.names && cs[k].addr in a.enabled
      modifies this`s
      ensures s == SwitchedOff(a, off) && re == WereOn(a, d, off) && off == off0 + StayingPeers(a, d, cs)
    {
      re, off := re0, off0;
      assert StayingPeers(a, d, cs[..0]) == {};
      for k := 0 to |cs|
        invariant s == SwitchedOff(a, off) && re == WereOn(a, d, off) && off == off0 + StayingPeers(a, d, cs[..k])
      {
        hide SwitchedOff, WereOn, StayingPeers;
        var x := cs[k].addr;
        StayingPeersSnoc(a, d, cs, k);
        SwitchMore(a, d, off, x);
        SwitchedShape(a, off);
        if s.names[x] !in d {
          if s.enabled[x] {
            s := s.(enabled := s.enabled[x := false]);
            re := re + {s.names[x]};
          } else {
            SwitchedAt(a, off, x);
            SwitchedAgain(a, off, x);
          }
          off := off + {x};
        }
      }
      assert cs[..|cs|] == cs;
    }

    /** Disables the handlers of `d` and the ports of its connectors; the ports that
        were enabled and stay are returned. */
    method DisableAll(d: set<Name>) returns (re: set<Name>)
      requires Inv(s) && d <= s.registry.Keys
      modifies this`s
      ensures Disabled(old(s), s, d, re)
      ensures forall n :: n in re <==>
                Affected(old(s), d, n) && n in old(s).registry && old(s).registry[n] in old(s).enabled
                && old(s).enabled[old(s).registry[n]]
      ensures forall n :: n in d ==> s.registry[n] in s.enabled && !s.enabled[s.registry[n]]
    {
      hide *;
      ghost var a := s;
      ghost var off: set<Addr>, done: set<Name> := {}, {};
      SwitchNone(a, d);
      OffNone(a, d);
      re := {};
      var todo := d;
      while todo != {}
        invariant s == SwitchedOff(a, off) && re == WereOn(a, d, off)
        invariant done + todo == d && done !! todo && OffFor(a, d, done, off)
      {
        var n :| n in todo;
        todo := todo - {n};
        ConnectorOf(a, n);
        SwitchedShape(a, off);
        var x := s.registry[n];
        SwitchMore(a, d, off, x);
        OffMore(a, d, done, off, n);
        s := s.(enabled := s.enabled[x := false]);
        off := off + {x};
        if x in s.conns {
          PeersLive(a, n);
          SwitchedShape(a, off);
          re, off := DisablePeers(s.conns[x], d, re, a, off);
        } else {
          assert off + {} == off;
        }
        done := done + {n};
      }
      assert done == d;
      DisabledDone(a, s, d, off, re);
      SwitchedShape(a, off);
    }

    /** Removes a connector from the subscribers of its peers. */
    method UnsubscribeFrom(n: Name, cs: seq<Connection>)
      requires forall k :: 0 <= k < |cs| ==> cs[k].addr in s.subs
      modifies this`s
      ensures s == old(s).(subs := Dropped(old(s).subs, n, PeersOf(cs)))
    {
      hide *;
      ghost var a := s;
      DropNone(a.subs, n);
      assert PeersOf(cs[..0]) == {};
      for k := 0 to |cs|
        invariant s == a.(subs := Dropped(a.subs, n, PeersOf(cs[..k])))
      {
        PeersSnoc(cs, k);
        var x := cs[k].addr;
        DropMore(a.subs, n, PeersOf(cs[..k]), x);
        s := s.(subs := s.subs[x := s.subs[x] - {n}]);
      }
      assert cs[..|cs|] == cs;
    }

    /** Unsubscribes the connectors that will be deleted. */
    method UnsubscribeAll(d: set<Name>)
      requires Inv(s) && d <= s.registry.Keys
      modifies this`s
      ensures Unsubscribed(old(s), s, d)
    {
      hide Inv, PeersOf, LessNames, Dropped;
      ghost var a := s;
      ghost var done: set<Name> := {};
      DropNone(a.subs, "");
      var todo := d;
      while todo != {}
        invariant done + todo == d && done !! todo && s == a.(subs := LessNames(a.subs, done))
      {
        var n :| n in todo;
        todo := todo - {n};
        LessKeys(a.subs, done);
        DropPeers(a, done, n);
        var x := s.registry[n];
        if x in s.conns {
          PeersLive(a, n);
          UnsubscribeFrom(n, s.conns[x]);
        }
        done := done + {n};
      }
      assert done == d;
      LessKeys(a.subs, d);
    }

    /** Notes the subscribers of the changed handlers and removes all handlers of `d`
        from the tables, then deletes the objects. */
    method RemoveAll(d: set<Name>, ch: set<Name>) returns (oldSubs: OldSubs, needs: NeedsNewAddr)
      requires Tables(s) && d <= s.registry.Keys
      modifies this`s
      ensures s == Without(old(s), d) && Noted(old(s), d, ch, oldSubs, needs)
    {
      hide *;
      ghost var a := s;
      ghost var done: set<Name> := {};
      TablesParts(a);
      NoneRemoved(a, d, ch);
      oldSubs, needs := map[], {};
      var toDelete: set<Addr> := {};
      var todo := d;
      while todo != {}
        invariant done + todo == d && done !! todo
        invariant s == Stripped(a, done) && toDelete == Addresses(a, done)
        invariant NotedFor(a, d, done * ch, oldSubs, needs)
      {
        var n :| n in todo;
        todo := todo - {n};
        RemovedOne(a, d, ch, done, n, oldSubs, needs);
        if n in ch {
          var subs := s.subs[s.registry[n]];
          oldSubs := oldSubs[n := subs];
          needs := needs + NeedsOf(s.conns, d, n, subs);
        }
        if n in s.ports {
          toDelete := toDelete + {s.ports[n]};
        }
        if n in s.connectors {
          toDelete := toDelete + {s.connectors[n]};
        }
        s := s.(registry := s.registry - {n}, ports := s.ports - {n}, connectors := s.connectors - {n});
        done := done + {n};
      }
      s := s.(names := s.names - toDelete, enabled := s.enabled - toDelete, subs := s.subs - toDelete,
              conns := s.conns - toDelete);
      assert done == d;
      AllRemoved(a, d);
      NotedFold(a, d, ch, oldSubs, needs);
    }

    /** A new object is at an address no live object has. */
    method Allocate() returns (x: Addr)
      ensures x !in s.names
    {
      ghost var y := FreshAddr(s.names.Keys);
      assert y !in s.names;
      x :| x !in s.names;
    }

    /** Builds the ports of a list of entries; invalid ones and duplicates are ignored. */
    method ProcessPorts(es: seq<Entry>) returns (ghost made: map<Name, Addr>)
      requires Filed(s) && NamesOf(es) !! s.connectors.Keys
      modifies this`s
      ensures PortsMade(old(s), s, made) && made.Keys == Buildable(es, old(s).ports.Keys)
      ensures made.Keys !! old(s).registry.Keys
    {
      hide PortsMade, Allocated, Filed, NamesOf, Buildable, WithPort;
      ghost var a := s;
      FiledKeys(a);
      made := map[];
      PortsMadeNone(a);
      BuildableAll(es, a.ports.Keys);
      for k := 0 to |es|
        invariant PortsMade(a, s, made) && made.Keys == Buildable(es[..k], a.ports.Keys)
      {
        BuildableSnoc(es, a.ports.Keys, k);
        PortsMadeUnfold(a, s, made);
        if !es[k].valid || es[k].name in s.ports {
          continue;
        }
        var x := Allocate();
        PortsMadeMore(a, s, made, es[k].name, x);
        s := WithPort(s, es[k].name, x);
        made := made[es[k].name := x];
      }
    }

    /** Gives the replaced ports their old subscribers back. */
    method Resubscribe(ch: set<Name>, oldSubs: OldSubs)
      requires Addressed(s)
      modifies this`s
      ensures Resubscribed(old(s), s, ch, oldSubs)
    {
      hide *;
      ghost var a := s;
      ghost var done: set<Name> := {};
      ResubscribedNone(a, oldSubs);
      var todo := ch;
      while todo != {}
        invariant done + todo == ch && done !! todo && Resubscribed(a, s, done, oldSubs)
      {
        var n :| n in todo;
        todo := todo - {n};
        ResubscribedMore(a, s, done, oldSubs, n);
        ResubscribedUnfold(a, s, done, oldSubs);
        if n in s.registry && s.registry[n] !in s.conns && n in oldSubs {
          var x := s.registry[n];
          s := s.(subs := s.subs[x := s.subs[x] + oldSubs[n]]);
        }
        done := done + {n};
      }
      assert done == ch;
    }

    /** Inserts a connection in both directions and subscribes connector `n` at `x` to both ends. */
    method Connect(n: Name, x: Addr, p: Name, q: Name)
      requires x in s.conns && p in s.registry && q in s.registry && s.registry[p] in s.subs && s.registry[q] in s.subs
      modifies this`s
      ensures s == old(s).(conns := old(s).conns[x := old(s).conns[x] + LinkOf(old(s).registry, (p, q))],
                           subs := Subscribed(old(s).subs, n, x, PeersOf(LinkOf(old(s).registry, (p, q)))))
    {
      hide *;
      ghost var a := s;
      PeersOfLink(a.registry, p, q);
      SubscribeNone(a.subs, n, x);
      SubscribeMore(a.subs, n, x, {}, a.registry[p]);
      SubscribeMore(a.subs, n, x, {} + {a.registry[p]}, a.registry[q]);
      assert {} + {a.registry[p]} + {a.registry[q]} == {a.registry[p], a.registry[q]};
      var c, d := Connection(p, q, s.registry[q]), Connection(q, p, s.registry[p]);
      assert s.conns[x] + [c] + [d] == s.conns[x] + [c, d];
      s := s.(conns := s.conns[x := s.conns[x] + [c]]);
      s := s.(conns := s.conns[x := s.conns[x] + [d]]);
      s := s.(subs := s.subs[s.registry[p] := s.subs[s.registry[p]][n := x]]);
      s := s.(subs := s.subs[s.registry[q] := s.subs[s.registry[q]][n := x]]);
    }

    /** `DataConnector::ProcessElements`: connects the pairs of registered handlers, both
        ways, and subscribes to them. */
    method ProcessElements(n: Name, x: Addr, links: seq<(Name, Name)>)
      requires x in s.conns && s.conns[x] == []
      requires forall p :: p in s.registry ==> s.registry[p] in s.subs
      modifies this`s
      ensures var cs := LinksOf(old(s).registry, links);
              s == old(s).(conns := old(s).conns[x := cs], subs := Subscribed(old(s).subs, n, x, PeersOf(cs)))
    {
      hide *;
      ghost var a := s;
      ghost var cs := [];
      SubscribeNone(a.subs, n, x);
      PeersOfNone();
      LinksNone(a.registry, links);
      assert a.conns[x := []] == a.conns;
      for k := 0 to |links|
        invariant cs == LinksOf(a.registry, links[..k])
        invariant s == a.(conns := a.conns[x := cs], subs := Subscribed(a.subs, n, x, PeersOf(cs)))
      {
        LinksSnoc(a.registry, links, k);
        var p, q := links[k].0, links[k].1;
        if p !in s.registry || q !in s.registry {
          LinkSkipped(a.registry, p, q);
          continue;
        }
        ghost var l := LinkOf(a.registry, (p, q));
        PeersPlus(cs, l);
        SubscribeKeys(a.subs, n, x, PeersOf(cs));
        SubscribeBoth(a.subs, n, x, PeersOf(cs), PeersOf(l));
        Connect(n, x, p, q);
        assert a.conns[x := cs][x := cs + l] == a.conns[x := cs + l];
        cs := cs + l;
      }
      assert links[..|links|] == links;
    }

    /** The constructor of a connector. */
    method AddConnector(e: Entry) returns (x: Addr)
      requires Tables(s) && Avoids(e.links, s.connectors.Keys + {e.name})
      modifies this`s
      ensures x !in old(s).names && s == Built(old(s), e.name, x, LinksOf(old(s).ports, e.links))
      ensures LeadToPorts(old(s), LinksOf(old(s).ports, e.links))
    {
      hide *;
      ghost var a := s;
      var n := e.name;
      TablesParts(a);
      AvoidsLess(e.links, a.connectors.Keys + {n}, a.connectors.Keys);
      AvoidsLess(e.links, a.connectors.Keys + {n}, {n});
      LinksLead(a, e.links);
      x := Allocate();
      LinksSame(a.registry[n := x], a.registry, e.links, {n});
      WithConnectorIs(a, n, x, LinksOf(a.ports, e.links));
      RegistryLive(a, n, x, a.registry[n := x]);
      s := WithConnector(s, n, x);
      ProcessElements(n, x, e.links);
    }

    /** Builds the connectors of a list of entries; invalid ones and duplicates are ignored. */
    method ProcessConnectors(es: seq<Entry>) returns (ghost made: map<Name, Addr>)
      requires Tables(s) && NamesOf(es) !! s.ports.Keys
      requires forall p :: p in s.ports ==> SubscriberAddrs(s, p)
      requires forall k :: 0 <= k < |es| ==> Avoids(es[k].links, s.connectors.Keys + NamesOf(es))
      modifies this`s
      ensures ConnectorsMade(old(s), s, made) && made.Keys == Buildable(es, old(s).connectors.Keys)
      ensures made.Keys !! old(s).registry.Keys && MadeFrom(s, made, es)
    {
      hide *;
      ghost var a := s;
      made := map[];
      NoConnectorDone(a, es);
      for k := 0 to |es|
        invariant ConnectorsDone(a, s, made, es, k)
      {
        if !es[k].valid || es[k].name in s.connectors {
          ConnectorSkipped(a, s, made, es, k);
          continue;
        }
        ConnectorsDoneIs(a, s, made, es, k);
        NextConnector(a, s, made, es, k);
        ghost var b := s;
        var x := AddConnector(es[k]);
        ConnectorAdded(a, b, made, es, k, x);
        made := made[es[k].name := x];
      }
      AllConnectorsDone(a, s, made, es);
    }

    /** `DataConnector::ReplaceAddress`. */
    method ReplaceAddress(x: Addr, port: Name, addr: Addr)
      requires x in s.conns
      modifies this`s
      ensures s == old(s).(conns := old(s).conns[x := Replaced(old(s).conns[x], port, addr)])
    {
      var cs := s.conns[x];
      for k := 0 to |cs|
        invariant |cs| == |s.conns[x]| && forall i :: k <= i < |cs| ==> cs[i] == s.conns[x][i]
        invariant forall i :: 0 <= i < k ==> cs[i] == Replaced(s.conns[x], port, addr)[i]
      {
        if cs[k].peer == port {
          cs := cs[k := cs[k].(addr := addr)];
        }
      }
      assert cs == Replaced(s.conns[x], port, addr);
      s := s.(conns := s.conns[x := cs]);
    }

    /** Gives every connector that was waiting for it the new address of port `n`. */
    method ReplaceAll(n: Name, xs: set<Addr>)
      requires n in s.registry && xs <= s.conns.Keys
      modifies this`s
      ensures s == old(s).(conns := ReplacedAt(old(s).conns, xs, n, old(s).registry[n]))
    {
      hide *;
      ghost var a := s;
      ghost var done: set<Addr> := {};
      ReplacedAtNone(a.conns, n, a.registry[n]);
      var todo := xs;
      while todo != {}
        invariant done + todo == xs && done !! todo && s == a.(conns := ReplacedAt(a.conns, done, n, a.registry[n]))
      {
        var x :| x in todo;
        todo := todo - {x};
        ReplacedAtMore(a.conns, done, n, a.registry[n], x);
        ReplaceAddress(x, n, s.registry[n]);
        done := done + {x};
      }
      assert done == xs;
    }

    /** Replaces the addresses of all changed ports; fails when one with waiting
        connectors was not built again. */
    method ReplaceAddresses(ch: set<Name>, needs: NeedsNewAddr) returns (ok: bool)
      requires forall e :: e in needs ==> e.1 in s.conns
      modifies this`s
      ensures s == old(s).(conns := s.conns) && (ok ==> Readdressed(old(s), s, ch, needs))
      ensures ok <==> forall e :: e in needs && e.0 in ch ==> e.0 in old(s).registry
    {
      hide *;
      ghost var a := s;
      ghost var done: set<Name> := {};
      ReaddressedNone(a, needs);
      var todo := ch;
      while todo != {}
        invariant done + todo == ch && done !! todo && Readdressed(a, s, done, needs)
        invariant forall e :: e in needs && e.0 in done ==> e.0 in a.registry
      {
        var n :| n in todo;
        todo := todo - {n};
        ReaddressedUnfold(a, s, done, needs);
        if n in s.registry {
          ReaddressedMore(a, s, done, needs, n);
          forall x | x in Waiting(needs, n) ensures x in s.conns { assert (n, x).1 in a.conns; }
          ReplaceAll(n, Waiting(needs, n));
        } else if Waiting(needs, n) != {} {
          ghost var x :| x in Waiting(needs, n);
          assert (n, x) in needs && (n, x).0 in ch && (n, x).0 !in a.registry;
          return false;
        } else {
          ReaddressedSkip(a, s, done, needs, n);
          NoneWaiting(needs, n);
        }
        done := done + {n};
      }
      assert done == ch;
      ReaddressedUnfold(a, s, ch, needs);
      return true;
    }

    /** Enables handlers. */
    method EnableAll(names: set<Name>)
      requires Addressed(s) && names <= s.registry.Keys
      modifies this`s
      ensures Reenabled(old(s), s, names)
    {
      hide *;
      ghost var a := s;
      ghost var done: set<Name> := {};
      ReenabledNone(a);
      var todo := names;
      while todo != {}
        invariant done + todo == names && done !! todo && Reenabled(a, s, done)
      {
        var n :| n in todo;
        todo := todo - {n};
        ReenabledMore(a, s, done, n);
        s := s.(enabled := s.enabled[s.registry[n] := true]);
        done := done + {n};
      }
      assert done == names;
    }

    /** Unsubscribes and deletes the handlers of `d`, of which those of `ch` will be built again. */
    method TearDown(d: set<Name>, ch: set<Name>) returns (oldSubs: OldSubs, needs: NeedsNewAddr)
      requires Inv(s) && ch <= d <= s.registry.Keys && NoneLeftDangling(s, d, ch)
      modifies this`s
      ensures Mid(s, ch, oldSubs, needs)
      ensures s.ports == old(s).ports - d && s.connectors == old(s).connectors - d && s.registry == old(s).registry - d
      ensures forall n :: n in old(s).registry && n !in d ==>
                old(s).registry[n] in old(s).enabled && Stays(old(s), s, n, old(s).enabled[old(s).registry[n]])
      ensures forall e :: e in needs ==> e.0 in ch && e.1 in s.conns
      ensures forall p :: p in ch ==> ((exists e :: e in needs && e.0 == p) <==> Awaited(old(s), d, p))
      ensures forall p :: p in ch && Awaited(old(s), d, p) ==> p in old(s).ports
    {
      hide *;
      ghost var a := s;
      UnsubscribeAll(d);
      ghost var t := s;
      UnsubscribedDetached(a, t, d);
      InvTables(a);
      DetachedTables(a, t, d);
      oldSubs, needs := RemoveAll(d, ch);
      TornDown(a, d, ch, oldSubs, needs, t);
      WithoutTables(t, d);
      forall n | n in a.registry && n !in d
        ensures a.registry[n] in a.enabled && Stays(a, s, n, a.enabled[a.registry[n]])
      {
        StaysIn(a, n);
        UnsubscribedAt(a, t, d, a.registry[n]);
        WiresSame(a, t);
        StaysSame(a, a, t, n, a.enabled[a.registry[n]]);
        StaysWithout(a, t, d, n, a.enabled[a.registry[n]]);
      }
      forall e | e in needs ensures e.0 in ch && e.1 in s.conns {
        WaitingLive(s, ch, oldSubs, needs, t, d, e);
      }
      forall p | p in ch
        ensures ((exists e :: e in needs && e.0 == p) <==> Awaited(a, d, p)) && (Awaited(a, d, p) ==> p in a.ports)
      {
        AwaitedIff(a, t, d, ch, oldSubs, needs, p);
      }
    }

    /** Builds ports and connectors and repairs what points to the old ones. */
    method BuildNew(ch: set<Name>, oldSubs: OldSubs, needs: NeedsNewAddr, ps: seq<Entry>, cs: seq<Entry>)
      returns (ok: bool)
      requires Mid(s, ch, oldSubs, needs)
      requires NamesOf(ps) !! s.connectors.Keys && NamesOf(cs) !! s.ports.Keys && NamesOf(cs) !! NamesOf(ps)
      requires forall k :: 0 <= k < |cs| ==> Avoids(cs[k].links, s.connectors.Keys + NamesOf(cs))
      requires forall e :: e in needs ==> e.0 in ch && e.1 in s.conns && e.0 !in s.connectors && e.0 !in NamesOf(cs)
      modifies this`s
      ensures ok ==> Inv(s)
      ensures ok <==> forall e :: e in needs ==> e.0 in s.ports
      ensures s.ports.Keys == old(s).ports.Keys + Buildable(ps, old(s).ports.Keys)
      ensures s.connectors.Keys == old(s).connectors.Keys + Buildable(cs, old(s).connectors.Keys)
      ensures ok ==> forall n, flag :: Stays(old(s), old(s), n, flag) ==> Stays(old(s), s, n, flag)
      ensures ok ==> forall n :: n in Buildable(cs, old(s).connectors.Keys) ==> WiredFrom(s, n, cs)
      ensures ok ==> forall n :: n in Buildable(ps, old(s).ports.Keys) + Buildable(cs, old(s).connectors.Keys) ==>
                Off(s, n)
    {
      hide *;
      ghost var a := s;
      MidTables(a, ch, oldSubs, needs);
      ghost var p := ProcessPorts(ps);
      ghost var b := s;
      PortsMadeUnfold(a, b, p);
      PortsKeepMid(a, b, p, ch, oldSubs, needs);
      MidTables(b, ch, oldSubs, needs);
      Resubscribe(ch, oldSubs);
      ghost var c := s;
      ResubscribedUnfold(b, c, ch, oldSubs);
      ResubscribedLate(b, c, ch, oldSubs, needs);
      LateTables(c, ch, needs);
      ghost var q := ProcessConnectors(cs);
      ghost var d := s;
      ConnectorsMadeUnfold(c, d, q);
      ConnectorsKeepLate(c, d, q, ch, needs);
      LateTables(d, ch, needs);
      assert forall e :: e in needs ==> (e.0 in d.registry <==> e.0 in d.ports);
      ok := ReplaceAddresses(ch, needs);
      if ok {
        ReaddressedUnfold(d, s, ch, needs);
        AllBackFold(d, ch, needs);
        Repaired(d, s, ch, needs);
        ReaddressedWires(d, s, ch, needs);
        WiresSame(b, c);
        PortsKeepWires(a, b, p);
        ConnectorsKeepWires(c, d, q);
        forall n, flag | Stays(a, a, n, flag) ensures Stays(a, s, n, flag) {
          StaysNamed(a, n, flag);
          StaysAllocated(a, a, b, p, n, flag);
          StaysSame(a, b, c, n, flag);
          StaysAllocated(a, c, d, q, n, flag);
          StaysSame(a, d, s, n, flag);
        }
        forall n | n in q ensures WiredFrom(s, n, cs) { MadeWired(d, s, q, cs, n); }
        forall n | n in p ensures Off(s, n) {
          MadeOff(a, b, p, n);
          OffKept(b, c, n);
          OffAllocated(c, d, q, n);
          OffKept(d, s, n);
        }
        forall n | n in q ensures Off(s, n) {
          MadeOff(c, d, q, n);
          OffKept(d, s, n);
        }
      }
    }

    /** The part of a reload between parking and the end: what goes, what is built, what is
        enabled again. */
    method Apply(d: set<Name>, ch: set<Name>, ps: seq<Entry>, cs: seq<Entry>, fresh_: set<Name>, re: set<Name>)
      returns (ok: bool)
      requires Inv(s) && NoneLeftDangling(s, d, ch) && NamesFit(s, d, ch, ps, cs)
      requires fresh_ !! s.registry.Keys - d && re <= s.registry.Keys - d
      modifies this`s
      ensures ok ==> Inv(s)
      ensures ok <==> forall p :: p in ch && Awaited(old(s), d, p) ==> p in Buildable(ps, old(s).ports.Keys - d)
      ensures s.ports.Keys == old(s).ports.Keys - d + Buildable(ps, old(s).ports.Keys - d)
      ensures s.connectors.Keys == old(s).connectors.Keys - d + Buildable(cs, old(s).connectors.Keys - d)
      ensures ok ==> forall n :: n in old(s).registry && n !in d ==>
                old(s).registry[n] in old(s).enabled
                && Stays(old(s), s, n, old(s).enabled[old(s).registry[n]] || n in re)
      ensures ok ==> forall n :: n in Buildable(cs, old(s).connectors.Keys - d) ==> WiredFrom(s, n, cs)
      ensures ok ==> forall n ::
                n in Buildable(ps, old(s).ports.Keys - d) + Buildable(cs, old(s).connectors.Keys - d) ==>
                Flagged(s, n, n in fresh_)
    {
      hide *;
      ghost var a := s;
      NamesFitUnfold(a, d, ch, ps, cs);
      var oldSubs, needs := TearDown(d, ch);
      ghost var b := s;
      assert b.ports.Keys == a.ports.Keys - d && b.connectors.Keys == a.connectors.Keys - d;
      forall e | e in needs ensures e.0 in ch && e.0 in a.ports && e.0 !in NamesOf(cs) && e.0 !in b.connectors {
        assert Awaited(a, d, e.0);
      }
      ok := BuildNew(ch, oldSubs, needs, ps, cs);
      ghost var c := s;
      if !ok {
        return;
      }
      InvTables(c);
      EnableAll(fresh_ * s.registry.Keys);
      ghost var e := s;
      ReenabledShape(c, e, fresh_ * c.registry.Keys);
      FlagsInv(c, e);
      InvTables(e);
      forall n | n in a.registry && n !in d ensures n in e.registry && Stays(a, e, n, a.enabled[a.registry[n]]) {
        var flag := a.enabled[a.registry[n]];
        StaysBoth(a, b, n, flag);
        StaysVia(a, b, c, n, flag);
        StaysEnabled(a, c, e, fresh_ * c.registry.Keys, n, flag);
        StaysBoth(a, e, n, flag);
      }
      ghost var built := Buildable(ps, b.ports.Keys) + Buildable(cs, b.connectors.Keys);
      forall n | n in built ensures Flagged(e, n, n in fresh_) {
        OffThenOn(c, e, fresh_, n);
      }
      EnableAll(re);
      ReenabledShape(e, s, re);
      FlagsInv(e, s);
      InvTables(a);
      FiledKeys(a);
      BuiltApart(a, d, ps, cs);
      forall n | n in built ensures Flagged(s, n, n in fresh_) {
        FlaggedStill(e, s, re, n, n in fresh_);
      }
      forall n | n in Buildable(cs, b.connectors.Keys) ensures WiredFrom(s, n, cs) {
        WiredStill(c, s, n, cs);
      }
      forall n | n in a.registry && n !in d ensures Stays(a, s, n, a.enabled[a.registry[n]] || n in re) {
        StaysEnabled(a, e, s, re, n, a.enabled[a.registry[n]]);
      }
    }

    /** Compares the configurations, collection by collection. */
    method Compare(before: Files, after: Files, old_: Config, new_: Config) returns (x: Diff)
      ensures IsDiff(before, after, old_, new_, x)
    {
      hide ReplacedNames, NamesOf, ToBuild;
      var pCreated, pChanged, pDeleted, ports := ComparePart(before, after, old_.ports, new_.ports);
      var cCreated, cChanged, cDeleted, connectors := ComparePart(before, after, old_.connectors, new_.connectors);
      // the plugins' interfaces are not modelled, only whether any of them changes
      var uCreated, uChanged, uDeleted, _ := ComparePart(before, after, old_.plugins, new_.plugins);
      var uis := uCreated + uChanged + uDeleted != {};
      x := Diff(pCreated + cCreated, pChanged + cChanged, pDeleted + cDeleted, ports, connectors, uis);
    }

    /** One of the collections. */
    method ComparePart(before: Files, after: Files, old_: seq<Entry>, new_: seq<Entry>)
      returns (created: set<Name>, changed: set<Name>, deleted: set<Name>, confs: seq<Entry>)
      ensures created == NamesOf(new_) - NamesOf(old_) && deleted == NamesOf(old_) - NamesOf(new_)
      ensures changed == ReplacedNames(before, after, old_, new_) && ToBuild(before, after, old_, new_, confs)
    {
      hide ReplacedNames, NamesOf, Rebuilds, EntriesOf, Selected;
      ObjectsAre(old_);
      ObjectsAre(new_);
      created, changed, deleted, confs := FindChangedConfs(before, after, AsObjects(old_), AsObjects(new_));
    }

    /** `ReloadConfig`.  `parked` is what `ParkThreads` returns and `started` are the names
        of new handlers whose enabling, posted by `EnableIOHandler` unless `Build` failed, has
        run by the end. */
    method ReloadConfig(filename: FileName, before: Files, after: Files, old_: Config, new_: Config, parked: bool,
                        started: set<Name>)
      returns (r: Outcome)
      requires Inv(s) && WellNamed(s, old_, new_)
      modifies this
      ensures r == OutcomeOf(old(s), before, after, old_, new_, parked)
      // A rejected reload changes nothing.
      ensures r == Rejected ==> s == old(s) && confFilename == old(confFilename)
      ensures r != Rejected ==> confFilename == if filename == "" then old(confFilename) else filename
      // All but the terminal failure keep the invariant.
      ensures r != Terminal ==> Inv(s)
      ensures r == ShuttingDown ==> s == old(s).(enabled := s.enabled)
      ensures r == Terminal ==> !AllValid(new_.ports)
      // When nothing differs, nothing changes; and nothing does between the same configurations.
      ensures !Differs(before, after, old_, new_) ==> s == old(s)
      ensures before == after && old_ == new_ && DistinctConfig(new_) && !NoObjects(new_) ==>
                r == Reloaded && s == old(s)
      // A successful one changes and adds exactly what differs.
      ensures r == Reloaded ==> LiveFrom(s, new_) && ReloadedAs(old(s), s, before, after, old_, new_, started)
    {
      hide *;
      ghost var a := s;
      OutcomeIs(a, before, after, old_, new_, parked);
      NoObjectsIs(new_);
      if before == after && old_ == new_ && DistinctConfig(new_) {
        SameConfig(a, before, new_, parked);
      }
      var oldFile := confFilename;
      if filename != "" {
        confFilename := filename;
      }
      if new_.ports == [] && new_.connectors == [] && new_.plugins == [] {
        confFilename := oldFile;
        return Rejected;
      }
      var x := Compare(before, after, old_, new_);
      DiffersIs(before, after, old_, new_, x);
      if x.created + x.changed + x.deleted == {} && !x.uis {
        NothingToDo(before, after, old_, new_, a, x, started);
        return Reloaded;
      }
      var d := (x.deleted + x.changed) * s.registry.Keys;
      var ch, deleted := x.changed * s.registry.Keys, x.deleted * s.registry.Keys;
      GoneIs(before, after, old_, new_, a, x, d);
      CheckedDangling(a, deleted, d, ch);
      DanglingIs(a, before, after, old_, new_, deleted, d);
      if WouldDangle(s, deleted, d) {
        confFilename := oldFile;
        return Rejected;
      }
      var re := DisableAll(d);
      DisabledShape(a, s, d, re);
      FlagsInv(a, s);
      if !parked {
        return ShuttingDown;
      }
      r := Change(before, after, old_, new_, x, d, ch, started, a, re);
    }

    /** The part of `ReloadConfig` after parking, which found the handlers of state `a`
        disabled as far as they are affected. */
    method Change(ghost before: Files, ghost after: Files, ghost old_: Config, ghost new_: Config, x: Diff,
                  d: set<Name>, ch: set<Name>,
                  started: set<Name>, ghost a: State, re: set<Name>) returns (r: Outcome)
      requires Inv(a) && Inv(s) && Disabled(a, s, d, re) && NoneLeftDangling(a, d, ch)
      requires WellNamed(a, old_, new_) && IsDiff(before, after, old_, new_, x)
      requires x.changed == ChangedNames(before, after, old_, new_)
      requires d == (x.deleted + x.changed) * a.registry.Keys && ch == x.changed * a.registry.Keys
      modifies `s
      ensures r == if MissesPort(a, before, after, old_, new_) then Terminal else Reloaded
      ensures r == Terminal ==> !AllValid(new_.ports)
      ensures r == Reloaded ==> Inv(s) && LiveFrom(s, new_) && ReloadedAs(a, s, before, after, old_, new_, started)
    {
      hide *;
      ghost var b := s;
      InvTables(a);
      DisabledShape(a, b, d, re);
      ReadyToApply(before, after, old_, new_, a, b, x, d, ch);
      FailsIff(before, after, old_, new_, a, b, x, d, ch);
      var created := x.created + (x.changed - s.registry.Keys);
      var ok := Apply(d, ch, x.ports, x.connectors, (created + ch) * started, re);
      if !ok {
        return Terminal;
      }
      assert (created + ch) * started == (x.created + x.changed) * started;
      Applied(before, after, old_, new_, a, b, x, d, re, s, started, (created + ch) * started);
      r := Reloaded;
    }
  }

  /** A reload as an operator asks for it: the file, what its files say now, and how it goes. */
  datatype Request = Request(filename: FileName, files: Files, config: Config, parked: bool, started: set<Name>)

  /** The configuration of the last request that was loaded. */
  function Loaded(config: Config, requests: seq<Request>, outcomes: seq<Outcome>): Config
    requires |outcomes| <= |requests|
  {
    if outcomes == [] then config
    else
      var n := |outcomes| - 1;
      if outcomes[n] == Reloaded then requests[n].config else Loaded(config, requests, outcomes[..n])
  }

  /** The configurations that were loaded, the first one included. */
  function AllLoaded(config: Config, requests: seq<Request>, outcomes: seq<Outcome>): seq<Config>
    requires |outcomes| <= |requests|
  {
    if outcomes == [] then [config]
    else
      var n := |outcomes| - 1;
      AllLoaded(config, requests, outcomes[..n]) + if outcomes[n] == Reloaded then [requests[n].config] else []
  }

  /** Every live connector has exactly the connections that a valid entry of its name, in a configuration
      that was loaded, asks for between the ports live after that load. */
  ghost predicate WiredByLoads(s: State, loads: seq<Config>, live: seq<set<Name>>) {
    |live| == |loads| && forall n :: n in s.connectors ==> WiredByLoad(s, loads, live, n)
  }

  ghost predicate WiredByLoad(s: State, loads: seq<Config>, live: seq<set<Name>>, n: Name) {
    n in s.connectors && s.connectors[n] in s.conns
    && exists i, k :: WiredByEntry(s.conns[s.connectors[n]], n, loads, live, i, k)
  }

  ghost predicate WiredByEntry(cs: seq<Connection>, n: Name, loads: seq<Config>, live: seq<set<Name>>, i: int, k: int) {
    && 0 <= i < |loads| == |live| && 0 <= k < |loads[i].connectors|
    && loads[i].connectors[k].valid && loads[i].connectors[k].name == n
    && Wired(cs, live[i], loads[i].connectors[k].links)
  }

  predicate EndsWith(outcomes: seq<Outcome>, o: Outcome) {
    outcomes != [] && outcomes[|outcomes| - 1] == o
  }

  /** Start-up and any sequence of reloads, up to a shutdown or a terminal failure: in every state
      reached but that of a terminal failure nothing dangles, subscribers match connections, and
      live handlers stem from the configuration loaded last. */
  method Serve(config: Config, filename: FileName, files: Files, requests: seq<Request>)
    returns (dc: DataConcentrator, current: Config, outcomes: seq<Outcome>, ghost live: seq<set<Name>>)
    requires WellFormedConfig(config) && forall k :: 0 <= k < |requests| ==> WellFormedConfig(requests[k].config)
    ensures |outcomes| <= |requests| && current == Loaded(config, requests, outcomes)
    ensures !EndsWith(outcomes, Terminal) ==> WiredByLoads(dc.s, AllLoaded(config, requests, outcomes), live)
    ensures !EndsWith(outcomes, Terminal) ==> Inv(dc.s) && LiveFrom(dc.s, current) && WellFormedConfig(current)
    ensures forall k :: 0 <= k < |outcomes| - 1 ==> outcomes[k] == Reloaded || outcomes[k] == Rejected
    ensures |outcomes| < |requests| ==> EndsWith(outcomes, ShuttingDown) || EndsWith(outcomes, Terminal)
  {
    hide *;
    dc := new DataConcentrator(config, filename);
    var cache := files;
    current, outcomes := config, [];
    LoadedNone(config, requests);
    live := [dc.s.ports.Keys];
    WiredFirst(dc.s, config);
    for k := 0 to |requests|
      invariant |outcomes| == k && current == Loaded(config, requests, outcomes)
      invariant Inv(dc.s) && LiveFrom(dc.s, current) && WellFormedConfig(current)
      invariant WiredByLoads(dc.s, AllLoaded(config, requests, outcomes), live)
      invariant forall i :: 0 <= i < k ==> outcomes[i] == Reloaded || outcomes[i] == Rejected
    {
      var q := requests[k];
      ghost var before := dc.s;
      NextWellNamed(dc.s, current, q.config);
      var r := dc.ReloadConfig(q.filename, cache, q.files, current, q.config, q.parked, q.started);
      LoadedNext(config, requests, outcomes, r);
      ghost var loads := AllLoaded(config, requests, outcomes);
      ghost var had := current;
      outcomes := outcomes + [r];
      if r == ShuttingDown || r == Terminal {
        if r == ShuttingDown {
          SameLive(before, dc.s, current);
          SameWired(before, dc.s, loads, live);
        }
        return;
      }
      if r == Reloaded {
        WiredMoreLoads(before, dc.s, cache, q.files, had, q.config, q.started, loads, live);
        live := live + [dc.s.ports.Keys];
        current, cache := q.config, q.files;
      }
    }
    LastOf(outcomes);
  }

  lemma WiredFirst(s: State, config: Config)
    requires forall n :: n in s.connectors ==> WiredFrom(s, n, config.connectors)
    ensures WiredByLoads(s, [config], [s.ports.Keys])
  {
    hide Wired;
    forall n | n in s.connectors
      ensures WiredByLoad(s, [config], [s.ports.Keys], n)
    {
      assert WiredFrom(s, n, config.connectors);
      var k :| FirstValid(config.connectors, n, k)
               && Wired(s.conns[s.connectors[n]], s.ports.Keys, config.connectors[k].links);
      assert WiredByEntry(s.conns[s.connectors[n]], n, [config], [s.ports.Keys], 0, k);
    }
  }

  lemma SameWired(s: State, t: State, loads: seq<Config>, live: seq<set<Name>>)
    requires WiredByLoads(s, loads, live) && t == s.(enabled := t.enabled)
    ensures WiredByLoads(t, loads, live)
  {
    hide WiredByEntry;
  }

  /** One more load: connectors that stay keep their connections, the others have those of the new
      configuration. */
  lemma WiredMoreLoads(s: State, t: State, before: Files, after: Files, old_: Config, new_: Config, started: set<Name>,
                       loads: seq<Config>, live: seq<set<Name>>)
    requires Inv(s) && Inv(t) && WiredByLoads(s, loads, live) && ReloadedAs(s, t, before, after, old_, new_, started)
    ensures WiredByLoads(t, loads + [new_], live + [t.ports.Keys])
  {
    hide *;
    LoadsLength(s, loads, live);
    forall n | n in t.connectors
      ensures WiredByLoad(t, loads + [new_], live + [t.ports.Keys], n)
    {
      var gone := GoneNames(s, before, after, old_, new_);
      ReloadedConnector(s, t, before, after, old_, new_, started, n);
      if n in s.connectors.Keys - gone {
        var i, k := LoadsAt(s, loads, live, n);
        WiredEarlier(s.conns[s.connectors[n]], t.conns[t.connectors[n]], n, loads, live, new_, t.ports.Keys, i, k);
        LoadFold(t, loads + [new_], live + [t.ports.Keys], n, i, k);
      } else {
        WiredLatest(t, before, after, old_, new_, n, loads, live);
      }
    }
    LoadsFold(t, loads + [new_], live + [t.ports.Keys]);
  }

  lemma LoadsLength(s: State, loads: seq<Config>, live: seq<set<Name>>)
    requires WiredByLoads(s, loads, live)
    ensures |live| == |loads|
  {
    hide WiredByEntry;
  }

  lemma LoadsAt(s: State, loads: seq<Config>, live: seq<set<Name>>, n: Name) returns (i: int, k: int)
    requires WiredByLoads(s, loads, live) && n in s.connectors
    ensures s.connectors[n] in s.conns && WiredByEntry(s.conns[s.connectors[n]], n, loads, live, i, k)
  {
    hide WiredByEntry;
    assert WiredByLoad(s, loads, live, n);
    i, k :| WiredByEntry(s.conns[s.connectors[n]], n, loads, live, i, k);
  }

  lemma LoadFold(s: State, loads: seq<Config>, live: seq<set<Name>>, n: Name, i: int, k: int)
    requires n in s.connectors && s.connectors[n] in s.conns
    requires WiredByEntry(s.conns[s.connectors[n]], n, loads, live, i, k)
    ensures WiredByLoad(s, loads, live, n)
  {
    hide WiredByEntry;
  }

  lemma LoadsFold(s: State, loads: seq<Config>, live: seq<set<Name>>)
    requires |live| == |loads| && forall n :: n in s.connectors ==> WiredByLoad(s, loads, live, n)
    ensures WiredByLoads(s, loads, live)
  {
    hide WiredByLoad;
  }

  lemma ReloadedConnector(s: State, t: State, before: Files, after: Files, old_: Config, new_: Config,
                          started: set<Name>, n: Name)
    requires Inv(s) && Inv(t) && ReloadedAs(s, t, before, after, old_, new_, started) && n in t.connectors
    ensures t.connectors[n] in t.conns
    ensures n in s.connectors.Keys - GoneNames(s, before, after, old_, new_) ==>
              s.connectors[n] in s.conns && SameWires(s.conns[s.connectors[n]], t.conns[t.connectors[n]])
    ensures n !in s.connectors.Keys - GoneNames(s, before, after, old_, new_) ==>
              RebuiltWired(t, before, after, old_.connectors, new_.connectors, n)
  {
    InvTables(s);
    InvTables(t);
    hide Inv, Wired, SameWires, NoDangling, SubscribersMatch, SubscriberAddrs, GoneNames, RebuiltWired, Rebuilt,
         NamesOf;
  }

  lemma WiredEarlier(cs: seq<Connection>, ds: seq<Connection>, n: Name, loads: seq<Config>, live: seq<set<Name>>,
                     c: Config, ports: set<Name>, i: int, k: int)
    requires SameWires(cs, ds) && WiredByEntry(cs, n, loads, live, i, k)
    ensures WiredByEntry(ds, n, loads + [c], live + [ports], i, k)
  {
    hide Wired, SameWires;
    WiredSame(cs, ds, live[i], loads[i].connectors[k].links);
  }

  lemma WiredLatest(t: State, before: Files, after: Files, old_: Config, new_: Config, n: Name, loads: seq<Config>,
                    live: seq<set<Name>>)
    requires RebuiltWired(t, before, after, old_.connectors, new_.connectors, n) && |live| == |loads|
    ensures WiredByLoad(t, loads + [new_], live + [t.ports.Keys], n)
  {
    hide Wired, Rebuilds;
    var j :| FirstToBuild(before, after, old_.connectors, new_.connectors, n, j)
             && Wired(t.conns[t.connectors[n]], t.ports.Keys, new_.connectors[j].links);
    assert WiredByEntry(t.conns[t.connectors[n]], n, loads + [new_], live + [t.ports.Keys], |loads|, j);
  }

  lemma LastOf(outcomes: seq<Outcome>)
    requires forall i :: 0 <= i < |outcomes| ==> outcomes[i] == Reloaded || outcomes[i] == Rejected
    ensures !EndsWith(outcomes, Terminal)
  {
  }

  lemma SameLive(s: State, t: State, c: Config)
    requires LiveFrom(s, c) && t == s.(enabled := t.enabled)
    ensures LiveFrom(t, c)
  {
    hide NamesOf;
  }

  lemma LoadedNone(config: Config, requests: seq<Request>)
    ensures Loaded(config, requests, []) == config && AllLoaded(config, requests, []) == [config]
  {
  }

  lemma LoadedNext(config: Config, requests: seq<Request>, outcomes: seq<Outcome>, r: Outcome)
    requires |outcomes| < |requests|
    ensures Loaded(config, requests, outcomes + [r]) ==
            if r == Reloaded then requests[|outcomes|].config else Loaded(config, requests, outcomes)
    ensures AllLoaded(config, requests, outcomes + [r]) ==
            AllLoaded(config, requests, outcomes) + if r == Reloaded then [requests[|outcomes|].config] else []
    ensures r != Reloaded ==> AllLoaded(config, requests, outcomes + [r]) == AllLoaded(config, requests, outcomes)
    ensures forall o :: EndsWith(outcomes + [r], o) <==> o == r
  {
    assert (outcomes + [r])[..|outcomes|] == outcomes;
  }

  lemma NextWellNamed(s: State, old_: Config, new_: Config)
    requires WellFormedConfig(old_) && LiveFrom(s, old_) && WellFormedConfig(new_)
    ensures WellNamed(s, old_, new_)
  {
    hide LiveFrom, Avoids, NamesOf;
  }

  lemma StartUp(c: Config)
    requires WellFormedConfig(c)
    ensures NamesOf(c.connectors) !! NamesOf(c.ports)
    ensures forall k :: 0 <= k < |c.connectors| ==> Avoids(c.connectors[k].links, {} + NamesOf(c.connectors))
    ensures Buildable(c.ports, {}) <= NamesOf(c.ports) && Buildable(c.connectors, {}) <= NamesOf(c.connectors)
  {
    hide Avoids, NamesOf;
    assert {} + NamesOf(c.connectors) == NamesOf(c.connectors);
  }

  lemma LiveFromFold(s: State, c: Config)
    requires s.ports.Keys <= NamesOf(c.ports) && s.connectors.Keys <= NamesOf(c.connectors)
    ensures LiveFrom(s, c)
  {
    hide NamesOf;
  }

  lemma NoObjectsIs(c: Config)
    ensures NoObjects(c) <==> c.ports == [] && c.connectors == [] && c.plugins == []
  {
  }

  /** What the second half of a reload needs. */
  lemma ReadyToApply(before: Files, after: Files, old_: Config, new_: Config, a: State, b: State, x: Diff,
                     d: set<Name>, ch: set<Name>)
    requires Inv(a) && WellNamed(a, old_, new_) && IsDiff(before, after, old_, new_, x)
    requires d == (x.deleted + x.changed) * a.registry.Keys && ch == x.changed * a.registry.Keys
    requires b == a.(enabled := b.enabled) && NoneLeftDangling(a, d, ch)
    ensures NoneLeftDangling(b, d, ch) && NamesFit(b, d, ch, x.ports, x.connectors)
    ensures x.created + x.changed !! a.registry.Keys - d
  {
    hide *;
    InvTables(a);
    NamesFitSets(before, after, old_, new_, a, x, d, ch);
    WellNamedUnfold(a, old_, new_);
    DiffEntries(before, after, old_, new_, x);
    SameSubs(a, b, d, ch);
    NamesFitFold(new_, b, d, ch, x.ports, x.connectors);
  }

  /** What holds when the loop comes to a new connector. */
  lemma NextConnector(a: State, b: State, made: map<Name, Addr>, es: seq<Entry>, k: nat)
    requires Tables(a) && ConnectorsMade(a, b, made) && made.Keys !! a.registry.Keys && made.Keys <= NamesOf(es)
    requires NamesOf(es) !! a.ports.Keys
    requires forall p :: p in a.ports ==> SubscriberAddrs(a, p)
    requires k < |es| && es[k].name !in b.connectors && Avoids(es[k].links, a.connectors.Keys + NamesOf(es))
    ensures Tables(b) && es[k].name !in b.registry && es[k].name !in a.registry && es[k].name in NamesOf(es)
    ensures Avoids(es[k].links, b.connectors.Keys + {es[k].name})
    ensures forall p :: p in a.ports && a.ports[p] in a.subs ==> es[k].name !in a.subs[a.ports[p]]
  {
    hide *;
    NameIn(es, k);
    ConnectorsMadeUnfold(a, b, made);
    ConnectorsFiledAs(a, b, made);
    TablesAfter(a, b, made, true);
    AllocatedKeys(a, b, made);
    TablesParts(a);
    FiledKeys(a);
    TablesParts(b);
    FiledKeys(b);
    AvoidsLess(es[k].links, a.connectors.Keys + NamesOf(es), b.connectors.Keys + {es[k].name});
    NotYetSubscribed(a, es[k].name);
  }

  lemma NotYetSubscribed(s: State, n: Name)
    requires n !in s.connectors && forall p :: p in s.ports ==> SubscriberAddrs(s, p)
    ensures forall p :: p in s.ports && s.ports[p] in s.subs ==> n !in s.subs[s.ports[p]]
  {
  }

  /** The state when the names in `done` have been taken out of the name tables. */
  function Stripped(s: State, done: set<Name>): State {
    s.(registry := s.registry - done, ports := s.ports - done, connectors := s.connectors - done)
  }

  function Addresses(s: State, done: set<Name>): set<Addr> {
    set n | n in done && n in s.registry :: s.registry[n]
  }

  lemma NoneRemoved(s: State, d: set<Name>, ch: set<Name>)
    ensures s == Stripped(s, {}) && Addresses(s, {}) == {} && NotedFor(s, d, {} * ch, map[], {})
  {
    NoteNone(s, d);
    hide NotedFor;
    assert {} * ch == {};
    assert s.registry - {} == s.registry && s.ports - {} == s.ports && s.connectors - {} == s.connectors;
  }

  lemma AllRemoved(s: State, d: set<Name>)
    requires Addressed(s) && d <= s.registry.Keys
    ensures var t, gone := Stripped(s, d), Addresses(s, d);
            Without(s, d) ==
              t.(names := t.names - gone, enabled := t.enabled - gone, subs := t.subs - gone, conns := t.conns - gone)
  {
    hide Addressed, Without;
    assert Addresses(s, d) == set n | n in d :: s.registry[n];
    DeletedAre(s, d, Addresses(s, d));
    WithoutIs(s, d, Addresses(s, d));
  }

  /** Taking out one more name. */
  lemma RemovedOne(a: State, d: set<Name>, ch: set<Name>, done: set<Name>, n: Name, oldSubs: OldSubs,
                   needs: NeedsNewAddr)
    requires Filed(a) && Addressed(a) && n in a.registry && n !in done && NotedFor(a, d, done * ch, oldSubs, needs)
    ensures var s := Stripped(a, done);
            && n in s.registry && s.registry[n] in s.subs && (n in s.ports || n in s.connectors)
            && s.(registry := s.registry - {n}, ports := s.ports - {n}, connectors := s.connectors - {n}) ==
                 Stripped(a, done + {n})
            && Addresses(a, done + {n}) == Addresses(a, done) + {s.registry[n]}
            && (n in s.ports ==> s.ports[n] == s.registry[n])
            && (n in s.connectors ==> s.connectors[n] == s.registry[n])
            && NotedFor(a, d, (done + {n}) * ch, if n in ch then oldSubs[n := s.subs[s.registry[n]]] else oldSubs,
                        if n in ch then needs + NeedsOf(s.conns, d, n, s.subs[s.registry[n]]) else needs)
  {
    hide *;
    RegisteredAt(a, n);
    FiledAt(a, n);
    StrippedLess(a, done, n);
    AddressesMore(a, done, n);
    if n in ch {
      NoteMore(a, d, done * ch, oldSubs, needs, n);
      assert (done + {n}) * ch == done * ch + {n};
    } else {
      assert (done + {n}) * ch == done * ch;
    }
  }

  lemma FiledAt(s: State, n: Name)
    requires Filed(s) && n in s.registry
    ensures n in s.ports || n in s.connectors
    ensures n in s.ports ==> s.ports[n] == s.registry[n]
    ensures n in s.connectors ==> s.connectors[n] == s.registry[n]
  {
  }

  lemma StrippedLess(a: State, done: set<Name>, n: Name)
    requires n !in done
    ensures var s := Stripped(a, done);
            && s.subs == a.subs && s.conns == a.conns
            && (n in s.registry <==> n in a.registry) && (n in s.ports <==> n in a.ports)
            && (n in s.connectors <==> n in a.connectors)
            && (n in s.registry ==> s.registry[n] == a.registry[n]) && (n in s.ports ==> s.ports[n] == a.ports[n])
            && (n in s.connectors ==> s.connectors[n] == a.connectors[n])
            && s.(registry := s.registry - {n}, ports := s.ports - {n}, connectors := s.connectors - {n}) ==
                 Stripped(a, done + {n})
  {
    LessOne(a.registry, done, n);
    LessOne(a.ports, done, n);
    LessOne(a.connectors, done, n);
  }

  lemma AddressesMore(s: State, done: set<Name>, n: Name)
    requires n in s.registry
    ensures Addresses(s, done + {n}) == Addresses(s, done) + {s.registry[n]}
  {
  }

  /** The first `k` entries have been processed: `made` are the new connectors. */
  ghost predicate ConnectorsDone(a: State, s: State, made: map<Name, Addr>, es: seq<Entry>, k: nat) {
    && k <= |es| && ConnectorsMade(a, s, made) && made.Keys == Buildable(es[..k], a.connectors.Keys)
    && made.Keys <= NamesOf(es) && made.Keys !! a.registry.Keys && MadeFrom(s, made, es)
  }

  lemma ConnectorsDoneIs(a: State, s: State, made: map<Name, Addr>, es: seq<Entry>, k: nat)
    ensures ConnectorsDone(a, s, made, es, k) <==>
            && k <= |es| && ConnectorsMade(a, s, made) && made.Keys == Buildable(es[..k], a.connectors.Keys)
            && made.Keys <= NamesOf(es) && made.Keys !! a.registry.Keys && MadeFrom(s, made, es)
  {
    hide ConnectorsMade, Buildable, NamesOf, MadeFrom;
  }

  lemma NoConnectorDone(a: State, es: seq<Entry>)
    requires Tables(a)
    ensures ConnectorsDone(a, a, map[], es, 0)
  {
    hide *;
    ConnectorsMadeNone(a);
    MadeFromNone(a, es);
    BuildableAll(es, a.connectors.Keys);
    ConnectorsDoneIs(a, a, map[], es, 0);
  }

  lemma AllConnectorsDone(a: State, s: State, made: map<Name, Addr>, es: seq<Entry>)
    requires ConnectorsDone(a, s, made, es, |es|)
    ensures ConnectorsMade(a, s, made) && made.Keys == Buildable(es, a.connectors.Keys)
    ensures made.Keys !! a.registry.Keys && MadeFrom(s, made, es)
  {
    hide *;
    ConnectorsDoneIs(a, s, made, es, |es|);
    BuildableAll(es, a.connectors.Keys);
  }

  lemma ConnectorSkipped(a: State, s: State, made: map<Name, Addr>, es: seq<Entry>, k: nat)
    requires k < |es| && ConnectorsDone(a, s, made, es, k) && (!es[k].valid || es[k].name in s.connectors)
    ensures ConnectorsDone(a, s, made, es, k + 1)
  {
    hide *;
    ConnectorsDoneIs(a, s, made, es, k);
    ConnectorsDoneIs(a, s, made, es, k + 1);
    ConnectorsMadeUnfold(a, s, made);
    BuildableSnoc(es, a.connectors.Keys, k);
  }

  lemma ConnectorAdded(a: State, b: State, made: map<Name, Addr>, es: seq<Entry>, k: nat, x: Addr)
    requires k < |es| && ConnectorsDone(a, b, made, es, k) && es[k].valid && es[k].name !in b.registry
    requires es[k].name !in a.registry
    requires Tables(a) && Tables(b) && es[k].name in NamesOf(es) && x !in b.names
    requires LeadToPorts(b, LinksOf(b.ports, es[k].links))
    requires forall p :: p in a.ports && a.ports[p] in a.subs ==> es[k].name !in a.subs[a.ports[p]]
    ensures ConnectorsDone(a, Built(b, es[k].name, x, LinksOf(b.ports, es[k].links)), made[es[k].name := x], es, k + 1)
  {
    hide *;
    var n, cs := es[k].name, LinksOf(b.ports, es[k].links);
    ConnectorsDoneIs(a, b, made, es, k);
    ConnectorsMadeMore(a, b, made, n, x, cs);
    NotConnected(b, x);
    TablesParts(a);
    FiledKeys(a);
    NotMade(a, b, made, n);
    FirstOfName(es, a.connectors.Keys, k);
    MadeFromMore(b, made, es, k, x);
    BuildableSnoc(es, a.connectors.Keys, k);
    ConnectorsDoneIs(a, Built(b, n, x, cs), made[n := x], es, k + 1);
  }

  lemma BuiltApart(a: State, d: set<Name>, ps: seq<Entry>, cs: seq<Entry>)
    requires NamesOf(ps) !! a.connectors.Keys - d && NamesOf(cs) !! a.ports.Keys - d
    requires a.registry.Keys == a.ports.Keys + a.connectors.Keys
    ensures Buildable(ps, a.ports.Keys - d) + Buildable(cs, a.connectors.Keys - d) !! a.registry.Keys - d
  {
  }

  lemma NotMade(a: State, b: State, made: map<Name, Addr>, n: Name)
    requires ConnectorsMade(a, b, made) && n !in b.registry
    ensures n !in made
  {
    hide *;
    ConnectorsMadeUnfold(a, b, made);
    AllocatedKeys(a, b, made);
    assert n in made ==> n in a.registry + made;
  }

  lemma FirstOfName(es: seq<Entry>, taken: set<Name>, k: nat)
    requires k < |es| && es[k].valid && es[k].name !in taken && es[k].name !in Buildable(es[..k], taken)
    ensures FirstValid(es, es[k].name, k)
  {
    forall i | 0 <= i < k ensures !(es[i].valid && es[i].name == es[k].name) {
      assert es[..k][i] == es[i];
    }
  }

  lemma NotConnected(s: State, x: Addr)
    requires Tables(s) && x !in s.names
    ensures x !in s.conns
  {
  }

  lemma MadeFromNone(s: State, es: seq<Entry>)
    ensures MadeFrom(s, map[], es)
  {
  }
}
