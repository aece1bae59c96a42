/**
  The live objects of a `DataConcentrator` as a pointer graph: ports and
  connectors with their addresses, the registry `IOHandler::IOHandlers`, the
  subscriber tables of the ports and the connection tables of the connectors.
 */
module Handlers {
  type Name = string
  newtype Addr = x: int | 0 <= x

  /** An entry of `SenderConnections`: events of `sender` go to the handler `peer`,
      whose address was stored when the entry was made. */
  datatype Connection = Connection(sender: Name, peer: Name, addr: Addr)

  /** `names`, `enabled` and `subs` hold the fields of every live object by its
      address, `conns` the connection tables of those that are connectors. */
  datatype State = State(
    names: map<Addr, Name>, enabled: map<Addr, bool>, subs: map<Addr, map<Name, Addr>>,
      conns: map<Addr, seq<Connection>>,
    registry: map<Name, Addr>, ports: map<Name, Addr>, connectors: map<Name, Addr>)

  predicate ConnectedTo(cs: seq<Connection>, port: Name) {
    exists k :: 0 <= k < |cs| && cs[k].peer == port
  }

  /** The registry holds the ports and the connectors. */
  ghost predicate Filed(s: State) {
    && s.registry.Keys == s.ports.Keys + s.connectors.Keys && s.ports.Keys !! s.connectors.Keys
    && (forall n :: n in s.ports ==> s.registry[n] == s.ports[n])
    && (forall n :: n in s.connectors ==> s.registry[n] == s.connectors[n])
  }

  /** Every live object is registered under its name, and nothing else is. */
  ghost predicate Addressed(s: State) {
    && s.names.Keys == s.enabled.Keys == s.subs.Keys && s.conns.Keys <= s.names.Keys
    && (forall n :: n in s.registry ==> s.registry[n] in s.names && s.names[s.registry[n]] == n)
    && (forall a :: a in s.names ==> s.names[a] in s.registry && s.registry[s.names[a]] == a)
    && (forall n :: n in s.registry ==> (s.registry[n] in s.conns <==> n in s.connectors))
  }

  /** Objects and tables agree. */
  ghost predicate Tables(s: State) {
    Filed(s) && Addressed(s)
  }

  /** Every connection of connector `n` leads to a live port, by its address. */
  ghost predicate NoDangling(s: State, n: Name) {
    n in s.registry && s.registry[n] in s.conns &&
    forall k :: 0 <= k < |s.conns[s.registry[n]]| ==>
      var c := s.conns[s.registry[n]][k];
      c.peer in s.ports && s.ports[c.peer] == c.addr
  }

  /** Port `p` lists exactly the connectors that are connected to it. */
  ghost predicate SubscribersMatch(s: State, p: Name) {
    p in s.ports && s.ports[p] in s.subs &&
    forall n :: n in s.subs[s.ports[p]] <==>
      n in s.connectors && s.connectors[n] in s.conns && ConnectedTo(s.conns[s.connectors[n]], p)
  }

  /** The addresses in the subscriber table of port `p` are those of the connectors. */
  ghost predicate SubscriberAddrs(s: State, p: Name) {
    p in s.ports && s.ports[p] in s.subs &&
    forall n :: n in s.subs[s.ports[p]] ==> n in s.connectors && s.subs[s.ports[p]][n] == s.connectors[n]
  }

  /** The invariant a reload keeps. */
  ghost predicate Inv(s: State) {
    && Tables(s)
    && (forall n :: n in s.connectors ==> NoDangling(s, n))
    && (forall p :: p in s.ports ==> SubscribersMatch(s, p))
    && (forall p :: p in s.ports ==> SubscriberAddrs(s, p))
    && (forall n :: n in s.connectors ==> s.connectors[n] in s.subs && s.subs[s.connectors[n]] == map[])
  }

  // ----- Configurations ------------------------------------------------------------------

  type FileName = string

  /** A configuration file: its content and the files it inherits. */
  datatype File = File(body: nat, inherits: seq<FileName>)

  type Files = map<FileName, File>

  /** An element of "Ports" or "Connectors".  `valid` says that the members the
      constructors need are there; `links` are the Port1-Port2 pairs of a connector. */
  datatype Entry = Entry(name: Name, valid: bool, typ: nat, library: nat, overrides: nat, confFile: FileName,
                         links: seq<(Name, Name)>)

  datatype Config = Config(ports: seq<Entry>, connectors: seq<Entry>, plugins: seq<Entry>)

  function NamesOf(es: seq<Entry>): set<Name> {
    set k | 0 <= k < |es| :: es[k].name
  }

  predicate AllValid(es: seq<Entry>) {
    forall k :: 0 <= k < |es| ==> es[k].valid
  }

  /** No name is used for a port and for a connector. */
  ghost predicate DisjointNames(c: Config) {
    NamesOf(c.ports) !! NamesOf(c.connectors)
  }

  /** A file that is not cached reads as the empty one. */
  function FileOf(files: Files, f: FileName): File {
    if f in files then files[f] else File(0, [])
  }

  /** `isDifferent` in `FindChangedConfs`; of the inherited files it compares only
      those named in the entry's own file. */
  predicate IsDifferent(before: Files, after: Files, o: Entry, n: Entry) {
    || o.typ != n.typ || o.library != n.library || o.overrides != n.overrides
    || FileOf(before, o.confFile) != FileOf(after, n.confFile)
    || exists k :: 0 <= k < |FileOf(after, n.confFile).inherits| &&
         var f := FileOf(after, n.confFile).inherits[k];
         f in before && before[f] != FileOf(after, f)
  }

  /** The first entry of that name, or the length. */
  function Find(es: seq<Entry>, n: Name): (k: nat)
    ensures k <= |es| && (k < |es| ==> es[k].name == n)
    ensures k == |es| <==> n !in NamesOf(es)
  {
    if es == [] then 0
    else if es[0].name == n then 0
    else
      assert NamesOf(es) == {es[0].name} + NamesOf(es[1..]) by { NamesCons(es); }
      1 + Find(es[1..], n)
  }

  ghost predicate DistinctEntries(es: seq<Entry>) {
    forall i, j :: 0 <= i < j < |es| ==> es[i].name != es[j].name
  }

  /** No collection uses a name twice. */
  ghost predicate DistinctConfig(c: Config) {
    DistinctEntries(c.ports) && DistinctEntries(c.connectors) && DistinctEntries(c.plugins)
  }

  lemma {:induction false} FindSelf(es: seq<Entry>, k: nat)
    requires DistinctEntries(es) && k < |es|
    ensures Find(es, es[k].name) == k
  {
    if k > 0 {
      assert es[0].name != es[k].name;
      FindSelf(es[1..], k - 1);
    }
  }

  lemma NamesCons(es: seq<Entry>)
    requires es != []
    ensures NamesOf(es) == {es[0].name} + NamesOf(es[1..])
  {
    assert forall k :: 1 <= k < |es| ==> es[k] == es[1..][k - 1];
    forall n | n in NamesOf(es[1..]) ensures n in NamesOf(es) {
      var k :| 0 <= k < |es[1..]| && es[1..][k].name == n;
      assert es[k + 1].name == n;
    }
  }

  lemma NameIn(es: seq<Entry>, k: nat)
    requires k < |es|
    ensures es[k].name in NamesOf(es)
  {
  }

  lemma NamesSnoc(es: seq<Entry>, k: nat)
    requires k < |es|
    ensures NamesOf(es[..k + 1]) == NamesOf(es[..k]) + {es[k].name}
  {
    var a, b := es[..k + 1], es[..k];
    forall n | n in NamesOf(a) ensures n in NamesOf(b) + {es[k].name} {
      var i :| 0 <= i < |a| && a[i].name == n;
      if i < k { assert b[i].name == n; }
    }
    forall n | n in NamesOf(b) + {es[k].name} ensures n in NamesOf(a) {
      if n == es[k].name { assert a[k].name == n; } else {
        var i :| 0 <= i < |b| && b[i].name == n;
        assert a[i].name == n;
      }
    }
  }

  /** An entry of the new configuration that replaces a different old one. */
  predicate Replaces(before: Files, after: Files, old_: seq<Entry>, e: Entry) {
    Find(old_, e.name) < |old_| && IsDifferent(before, after, old_[Find(old_, e.name)], e)
  }

  /** An entry a reload builds: a new one, or one that replaces a different old one. */
  predicate Rebuilds(before: Files, after: Files, old_: seq<Entry>, e: Entry) {
    Find(old_, e.name) == |old_| || Replaces(before, after, old_, e)
  }

  /** The entries a reload builds, in their order. */
  function Selected(before: Files, after: Files, old_: seq<Entry>, new_: seq<Entry>): seq<Entry> {
    if new_ == [] then []
    else
      var n := |new_| - 1;
      Selected(before, after, old_, new_[..n]) + if Rebuilds(before, after, old_, new_[n]) then [new_[n]] else []
  }

  lemma SelectedNone(before: Files, after: Files, old_: seq<Entry>)
    ensures Selected(before, after, old_, []) == []
  {
  }

  lemma SelectedSnoc(before: Files, after: Files, old_: seq<Entry>, es: seq<Entry>, e: Entry)
    ensures Selected(before, after, old_, es + [e]) ==
            Selected(before, after, old_, es) + if Rebuilds(before, after, old_, e) then [e] else []
  {
    hide Rebuilds;
    assert (es + [e])[..|es|] == es;
  }

  lemma {:induction false} SelectedAre(before: Files, after: Files, old_: seq<Entry>, new_: seq<Entry>)
    ensures forall e :: e in Selected(before, after, old_, new_) <==> e in new_ && Rebuilds(before, after, old_, e)
  {
    hide Rebuilds;
    if new_ != [] {
      var n := |new_| - 1;
      SelectedAre(before, after, old_, new_[..n]);
      assert new_ == new_[..n] + [new_[n]];
    }
  }

  lemma SelectedNames(before: Files, after: Files, old_: seq<Entry>, new_: seq<Entry>)
    ensures NamesOf(Selected(before, after, old_, new_)) ==
            (NamesOf(new_) - NamesOf(old_)) + ReplacedNames(before, after, old_, new_)
  {
    hide Replaces, Selected;
    SelectedAre(before, after, old_, new_);
    var es := Selected(before, after, old_, new_);
    forall n | n in NamesOf(es)
      ensures n in (NamesOf(new_) - NamesOf(old_)) + ReplacedNames(before, after, old_, new_)
    {
      var k :| 0 <= k < |es| && es[k].name == n;
      assert es[k] in new_;
      var j :| 0 <= j < |new_| && new_[j] == es[k];
    }
    forall n | n in (NamesOf(new_) - NamesOf(old_)) + ReplacedNames(before, after, old_, new_)
      ensures n in NamesOf(es)
    {
      if n !in ReplacedNames(before, after, old_, new_) {
        var j :| 0 <= j < |new_| && new_[j].name == n;
        assert new_[j] in es;
      } else {
        var j :| 0 <= j < |new_| && new_[j].name == n && Replaces(before, after, old_, new_[j]);
        assert new_[j] in es;
      }
    }
  }

  /** The first valid one of a name comes from the first valid entry of that name to be built. */
  ghost predicate FirstToBuild(before: Files, after: Files, old_: seq<Entry>, new_: seq<Entry>, n: Name, j: int) {
    && 0 <= j < |new_| && new_[j].valid && new_[j].name == n && Rebuilds(before, after, old_, new_[j])
    && forall i :: 0 <= i < j && new_[i].valid && new_[i].name == n ==> !Rebuilds(before, after, old_, new_[i])
  }

  /** The first valid entry of a name. */
  ghost predicate FirstValid(es: seq<Entry>, n: Name, k: int) {
    && 0 <= k < |es| && es[k].valid && es[k].name == n
    && forall i :: 0 <= i < k ==> !(es[i].valid && es[i].name == n)
  }

  lemma {:induction false} SelectedFirst(before: Files, after: Files, old_: seq<Entry>, new_: seq<Entry>, n: Name,
                                         k: nat)
    returns (j: nat)
    requires FirstValid(Selected(before, after, old_, new_), n, k)
    ensures FirstToBuild(before, after, old_, new_, n, j) && new_[j] == Selected(before, after, old_, new_)[k]
  {
    hide Rebuilds;
    var m := |new_| - 1;
    var most := Selected(before, after, old_, new_[..m]);
    if k < |most| {
      assert forall i :: 0 <= i <= k ==> Selected(before, after, old_, new_)[i] == most[i];
      j := SelectedFirst(before, after, old_, new_[..m], n, k);
    } else {
      j := m;
      SelectedAre(before, after, old_, new_[..m]);
      assert forall l :: 0 <= l < |most| ==> Selected(before, after, old_, new_)[l] == most[l];
      assert forall e :: e in most ==> !(e.valid && e.name == n);
      forall i | 0 <= i < j && new_[i].valid && new_[i].name == n ensures !Rebuilds(before, after, old_, new_[i]) {
        assert new_[i] in new_[..m];
      }
    }
  }

  function ReplacedNames(before: Files, after: Files, old_: seq<Entry>, new_: seq<Entry>): (r: set<Name>)
    ensures forall n :: n in r ==>
            n in NamesOf(old_) && exists k ::
              0 <= k < |new_| && new_[k].name == n && Replaces(before, after, old_, new_[k])
    ensures forall k :: 0 <= k < |new_| && Replaces(before, after, old_, new_[k]) ==> new_[k].name in r
    ensures r <= NamesOf(new_)
  {
    set k | 0 <= k < |new_| && Replaces(before, after, old_, new_[k]) :: new_[k].name
  }

  /** A member of a collection in the configuration file, which may lack a name. */
  datatype Object = Unnamed | Named(entry: Entry)

  function EntriesOf(os: seq<Object>): seq<Entry> {
    if os == [] then []
    else EntriesOf(os[..|os| - 1]) + if os[|os| - 1].Named? then [os[|os| - 1].entry] else []
  }

  function AsObjects(es: seq<Entry>): (os: seq<Object>)
    ensures |os| == |es| && forall k :: 0 <= k < |es| ==> os[k] == Named(es[k])
  {
    seq(|es|, k requires 0 <= k < |es| => Named(es[k]))
  }

  lemma {:induction false} ObjectsAre(es: seq<Entry>)
    ensures EntriesOf(AsObjects(es)) == es && Unnamed !in AsObjects(es)
  {
    if es != [] {
      var n := |es| - 1;
      ObjectsAre(es[..n]);
      assert AsObjects(es)[..n] == AsObjects(es[..n]);
      assert es == es[..n] + [es[n]];
    }
  }

  lemma EntriesNext(os: seq<Object>, k: nat)
    requires k < |os|
    ensures EntriesOf(os[..k + 1]) == EntriesOf(os[..k]) + if os[k].Named? then [os[k].entry] else []
  {
    assert os[..k + 1][..k] == os[..k];
  }

  lemma EntriesNone(os: seq<Object>)
    ensures EntriesOf(os[..0]) == [] && os[..|os|] == os && NamesOf(EntriesOf(os[..0])) == {}
  {
  }

  /** `FindChangedConfs`: which names are new, changed and gone, and the entries
      to build.  Objects without a name are skipped; an old one that no new one matches
      counts as the deletion of the empty name. */
  method FindChangedConfs(before: Files, after: Files, old_: seq<Object>, new_: seq<Object>)
    returns (created: set<Name>, changed: set<Name>, deleted: set<Name>, confs: seq<Entry>)
    ensures created == NamesOf(EntriesOf(new_)) - NamesOf(EntriesOf(old_))
    ensures deleted == NamesOf(EntriesOf(old_)) - NamesOf(EntriesOf(new_))
            + if Unnamed in old_ && Unnamed !in new_ then {""} else {}
    ensures changed == ReplacedNames(before, after, EntriesOf(old_), EntriesOf(new_))
    ensures confs == Selected(before, after, EntriesOf(old_), EntriesOf(new_)) && NamesOf(confs) == created + changed
    ensures forall e :: e in confs <==> e in EntriesOf(new_) && Rebuilds(before, after, EntriesOf(old_), e)
  {
    hide IsDifferent, NamesOf, EntriesOf, Selected;
    var olds := EntriesOf(old_);
    created, changed, deleted, confs := {}, {}, {}, [];
    EntriesNone(new_);
    assert Selected(before, after, olds, []) == [] by { SelectedNone(before, after, olds); }
    NamesNone();
    for n := 0 to |new_|
      invariant created == NamesOf(EntriesOf(new_[..n])) - NamesOf(olds)
      invariant forall x :: x in changed <==>
                exists e :: e in EntriesOf(new_[..n]) && Replaces(before, after, olds, e) && e.name == x
      invariant confs == Selected(before, after, olds, EntriesOf(new_[..n]))
    {
      EntriesNext(new_, n);
      if new_[n] == Unnamed {
        assert EntriesOf(new_[..n]) + [] == EntriesOf(new_[..n]);
        continue;
      }
      var e := new_[n].entry;
      ConfsSnoc(EntriesOf(new_[..n]), e);
      SelectedSnoc(before, after, olds, EntriesOf(new_[..n]), e);
      var m := Find(olds, e.name);
      if m < |olds| {
        if IsDifferent(before, after, olds[m], e) {
          changed := changed + {e.name};
          confs := confs + [e];
        }
      } else {
        created := created + {e.name};
        confs := confs + [e];
      }
    }
    ReplacedAre(before, after, olds, EntriesOf(new_), changed);
    SelectedAre(before, after, olds, EntriesOf(new_));
    SelectedNames(before, after, olds, EntriesOf(new_));
    deleted := FindDeleted(old_, new_);
  }

  lemma ReplacedAre(before: Files, after: Files, old_: seq<Entry>, new_: seq<Entry>, changed: set<Name>)
    requires forall x :: x in changed <==> exists e :: e in new_ && Replaces(before, after, old_, e) && e.name == x
    ensures changed == ReplacedNames(before, after, old_, new_)
  {
    hide Replaces;
    forall x | x in changed ensures x in ReplacedNames(before, after, old_, new_) {
      var e :| e in new_ && Replaces(before, after, old_, e) && e.name == x;
      var k :| 0 <= k < |new_| && new_[k] == e;
    }
  }

  /** The last loop of `FindChangedConfs`, which compares the names as JSON values. */
  method FindDeleted(old_: seq<Object>, new_: seq<Object>) returns (deleted: set<Name>)
    ensures deleted == NamesOf(EntriesOf(old_)) - NamesOf(EntriesOf(new_))
            + if Unnamed in old_ && Unnamed !in new_ then {""} else {}
  {
    hide NamesOf, EntriesOf;
    NamesNone();
    EntriesNone(old_);
    deleted := {};
    for m := 0 to |old_|
      invariant deleted == NamesOf(EntriesOf(old_[..m])) - NamesOf(EntriesOf(new_))
                + if Unnamed in old_[..m] && Unnamed !in new_ then {""} else {}
    {
      EntriesNext(old_, m);
      assert old_[..m + 1] == old_[..m] + [old_[m]];
      if old_[m] == Unnamed {
        assert EntriesOf(old_[..m]) + [] == EntriesOf(old_[..m]);
        if Unnamed !in new_ {
          deleted := deleted + {""};
        }
      } else {
        ConfsSnoc(EntriesOf(old_[..m]), old_[m].entry);
        if Find(EntriesOf(new_), old_[m].entry.name) == |EntriesOf(new_)| {
          deleted := deleted + {old_[m].entry.name};
        }
      }
    }
  }

  lemma NamesNone()
    ensures NamesOf([]) == {}
    ensures forall es: seq<Entry> :: NamesOf(es[..0]) == {}
  {
  }

  lemma ConfsSnoc(confs: seq<Entry>, e: Entry)
    ensures NamesOf(confs + [e]) == NamesOf(confs) + {e.name}
  {
    NamesSnoc(confs + [e], |confs|);
    assert (confs + [e])[..|confs|] == confs;
    assert (confs + [e])[..|confs| + 1] == confs + [e];
  }
}
