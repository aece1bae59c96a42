/**
  `DataConnector::Event`: an event goes through the transforms of its sender, a
  chain of callbacks built from the last one backwards, and then to every connection of
  that sender.
 */
module Routing {
  import opened Wrappers
  import opened Handlers

  /** A transform with memory of type `S`.  `step` is its `Event` on an event: the new memory
      and the event it hands on, or none when it drops the event.  `nullSafe` says that it
      also takes a dropped event, which it then hands on; the others dereference it. */
  datatype Transform<!S, !E> = Transform(step: (S, E) -> (S, Option<E>), nullSafe: bool)

  /** The memories of all transforms and what reached the end of the chain, or a null
      dereference on the way. */
  datatype Result<S, E> = Crash | Done(memories: seq<S>, out: Option<E>)

  type Handler<!S, !E> = (seq<S>, Option<E>) -> Result<S, E>

  /** Transform number `k` on an event or a dropped one, then its callback. */
  function Through<S, E>(t: Transform<S, E>, k: nat, next: Handler<S, E>, ms: seq<S>, ev: Option<E>): Result<S, E> {
    if k >= |ms| then Crash
    else match ev
      case Some(e) => var (m, out) := t.step(ms[k], e); next(ms[k := m], out)
      case None => if t.nullSafe then next(ms, None) else Crash
  }

  /** The callbacks from transform `k` on, as nested calls. */
  function RunFrom<S, E>(ts: seq<Transform<S, E>>, k: nat, ms: seq<S>, ev: Option<E>): Result<S, E>
    requires k <= |ts|
    decreases |ts| - k
  {
    if k == |ts| then Done(ms, ev)
    else if k >= |ms| then Crash
    else match ev
      case Some(e) => var (m, out) := ts[k].step(ms[k], e); RunFrom(ts, k + 1, ms[k := m], out)
      case None => if ts[k].nullSafe then RunFrom(ts, k + 1, ms, None) else Crash
  }

  lemma ThroughIs<S, E>(ts: seq<Transform<S, E>>, k: nat, next: Handler<S, E>, ms: seq<S>, ev: Option<E>)
    requires k < |ts| && forall ms', ev' :: next(ms', ev') == RunFrom(ts, k + 1, ms', ev')
    ensures Through(ts[k], k, next, ms, ev) == RunFrom(ts, k, ms, ev)
  {
    if k < |ms| {
      if ev.Some? {
        var (m, out) := ts[k].step(ms[k], ev.value);
        assert next(ms[k := m], out) == RunFrom(ts, k + 1, ms[k := m], out);
      } else {
        assert next(ms, None) == RunFrom(ts, k + 1, ms, None);
      }
    }
  }

  // ----- The chain against the fold ------------------------------------------------------------

  /** The event after the first `k` transforms, from left to right. */
  function After<S, E>(ts: seq<Transform<S, E>>, ms: seq<S>, e: E, k: nat): Option<E>
    requires |ms| == |ts| && k <= |ts|
  {
    if k == 0 then Some(e)
    else match After(ts, ms, e, k - 1)
      case None => None
      case Some(x) => ts[k - 1].step(ms[k - 1], x).1
  }

  /** The memories when every transform that the event reaches takes one step. */
  function Advanced<S, E>(ts: seq<Transform<S, E>>, ms: seq<S>, e: E): (r: seq<S>)
    requires |ms| == |ts|
    ensures |r| == |ms|
  {
    seq(|ms|, k requires 0 <= k < |ms| =>
      match After(ts, ms, e, k) case Some(x) => ts[k].step(ms[k], x).0 case None => ms[k])
  }

  /** The memories when the first `k` transforms have taken their step. */
  function Partly<S, E>(ts: seq<Transform<S, E>>, ms: seq<S>, e: E, k: nat): seq<S>
    requires |ms| == |ts| && k <= |ts|
  {
    Advanced(ts, ms, e)[..k] + ms[k..]
  }

  lemma {:induction false} DroppedStays<S, E>(ts: seq<Transform<S, E>>, ms: seq<S>, e: E, k: nat, j: nat)
    requires |ms| == |ts| && k <= j <= |ts| && After(ts, ms, e, k).None?
    ensures After(ts, ms, e, j).None?
    decreases j - k
  {
    if k < j { DroppedStays(ts, ms, e, k, j - 1); }
  }

  /** A dropped event meets a transform that dereferences it. */
  ghost predicate MeetsNull<S, E>(ts: seq<Transform<S, E>>, ms: seq<S>, e: E, from: nat)
    requires |ms| == |ts|
  {
    exists j :: from <= j < |ts| && After(ts, ms, e, j).None? && !ts[j].nullSafe
  }

  /** One transform of the fold. */
  lemma PartlyNext<S, E>(ts: seq<Transform<S, E>>, ms: seq<S>, e: E, k: nat)
    requires |ms| == |ts| && k < |ts|
    ensures var a := After(ts, ms, e, k);
            Partly(ts, ms, e, k + 1) ==
              if a.Some? then Partly(ts, ms, e, k)[k := ts[k].step(ms[k], a.value).0] else Partly(ts, ms, e, k)
  {
    var full := Advanced(ts, ms, e);
    assert full[..k + 1] == full[..k] + [full[k]];
    assert ms[k..] == [ms[k]] + ms[k + 1..];
  }

  /** From any point on, the chain crashes exactly when a dropped event meets a transform that
      dereferences it, and otherwise computes the fold. */
  lemma {:induction false} ChainFrom<S, E>(ts: seq<Transform<S, E>>, ms: seq<S>, e: E, k: nat)
    requires |ms| == |ts| && k <= |ts|
    ensures RunFrom(ts, k, Partly(ts, ms, e, k), After(ts, ms, e, k)) ==
            if MeetsNull(ts, ms, e, k) then Crash else Done(Advanced(ts, ms, e), After(ts, ms, e, |ts|))
    decreases |ts| - k
  {
    hide *;
    MeetsNullStep(ts, ms, e, k);
    PartlyAt(ts, ms, e, k);
    RunStep(ts, k, Partly(ts, ms, e, k), After(ts, ms, e, k));
    if k < |ts| {
      PartlyNext(ts, ms, e, k);
      AfterNext(ts, ms, e, k);
      ChainFrom(ts, ms, e, k + 1);
    }
  }

  lemma PartlyAt<S, E>(ts: seq<Transform<S, E>>, ms: seq<S>, e: E, k: nat)
    requires |ms| == |ts| && k <= |ts|
    ensures var p := Partly(ts, ms, e, k);
            |p| == |ms| && (k < |ms| ==> p[k] == ms[k]) && (k == |ms| ==> p == Advanced(ts, ms, e))
  {
    hide Advanced;
  }

  lemma AfterNext<S, E>(ts: seq<Transform<S, E>>, ms: seq<S>, e: E, k: nat)
    requires |ms| == |ts| && k < |ts|
    ensures var a := After(ts, ms, e, k);
            After(ts, ms, e, k + 1) == if a.Some? then ts[k].step(ms[k], a.value).1 else None
  {
  }

  lemma MeetsNullStep<S, E>(ts: seq<Transform<S, E>>, ms: seq<S>, e: E, k: nat)
    requires |ms| == |ts| && k <= |ts|
    ensures k == |ts| ==> !MeetsNull(ts, ms, e, k)
    ensures k < |ts| ==> (MeetsNull(ts, ms, e, k) <==>
                          (After(ts, ms, e, k).None? && !ts[k].nullSafe) || MeetsNull(ts, ms, e, k + 1))
  {
    hide After;
  }

  lemma RunStep<S, E>(ts: seq<Transform<S, E>>, k: nat, ms: seq<S>, ev: Option<E>)
    requires k <= |ts| == |ms|
    ensures k == |ts| ==> RunFrom(ts, k, ms, ev) == Done(ms, ev)
    ensures k < |ts| && ev.Some? ==>
              RunFrom(ts, k, ms, ev) ==
                RunFrom(ts, k + 1, ms[k := ts[k].step(ms[k], ev.value).0], ts[k].step(ms[k], ev.value).1)
    ensures k < |ts| && ev.None? ==>
            RunFrom(ts, k, ms, ev) == if ts[k].nullSafe then RunFrom(ts, k + 1, ms, None) else Crash
  {
  }

  /** No transform before the last one drops the event. */
  ghost predicate NoneDrops<S, E>(ts: seq<Transform<S, E>>, ms: seq<S>, e: E)
    requires |ms| == |ts|
  {
    forall k :: 0 <= k < |ts| ==> After(ts, ms, e, k).Some?
  }

  /** The callback chain is the left-to-right fold of the transforms, each stepping once, for
      every event that no transform before the last one drops. */
  lemma ChainIsFold<S, E>(ts: seq<Transform<S, E>>, ms: seq<S>, e: E)
    requires |ms| == |ts| && NoneDrops(ts, ms, e)
    ensures RunFrom(ts, 0, ms, Some(e)) == Done(Advanced(ts, ms, e), After(ts, ms, e, |ts|))
    ensures forall k :: 0 <= k < |ts| ==> Advanced(ts, ms, e)[k] == ts[k].step(ms[k], After(ts, ms, e, k).value).0
  {
    ChainFrom(ts, ms, e, 0);
    assert Partly(ts, ms, e, 0) == ms;
  }

  /** When a transform drops the event, the chain goes on with null: it crashes exactly when a
      later transform dereferences it. */
  lemma DroppedEvent<S, E>(ts: seq<Transform<S, E>>, ms: seq<S>, e: E, k: nat)
    requires |ms| == |ts| && 0 < k <= |ts| && After(ts, ms, e, k - 1).Some? && After(ts, ms, e, k).None?
    ensures RunFrom(ts, 0, ms, Some(e)) == Crash <==> exists j :: k <= j < |ts| && !ts[j].nullSafe
    ensures RunFrom(ts, 0, ms, Some(e)) != Crash ==> RunFrom(ts, 0, ms, Some(e)) == Done(Advanced(ts, ms, e), None)
  {
    hide RunFrom, Advanced;
    ChainFrom(ts, ms, e, 0);
    assert Partly(ts, ms, e, 0) == ms;
    DroppedFrom(ts, ms, e, k, |ts|);
    if MeetsNull(ts, ms, e, 0) {
      var j :| 0 <= j < |ts| && After(ts, ms, e, j).None? && !ts[j].nullSafe;
      DroppedFrom(ts, ms, e, k, j);
    }
    if j :| k <= j < |ts| && !ts[j].nullSafe {
      DroppedFrom(ts, ms, e, k, j);
    }
  }

  lemma DroppedFrom<S, E>(ts: seq<Transform<S, E>>, ms: seq<S>, e: E, k: nat, j: nat)
    requires |ms| == |ts| && 0 < k <= |ts| && After(ts, ms, e, k - 1).Some? && After(ts, ms, e, k).None? && j <= |ts|
    ensures After(ts, ms, e, j).None? <==> k <= j
  {
    hide After;
    if k <= j {
      DroppedStays(ts, ms, e, k, j);
    } else if After(ts, ms, e, j).None? {
      DroppedStays(ts, ms, e, j, k - 1);
    }
  }

  /** A chain that crashes: a transform that drops everything, before one that dereferences. */
  lemma CrashingChain(e: int)
    ensures var drop := Transform((m: int, x: int) => (m, None), true);
            var next := Transform((m: int, x: int) => (m, Some(x)), false);
            RunFrom([drop, next], 0, [0, 0], Some(e)) == Crash
  {
    var drop := Transform((m: int, x: int) => (m, None), true);
    var next := Transform((m: int, x: int) => (m, Some(x)), false);
    var ts, ms := [drop, next], [0, 0];
    assert After(ts, ms, e, 0) == Some(e);
    assert After(ts, ms, e, 1) == None;
    assert !ts[1].nullSafe;
    DroppedEvent(ts, ms, e, 1);
  }

  /** A chain of one transform is its step. */
  lemma ChainOfOne<S, E>(t: Transform<S, E>, m: S, e: E)
    ensures var nothing: seq<Transform<S, E>> := []; RunFrom(nothing, 0, [], Some(e)) == Done([], Some(e))
    ensures RunFrom([t], 0, [m], Some(e)) == Done([t.step(m, e).0], t.step(m, e).1)
    ensures RunFrom([t], 0, [m], None) == if t.nullSafe then Done([m], None) else Crash
  {
    assert [m][0 := t.step(m, e).0] == [t.step(m, e).0];
  }

  /** The outcome behind what the chain did before. */
  function Behind<S, E>(before: seq<S>, r: Result<S, E>): Result<S, E> {
    match r
    case Crash => Crash
    case Done(memories, out) => Done(before + memories, out)
  }

  /** A chain hands on to the chain behind it. */
  lemma ChainOfTwo<S, E>(ts: seq<Transform<S, E>>, us: seq<Transform<S, E>>, ms: seq<S>, ns: seq<S>, ev: Option<E>)
    requires |ms| == |ts| && |ns| == |us|
    ensures RunFrom(ts + us, 0, ms + ns, ev) ==
            match RunFrom(ts, 0, ms, ev)
            case Crash => Crash
            case Done(ms', out) => Behind(ms', RunFrom(us, 0, ns, out))
  {
    ChainJoined(ts, us, 0, ms, ns, ev);
  }

  lemma {:induction false} ChainJoined<S, E>(ts: seq<Transform<S, E>>, us: seq<Transform<S, E>>, k: nat, ms: seq<S>,
                                             ns: seq<S>, ev: Option<E>)
    requires |ms| == |ts| && |ns| == |us| && k <= |ts|
    ensures RunFrom(ts + us, k, ms + ns, ev) ==
            match RunFrom(ts, k, ms, ev)
            case Crash => Crash
            case Done(ms', out) => Behind(ms', RunFrom(us, 0, ns, out))
    decreases |ts| - k
  {
    if k == |ts| {
      ChainShifted(ts, us, 0, ms, ns, ev);
    } else {
      assert (ts + us)[k] == ts[k] && (ms + ns)[k] == ms[k];
      if ev.Some? {
        var (m, out) := ts[k].step(ms[k], ev.value);
        assert (ms + ns)[k := m] == ms[k := m] + ns;
        ChainJoined(ts, us, k + 1, ms[k := m], ns, out);
      } else {
        ChainJoined(ts, us, k + 1, ms, ns, None);
      }
    }
  }

  lemma {:induction false} ChainShifted<S, E>(ts: seq<Transform<S, E>>, us: seq<Transform<S, E>>, k: nat, ms: seq<S>,
                                              ns: seq<S>, ev: Option<E>)
    requires |ms| == |ts| && |ns| == |us| && k <= |us|
    ensures RunFrom(ts + us, |ts| + k, ms + ns, ev) == Behind(ms, RunFrom(us, k, ns, ev))
    decreases |us| - k
  {
    if k < |us| {
      assert (ts + us)[|ts| + k] == us[k] && (ms + ns)[|ts| + k] == ns[k];
      if ev.Some? {
        var (m, out) := us[k].step(ns[k], ev.value);
        assert (ms + ns)[|ts| + k := m] == ms + ns[k := m];
        ChainShifted(ts, us, k + 1, ms, ns[k := m], out);
      } else {
        ChainShifted(ts, us, k + 1, ms, ns, None);
      }
    }
  }

  // ----- The connector ----------------------------------------------------------------------------

  /** The two statuses that matter here; any other one by its number. */
  datatype CommandStatus = SUCCESS | UNDEFINED | Code(number: nat)

  /** What the receiver side sees: a status for the sender, or a delivery to a connection. */
  datatype Effect<E> = Status(status: CommandStatus) | Delivery(to: Addr, event: E)

  datatype Reaction<E> = Crashed | Effects(list: seq<Effect<E>>)

  /** The connections of one sender, in their order. */
  function Of(cs: seq<Connection>, sender: Name): seq<Connection> {
    if cs == [] then []
    else if cs[|cs| - 1].sender == sender then Of(cs[..|cs| - 1], sender) + [cs[|cs| - 1]]
    else Of(cs[..|cs| - 1], sender)
  }

  /** One delivery for each connection. */
  function Deliveries<E>(cs: seq<Connection>, e: E): seq<Effect<E>> {
    seq(|cs|, k requires 0 <= k < |cs| => Delivery(cs[k].addr, e))
  }

  class DataConnector<S, !E> {
    var enabled: bool
    var connections: seq<Connection>
    var transforms: map<Name, seq<Transform<S, E>>>
    var memories: map<Name, seq<S>>

    /** Every transform has its memory. */
    predicate Valid()
      reads this
    {
      memories.Keys == transforms.Keys && forall n :: n in transforms ==> |memories[n]| == |transforms[n]|
    }

    /** Builds the chain of callbacks, from the last transform to the first. */
    method BuildChain(ts: seq<Transform<S, E>>) returns (h: Handler<S, E>)
      ensures forall ms, ev :: h(ms, ev) == RunFrom(ts, 0, ms, ev)
    {
      h := (ms, ev) => Done(ms, ev);
      var k := |ts|;
      while k > 0
        invariant 0 <= k <= |ts|
        invariant forall ms, ev :: h(ms, ev) == RunFrom(ts, k, ms, ev)
      {
        k := k - 1;
        var next, t, i := h, ts[k], k;
        h := (ms, ev) => Through(t, i, next, ms, ev);
        forall ms, ev ensures h(ms, ev) == RunFrom(ts, k, ms, ev) {
          ThroughIs(ts, k, next, ms, ev);
        }
      }
    }

    /** The destination callback: one delivery for each connection of the sender. */
    method Deliver(sender: Name, e: E) returns (list: seq<Effect<E>>)
      ensures list == Deliveries(Of(connections, sender), e)
    {
      list := [];
      for k := 0 to |connections|
        invariant list == Deliveries(Of(connections[..k], sender), e)
      {
        assert connections[..k + 1][..k] == connections[..k];
        if connections[k].sender == sender {
          list := list + [Delivery(connections[k].addr, e)];
        }
      }
      assert connections[..|connections|] == connections;
    }

    /** `Event`. */
    method Event(e: E, sender: Name) returns (r: Reaction<E>)
      requires Valid()
      modifies this`memories
      ensures Valid()
      // Without a connection, or disabled, nothing but the status.
      ensures !enabled || Of(connections, sender) == [] ==>
              r == Effects([Status(UNDEFINED)]) && memories == old(memories)
      // Otherwise the event goes through the chain of its sender.
      ensures enabled && Of(connections, sender) != [] ==>
                var ts := if sender in transforms then transforms[sender] else [];
                var ms := if sender in transforms then old(memories)[sender] else [];
                match RunFrom(ts, 0, ms, Some(e))
                case Crash => r == Crashed
                case Done(ms', out) =>
                  && memories == (if sender in transforms then old(memories)[sender := ms'] else old(memories))
                  && (out.None? ==> r == Effects([Status(UNDEFINED)]))
                  && (out.Some? ==> r == Effects(Deliveries(Of(connections, sender), out.value)))
    {
      if !enabled {
        return Effects([Status(UNDEFINED)]);
      }
      if forall k :: 0 <= k < |connections| ==> connections[k].sender != sender {
        NoneOf(connections, sender);
        return Effects([Status(UNDEFINED)]);
      }
      SomeOf(connections, sender);
      var ts, ms := [], [];
      if sender in transforms {
        ts, ms := transforms[sender], memories[sender];
      }
      var chain := BuildChain(ts);
      var end := chain(ms, Some(e));
      RunLength(ts, 0, ms, Some(e));
      if end.Crash? {
        return Crashed;
      }
      if sender in transforms {
        memories := memories[sender := end.memories];
      }
      if end.out.None? {
        return Effects([Status(UNDEFINED)]);
      }
      var list := Deliver(sender, end.out.value);
      return Effects(list);
    }

    /** An event together with the answers of its receivers, in the order in which they arrive:
        unless a transform crashed, the sender gets exactly one status. */
    method Exchange(e: E, sender: Name, answers: seq<CommandStatus>) returns (r: Reaction<E>, sent: seq<CommandStatus>)
      requires Valid() && |answers| == |Of(connections, sender)|
      modifies this`memories
      ensures Valid() && (r == Crashed || |sent| == 1)
      ensures r == Effects([Status(UNDEFINED)]) ==> sent == [UNDEFINED]
      ensures r.Effects? && r != Effects([Status(UNDEFINED)]) ==> answers != [] && sent == [Combined(answers)]
      ensures r.Effects? && r != Effects([Status(UNDEFINED)]) ==>
              |r.list| == |answers| && forall k :: 0 <= k < |r.list| ==> r.list[k].Delivery?
    {
      hide RunFrom, Of;
      r := Event(e, sender);
      if r.Crashed? {
        return r, [];
      }
      if |r.list| == 1 && r.list[0].Status? {
        return r, [UNDEFINED];
      }
      sent := Collect(answers);
    }
  }

  lemma {:induction false} NoneOf(cs: seq<Connection>, sender: Name)
    requires forall k :: 0 <= k < |cs| ==> cs[k].sender != sender
    ensures Of(cs, sender) == []
  {
    if cs != [] { NoneOf(cs[..|cs| - 1], sender); }
  }

  lemma {:induction false} SomeOf(cs: seq<Connection>, sender: Name)
    requires exists k :: 0 <= k < |cs| && cs[k].sender == sender
    ensures Of(cs, sender) != []
  {
    if cs[|cs| - 1].sender != sender {
      var k :| 0 <= k < |cs| && cs[k].sender == sender;
      assert cs[..|cs| - 1][k].sender == sender;
      SomeOf(cs[..|cs| - 1], sender);
    }
  }

  lemma {:induction false} RunLength<S, E>(ts: seq<Transform<S, E>>, k: nat, ms: seq<S>, ev: Option<E>)
    requires k <= |ts|
    ensures var r := RunFrom(ts, k, ms, ev); r.Done? ==> |r.memories| == |ms|
    decreases |ts| - k
  {
    if k < |ts| && k < |ms| {
      match ev
      case Some(e) => var (m, out) := ts[k].step(ms[k], e); RunLength(ts, k + 1, ms[k := m], out);
      case None => RunLength(ts, k + 1, ms, None);
    }
  }

  /** Every connection of the sender gets exactly one delivery, in order, and no other one. */
  lemma {:induction false} OnePerConnection(cs: seq<Connection>, sender: Name, c: Connection)
    ensures multiset(Of(cs, sender))[c] == if c.sender == sender then multiset(cs)[c] else 0
  {
    if cs != [] {
      var most := cs[..|cs| - 1];
      OnePerConnection(most, sender, c);
      assert cs == most + [cs[|cs| - 1]];
    }
  }

  /** The places of the sender's connections before place `k`. */
  ghost function Places(cs: seq<Connection>, sender: Name, k: nat): set<nat> {
    set j: nat | j < k && j < |cs| && cs[j].sender == sender
  }

  /** The connection at place `k` gets the event behind one delivery for each connection of its sender
      before it, and there are no other deliveries. */
  lemma {:induction false} DeliveriesAre<E>(cs: seq<Connection>, sender: Name, e: E)
    ensures var list := Deliveries(Of(cs, sender), e);
            && |list| == |Places(cs, sender, |cs|)|
            && forall k :: 0 <= k < |cs| && cs[k].sender == sender ==>
                 |Places(cs, sender, k)| < |list| && list[|Places(cs, sender, k)|] == Delivery(cs[k].addr, e)
  {
    hide Places;
    PlacesNone(cs, sender);
    if cs != [] {
      var n := |cs| - 1;
      DeliveriesAre(cs[..n], sender, e);
      forall k | 0 <= k <= n ensures Places(cs, sender, k) == Places(cs[..n], sender, k) {
        PlacesKept(cs, sender, n, k);
      }
      PlacesNext(cs, sender, n);
    }
  }

  lemma PlacesNone(cs: seq<Connection>, sender: Name)
    ensures Places(cs, sender, 0) == {}
  {
  }

  lemma PlacesKept(cs: seq<Connection>, sender: Name, n: nat, k: nat)
    requires k <= n <= |cs|
    ensures Places(cs, sender, k) == Places(cs[..n], sender, k)
  {
  }

  lemma PlacesNext(cs: seq<Connection>, sender: Name, k: nat)
    requires k < |cs|
    ensures |Places(cs, sender, k + 1)| == |Places(cs, sender, k)| + if cs[k].sender == sender then 1 else 0
  {
    var s := Places(cs, sender, k);
    assert Places(cs, sender, k + 1) == if cs[k].sender == sender then s + {k} else s;
  }

  // ----- Several callbacks combined into one ---------------------------------------------------------

  /** What one status makes of several: the common one, or `UNDEFINED`. */
  function Combined(ss: seq<CommandStatus>): CommandStatus
    requires ss != []
  {
    if forall k :: 0 <= k < |ss| ==> ss[k] == ss[0] then ss[0] else UNDEFINED
  }

  /** `IOHandler::SyncMultiCallback` for two or more receivers. */
  class MultiCallback {
    var combined: CommandStatus
    var count: nat
    const number: nat
    /** The statuses passed on to the sender. */
    var sent: seq<CommandStatus>

    /** `seen` are the statuses of the receivers so far. */
    ghost predicate Valid(seen: seq<CommandStatus>)
      reads this
    {
      && number >= 2 && |seen| <= number
      && (if seen == [] then combined == SUCCESS && count == 0 && sent == []
          else if combined == UNDEFINED then Combined(seen) == UNDEFINED && sent == [UNDEFINED]
          else combined == Combined(seen) && count == |seen| && sent == if |seen| == number then [combined] else [])
    }

    constructor (number: nat)
      requires number >= 2
      ensures Valid([]) && this.number == number
    {
      combined, count, sent := SUCCESS, 0, [];
      this.number := number;
    }

    /** One more status; when all receivers have answered, the sender has got exactly one
        status, the combined one. */
    method Call(status: CommandStatus, ghost seen: seq<CommandStatus>)
      requires Valid(seen) && |seen| < number
      modifies this
      ensures Valid(seen + [status])
      ensures |seen| + 1 == number ==> sent == [Combined(seen + [status])]
    {
      assert forall k :: 0 <= k < |seen| ==> (seen + [status])[k] == seen[k];
      assert (seen + [status])[|seen|] == status;
      if combined == UNDEFINED {
        return;
      }
      count := count + 1;
      if count == 1 {
        combined := status;
        if combined == UNDEFINED {
          sent := sent + [combined];
          return;
        }
      } else if status != combined {
        combined := UNDEFINED;
        sent := sent + [combined];
        return;
      }
      if count >= number {
        sent := sent + [combined];
      }
    }
  }

  /** The callback that `SyncMultiCallback` gives to the receivers, with their answers: for a single
      receiver it is the sender's own. */
  method Collect(answers: seq<CommandStatus>) returns (sent: seq<CommandStatus>)
    requires answers != []
    ensures sent == [Combined(answers)]
    // A status other than UNDEFINED arrives exactly when all receivers answered it.
    ensures forall c :: c != UNDEFINED ==> (sent == [c] <==> forall k :: 0 <= k < |answers| ==> answers[k] == c)
  {
    if |answers| < 2 {
      return answers;
    }
    var multi := new MultiCallback(|answers|);
    for k := 0 to |answers|
      invariant multi.number == |answers| && multi.Valid(answers[..k]) && fresh(multi)
      invariant k == |answers| ==> multi.sent == [Combined(answers)]
    {
      assert answers[..k] + [answers[k]] == answers[..k + 1];
      multi.Call(answers[k], answers[..k]);
      assert k + 1 == |answers| ==> answers[..k + 1] == answers;
    }
    sent := multi.sent;
  }

  /** The order in which receivers answer does not matter. */
  lemma AnyOrder(a: seq<CommandStatus>, b: seq<CommandStatus>)
    requires a != [] && multiset(a) == multiset(b)
    ensures b != [] && Combined(a) == Combined(b)
  {
    assert b != [] by { assert a[0] in multiset(b); }
    SameMembers(a, b);
    SameMembers(b, a);
  }

  lemma SameMembers(a: seq<CommandStatus>, b: seq<CommandStatus>)
    requires multiset(a) == multiset(b)
    ensures forall k :: 0 <= k < |a| ==> a[k] in b
  {
    forall k | 0 <= k < |a| ensures a[k] in b { assert a[k] in multiset(b); }
  }
}
