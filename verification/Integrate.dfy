/**
  `Profile.call_ratios` on any profile, and `Profile.integrate` on one in which
  `find_cycles` found no cycle: every call passes to its caller the share of the
  callee's integrated cost given by the call's ratio.  Costs, counts and ratios
  are reals; the branches of `integrate` for cycles are never taken here.
 */
module Integrate {
  import opened CallGraph

  /** A call edge: caller and callee. */
  type Call = (Id, Id)

  ghost predicate NoCycle(g: Graph) {
    forall x :: x in g.calls ==> Scc(g, x) == {x}
  }

  /** The calls of the given functions, in the order the source's nested loops
      meet them; calls of a function to itself are skipped there and here. */
  function CallsFrom(f: Id, callees: seq<Id>): seq<Call> {
    if callees == [] then []
    else CallsFrom(f, callees[..|callees| - 1]) +
         (var c := callees[|callees| - 1]; if c == f then [] else [(f, c)])
  }

  function AllCalls(g: Graph, fs: seq<Id>): seq<Call>
    requires forall f :: f in fs ==> f in g.calls
  {
    if fs == [] then []
    else AllCalls(g, fs[..|fs| - 1]) + CallsFrom(fs[|fs| - 1], g.calls[fs[|fs| - 1]])
  }

  // ----- Sums ---------------------------------------------------------------------

  /** The sum of `w` over the calls in `es`. */
  function Sum(es: seq<Call>, w: map<Call, real>): real {
    if es == [] then 0.0
    else Sum(es[..|es| - 1], w) + (if es[|es| - 1] in w then w[es[|es| - 1]] else 0.0)
  }

  /** The sum of `w` over the calls in `es` that go to `c`. */
  function SumTo(es: seq<Call>, w: map<Call, real>, c: Id): real {
    if es == [] then 0.0
    else SumTo(es[..|es| - 1], w, c) +
         (var e := es[|es| - 1]; if e.1 == c && e in w then w[e] else 0.0)
  }

  function CountTo(es: seq<Call>, c: Id): nat {
    if es == [] then 0
    else CountTo(es[..|es| - 1], c) + (if es[|es| - 1].1 == c then 1 else 0)
  }

  function SumF(fs: seq<Id>, t: map<Id, real>): real {
    if fs == [] then 0.0
    else SumF(fs[..|fs| - 1], t) + (if fs[|fs| - 1] in t then t[fs[|fs| - 1]] else 0.0)
  }

  /** The sum of `t` over the functions nobody else calls. */
  function SumRoots(fs: seq<Id>, es: seq<Call>, t: map<Id, real>): real {
    if fs == [] then 0.0
    else
      var f := fs[|fs| - 1];
      SumRoots(fs[..|fs| - 1], es, t) + (if f in t && CountTo(es, f) == 0 then t[f] else 0.0)
  }

  // ----- call_ratios ----------------------------------------------------------------

  /** The module-level function `ratio`, over reals: 0/0 and n/0 count as 1. */
  function Ratio(numerator: real, denominator: real): real {
    if denominator == 0.0 then 1.0
    else
      var r := numerator / denominator;
      if r < 0.0 then 0.0 else if r > 1.0 then 1.0 else r
  }

  /** The ratio of one call: its share of all calls of its callee, or 0 when the profile has
      no count for it. */
  function RatioOf(es: seq<Call>, count: map<Call, real>, e: Call): real {
    if e in count then Ratio(count[e], SumTo(es, count, e.1)) else 0.0
  }

  /** What `call_ratios` computes for the calls in `part` when there are no cycles. */
  ghost predicate RatiosFor(part: seq<Call>, es: seq<Call>, count: map<Call, real>, ratio: map<Call, real>) {
    forall e :: e in part ==> e in ratio && ratio[e] == RatioOf(es, count, e)
  }

  /** The `cycle` attributes of the functions that are in a cycle. */
  type CycleOf = map<Id, nat>

  /** A call into a cycle from outside of it. */
  predicate Enters(cycleOf: CycleOf, e: Call) {
    e.1 in cycleOf && !(e.0 in cycleOf && cycleOf[e.0] == cycleOf[e.1])
  }

  /** The calls in `es` that enter cycle `k`. */
  function Into(es: seq<Call>, cycleOf: CycleOf, k: nat): seq<Call> {
    if es == [] then []
    else
      var e := es[|es| - 1];
      Into(es[..|es| - 1], cycleOf, k) + (if Enters(cycleOf, e) && cycleOf[e.1] == k then [e] else [])
  }

  /** The total a call is scaled by: of all calls to its callee, or of all calls that enter the
      cycle it enters. */
  function TotalFor(es: seq<Call>, count: map<Call, real>, cycleOf: CycleOf, e: Call): real {
    if Enters(cycleOf, e) then Sum(Into(es, cycleOf, cycleOf[e.1]), count) else SumTo(es, count, e.1)
  }

  /** The ratio of one call in a profile with cycles. */
  function RatioIn(es: seq<Call>, count: map<Call, real>, cycleOf: CycleOf, e: Call): real {
    if e in count then Ratio(count[e], TotalFor(es, count, cycleOf, e)) else 0.0
  }

  lemma RatioInIs(es: seq<Call>, count: map<Call, real>, cycleOf: CycleOf, e: Call)
    ensures RatioIn(es, count, cycleOf, e) ==
            if e in count then Ratio(count[e], TotalFor(es, count, cycleOf, e)) else 0.0
  {
    hide TotalFor, Ratio;
  }

  /** What `call_ratios` computes for the calls in `part`. */
  ghost predicate RatiosIn(part: seq<Call>, es: seq<Call>, count: map<Call, real>, cycleOf: CycleOf,
                           ratio: map<Call, real>) {
    forall e :: e in part ==> e in ratio && ratio[e] == RatioIn(es, count, cycleOf, e)
  }

  /** A ratio lies between 0 and 1; it is the quotient where that does too, and 1 for a zero total. */
  lemma RatioLaw(n: real, d: real)
    ensures 0.0 <= Ratio(n, d) <= 1.0 && Ratio(n, 0.0) == 1.0
    ensures d > 0.0 && 0.0 <= n <= d ==> Ratio(n, d) * d == n
    ensures d > 0.0 && n < 0.0 ==> Ratio(n, d) == 0.0
    ensures d > 0.0 && n > d ==> Ratio(n, d) == 1.0
    ensures d < 0.0 && n > 0.0 ==> Ratio(n, d) == 0.0
    ensures d < 0.0 && d <= n <= 0.0 ==> Ratio(n, d) * d == n
    ensures d < 0.0 && n < d ==> Ratio(n, d) == 1.0
  {
    if d != 0.0 {
      var r := n / d;
      assert r * d == n;
      assert d > 0.0 && n > d ==> (r - 1.0) * d > 0.0;
      assert d < 0.0 && n < d ==> (r - 1.0) * d < 0.0;
      assert d > 0.0 && n <= d ==> (1.0 - r) * d >= 0.0;
      assert d < 0.0 && n >= d ==> (r - 1.0) * d >= 0.0;
    }
  }

  /** Which calls a call is scaled by: a call inside a cycle, from one member to another, and a call to a
      function outside any cycle by all calls to its callee; a call into a cycle by all calls that
      come from outside to a member of it. */
  lemma ScaledBy(es: seq<Call>, count: map<Call, real>, cycleOf: CycleOf, e: Call)
    ensures e.1 !in cycleOf ==> TotalFor(es, count, cycleOf, e) == SumTo(es, count, e.1)
    ensures e.1 in cycleOf && e.0 in cycleOf && cycleOf[e.0] == cycleOf[e.1] ==>
              TotalFor(es, count, cycleOf, e) == SumTo(es, count, e.1)
    ensures e.1 in cycleOf && (e.0 in cycleOf ==> cycleOf[e.0] != cycleOf[e.1]) ==>
              TotalFor(es, count, cycleOf, e) == Sum(Into(es, cycleOf, cycleOf[e.1]), count)
    ensures forall k: nat, d :: d in Into(es, cycleOf, k) <==>
              d in es && d.1 in cycleOf && cycleOf[d.1] == k && (d.0 in cycleOf ==> cycleOf[d.0] != k)
  {
    hide Sum, SumTo;
    forall k: nat ensures forall d :: d in Into(es, cycleOf, k) <==>
              d in es && d.1 in cycleOf && cycleOf[d.1] == k && (d.0 in cycleOf ==> cycleOf[d.0] != k)
    {
      IntoAre(es, cycleOf, k);
    }
  }

  lemma {:induction false} IntoAre(es: seq<Call>, cycleOf: CycleOf, k: nat)
    ensures forall e :: e in Into(es, cycleOf, k) <==> e in es && Enters(cycleOf, e) && cycleOf[e.1] == k
  {
    hide Enters;
    if es != [] {
      assert es == es[..|es| - 1] + [es[|es| - 1]];
      IntoAre(es[..|es| - 1], cycleOf, k);
    }
  }

  /** Without cycles every call is scaled by the calls to its callee. */
  lemma NoneEnters(part: seq<Call>, es: seq<Call>, count: map<Call, real>, ratio: map<Call, real>)
    ensures RatiosIn(part, es, count, map[], ratio) <==> RatiosFor(part, es, count, ratio)
  {
    hide SumTo, Sum, Into, Ratio;
    assert forall e :: RatioIn(es, count, map[], e) == RatioOf(es, count, e);
  }

  lemma AllCallsSteps(g: Graph)
    requires Validated(g)
    ensures forall i :: 0 <= i < |g.order| ==> g.order[i] in g.calls
    ensures forall f :: f in g.order ==> f in g.calls
    ensures AllCalls(g, g.order[..0]) == [] && g.order[..|g.order|] == g.order
    ensures forall i :: 0 <= i < |g.order| ==>
              AllCalls(g, g.order[..i + 1]) == AllCalls(g, g.order[..i]) + CallsFrom(g.order[i], g.calls[g.order[i]])
  {
    forall i | 0 <= i < |g.order|
      ensures AllCalls(g, g.order[..i + 1]) == AllCalls(g, g.order[..i]) + CallsFrom(g.order[i], g.calls[g.order[i]])
    {
      assert g.order[..i + 1][..i] == g.order[..i];
    }
  }

  lemma OrderKnown(g: Graph)
    requires Validated(g)
    ensures forall f :: f in g.order <==> f in g.calls
  {
  }

  lemma CalleesKnown(g: Graph, f: Id)
    requires Validated(g) && f in g.calls
    ensures forall j :: 0 <= j < |g.calls[f]| ==> g.calls[f][j] in g.calls
  {
  }

  /** The calls in `before` and those of `f` to its first `j` callees. */
  ghost function Through(before: seq<Call>, f: Id, callees: seq<Id>, j: nat): seq<Call>
    requires j <= |callees|
  {
    before + CallsFrom(f, callees[..j])
  }

  lemma ThroughEnds(before: seq<Call>, f: Id, callees: seq<Id>)
    ensures Through(before, f, callees, 0) == before
    ensures Through(before, f, callees, |callees|) == before + CallsFrom(f, callees)
  {
    assert callees[..0] == [] && callees[..|callees|] == callees;
  }

  lemma ThroughNext(before: seq<Call>, f: Id, callees: seq<Id>, j: nat)
    requires j < |callees|
    ensures Through(before, f, callees, j + 1) ==
            if callees[j] == f then Through(before, f, callees, j)
            else Through(before, f, callees, j) + [(f, callees[j])]
  {
    CallsFromNext(f, callees, j);
    hide CallsFrom;
  }

  lemma CallsFromNext(f: Id, callees: seq<Id>, j: nat)
    requires j < |callees|
    ensures CallsFrom(f, callees[..j + 1]) ==
            if callees[j] == f then CallsFrom(f, callees[..j]) else CallsFrom(f, callees[..j]) + [(f, callees[j])]
  {
    assert callees[..j + 1][..j] == callees[..j];
  }

  lemma SumToSnoc(es: seq<Call>, e: Call, w: map<Call, real>, c: Id)
    ensures SumTo(es + [e], w, c) == SumTo(es, w, c) + (if e.1 == c && e in w then w[e] else 0.0)
  {
    assert (es + [e])[..|es|] == es;
  }

  /** `function_totals` and `cycle_totals` */
  datatype Totals = Totals(functions: map<Id, real>, cycles: map<nat, real>)

  /** They hold the summed counts of the calls in `es`, callee by callee and cycle by cycle. */
  ghost predicate TotalsOf(g: Graph, cycles: seq<nat>, cycleOf: CycleOf, t: Totals, es: seq<Call>,
                           count: map<Call, real>) {
    && t.functions.Keys == g.calls.Keys && (forall c :: c in g.calls ==> t.functions[c] == SumTo(es, count, c))
    && (forall k :: k in t.cycles <==> k in cycles)
    && (forall k :: k in t.cycles ==> t.cycles[k] == Sum(Into(es, cycleOf, k), count))
  }

  lemma TotalsNone(g: Graph, cycles: seq<nat>, cycleOf: CycleOf, t: Totals, count: map<Call, real>)
    requires t == Totals(map f | f in g.calls :: 0.0, map k | k in cycles :: 0.0)
    ensures TotalsOf(g, cycles, cycleOf, t, [], count)
  {
  }

  /** The totals with the count `n` of one more call. */
  function Counting(t: Totals, cycleOf: CycleOf, e: Call, n: real): Totals
    requires e.1 in t.functions && (e.1 in cycleOf ==> cycleOf[e.1] in t.cycles)
  {
    var u := t.(functions := t.functions[e.1 := t.functions[e.1] + n]);
    if Enters(cycleOf, e) then u.(cycles := t.cycles[cycleOf[e.1] := t.cycles[cycleOf[e.1]] + n]) else u
  }

  lemma IntoSnoc(es: seq<Call>, e: Call, cycleOf: CycleOf, k: nat, w: map<Call, real>)
    ensures Into(es + [e], cycleOf, k) ==
            Into(es, cycleOf, k) + (if Enters(cycleOf, e) && cycleOf[e.1] == k then [e] else [])
    ensures Sum(Into(es + [e], cycleOf, k), w) ==
            Sum(Into(es, cycleOf, k), w) + (if Enters(cycleOf, e) && cycleOf[e.1] == k && e in w then w[e] else 0.0)
  {
    hide Enters;
    assert (es + [e])[..|es|] == es;
    var more := Into(es, cycleOf, k);
    assert (more + [e])[..|more|] == more && more + [] == more;
  }

  lemma TotalsNext(g: Graph, cycles: seq<nat>, cycleOf: CycleOf, t: Totals, es: seq<Call>, count: map<Call, real>,
                   e: Call)
    requires TotalsOf(g, cycles, cycleOf, t, es, count) && e.1 in g.calls && (e.1 in cycleOf ==> cycleOf[e.1] in cycles)
    ensures e.1 in t.functions && (e.1 in cycleOf ==> cycleOf[e.1] in t.cycles)
    ensures TotalsOf(g, cycles, cycleOf, if e in count then Counting(t, cycleOf, e, count[e]) else t, es + [e], count)
  {
    hide SumTo, Sum, Into;
    forall c | c in g.calls
      ensures SumTo(es + [e], count, c) == SumTo(es, count, c) + (if e.1 == c && e in count then count[e] else 0.0)
    {
      SumToSnoc(es, e, count, c);
    }
    forall k | k in t.cycles
      ensures Sum(Into(es + [e], cycleOf, k), count) ==
              Sum(Into(es, cycleOf, k), count)
                + (if Enters(cycleOf, e) && cycleOf[e.1] == k && e in count then count[e] else 0.0)
    {
      IntoSnoc(es, e, cycleOf, k, count);
    }
  }

  /** Exactly the calls in `part` have their ratio. */
  ghost predicate Scaled(part: seq<Call>, es: seq<Call>, count: map<Call, real>, cycleOf: CycleOf,
                         ratio: map<Call, real>) {
    (forall e :: e in ratio <==> e in part) && RatiosIn(part, es, count, cycleOf, ratio)
  }

  lemma ScaledNext(part: seq<Call>, es: seq<Call>, count: map<Call, real>, cycleOf: CycleOf, ratio: map<Call, real>,
                   e: Call)
    requires Scaled(part, es, count, cycleOf, ratio)
    ensures Scaled(part + [e], es, count, cycleOf, ratio[e := RatioIn(es, count, cycleOf, e)])
  {
    hide RatioIn;
    assert forall d :: d in part + [e] <==> d in part || d == e;
  }

  /** The total the loop looks up for a call. */
  lemma TotalIs(g: Graph, cycles: seq<nat>, cycleOf: CycleOf, t: Totals, es: seq<Call>, count: map<Call, real>, e: Call)
    requires TotalsOf(g, cycles, cycleOf, t, es, count) && e.1 in g.calls && (e.1 in cycleOf ==> cycleOf[e.1] in cycles)
    ensures e.1 in t.functions && (e.1 in cycleOf ==> cycleOf[e.1] in t.cycles)
    ensures TotalFor(es, count, cycleOf, e) ==
            if e.1 in cycleOf && !(e.0 in cycleOf && cycleOf[e.0] == cycleOf[e.1]) then t.cycles[cycleOf[e.1]]
            else t.functions[e.1]
  {
    hide SumTo, Sum, Into;
  }

  /** Counting a call the way the loop does. */
  lemma CountingIs(t: Totals, cycleOf: CycleOf, e: Call, n: real)
    requires e.1 in t.functions && (e.1 in cycleOf ==> cycleOf[e.1] in t.cycles)
    ensures var u := t.(functions := t.functions[e.1 := t.functions[e.1] + n]);
            Counting(t, cycleOf, e, n) ==
            if e.1 in cycleOf && !(e.0 in cycleOf && cycleOf[e.0] == cycleOf[e.1])
            then u.(cycles := t.cycles[cycleOf[e.1] := t.cycles[cycleOf[e.1]] + n]) else u
  {
  }

  lemma {:induction false} CallsFromAre(f: Id, callees: seq<Id>)
    ensures forall e :: e in CallsFrom(f, callees) <==> e.0 == f && e.1 in callees && e.1 != f
  {
    if callees != [] {
      var n := |callees| - 1;
      CallsFromAre(f, callees[..n]);
      assert callees == callees[..n] + [callees[n]];
    }
  }

  /** `AllCalls` lists exactly the call edges between different functions. */
  lemma {:induction false} CallsAreEdges(g: Graph, fs: seq<Id>)
    requires forall f :: f in fs ==> f in g.calls
    ensures forall e :: e in AllCalls(g, fs) <==> e.0 in fs && Edge(g, e.0, e.1) && e.0 != e.1
  {
    if fs != [] {
      var n := |fs| - 1;
      CallsAreEdges(g, fs[..n]);
      CallsFromAre(fs[n], g.calls[fs[n]]);
      assert fs == fs[..n] + [fs[n]];
    }
  }

  // ----- integrate -------------------------------------------------------------------

  /** The costs `callOut` of the calls of `f` to other functions, summed. */
  function Inherited(f: Id, callees: seq<Id>, callOut: map<Call, real>): real {
    Sum(CallsFrom(f, callees), callOut)
  }

  function Times(a: real, b: real): real {
    a * b
  }

  /** `function[outevent]` and `call[outevent]` where they are set. */
  datatype State = State(totals: map<Id, real>, callOut: map<Call, real>)

  /** The calls of `f` to the given callees have their cost: the callee's total
      weighted by the ratio of the call. */
  ghost predicate PaidBy(f: Id, callees: seq<Id>, ratio: map<Call, real>, s: State) {
    forall c: Id :: c in callees && c != f ==>
      c in s.totals && (f, c) in s.callOut && (f, c) in ratio && s.callOut[(f, c)] == Times(ratio[(f, c)], s.totals[c])
  }

  /** The fixpoint equation for one function. */
  ghost predicate Balanced(g: Graph, own: map<Id, real>, ratio: map<Call, real>, s: State, f: Id) {
    && f in s.totals && f in own && f in g.calls
    && PaidBy(f, g.calls[f], ratio, s)
    && s.totals[f] == own[f] + Inherited(f, g.calls[f], s.callOut)
  }

  ghost predicate Consistent(g: Graph, own: map<Id, real>, ratio: map<Call, real>, s: State) {
    forall f :: f in s.totals ==> Balanced(g, own, ratio, s, f)
  }

  ghost predicate Extends<K(!new), V(!new)>(a: map<K, V>, b: map<K, V>) {
    forall k :: k in a ==> k in b && b[k] == a[k]
  }

  /** Everything a call to `_integrate_function(f)` may touch. */
  ghost function Below(g: Graph, f: Id): set<Id> {
    set y | y in g.calls && Reach(g, f, y)
  }

  ghost predicate IsCall(g: Graph, e: Call) {
    Edge(g, e.0, e.1) && e.0 != e.1
  }

  /** `_integrate_function(f)` took the profile from `a` to `b`: it finished
      functions below `f` only, and gave costs to their calls only. */
  ghost predicate Grown(g: Graph, f: Id, a: State, b: State) {
    && Extends(a.totals, b.totals) && Extends(a.callOut, b.callOut)
    && (forall x :: x in b.totals && x !in a.totals ==> x in Below(g, f))
    && (forall e: Call :: e in b.callOut && e !in a.callOut ==> IsCall(g, e) && e.0 in Below(g, f) && e.0 in b.totals)
  }

  /** The same from inside `_integrate_function(f)`, before `f` is finished. */
  ghost predicate Partial(g: Graph, f: Id, a: State, b: State) {
    && Extends(a.totals, b.totals) && Extends(a.callOut, b.callOut)
    && (forall x :: x in b.totals && x !in a.totals ==> x in Below(g, f) && x != f)
    && (forall e: Call :: e in b.callOut && e !in a.callOut ==>
          IsCall(g, e) && e.0 in Below(g, f) && (e.0 == f || e.0 in b.totals))
  }

  /** No unfinished function of `within` has paid for a call. */
  ghost predicate Untouched(s: State, within: set<Id>) {
    forall e: Call :: e in s.callOut && e.0 in within ==> e.0 in s.totals
  }

  /** Without cycles a callee reaches strictly less than its caller. */
  lemma BelowShrinks(g: Graph, f: Id, c: Id)
    requires Validated(g) && NoCycle(g) && Edge(g, f, c) && c != f
    ensures c in g.calls && Below(g, c) < Below(g, f) && f !in Below(g, c) && c in Below(g, f) && f in Below(g, f)
  {
    hide Reach;
    ReachEdge(g, f, c);
    ReachRefl(g, f);
    assert c !in Scc(g, f);
    assert f in Below(g, f) && f !in Below(g, c);
    forall y | y in Below(g, c) ensures y in Below(g, f) {
      ReachTrans(g, f, c, y);
    }
  }

  lemma InBelow(g: Graph, f: Id)
    requires f in g.calls
    ensures f in Below(g, f)
  {
    ReachRefl(g, f);
  }

  lemma PartialTrans(g: Graph, f: Id, a: State, b: State, c: State)
    requires Partial(g, f, a, b) && Partial(g, f, b, c)
    ensures Partial(g, f, a, c)
  {
    hide Below, IsCall;
  }

  lemma PartialDone(g: Graph, f: Id, a: State, b: State, total: real)
    requires f in g.calls && Partial(g, f, a, b) && f !in b.totals
    ensures Grown(g, f, a, b.(totals := b.totals[f := total]))
  {
    InBelow(g, f);
    hide Below, IsCall;
  }

  lemma UntouchedInside(g: Graph, f: Id, a: State, b: State, within: set<Id>)
    requires Partial(g, f, a, b) && Untouched(a, within)
    ensures Untouched(b, within - {f})
  {
  }

  lemma PartialRefl(g: Graph, f: Id, s: State)
    ensures Partial(g, f, s, s) && Grown(g, f, s, s)
  {
  }

  /** A function's equation does not depend on the costs of other callers. */
  lemma {:induction false} SameSum(f: Id, callees: seq<Id>, a: map<Call, real>, b: map<Call, real>)
    requires forall c: Id :: c in callees && c != f ==> (f, c) in a && (f, c) in b && a[(f, c)] == b[(f, c)]
    ensures Inherited(f, callees, a) == Inherited(f, callees, b)
  {
    if callees != [] {
      hide Inherited;
      var n := |callees| - 1;
      assert callees[..n + 1] == callees;
      SameSum(f, callees[..n], a, b);
      InheritedNext(f, callees, n, a);
      InheritedNext(f, callees, n, b);
    }
  }

  lemma PaidGrows(f: Id, callees: seq<Id>, ratio: map<Call, real>, a: State, b: State)
    requires PaidBy(f, callees, ratio, a) && Extends(a.totals, b.totals) && Extends(a.callOut, b.callOut)
    ensures PaidBy(f, callees, ratio, b)
    ensures Inherited(f, callees, a.callOut) == Inherited(f, callees, b.callOut)
  {
    SameSum(f, callees, a.callOut, b.callOut);
  }

  /** Giving costs to further calls, or finishing a function whose calls are all
      paid for, keeps every equation. */
  lemma StaysConsistent(g: Graph, own: map<Id, real>, ratio: map<Call, real>, a: State, b: State)
    requires Consistent(g, own, ratio, a)
    requires Extends(a.totals, b.totals) && Extends(a.callOut, b.callOut)
    requires forall f :: f in b.totals && f !in a.totals ==> Balanced(g, own, ratio, b, f)
    ensures Consistent(g, own, ratio, b)
  {
    hide Inherited, PaidBy;
    forall f | f in b.totals ensures Balanced(g, own, ratio, b, f) {
      if f in a.totals {
        assert Balanced(g, own, ratio, a, f);
        PaidGrows(f, g.calls[f], ratio, a, b);
      }
    }
  }

  /** Paying for one more callee. */
  lemma PayNext(g: Graph, f: Id, callees: seq<Id>, j: nat, ratio: map<Call, real>, a: State, b: State)
    requires j < |callees| && Partial(g, f, a, b)
    requires PaidBy(f, callees[..j], ratio, a)
    requires callees[j] != f ==> PaidBy(f, [callees[j]], ratio, b)
    ensures PaidBy(f, callees[..j + 1], ratio, b)
    ensures callees[j] != f ==> (f, callees[j]) in b.callOut
    ensures Inherited(f, callees[..j + 1], b.callOut) ==
            Inherited(f, callees[..j], a.callOut) + (if callees[j] == f then 0.0 else b.callOut[(f, callees[j])])
  {
    hide *;
    PartialExtends(g, f, a, b);
    PaidGrows(f, callees[..j], ratio, a, b);
    PaidNext(f, callees, j, ratio, b);
    InheritedNext(f, callees, j, b.callOut);
  }

  lemma PartialExtends(g: Graph, f: Id, a: State, b: State)
    requires Partial(g, f, a, b)
    ensures Extends(a.totals, b.totals) && Extends(a.callOut, b.callOut)
  {
    hide Below, IsCall;
  }

  lemma PaidNext(f: Id, callees: seq<Id>, j: nat, ratio: map<Call, real>, s: State)
    requires j < |callees| && PaidBy(f, callees[..j], ratio, s)
    requires (callees[j] != f ==> PaidBy(f, [callees[j]], ratio, s))
    ensures PaidBy(f, callees[..j + 1], ratio, s) && (callees[j] != f ==> (f, callees[j]) in s.callOut)
  {
    hide Times;
    assert callees[..j + 1] == callees[..j] + [callees[j]];
    assert callees[j] in [callees[j]];
  }

  lemma InheritedNext(f: Id, callees: seq<Id>, j: nat, w: map<Call, real>)
    requires j < |callees| && (callees[j] != f ==> (f, callees[j]) in w)
    ensures Inherited(f, callees[..j + 1], w) ==
            Inherited(f, callees[..j], w) + (if callees[j] == f then 0.0 else w[(f, callees[j])])
  {
    hide CallsFrom, Sum;
    var es := CallsFrom(f, callees[..j]);
    CallsFromNext(f, callees, j);
    if callees[j] != f { SumSnoc(es, (f, callees[j]), w); }
  }

  lemma SumSnoc(es: seq<Call>, e: Call, w: map<Call, real>)
    requires e in w
    ensures Sum(es + [e], w) == Sum(es, w) + w[e]
  {
    assert (es + [e])[..|es|] == es;
  }

  /** Finishing a function. */
  lemma NowBalanced(g: Graph, own: map<Id, real>, ratio: map<Call, real>, s: State, f: Id, sum: real)
    requires Ready(g, own, ratio, s) && f !in s.totals && f in g.calls && f in own
    requires PaidBy(f, g.calls[f], ratio, s)
    requires sum == own[f] + Inherited(f, g.calls[f], s.callOut)
    ensures Ready(g, own, ratio, s.(totals := s.totals[f := sum]))
  {
    hide Reach, Consistent, NoCycle, Validated, Edge, Inherited;
    var s' := s.(totals := s.totals[f := sum]);
    PaidGrows(f, g.calls[f], ratio, s, s');
    StaysConsistent(g, own, ratio, s, s');
  }

  /** Between two functions of the main loop only finished functions have paid. */
  ghost predicate Owned(g: Graph, s: State) {
    forall e: Call :: e in s.callOut ==> IsCall(g, e) && e.0 in s.totals
  }

  lemma OwnedUntouched(g: Graph, s: State, within: set<Id>)
    requires Owned(g, s)
    ensures Untouched(s, within)
  {
  }

  lemma OwnedGrows(g: Graph, f: Id, a: State, b: State)
    requires Owned(g, a) && Grown(g, f, a, b)
    ensures Owned(g, b) && a.totals.Keys <= b.totals.Keys
  {
  }

  /** A call to `c` from inside `f` that costs `cost`. */
  lemma Called(g: Graph, own: map<Id, real>, ratio: map<Call, real>, f: Id, c: Id, a: State, m: State, cost: real)
    requires Ready(g, own, ratio, m) && Edge(g, f, c) && c != f
    requires f !in a.totals && (f, c) !in a.callOut && Grown(g, c, a, m)
    requires c in m.totals && (f, c) in ratio && cost == ratio[(f, c)] * m.totals[c]
    ensures f !in m.totals
    ensures var b := m.(callOut := m.callOut[(f, c) := cost]);
            && Ready(g, own, ratio, b) && Partial(g, f, a, b) && PaidBy(f, [c], ratio, b)
    ensures forall c': Id :: (f, c') in m.callOut ==> (f, c') in a.callOut
  {
    hide *;
    ReadyFacts(g, own, ratio, m);
    CalledPartial(g, f, c, a, m, cost);
    OnePaid(f, c, ratio, m, cost);
    CalledReady(g, own, ratio, m, (f, c), cost);
  }

  lemma ReadyFacts(g: Graph, own: map<Id, real>, ratio: map<Call, real>, s: State)
    requires Ready(g, own, ratio, s)
    ensures Validated(g) && NoCycle(g)
  {
    hide Validated, NoCycle, Consistent, Edge;
  }

  lemma CalledReady(g: Graph, own: map<Id, real>, ratio: map<Call, real>, m: State, e: Call, cost: real)
    requires Ready(g, own, ratio, m) && e !in m.callOut
    ensures Ready(g, own, ratio, m.(callOut := m.callOut[e := cost]))
  {
    StaysConsistent(g, own, ratio, m, m.(callOut := m.callOut[e := cost]));
    hide Validated, NoCycle, Consistent, Edge;
  }

  lemma OnePaid(f: Id, c: Id, ratio: map<Call, real>, m: State, cost: real)
    requires c in m.totals && (f, c) in ratio && cost == ratio[(f, c)] * m.totals[c]
    ensures PaidBy(f, [c], ratio, m.(callOut := m.callOut[(f, c) := cost]))
  {
  }

  lemma CalledPartial(g: Graph, f: Id, c: Id, a: State, m: State, cost: real)
    requires Validated(g) && NoCycle(g) && Edge(g, f, c) && c != f
    requires f !in a.totals && (f, c) !in a.callOut && Grown(g, c, a, m)
    ensures f !in m.totals && (f, c) !in m.callOut
    ensures Partial(g, f, a, m.(callOut := m.callOut[(f, c) := cost]))
    ensures forall c': Id :: (f, c') in m.callOut ==> (f, c') in a.callOut
  {
    BelowShrinks(g, f, c);
    hide Below, Edge, Validated, NoCycle, Reach;
  }

  /** When every function is finished, every call to another function is paid. */
  lemma AllPaid(g: Graph, own: map<Id, real>, ratio: map<Call, real>, s: State)
    requires Ready(g, own, ratio, s) && Owned(g, s)
    requires forall k :: 0 <= k < |g.order| ==> g.order[k] in s.totals
    ensures s.totals.Keys == g.calls.Keys
    ensures forall e :: e in s.callOut <==> e in AllCalls(g, g.order)
  {
    hide Inherited, PaidBy, Reach, NoCycle;
    CallsAreEdges(g, g.order);
    forall f | f in s.totals ensures f in g.calls { assert Balanced(g, own, ratio, s, f); }
    assert forall f :: f in g.calls ==> f in g.order;
    forall e: Call | e in AllCalls(g, g.order) ensures e in s.callOut {
      CallPaid(g, own, ratio, s, e);
    }
  }

  lemma CallPaid(g: Graph, own: map<Id, real>, ratio: map<Call, real>, s: State, e: Call)
    requires Consistent(g, own, ratio, s) && e.0 in s.totals && IsCall(g, e)
    ensures e in s.callOut
  {
    assert Balanced(g, own, ratio, s, e.0);
  }

  /** What every step of `integrate` relies on and keeps. */
  ghost predicate Ready(g: Graph, own: map<Id, real>, ratio: map<Call, real>, s: State) {
    && Validated(g) && own.Keys == g.calls.Keys && NoCycle(g)
    && (forall f: Id, c: Id :: Edge(g, f, c) && f != c ==> (f, c) in ratio)
    && Consistent(g, own, ratio, s)
  }

  /** What the main loop starts from. */
  lemma StartRun(g: Graph, own: map<Id, real>, ratio: map<Call, real>, s: State)
    requires Ready(g, own, ratio, s) && s.callOut == map[]
    ensures Owned(g, s)
    ensures forall i :: 0 <= i < |g.order| ==> g.order[i] in g.calls && g.order[i] in own
    ensures SumF(g.order[..0], own) == 0.0 && g.order[..|g.order|] == g.order
    ensures forall i :: 0 <= i < |g.order| && g.order[i] in own ==>
              SumF(g.order[..i + 1], own) == SumF(g.order[..i], own) + own[g.order[i]]
  {
    hide Reach, NoCycle, Consistent;
    forall i | 0 <= i < |g.order| && g.order[i] in own
      ensures SumF(g.order[..i + 1], own) == SumF(g.order[..i], own) + own[g.order[i]]
    {
      assert g.order[..i + 1][..i] == g.order[..i];
    }
  }

  /** What the loop over the callees starts from. */
  lemma StartFunction(g: Graph, own: map<Id, real>, ratio: map<Call, real>, s: State, f: Id)
    requires Ready(g, own, ratio, s) && f in g.calls && f !in s.totals && Untouched(s, Below(g, f))
    ensures f in own && NoDup(g.calls[f])
    ensures forall i, j :: 0 <= i < j < |g.calls[f]| ==> g.calls[f][i] != g.calls[f][j]
    ensures forall c :: c in g.calls[f] ==> Edge(g, f, c) && (f, c) !in s.callOut
    ensures PaidBy(f, g.calls[f][..0], ratio, s) && Inherited(f, g.calls[f][..0], s.callOut) == 0.0
    ensures Partial(g, f, s, s)
  {
    hide Reach, NoCycle, Consistent;
    InBelow(g, f);
    forall c: Id | c in g.calls[f] ensures Edge(g, f, c) && (f, c) !in s.callOut {
      var e: Call := (f, c);
      assert e in s.callOut ==> e.0 in s.totals;
    }
  }

  lemma CalleeReady(g: Graph, own: map<Id, real>, ratio: map<Call, real>, s: State, f: Id, c: Id)
    requires Ready(g, own, ratio, s) && Edge(g, f, c) && f != c && Untouched(s, Below(g, f) - {f})
    ensures c in g.calls && Below(g, c) < Below(g, f) && Untouched(s, Below(g, c)) && (f, c) in ratio
  {
    hide Reach, Consistent;
    BelowShrinks(g, f, c);
  }

  /** `call[event]`, `call.ratio`, `function[inevent]`, `function[outevent]` and
      `call[outevent]` of every call and function of the profile. */
  class Profile {
    const g: Graph
    const count: map<Call, real>
    const own: map<Id, real>
    /** What `find_cycles` left: the cycle of every function that is in one, and all cycles. */
    const cycleOf: CycleOf
    const cycles: seq<nat>
    var ratio: map<Call, real>
    var s: State
    /** `profile[outevent]` */
    var total: real

    ghost predicate Inputs() {
      && Validated(g)
      && own.Keys == g.calls.Keys
      && (forall x :: x in cycleOf ==> cycleOf[x] in cycles)
    }

    constructor (g: Graph, count: map<Call, real>, own: map<Id, real>, cycleOf: CycleOf, cycles: seq<nat>)
      ensures this.g == g && this.count == count && this.own == own && this.cycleOf == cycleOf && this.cycles == cycles
      ensures ratio == map[] && s == State(map[], map[])
    {
      this.g, this.count, this.own, this.cycleOf, this.cycles := g, count, own, cycleOf, cycles;
      ratio, s, total := map[], State(map[], map[]), 0.0;
    }

    /** `call_ratios(event)` */
    method CallRatios()
      requires Inputs() && ratio == map[]
      modifies `ratio
      ensures RatiosIn(AllCalls(g, g.order), AllCalls(g, g.order), count, cycleOf, ratio)
      ensures forall e :: e in ratio <==> e in AllCalls(g, g.order)
    {
      var t := FunctionTotals();
      AllCallsSteps(g);
      ghost var es := AllCalls(g, g.order);
      hide Validated, Edge, CallsFrom, RatioIn, TotalsOf, AllCalls;
      assert Scaled([], es, count, cycleOf, ratio);
      for i := 0 to |g.order|
        invariant Scaled(AllCalls(g, g.order[..i]), es, count, cycleOf, ratio)
      {
        hide Scaled;
        Scale(g.order[i], t, AllCalls(g, g.order[..i]));
      }
    }

    /** Pass 1 */
    method FunctionTotals() returns (t: Totals)
      requires Inputs()
      ensures TotalsOf(g, cycles, cycleOf, t, AllCalls(g, g.order), count)
    {
      AllCallsSteps(g);
      t := Totals(map f | f in g.calls :: 0.0, map k | k in cycles :: 0.0);
      TotalsNone(g, cycles, cycleOf, t, count);
      hide Validated, Edge, CallsFrom, TotalsOf, AllCalls;
      for i := 0 to |g.order|
        invariant TotalsOf(g, cycles, cycleOf, t, AllCalls(g, g.order[..i]), count)
      {
        t := Incoming(g.order[i], t, AllCalls(g, g.order[..i]));
      }
    }

    /** The inner loop of pass 1; a call without a count is left out of the totals. */
    method Incoming(f: Id, before: Totals, ghost done: seq<Call>) returns (t: Totals)
      requires Validated(g) && f in g.calls && TotalsOf(g, cycles, cycleOf, before, done, count)
      requires forall x :: x in cycleOf ==> cycleOf[x] in cycles
      ensures TotalsOf(g, cycles, cycleOf, t, done + CallsFrom(f, g.calls[f]), count)
    {
      hide *;
      var callees := g.calls[f];
      CalleesKnown(g, f);
      ThroughEnds(done, f, callees);
      t := before;
      for j := 0 to |callees|
        invariant TotalsOf(g, cycles, cycleOf, t, Through(done, f, callees, j), count)
      {
        var callee := callees[j];
        ThroughNext(done, f, callees, j);
        if callee != f {
          var e: Call := (f, callee);
          TotalsNext(g, cycles, cycleOf, t, Through(done, f, callees, j), count, e);
          if e in count {
            CountingIs(t, cycleOf, e, count[e]);
            t := t.(functions := t.functions[callee := t.functions[callee] + count[e]]);
            if callee in cycleOf && !(f in cycleOf && cycleOf[f] == cycleOf[callee]) {
              t := t.(cycles := t.cycles[cycleOf[callee] := t.cycles[cycleOf[callee]] + count[e]]);
            }
          }
        }
      }
    }

    /** The inner loop of pass 2. */
    method Scale(f: Id, t: Totals, ghost before: seq<Call>)
      requires Validated(g) && f in g.calls && TotalsOf(g, cycles, cycleOf, t, AllCalls(g, g.order), count)
      requires forall x :: x in cycleOf ==> cycleOf[x] in cycles
      requires Scaled(before, AllCalls(g, g.order), count, cycleOf, ratio)
      modifies `ratio
      ensures Scaled(before + CallsFrom(f, g.calls[f]), AllCalls(g, g.order), count, cycleOf, ratio)
    {
      hide *;
      OrderKnown(g);
      var callees := g.calls[f];
      ghost var es := AllCalls(g, g.order);
      CalleesKnown(g, f);
      ThroughEnds(before, f, callees);
      for j := 0 to |callees|
        invariant Scaled(Through(before, f, callees, j), es, count, cycleOf, ratio)
      {
        var callee := callees[j];
        ThroughNext(before, f, callees, j);
        if callee != f {
          var e: Call := (f, callee);
          ScaledNext(Through(before, f, callees, j), es, count, cycleOf, ratio, e);
          RatioInIs(es, count, cycleOf, e);
          TotalIs(g, cycles, cycleOf, t, es, count, e);
          if e in count {
            var total := if callee in cycleOf && !(f in cycleOf && cycleOf[f] == cycleOf[callee])
                         then t.cycles[cycleOf[callee]] else t.functions[callee];
            ratio := ratio[e := Ratio(count[e], total)];
          } else {
            ratio := ratio[e := 0.0];
          }
        }
      }
    }

    /** `integrate(outevent, inevent)`.  Every function ends with a total that
        satisfies its equation, and every call to another function was given its
        cost (once: see `IntegrateCall`). */
    method Run()
      requires Ready(g, own, ratio, s) && s == State(map[], map[])
      modifies `s, `total
      ensures Ready(g, own, ratio, s)
      ensures s.totals.Keys == g.calls.Keys
      ensures forall e :: e in s.callOut <==> e in AllCalls(g, g.order)
      ensures total == SumF(g.order, own)
    {
      StartRun(g, own, ratio, s);
      hide *;
      total := 0.0;
      for i := 0 to |g.order|
        invariant Ready(g, own, ratio, s) && Owned(g, s)
        invariant forall k :: 0 <= k < i ==> g.order[k] in s.totals
        invariant total == SumF(g.order[..i], own)
      {
        var f := g.order[i];
        total := total + own[f];
        OwnedUntouched(g, s, Below(g, f));
        ghost var before := s;
        var _ := IntegrateFunction(f);
        OwnedGrows(g, f, before, s);
      }
      AllPaid(g, own, ratio, s);
    }

    /** `_integrate_function` on a function outside any cycle. */
    method IntegrateFunction(f: Id) returns (r: real)
      requires Ready(g, own, ratio, s) && f in g.calls && Untouched(s, Below(g, f))
      modifies `s
      decreases Below(g, f), 1
      ensures Ready(g, own, ratio, s) && Grown(g, f, old(s), s)
      ensures f in s.totals && r == s.totals[f]
    {
      if f !in s.totals {
        StartFunction(g, own, ratio, s, f);
        hide *;
        var sum := own[f];
        var callees := g.calls[f];
        for j := 0 to |callees|
          invariant Ready(g, own, ratio, s) && f !in s.totals
          invariant sum == own[f] + Inherited(f, callees[..j], s.callOut)
          invariant PaidBy(f, callees[..j], ratio, s)
          invariant Partial(g, f, old(s), s)
          invariant forall k :: j <= k < |callees| ==> (f, callees[k]) !in s.callOut
        {
          var c := callees[j];
          ghost var before := s;
          if c != f {
            UntouchedInside(g, f, old(s), s, Below(g, f));
            var subtotal := IntegrateCall(f, c);
            sum := sum + subtotal;
            PartialTrans(g, f, old(s), before, s);
          } else {
            PartialRefl(g, f, s);
          }
          PayNext(g, f, callees, j, ratio, before, s);
        }
        assert callees[..|callees|] == callees;
        NowBalanced(g, own, ratio, s, f, sum);
        PartialDone(g, f, old(s), s, sum);
        s := s.(totals := s.totals[f := sum]);
      } else {
        PartialRefl(g, f, s);
      }
      r := s.totals[f];
    }

    /** `_integrate_call`; its first assertion, that the call was not integrated
        before, is the precondition `(f, c) !in s.callOut`. */
    method IntegrateCall(f: Id, c: Id) returns (subtotal: real)
      requires Ready(g, own, ratio, s) && Edge(g, f, c) && f != c
      requires (f, c) !in s.callOut && f !in s.totals && Untouched(s, Below(g, f) - {f})
      modifies `s
      decreases Below(g, f), 0
      ensures Ready(g, own, ratio, s) && Partial(g, f, old(s), s) && f !in s.totals
      ensures PaidBy(f, [c], ratio, s) && (f, c) in s.callOut && s.callOut[(f, c)] == subtotal
      ensures forall c': Id :: (f, c') in s.callOut ==> (f, c') in old(s.callOut) || c' == c
    {
      hide *;
      CalleeReady(g, own, ratio, s, f, c);
      var t := IntegrateFunction(c);
      subtotal := ratio[(f, c)] * t;
      Called(g, own, ratio, f, c, old(s), s, subtotal);
      s := s.(callOut := s.callOut[(f, c) := subtotal]);
    }
  }
}
