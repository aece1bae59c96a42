/**
  Where the cost of a profile without cycles ends up: `integrate` moves cost
  from callees to callers, and the functions that nobody else calls together hold
  the cost of the whole profile, unless a call count is zero or missing.
 */
module Conservation {
  import opened CallGraph
  import opened Integrate
  import Tarjan

  /** `find_cycles` reporting no cycle is what `integrate` needs to terminate. */
  lemma NoCycleFound(g: Graph, cycleOf: map<Id, nat>, cycles: seq<nat>)
    requires forall x :: x in g.calls ==> (x in cycleOf <==> Scc(g, x) != {x})
    requires forall c :: c in cycles <==> exists x :: x in cycleOf && cycleOf[x] == c
    ensures cycles == [] ==> NoCycle(g)
  {
    forall x | x in cycleOf ensures cycles != [] {
      assert cycleOf[x] in cycles;
    }
  }

  // ----- Grouping the transferred cost by caller ---------------------------------

  lemma {:induction false} SumConcat(a: seq<Call>, b: seq<Call>, w: map<Call, real>)
    ensures Sum(a + b, w) == Sum(a, w) + Sum(b, w)
  {
    if b == [] {
      assert a + b == a;
    } else {
      var n := |b| - 1;
      SumConcat(a, b[..n], w);
      assert (a + b)[..|a| + n] == a + b[..n];
    }
  }

  lemma {:induction false} ByCaller(g: Graph, own: map<Id, real>, ratio: map<Call, real>, s: State, fs: seq<Id>)
    requires Consistent(g, own, ratio, s)
    requires forall f :: f in fs ==> f in s.totals && f in g.calls && f in own
    ensures SumF(fs, s.totals) == SumF(fs, own) + Sum(AllCalls(g, fs), s.callOut)
  {
    if fs != [] {
      var n := |fs| - 1;
      var f := fs[n];
      ByCaller(g, own, ratio, s, fs[..n]);
      assert Balanced(g, own, ratio, s, f);
      SumConcat(AllCalls(g, fs[..n]), CallsFrom(f, g.calls[f]), s.callOut);
    }
  }

  // ----- Grouping the transferred cost by callee ---------------------------------

  /** For every function, its total times the ratios of the calls to it. */
  ghost function Passed(fs: seq<Id>, t: map<Id, real>, es: seq<Call>, ratio: map<Call, real>): real {
    if fs == [] then 0.0
    else
      var f := fs[|fs| - 1];
      Passed(fs[..|fs| - 1], t, es, ratio) + (if f in t then Times(SumTo(es, ratio, f), t[f]) else 0.0)
  }

  lemma {:induction false} PassedNone(fs: seq<Id>, t: map<Id, real>, ratio: map<Call, real>)
    ensures Passed(fs, t, [], ratio) == 0.0
  {
    if fs != [] {
      TimesSum(0.0, 0.0, 0.0);
      PassedNone(fs[..|fs| - 1], t, ratio);
    }
  }

  lemma {:induction false} PassedOne(fs: seq<Id>, t: map<Id, real>, es: seq<Call>, e: Call, ratio: map<Call, real>)
    requires NoDup(fs) && e in ratio && e.1 in t
    ensures Passed(fs, t, es + [e], ratio) ==
            Passed(fs, t, es, ratio) + (if e.1 in fs then Times(ratio[e], t[e.1]) else 0.0)
  {
    hide Times;
    if fs != [] {
      var n := |fs| - 1;
      var f := fs[n];
      PassedOne(fs[..n], t, es, e, ratio);
      SumToSnoc(es, e, ratio, f);
      assert fs == fs[..n] + [f];
      if e.1 == f {
        assert e.1 !in fs[..n];
        TimesSum(SumTo(es, ratio, f), ratio[e], t[f]);
      }
    }
  }

  lemma {:induction false} ByCallee(fs: seq<Id>, es: seq<Call>, ratio: map<Call, real>, s: State)
    requires NoDup(fs)
    requires forall e :: e in es ==> e.1 in fs && e in ratio && e in s.callOut && e.1 in s.totals
    requires forall e :: e in es ==> s.callOut[e] == Times(ratio[e], s.totals[e.1])
    ensures Sum(es, s.callOut) == Passed(fs, s.totals, es, ratio)
  {
    hide Times, NoDup;
    if es == [] {
      PassedNone(fs, s.totals, ratio);
    } else {
      var n := |es| - 1;
      assert es == es[..n] + [es[n]];
      ByCallee(fs, es[..n], ratio, s);
      PassedOne(fs, s.totals, es[..n], es[n], ratio);
    }
  }

  // ----- The ratios of the calls to one function -----------------------------------

  /** The calls to a function that have a count. */
  function CountedTo(es: seq<Call>, count: map<Call, real>, c: Id): (n: nat)
    ensures n <= CountTo(es, c)
  {
    if es == [] then 0
    else CountedTo(es[..|es| - 1], count, c) + (var e := es[|es| - 1]; if e.1 == c && e in count then 1 else 0)
  }

  ghost predicate NonNegative(es: seq<Call>, count: map<Call, real>) {
    forall e :: e in es && e in count ==> count[e] >= 0.0
  }

  lemma {:induction false} SumToBounds(es: seq<Call>, w: map<Call, real>, c: Id)
    requires NonNegative(es, w)
    ensures SumTo(es, w, c) >= 0.0
    ensures forall e :: e in es && e.1 == c && e in w ==> w[e] <= SumTo(es, w, c)
    ensures CountedTo(es, w, c) == 0 ==> SumTo(es, w, c) == 0.0
  {
    if es != [] {
      var n := |es| - 1;
      assert es == es[..n] + [es[n]];
      SumToBounds(es[..n], w, c);
    }
  }

  lemma RatioTimes(n: real, d: real)
    requires d > 0.0 && 0.0 <= n <= d
    ensures Times(Ratio(n, d), d) == n
  {
    var r := n / d;
    assert r * d == n;
    assert (1.0 - r) * d >= 0.0;
  }

  /** What the count of a call says, a missing one counting as zero. */
  function CountOf(count: map<Call, real>, e: Call): real {
    if e in count then count[e] else 0.0
  }

  lemma RatiosTimes(part: seq<Call>, es: seq<Call>, count: map<Call, real>, ratio: map<Call, real>, c: Id, d: real)
    requires RatiosFor(part, es, count, ratio) && d == SumTo(es, count, c) && d > 0.0
    requires forall e :: e in part && e.1 == c && e in count ==> 0.0 <= count[e] <= d
    ensures forall e :: e in part && e.1 == c ==> e in ratio && Times(ratio[e], d) == CountOf(count, e)
  {
    hide Ratio, Times, SumTo;
    forall e | e in part && e.1 == c ensures e in ratio && Times(ratio[e], d) == CountOf(count, e) {
      if e in count { RatioTimes(count[e], d); } else { TimesSum(0.0, 0.0, d); }
    }
  }

  lemma Cancel(r: real, d: real)
    requires Times(r, d) == d && d > 0.0
    ensures r == 1.0
  {
    assert (r - 1.0) * d == 0.0;
  }

  lemma TimesSum(a: real, b: real, d: real)
    ensures Times(a + b, d) == Times(a, d) + Times(b, d)
    ensures Times(0.0, d) == 0.0
  {
  }

  /** `part` holds some of the calls whose counts add up to `d`. */
  lemma {:induction false} Shares(part: seq<Call>, count: map<Call, real>, ratio: map<Call, real>, c: Id, d: real)
    requires forall e :: e in part && e.1 == c ==> e in ratio && Times(ratio[e], d) == CountOf(count, e)
    ensures Times(SumTo(part, ratio, c), d) == SumTo(part, count, c)
  {
    hide Times;
    if part == [] {
      TimesSum(0.0, 0.0, d);
    } else {
      var n := |part| - 1;
      var e := part[n];
      assert part == part[..n] + [e];
      Shares(part[..n], count, ratio, c, d);
      if e.1 == c {
        TimesSum(SumTo(part[..n], ratio, c), ratio[e], d);
      }
    }
  }

  lemma {:induction false} Ones(part: seq<Call>, count: map<Call, real>, ratio: map<Call, real>, c: Id)
    requires forall e :: e in part && e.1 == c ==> e in ratio && ratio[e] == if e in count then 1.0 else 0.0
    ensures SumTo(part, ratio, c) == CountedTo(part, count, c) as real
  {
    if part != [] {
      var n := |part| - 1;
      assert part == part[..n] + [part[n]];
      Ones(part[..n], count, ratio, c);
    }
  }

  lemma RatioOfZero(es: seq<Call>, count: map<Call, real>, e: Call)
    requires SumTo(es, count, e.1) == 0.0
    ensures RatioOf(es, count, e) == if e in count then 1.0 else 0.0
  {
    hide SumTo;
  }

  /** Calls with a positive total pass the whole cost on once; but a total of zero makes
      every counted call pass the whole cost on. */
  lemma RatioSum(es: seq<Call>, count: map<Call, real>, ratio: map<Call, real>, c: Id)
    requires RatiosFor(es, es, count, ratio) && NonNegative(es, count)
    ensures SumTo(es, count, c) > 0.0 ==> CountedTo(es, count, c) > 0 && SumTo(es, ratio, c) == 1.0
    ensures SumTo(es, count, c) == 0.0 ==> SumTo(es, ratio, c) == CountedTo(es, count, c) as real
    ensures SumTo(es, count, c) >= 0.0
  {
    hide SumTo, CountedTo, Times, Ratio, RatioOf;
    var d := SumTo(es, count, c);
    SumToBounds(es, count, c);
    if d > 0.0 {
      RatiosTimes(es, es, count, ratio, c, d);
      Shares(es, count, ratio, c, d);
      Cancel(SumTo(es, ratio, c), d);
    } else {
      forall e | e in es && e.1 == c ensures e in ratio && ratio[e] == if e in count then 1.0 else 0.0 {
        RatioOfZero(es, count, e);
      }
      Ones(es, count, ratio, c);
    }
  }

  // ----- The ratios of the calls into one cycle -------------------------------------

  function Counted(es: seq<Call>, count: map<Call, real>): nat {
    if es == [] then 0 else Counted(es[..|es| - 1], count) + if es[|es| - 1] in count then 1 else 0
  }

  lemma {:induction false} SumBounds(es: seq<Call>, w: map<Call, real>)
    requires NonNegative(es, w)
    ensures Sum(es, w) >= 0.0
    ensures forall e :: e in es && e in w ==> w[e] <= Sum(es, w)
  {
    if es != [] {
      var n := |es| - 1;
      assert es == es[..n] + [es[n]];
      SumBounds(es[..n], w);
    }
  }

  lemma {:induction false} SumShares(es: seq<Call>, count: map<Call, real>, ratio: map<Call, real>, d: real)
    requires forall e :: e in es ==> e in ratio && Times(ratio[e], d) == CountOf(count, e)
    ensures Times(Sum(es, ratio), d) == Sum(es, count)
  {
    hide Times;
    TimesSum(0.0, 0.0, d);
    if es != [] {
      var n := |es| - 1;
      assert es == es[..n] + [es[n]];
      SumShares(es[..n], count, ratio, d);
      TimesSum(Sum(es[..n], ratio), ratio[es[n]], d);
    }
  }

  lemma {:induction false} SumOnes(es: seq<Call>, count: map<Call, real>, ratio: map<Call, real>)
    requires forall e :: e in es ==> e in ratio && ratio[e] == if e in count then 1.0 else 0.0
    ensures Sum(es, ratio) == Counted(es, count) as real
  {
    if es != [] {
      var n := |es| - 1;
      assert es == es[..n] + [es[n]];
      SumOnes(es[..n], count, ratio);
    }
  }

  /** The calls that enter a cycle together pass the whole cost of the cycle on once; but counts
      that sum to zero make every counted one pass it on. */
  lemma CycleRatioSum(es: seq<Call>, count: map<Call, real>, cycleOf: CycleOf, ratio: map<Call, real>, k: nat)
    requires RatiosIn(es, es, count, cycleOf, ratio) && NonNegative(es, count)
    ensures var into := Into(es, cycleOf, k);
            && Sum(into, count) >= 0.0
            && (Sum(into, count) > 0.0 ==> Sum(into, ratio) == 1.0)
            && (Sum(into, count) == 0.0 ==> Sum(into, ratio) == Counted(into, count) as real)
  {
    hide Sum, Into, Times, Ratio, RatioIn, Counted, SumTo;
    var into := Into(es, cycleOf, k);
    var d := Sum(into, count);
    IntoAre(es, cycleOf, k);
    SumBounds(into, count);
    forall e | e in into
      ensures e in ratio && ratio[e] == if e in count then Ratio(count[e], d) else 0.0
    {
      RatioInIs(es, count, cycleOf, e);
    }
    if d > 0.0 {
      forall e | e in into ensures Times(ratio[e], d) == CountOf(count, e) {
        if e in count { RatioTimes(count[e], d); } else { TimesSum(0.0, 0.0, d); }
      }
      SumShares(into, count, ratio, d);
      Cancel(Sum(into, ratio), d);
    } else {
      forall e | e in into ensures ratio[e] == if e in count then 1.0 else 0.0 {
        if e in count { RatioZero(count[e]); }
      }
      SumOnes(into, count, ratio);
    }
  }

  lemma RatioZero(n: real)
    ensures Ratio(n, 0.0) == 1.0
  {
  }

  // ----- Conservation ---------------------------------------------------------------

  /** What one function passes on beyond its total when its counts sum to zero: its whole
      total to every counted caller but one, or its total lost without a counted caller. */
  ghost function ExcessOf(es: seq<Call>, count: map<Call, real>, f: Id, total: real): real {
    if CountTo(es, f) > 0 && SumTo(es, count, f) == 0.0 then Times((CountedTo(es, count, f) - 1) as real, total)
    else 0.0
  }

  ghost function Excess(fs: seq<Id>, es: seq<Call>, count: map<Call, real>, t: map<Id, real>): real {
    if fs == [] then 0.0
    else
      var f := fs[|fs| - 1];
      Excess(fs[..|fs| - 1], es, count, t) + (if f in t then ExcessOf(es, count, f, t[f]) else 0.0)
  }

  lemma SplitOne(es: seq<Call>, count: map<Call, real>, ratio: map<Call, real>, f: Id, total: real)
    requires RatiosFor(es, es, count, ratio) && NonNegative(es, count)
    ensures total == (if CountTo(es, f) == 0 then total else 0.0)
            + Times(SumTo(es, ratio, f), total) - ExcessOf(es, count, f, total)
  {
    hide SumTo, CountTo, CountedTo, RatiosFor;
    RatioSum(es, count, ratio, f);
    SumToBounds(es, count, f);
  }

  lemma {:induction false} Split(fs: seq<Id>, es: seq<Call>, count: map<Call, real>, ratio: map<Call, real>,
                                 t: map<Id, real>)
    requires RatiosFor(es, es, count, ratio) && NonNegative(es, count)
    ensures SumF(fs, t) == SumRoots(fs, es, t) + Passed(fs, t, es, ratio) - Excess(fs, es, count, t)
  {
    if fs != [] {
      var n := |fs| - 1;
      var f := fs[n];
      hide RatiosFor, NonNegative, ExcessOf, Times, SumTo, CountTo;
      Split(fs[..n], es, count, ratio, t);
      if f in t { SplitOne(es, count, ratio, f, t[f]); }
    }
  }

  ghost predicate Integrated(g: Graph, count: map<Call, real>, own: map<Id, real>, ratio: map<Call, real>, s: State) {
    && Validated(g) && own.Keys == g.calls.Keys && s.totals.Keys == g.calls.Keys
    && RatiosFor(AllCalls(g, g.order), AllCalls(g, g.order), count, ratio)
    && Consistent(g, own, ratio, s)
    && NonNegative(AllCalls(g, g.order), count)
  }

  /** The balance of every integrated profile with non-negative call counts. */
  lemma Balance(g: Graph, count: map<Call, real>, own: map<Id, real>, ratio: map<Call, real>, s: State)
    requires Integrated(g, count, own, ratio, s)
    ensures SumRoots(g.order, AllCalls(g, g.order), s.totals)
         == SumF(g.order, own) + Excess(g.order, AllCalls(g, g.order), count, s.totals)
  {
    assert forall f :: f in g.calls <==> f in g.order;
    hide *;
    var es := AllCalls(g, g.order);
    Transfers(g, count, own, ratio, s);
    ByCaller(g, own, ratio, s, g.order);
    ByCallee(g.order, es, ratio, s);
    Split(g.order, es, count, ratio, s.totals);
  }

  /** What an integrated profile offers to the two groupings. */
  lemma Transfers(g: Graph, count: map<Call, real>, own: map<Id, real>, ratio: map<Call, real>, s: State)
    requires Integrated(g, count, own, ratio, s)
    ensures forall f :: f in g.order <==> f in g.calls
    ensures forall f :: f in g.order ==> f in s.totals && f in own
    ensures NoDup(g.order) && Consistent(g, own, ratio, s)
    ensures RatiosFor(AllCalls(g, g.order), AllCalls(g, g.order), count, ratio)
    ensures NonNegative(AllCalls(g, g.order), count)
    ensures forall e :: e in AllCalls(g, g.order) ==>
              e.1 in g.order && e in ratio && e in s.callOut && e.1 in s.totals
              && s.callOut[e] == Times(ratio[e], s.totals[e.1])
  {
    hide Reach, Inherited, RatiosFor, AllCalls, Times, NonNegative;
    CallsAreEdges(g, g.order);
    forall e | e in AllCalls(g, g.order)
      ensures e.1 in g.order && e in ratio && e in s.callOut && e.1 in s.totals
      ensures s.callOut[e] == Times(ratio[e], s.totals[e.1])
    {
      BalancedAt(g, own, ratio, s, e.0);
    }
  }

  lemma {:induction false} NoExcess(fs: seq<Id>, es: seq<Call>, count: map<Call, real>, t: map<Id, real>)
    requires forall f :: f in fs && f in t ==> ExcessOf(es, count, f, t[f]) == 0.0
    ensures Excess(fs, es, count, t) == 0.0
  {
    if fs != [] {
      var n := |fs| - 1;
      assert fs == fs[..n] + [fs[n]];
      hide ExcessOf;
      NoExcess(fs[..n], es, count, t);
    }
  }

  lemma OneCounted(es: seq<Call>, count: map<Call, real>, f: Id, total: real)
    requires CountTo(es, f) > 0 && SumTo(es, count, f) == 0.0 ==> CountedTo(es, count, f) == 1
    ensures ExcessOf(es, count, f, total) == 0.0
  {
    hide SumTo, CountTo, CountedTo;
  }

  /** Conservation: when every function that others call has a positive count or exactly one
      counted call, the functions nobody else calls hold exactly the whole cost. */
  lemma Conserved(g: Graph, count: map<Call, real>, own: map<Id, real>, ratio: map<Call, real>, s: State)
    requires Integrated(g, count, own, ratio, s)
    requires var es := AllCalls(g, g.order);
             forall f :: f in g.calls && CountTo(es, f) > 0 && SumTo(es, count, f) == 0.0 ==>
               CountedTo(es, count, f) == 1
    ensures SumRoots(g.order, AllCalls(g, g.order), s.totals) == SumF(g.order, own)
  {
    assert forall f :: f in g.calls <==> f in g.order;
    hide *;
    var es := AllCalls(g, g.order);
    Balance(g, count, own, ratio, s);
    forall f | f in g.order && f in s.totals ensures ExcessOf(es, count, f, s.totals[f]) == 0.0 {
      OneCounted(es, count, f, s.totals[f]);
    }
    NoExcess(g.order, es, count, s.totals);
  }

  /** With positive call counts the condition of `Conserved` always holds. */
  lemma PositiveCountsConserve(g: Graph, count: map<Call, real>, own: map<Id, real>, ratio: map<Call, real>, s: State)
    requires Integrated(g, count, own, ratio, s)
    requires forall e :: e in AllCalls(g, g.order) ==> e in count && count[e] > 0.0
    ensures SumRoots(g.order, AllCalls(g, g.order), s.totals) == SumF(g.order, own)
  {
    var es := AllCalls(g, g.order);
    hide Integrated, SumRoots, SumF, AllCalls;
    forall f | f in g.calls && CountTo(es, f) > 0 ensures SumTo(es, count, f) != 0.0 {
      var e := SomeCallTo(es, f);
      SumToBounds(es, count, f);
    }
    Conserved(g, count, own, ratio, s);
  }

  lemma {:induction false} SomeCallTo(es: seq<Call>, c: Id) returns (e: Call)
    requires CountTo(es, c) > 0
    ensures e in es && e.1 == c
  {
    var n := |es| - 1;
    if es[n].1 == c {
      e := es[n];
    } else {
      e := SomeCallTo(es[..n], c);
    }
  }

  // ----- Which functions carry cost ----------------------------------------------------

  /** A call passes a share of its callee's cost on: it has a positive count, or the counts of
      its callee sum to zero. */
  ghost predicate Passes(es: seq<Call>, count: map<Call, real>, e: Call) {
    e in count && (count[e] > 0.0 || SumTo(es, count, e.1) == 0.0)
  }

  /** A function has cost of its own, or a call that passes on some that its callee carries. */
  ghost predicate Carries(g: Graph, count: map<Call, real>, own: map<Id, real>, f: Id)
    requires Validated(g) && NoCycle(g) && f in g.calls && own.Keys == g.calls.Keys
    decreases Below(g, f)
  {
    own[f] > 0.0 || exists c: Id :: CarriesOver(g, count, own, f, c)
  }

  ghost predicate CarriesOver(g: Graph, count: map<Call, real>, own: map<Id, real>, f: Id, c: Id)
    requires Validated(g) && NoCycle(g) && f in g.calls && own.Keys == g.calls.Keys
    decreases Below(g, f), 0
  {
    c in g.calls[f] && c != f && Passes(AllCalls(g, g.order), count, (f, c))
    && (BelowShrinks(g, f, c); Carries(g, count, own, c))
  }

  lemma RatioSign(es: seq<Call>, count: map<Call, real>, e: Call)
    requires NonNegative(es, count) && e in es
    ensures RatioOf(es, count, e) >= 0.0
    ensures RatioOf(es, count, e) > 0.0 <==> Passes(es, count, e)
  {
    SumToBounds(es, count, e.1);
    hide SumTo;
    if e in count && SumTo(es, count, e.1) > 0.0 {
      Quotient(count[e], SumTo(es, count, e.1));
    }
  }

  lemma Quotient(n: real, d: real)
    requires d > 0.0 && n >= 0.0
    ensures n / d >= 0.0 && (n / d > 0.0 <==> n > 0.0)
  {
    assert n / d * d == n;
  }

  lemma TimesSign(a: real, b: real)
    requires a >= 0.0 && b >= 0.0
    ensures Times(a, b) >= 0.0 && (Times(a, b) > 0.0 <==> a > 0.0 && b > 0.0)
  {
  }

  lemma {:induction false} SumSign(f: Id, callees: seq<Id>, w: map<Call, real>)
    requires forall c: Id :: c in callees && c != f ==> (f, c) in w && w[(f, c)] >= 0.0
    ensures Inherited(f, callees, w) >= 0.0
    ensures Inherited(f, callees, w) > 0.0 <==> exists c: Id :: c in callees && c != f && w[(f, c)] > 0.0
  {
    if callees != [] {
      var n := |callees| - 1;
      assert callees == callees[..n] + [callees[n]];
      SumSign(f, callees[..n], w);
      var es := CallsFrom(f, callees[..n]);
      if callees[n] != f {
        assert CallsFrom(f, callees) == es + [(f, callees[n])];
        assert (es + [(f, callees[n])])[..|es|] == es;
      } else {
        assert CallsFrom(f, callees) == es;
      }
    }
  }

  lemma BalancedAt(g: Graph, own: map<Id, real>, ratio: map<Call, real>, s: State, f: Id)
    requires Consistent(g, own, ratio, s) && f in s.totals
    ensures Balanced(g, own, ratio, s, f)
  {
  }

  /** What a call is given, by sign. */
  lemma CallSign(g: Graph, count: map<Call, real>, own: map<Id, real>, ratio: map<Call, real>, s: State, f: Id, c: Id)
    requires Integrated(g, count, own, ratio, s) && Edge(g, f, c) && c != f && c in s.totals && s.totals[c] >= 0.0
    ensures (f, c) in s.callOut && s.callOut[(f, c)] >= 0.0
    ensures s.callOut[(f, c)] > 0.0 <==> Passes(AllCalls(g, g.order), count, (f, c)) && s.totals[c] > 0.0
  {
    hide Reach, Consistent, Times, Passes, RatioOf, SumTo, NonNegative;
    var es := AllCalls(g, g.order);
    CallsAreEdges(g, g.order);
    assert IsCall(g, (f, c)) && (f, c) in es;
    BalancedAt(g, own, ratio, s, f);
    RatioSign(es, count, (f, c));
    TimesSign(ratio[(f, c)], s.totals[c]);
  }

  /** Totals of non-negative costs are not negative, and positive exactly for the functions
      that carry cost. */
  lemma {:induction false} TotalsSign(g: Graph, count: map<Call, real>, own: map<Id, real>, ratio: map<Call, real>,
                                      s: State, f: Id)
    requires Integrated(g, count, own, ratio, s) && NoCycle(g) && f in g.calls
    requires forall x :: x in own ==> own[x] >= 0.0
    ensures s.totals[f] >= 0.0
    ensures s.totals[f] > 0.0 <==> Carries(g, count, own, f)
    decreases Below(g, f)
  {
    hide Reach, Consistent, Times, Passes, RatiosFor, NonNegative, AllCalls, Inherited, Below;
    BalancedAt(g, own, ratio, s, f);
    forall c: Id | c in g.calls[f] && c != f
      ensures (f, c) in s.callOut && s.callOut[(f, c)] >= 0.0
      ensures s.callOut[(f, c)] > 0.0 <==> CarriesOver(g, count, own, f, c)
    {
      assert Edge(g, f, c);
      BelowShrinks(g, f, c);
      TotalsSign(g, count, own, ratio, s, c);
      CallSign(g, count, own, ratio, s, f, c);
    }
    SumSign(f, g.calls[f], s.callOut);
  }

  // ----- Exactly when cost is conserved ----------------------------------------------

  /** Several counted calls, all counted as zero: the cost is passed on several times. */
  ghost predicate Starved(es: seq<Call>, count: map<Call, real>, f: Id) {
    CountedTo(es, count, f) > 1 && SumTo(es, count, f) == 0.0
  }

  /** Calls, but none with a count: the cost is passed on to nobody. */
  ghost predicate Lost(es: seq<Call>, count: map<Call, real>, f: Id) {
    CountTo(es, f) > 0 && CountedTo(es, count, f) == 0
  }

  lemma ExcessSign(es: seq<Call>, count: map<Call, real>, f: Id, total: real)
    requires NonNegative(es, count) && total >= 0.0
    ensures ExcessOf(es, count, f, total) > 0.0 <==> Starved(es, count, f) && total > 0.0
    ensures ExcessOf(es, count, f, total) < 0.0 <==> Lost(es, count, f) && total > 0.0
  {
    SumToBounds(es, count, f);
    hide SumTo, CountTo, CountedTo, NonNegative;
    var n := CountedTo(es, count, f);
    if n > 0 { TimesSign((n - 1) as real, total); } else { assert Times(-1.0, total) == -total; }
  }

  /** With all terms of one sign, a sum is zero exactly when all its terms are. */
  lemma {:induction false} ExcessIff(fs: seq<Id>, es: seq<Call>, count: map<Call, real>, t: map<Id, real>, up: bool)
    requires forall f :: f in fs ==>
             f in t && (if up then ExcessOf(es, count, f, t[f]) >= 0.0 else ExcessOf(es, count, f, t[f]) <= 0.0)
    ensures if up then Excess(fs, es, count, t) >= 0.0 else Excess(fs, es, count, t) <= 0.0
    ensures Excess(fs, es, count, t) == 0.0 <==> forall f :: f in fs ==> ExcessOf(es, count, f, t[f]) == 0.0
  {
    if fs != [] {
      var n := |fs| - 1;
      assert fs == fs[..n] + [fs[n]];
      hide ExcessOf;
      ExcessIff(fs[..n], es, count, t, up);
    }
  }

  /** Some function that carries cost passes it on several times, or to nobody. */
  ghost predicate SomeStarved(g: Graph, count: map<Call, real>, own: map<Id, real>)
    requires Validated(g) && NoCycle(g) && own.Keys == g.calls.Keys
  {
    exists f :: f in g.calls && Starved(AllCalls(g, g.order), count, f) && Carries(g, count, own, f)
  }

  ghost predicate SomeLost(g: Graph, count: map<Call, real>, own: map<Id, real>)
    requires Validated(g) && NoCycle(g) && own.Keys == g.calls.Keys
  {
    exists f :: f in g.calls && Lost(AllCalls(g, g.order), count, f) && Carries(g, count, own, f)
  }

  /** The excess of one function, by what it carries. */
  lemma ExcessMeaning(g: Graph, count: map<Call, real>, own: map<Id, real>, ratio: map<Call, real>, s: State, f: Id)
    requires Integrated(g, count, own, ratio, s) && NoCycle(g) && f in g.calls
    requires forall x :: x in own ==> own[x] >= 0.0
    ensures f in s.totals
    ensures var es := AllCalls(g, g.order);
            && (ExcessOf(es, count, f, s.totals[f]) > 0.0 <==> Starved(es, count, f) && Carries(g, count, own, f))
            && (ExcessOf(es, count, f, s.totals[f]) < 0.0 <==> Lost(es, count, f) && Carries(g, count, own, f))
  {
    hide Reach, Consistent, AllCalls, Starved, Lost, Carries, ExcessOf, RatiosFor, NoCycle;
    TotalsSign(g, count, own, ratio, s, f);
    ExcessSign(AllCalls(g, g.order), count, f, s.totals[f]);
  }

  /** Exactly when cost is conserved, in terms of the graph, the counts and the own costs:
      when no function that carries cost has several counted calls that are all zero, and
      none has calls without any count.  (With both kinds at once what is created may cancel
      what is lost; `Balance` gives the difference.) */
  lemma ConservedIff(g: Graph, count: map<Call, real>, own: map<Id, real>, ratio: map<Call, real>, s: State)
    requires Integrated(g, count, own, ratio, s) && NoCycle(g)
    requires forall x :: x in own ==> own[x] >= 0.0
    ensures !(SomeStarved(g, count, own) && SomeLost(g, count, own)) ==>
              (SumRoots(g.order, AllCalls(g, g.order), s.totals) == SumF(g.order, own) <==>
               !SomeStarved(g, count, own) && !SomeLost(g, count, own))
    ensures SomeStarved(g, count, own) && !SomeLost(g, count, own) ==>
            SumRoots(g.order, AllCalls(g, g.order), s.totals) > SumF(g.order, own)
    ensures SomeLost(g, count, own) && !SomeStarved(g, count, own) ==>
            SumRoots(g.order, AllCalls(g, g.order), s.totals) < SumF(g.order, own)
  {
    hide Reach, Consistent, NoCycle, SumF, SumRoots, Excess, ExcessOf, RatiosFor, AllCalls, Starved, Lost, Carries,
         NonNegative, Validated;
    OrderKnown(g);
    var es := AllCalls(g, g.order);
    Balance(g, count, own, ratio, s);
    forall f | f in g.order ensures f in s.totals
      ensures ExcessOf(es, count, f, s.totals[f]) > 0.0 <==> Starved(es, count, f) && Carries(g, count, own, f)
      ensures ExcessOf(es, count, f, s.totals[f]) < 0.0 <==> Lost(es, count, f) && Carries(g, count, own, f)
    {
      ExcessMeaning(g, count, own, ratio, s, f);
    }
    if !SomeLost(g, count, own) { ExcessIff(g.order, es, count, s.totals, true); }
    if !SomeStarved(g, count, own) { ExcessIff(g.order, es, count, s.totals, false); }
  }

  /** When every call has a count, cost is conserved exactly when no function that carries cost
      has several calls that are all counted as zero. */
  lemma ConservedIffCounted(g: Graph, count: map<Call, real>, own: map<Id, real>, ratio: map<Call, real>, s: State)
    requires Integrated(g, count, own, ratio, s) && NoCycle(g)
    requires forall x :: x in own ==> own[x] >= 0.0
    requires forall e :: e in AllCalls(g, g.order) ==> e in count
    ensures SumRoots(g.order, AllCalls(g, g.order), s.totals) == SumF(g.order, own) <==> !SomeStarved(g, count, own)
  {
    hide Reach, Consistent, NoCycle, SumF, SumRoots, RatiosFor, Carries, NonNegative, SomeStarved, AllCalls;
    forall f | f in g.calls ensures !Lost(AllCalls(g, g.order), count, f) {
      AllCounted(AllCalls(g, g.order), count, f);
    }
    ConservedIff(g, count, own, ratio, s);
  }

  lemma {:induction false} AllCounted(es: seq<Call>, count: map<Call, real>, f: Id)
    requires forall e :: e in es ==> e in count
    ensures CountedTo(es, count, f) == CountTo(es, f)
  {
    if es != [] {
      assert es == es[..|es| - 1] + [es[|es| - 1]];
      AllCounted(es[..|es| - 1], count, f);
    }
  }

  // ----- Profiles that do not conserve cost ---------------------------------------------

  /** A graph whose calls all go to smaller numbers has no cycle. */
  lemma Downward(g: Graph)
    requires forall x, y :: Edge(g, x, y) ==> y < x
    ensures NoCycle(g)
  {
    forall x, y | x in g.calls && y in Scc(g, x) ensures y == x {
      NotUp(g, x, y);
      NotUp(g, y, x);
    }
    forall x | x in g.calls ensures Scc(g, x) == {x} {
      ReachRefl(g, x);
    }
  }

  lemma NotUp(g: Graph, x: Id, y: Id)
    requires (forall u, w :: Edge(g, u, w) ==> w < u) && Reach(g, x, y)
    ensures y <= x
  {
    var p :| PathFromTo(g, p, x, y);
    PathDown(g, p);
  }

  lemma {:induction false} PathDown(g: Graph, p: seq<Id>)
    requires (forall u, w :: Edge(g, u, w) ==> w < u) && IsPath(g, p)
    ensures p[|p| - 1] <= p[0]
  {
    if |p| > 1 {
      assert Edge(g, p[0], p[1]);
      PathDown(g, p[1..]);
    }
  }

  /** Functions 2 and 1 both call 0, which alone has cost, and no call was counted. */
  const TWO_CALLERS := Graph([2, 1, 0], map[2 := [0], 1 := [0], 0 := []])
  const FIRST: Call := (2, 0)
  const SECOND: Call := (1, 0)

  lemma TwoCallersEdge(x: Id, y: Id)
    requires Edge(TWO_CALLERS, x, y)
    ensures y == 0 < x <= 2
  {
  }

  lemma TwoCallersOrder()
    ensures WellFormed(TWO_CALLERS) && TWO_CALLERS.order == [2, 1, 0] && TWO_CALLERS.calls.Keys == {0, 1, 2}
  {
  }

  lemma TwoCallersValidated()
    ensures Validated(TWO_CALLERS) && NoCycle(TWO_CALLERS)
  {
    TwoCallersOrder();
    hide TWO_CALLERS, WellFormed, NoCycle;
    forall x, y | Edge(TWO_CALLERS, x, y) ensures y < x && y in TWO_CALLERS.calls {
      TwoCallersEdge(x, y);
    }
    forall f, c | f in TWO_CALLERS.calls && c in TWO_CALLERS.calls[f] ensures c in TWO_CALLERS.calls {
      assert Edge(TWO_CALLERS, f, c);
    }
    Downward(TWO_CALLERS);
  }

  lemma TwoCallersBalanced(own: map<Id, real>, ratio: map<Call, real>, s: State, f: Id)
    requires own == map[2 := 0.0, 1 := 0.0, 0 := 1.0] && ratio == map[FIRST := 1.0, SECOND := 1.0]
    requires s == State(map[2 := 1.0, 1 := 1.0, 0 := 1.0], map[FIRST := 1.0, SECOND := 1.0]) && f in {0, 1, 2}
    ensures Balanced(TWO_CALLERS, own, ratio, s, f)
  {
    OneCallee(2, 0, s.callOut);
    OneCallee(1, 0, s.callOut);
    hide Inherited;
    assert Times(1.0, 1.0) == 1.0;
  }

  /** However `integrate` ends on this profile, the roots have twice its cost. */
  lemma CostCreated(count: map<Call, real>, own: map<Id, real>, ratio: map<Call, real>, s: State)
    requires count == map[FIRST := 0.0, SECOND := 0.0] && own == map[2 := 0.0, 1 := 0.0, 0 := 1.0]
    requires Integrated(TWO_CALLERS, count, own, ratio, s)
    ensures NoCycle(TWO_CALLERS) && SumF(TWO_CALLERS.order, own) == 1.0
    ensures SumRoots(TWO_CALLERS.order, AllCalls(TWO_CALLERS, TWO_CALLERS.order), s.totals) == 2.0
  {
    hide *;
    TwoCallersOrder();
    TwoCallersValidated();
    TwoCalls();
    TwoTotals(count, own, ratio, s);
    SumsOfTwo(count, own, s.totals);
  }

  /** The equations of the three functions determine their totals. */
  lemma TwoTotals(count: map<Call, real>, own: map<Id, real>, ratio: map<Call, real>, s: State)
    requires count == map[FIRST := 0.0, SECOND := 0.0] && own == map[2 := 0.0, 1 := 0.0, 0 := 1.0]
    requires Integrated(TWO_CALLERS, count, own, ratio, s)
    ensures s.totals == map[2 := 1.0, 1 := 1.0, 0 := 1.0]
  {
    hide *;
    TwoCallersOrder();
    TwoCalls();
    IntegratedParts(TWO_CALLERS, count, own, ratio, s);
    TwoCallees();
    TwoCounts(count);
    RatioOfZero([FIRST, SECOND], count, FIRST);
    RatioOfZero([FIRST, SECOND], count, SECOND);
    LeafTotal(own, ratio, s, 0);
    CallerTotal(own, ratio, s, 2);
    CallerTotal(own, ratio, s, 1);
  }

  lemma TwoCallees()
    ensures TWO_CALLERS.calls[2] == [0] && TWO_CALLERS.calls[1] == [0] && TWO_CALLERS.calls[0] == []
    ensures FIRST == (2, 0) && SECOND == (1, 0)
  {
  }

  lemma TwoCounts(count: map<Call, real>)
    requires count == map[FIRST := 0.0, SECOND := 0.0]
    ensures SumTo([FIRST, SECOND], count, 0) == 0.0 && FIRST in count && SECOND in count
  {
    assert [FIRST, SECOND][..1] == [FIRST] && [FIRST][..0] == [];
    assert SumTo([FIRST], count, 0) == 0.0;
  }

  lemma IntegratedParts(g: Graph, count: map<Call, real>, own: map<Id, real>, ratio: map<Call, real>, s: State)
    requires Integrated(g, count, own, ratio, s)
    ensures (forall f :: f in g.order ==> f in g.calls) && s.totals.Keys == g.calls.Keys
    ensures forall f :: f in g.calls ==> Balanced(g, own, ratio, s, f)
    ensures forall e :: e in AllCalls(g, g.order) ==> e in ratio && ratio[e] == RatioOf(AllCalls(g, g.order), count, e)
  {
    hide Balanced, AllCalls, RatioOf;
  }

  lemma LeafTotal(own: map<Id, real>, ratio: map<Call, real>, s: State, f: Id)
    requires Balanced(TWO_CALLERS, own, ratio, s, f) && TWO_CALLERS.calls[f] == []
    ensures s.totals[f] == own[f]
  {
    NoCall(f);
    hide CallsFrom;
  }

  lemma CallerTotal(own: map<Id, real>, ratio: map<Call, real>, s: State, f: Id)
    requires f != 0 && Balanced(TWO_CALLERS, own, ratio, s, f) && TWO_CALLERS.calls[f] == [0]
    requires (f, 0) in ratio && ratio[(f, 0)] == 1.0 && 0 in s.totals
    ensures s.totals[f] == own[f] + s.totals[0]
  {
    assert 0 in [0];
    OneCallee(f, 0, s.callOut);
    hide Inherited;
    assert Times(1.0, s.totals[0]) == s.totals[0];
  }

  /** There is such an end. */
  lemma TwoCallersIntegrated(count: map<Call, real>, own: map<Id, real>, ratio: map<Call, real>, s: State)
    requires count == map[FIRST := 0.0, SECOND := 0.0] && own == map[2 := 0.0, 1 := 0.0, 0 := 1.0]
    requires ratio == map[FIRST := 1.0, SECOND := 1.0]
    requires s == State(map[2 := 1.0, 1 := 1.0, 0 := 1.0], map[FIRST := 1.0, SECOND := 1.0])
    ensures Integrated(TWO_CALLERS, count, own, ratio, s)
  {
    assert own.Keys == {0, 1, 2} && s.totals.Keys == {0, 1, 2};
    hide *;
    TwoCallersOrder();
    TwoCallersValidated();
    TwoCalls();
    SumsOfTwo(count, own, s.totals);
    TwoCallersRatios(count, ratio);
    TwoCallersConsistent(own, ratio, s);
    IntegratedFold(TWO_CALLERS, count, own, ratio, s, [FIRST, SECOND]);
  }

  lemma TwoCallersRatios(count: map<Call, real>, ratio: map<Call, real>)
    requires count == map[FIRST := 0.0, SECOND := 0.0] && ratio == map[FIRST := 1.0, SECOND := 1.0]
    requires SumTo([FIRST, SECOND], count, 0) == 0.0
    ensures RatiosFor([FIRST, SECOND], [FIRST, SECOND], count, ratio) && NonNegative([FIRST, SECOND], count)
  {
    hide SumTo, RatioOf;
    RatioOfZero([FIRST, SECOND], count, FIRST);
    RatioOfZero([FIRST, SECOND], count, SECOND);
  }

  lemma TwoCallersConsistent(own: map<Id, real>, ratio: map<Call, real>, s: State)
    requires own == map[2 := 0.0, 1 := 0.0, 0 := 1.0] && ratio == map[FIRST := 1.0, SECOND := 1.0]
    requires s == State(map[2 := 1.0, 1 := 1.0, 0 := 1.0], map[FIRST := 1.0, SECOND := 1.0])
    ensures Consistent(TWO_CALLERS, own, ratio, s)
  {
    hide Balanced;
    forall f | f in s.totals ensures Balanced(TWO_CALLERS, own, ratio, s, f) {
      TwoCallersBalanced(own, ratio, s, f);
    }
  }

  lemma IntegratedFold(g: Graph, count: map<Call, real>, own: map<Id, real>, ratio: map<Call, real>, s: State,
                       es: seq<Call>)
    requires Validated(g) && own.Keys == g.calls.Keys && s.totals.Keys == g.calls.Keys && es == AllCalls(g, g.order)
    requires RatiosFor(es, es, count, ratio) && Consistent(g, own, ratio, s) && NonNegative(es, count)
    ensures Integrated(g, count, own, ratio, s)
  {
    hide Validated, RatiosFor, Consistent, NonNegative, AllCalls;
  }

  lemma TwoCalls()
    ensures WellFormed(TWO_CALLERS) && AllCalls(TWO_CALLERS, TWO_CALLERS.order) == [FIRST, SECOND]
  {
    hide *;
    TwoCallersOrder();
    TwoCallersCalls();
    OneCall(2, 0);
    OneCall(1, 0);
    NoCall(0);
    NoCalls(TWO_CALLERS);
    CallsSnoc(TWO_CALLERS, [], 2);
    CallsSnoc(TWO_CALLERS, [2], 1);
    CallsSnoc(TWO_CALLERS, [2, 1], 0);
    assert [] + [2] == [2] && [2] + [1] == [2, 1] && [2, 1] + [0] == [2, 1, 0];
  }

  lemma TwoCallersCalls()
    ensures TWO_CALLERS.calls[2] == [0] && TWO_CALLERS.calls[1] == [0] && TWO_CALLERS.calls[0] == []
    ensures FIRST == (2, 0) && SECOND == (1, 0)
  {
  }

  lemma NoCalls(g: Graph)
    ensures AllCalls(g, []) == []
  {
  }

  lemma CallsSnoc(g: Graph, fs: seq<Id>, f: Id)
    requires f in g.calls && forall x :: x in fs ==> x in g.calls
    ensures AllCalls(g, fs + [f]) == AllCalls(g, fs) + CallsFrom(f, g.calls[f])
  {
    hide CallsFrom;
    assert (fs + [f])[..|fs|] == fs;
  }

  lemma OneCall(f: Id, c: Id)
    requires f != c
    ensures CallsFrom(f, [c]) == [(f, c)]
  {
    assert [c][..0] == [];
  }

  lemma NoCall(f: Id)
    ensures CallsFrom(f, []) == []
  {
  }

  lemma OneCallee(f: Id, c: Id, w: map<Call, real>)
    requires f != c && (f, c) in w
    ensures Inherited(f, [c], w) == w[(f, c)] && Inherited(c, [], w) == 0.0
  {
    OneCall(f, c);
    NoCall(c);
    hide CallsFrom;
    var e: Call := (f, c);
    assert [e][..0] == [];
    assert Sum([e], w) == Sum([], w) + w[e];
  }

  lemma CountOfTwo(a: Call, b: Call, c: Id)
    ensures CountTo([a, b], c) == (if a.1 == c then 1 else 0) + (if b.1 == c then 1 else 0)
  {
    assert [a, b][..1] == [a] && [a][..0] == [];
    assert CountTo([a], c) == if a.1 == c then 1 else 0;
  }

  lemma SumsOfTwo(count: map<Call, real>, own: map<Id, real>, t: map<Id, real>)
    requires count == map[FIRST := 0.0, SECOND := 0.0]
    requires own == map[2 := 0.0, 1 := 0.0, 0 := 1.0] && t == map[2 := 1.0, 1 := 1.0, 0 := 1.0]
    ensures SumTo([FIRST, SECOND], count, 0) == 0.0
    ensures SumF([2, 1, 0], own) == 1.0 && SumRoots([2, 1, 0], [FIRST, SECOND], t) == 2.0
  {
    var a: Call, b: Call := FIRST, SECOND;
    assert [a, b][..1] == [a] && [a][..0] == [];
    assert SumTo([a], count, 0) == 0.0;
    CountOfTwo(a, b, 0);
    CountOfTwo(a, b, 1);
    CountOfTwo(a, b, 2);
    assert [2, 1, 0][..2] == [2, 1] && [2, 1][..1] == [2] && [2][..0] == [];
    hide CountTo, SumTo;
    assert SumF([2], own) == 0.0 && SumF([2, 1], own) == 0.0;
    assert SumRoots([2], [a, b], t) == 1.0 && SumRoots([2, 1], [a, b], t) == 2.0;
  }

  // ----- The analysis as a whole ------------------------------------------------------------

  /** `find_cycles`, `call_ratios` and `integrate` on a validated profile.  If no cycle is
      found, and every call to another function has a positive count, the functions nobody
      else calls end with the total of the profile. */
  method Analyse(g: Graph, count: map<Call, real>, own: map<Id, real>) returns (acyclic: bool, p: Profile)
    requires Validated(g) && own.Keys == g.calls.Keys
    ensures acyclic <==> forall x :: x in g.calls ==> Scc(g, x) == {x}
    ensures acyclic && (forall e :: e in AllCalls(g, g.order) ==> e in count && count[e] > 0.0) ==>
              SumRoots(g.order, AllCalls(g, g.order), p.s.totals) == p.total
    ensures acyclic ==> p.total == SumF(g.order, own) && p.s.totals.Keys == g.calls.Keys
  {
    hide Reach, Scc, Tarjan.Cycles;
    var t := new Tarjan.Profile(g);
    t.FindCycles();
    p := new Profile(g, count, own, t.s.cycleOf, t.cycles);
    acyclic := t.cycles == [];
    NoCycleFound(g, t.s.cycleOf, t.cycles);
    p.CallRatios();
    if acyclic {
      NoneEnters(AllCalls(g, g.order), AllCalls(g, g.order), count, p.ratio);
      RatiosKnown(g, p.ratio);
      p.Run();
      if forall e :: e in AllCalls(g, g.order) ==> e in count && count[e] > 0.0 {
        PositiveCountsConserve(g, count, own, p.ratio, p.s);
      }
    } else {
      SomeCycle(g, t.s.cycleOf, t.cycles);
    }
  }

  lemma RatiosKnown(g: Graph, ratio: map<Call, real>)
    requires Validated(g) && forall e :: e in ratio <==> e in AllCalls(g, g.order)
    ensures forall f: Id, c: Id :: Edge(g, f, c) && f != c ==> (f, c) in ratio
  {
    CallsAreEdges(g, g.order);
    forall f: Id, c: Id | Edge(g, f, c) && f != c ensures (f, c) in ratio {
      assert IsCall(g, (f, c));
    }
  }

  lemma SomeCycle(g: Graph, cycleOf: map<Id, nat>, cycles: seq<nat>)
    requires cycles != [] && cycleOf.Keys <= g.calls.Keys
    requires forall x :: x in g.calls ==> (x in cycleOf <==> Scc(g, x) != {x})
    requires forall c :: c in cycles <==> exists x :: x in cycleOf && cycleOf[x] == c
    ensures !forall x :: x in g.calls ==> Scc(g, x) == {x}
  {
    assert cycles[0] in cycles;
    var x :| x in cycleOf && cycleOf[x] == cycles[0];
    assert x in g.calls;
  }
}
