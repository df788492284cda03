/** The cost and token rollup over a run's log. Amounts are reals. */
module RunMetrics {

  datatype MetricCost = MetricCost(source: string, currency: string, total: real, input: real, output: real)
  datatype MetricTokens = MetricTokens(input: int, output: int, cacheCreationInput: int, cacheReadInput: int)
  datatype MetricSet = MetricSet(cost: MetricCost, tokens: MetricTokens, turns: int, model: string)

  const ZeroMetrics := MetricSet(MetricCost("", "", 0.0, 0.0, 0.0), MetricTokens(0, 0, 0, 0), 0, "")

  const Derived := "derived"
  const Reported := "reported"

  /** A log event as the rollup sees it: `Completed(NoUsage)` has undecodable data or no usage in it. */
  datatype Event = Completed(usage: Usage) | OtherEvent
  datatype Usage = NoUsage | Usage(metrics: MetricSet)

  datatype Rollup = Rollup(totalUSD: real, hasCost: bool, inUSD: real, outUSD: real, reportedUSD: real, hasSplit: bool,
                           inTok: int, outTok: int, turns: int, agentSteps: nat, unpricedSteps: nat)

  /** An event that reports an agent step: an all-zero metric set marks a step that is none. */
  predicate IsAgentStep(e: Event) {
    e.Completed? && e.usage.Usage? && e.usage.metrics != ZeroMetrics
  }

  function Steps(events: seq<Event>): seq<MetricSet> {
    if events == [] then []
    else
      var last := events[|events| - 1];
      Steps(events[..|events| - 1]) + if IsAgentStep(last) then [last.usage.metrics] else []
  }

  function Sum(steps: seq<MetricSet>, f: MetricSet -> real): real {
    if steps == [] then 0.0 else Sum(steps[..|steps| - 1], f) + f(steps[|steps| - 1])
  }

  function Tally(steps: seq<MetricSet>, f: MetricSet -> int): int {
    if steps == [] then 0 else Tally(steps[..|steps| - 1], f) + f(steps[|steps| - 1])
  }

  function Count(steps: seq<MetricSet>, p: MetricSet -> bool): nat {
    if steps == [] then 0 else Count(steps[..|steps| - 1], p) + if p(steps[|steps| - 1]) then 1 else 0
  }

  predicate Priced(u: MetricSet) { u.cost.source != "" }
  predicate Unpriced(u: MetricSet) { u.cost.source == "" }
  predicate IsDerived(u: MetricSet) { u.cost.source == Derived }
  function Total(u: MetricSet): real { u.cost.total }
  function SplitInput(u: MetricSet): real { if u.cost.source == Derived then u.cost.input else 0.0 }
  function SplitOutput(u: MetricSet): real { if u.cost.source == Derived then u.cost.output else 0.0 }
  function ReportedTotal(u: MetricSet): real { if u.cost.source == Reported then u.cost.total else 0.0 }
  function InputTokens(u: MetricSet): int { u.tokens.input }
  function OutputTokens(u: MetricSet): int { u.tokens.output }
  function Turns(u: MetricSet): int { u.turns }

  /** What each figure of a rollup means. */
  ghost predicate Sums(m: Rollup, steps: seq<MetricSet>) {
    && m.totalUSD == Sum(steps, Total)
    && m.inUSD == Sum(steps, SplitInput)
    && m.outUSD == Sum(steps, SplitOutput)
    && m.reportedUSD == Sum(steps, ReportedTotal)
    && m.inTok == Tally(steps, InputTokens)
    && m.outTok == Tally(steps, OutputTokens)
    && m.turns == Tally(steps, Turns)
    && m.agentSteps == |steps|
    && m.unpricedSteps == Count(steps, Unpriced)
    && (m.hasCost <==> exists u :: u in steps && Priced(u))
    && (m.hasSplit <==> exists u :: u in steps && IsDerived(u))
  }

  const Zero := Rollup(0.0, false, 0.0, 0.0, 0.0, false, 0, 0, 0, 0, 0)

  method FoldRunMetrics(events: seq<Event>) returns (m: Rollup)
    ensures Sums(m, Steps(events))
  {
    hide Sums;
    m := Zero;
    SumsNone();
    for i := 0 to |events|
      invariant Sums(m, Steps(events[..i]))
    {
      var e := events[i];
      StepsSnoc(events, i);
      if !e.Completed? || e.usage.NoUsage? {
        continue;
      }
      var u := e.usage.metrics;
      if u == ZeroMetrics {
        continue;
      }
      ghost var before, steps := m, Steps(events[..i]);
      m := m.(agentSteps := m.agentSteps + 1, totalUSD := m.totalUSD + u.cost.total);
      if u.cost.source != "" {
        m := m.(hasCost := true);
      } else {
        m := m.(unpricedSteps := m.unpricedSteps + 1);
      }
      if u.cost.source == Derived {
        m := m.(inUSD := m.inUSD + u.cost.input, outUSD := m.outUSD + u.cost.output, hasSplit := true);
      } else if u.cost.source == Reported {
        m := m.(reportedUSD := m.reportedUSD + u.cost.total);
      }
      m := m.(inTok := m.inTok + u.tokens.input, outTok := m.outTok + u.tokens.output, turns := m.turns + u.turns);
      SumsOne(u);
      SumsConcat(before, steps, One(u), [u]);
      assert m == Add(before, One(u));
    }
    assert events[..|events|] == events;
  }

  /** The rollup of a single step. */
  function One(u: MetricSet): Rollup {
    Rollup(Total(u), Priced(u), SplitInput(u), SplitOutput(u), ReportedTotal(u), IsDerived(u),
           InputTokens(u), OutputTokens(u), Turns(u), 1, if Unpriced(u) then 1 else 0)
  }

  function Add(a: Rollup, b: Rollup): Rollup {
    Rollup(a.totalUSD + b.totalUSD, a.hasCost || b.hasCost, a.inUSD + b.inUSD, a.outUSD + b.outUSD,
           a.reportedUSD + b.reportedUSD, a.hasSplit || b.hasSplit, a.inTok + b.inTok, a.outTok + b.outTok,
           a.turns + b.turns, a.agentSteps + b.agentSteps, a.unpricedSteps + b.unpricedSteps)
  }

  lemma SumsNone()
    ensures Sums(Zero, [])
  {
  }

  lemma StepsSnoc(events: seq<Event>, i: nat)
    requires i < |events|
    ensures IsAgentStep(events[i]) ==> Steps(events[..i + 1]) == Steps(events[..i]) + [events[i].usage.metrics]
    ensures !IsAgentStep(events[i]) ==> Steps(events[..i + 1]) == Steps(events[..i])
  {
    assert events[..i + 1][..i] == events[..i];
  }

  lemma SumsOne(u: MetricSet)
    ensures Sums(One(u), [u])
  {
    assert [u][..0] == [];
    assert u in [u];
  }

  /** What an event adds to the rollup: nothing if it is not a completed step, carries no usage, or has all figures zero. */
  lemma NoStepAddsNothing(e: Event, m: Rollup)
    requires Sums(m, Steps([e]))
    requires e == Completed(Usage(MetricSet(MetricCost("", "", 0.0, 0.0, 0.0), MetricTokens(0, 0, 0, 0), 0, "")))
      || e == Completed(NoUsage) || e == OtherEvent
    ensures m == Rollup(0.0, false, 0.0, 0.0, 0.0, false, 0, 0, 0, 0, 0)
  {
    assert [e][..0] == [];
    assert Steps([e]) == [];
  }

  /** And else its own figures, by where its cost comes from. */
  lemma StepAddsItsFigures(u: MetricSet, m: Rollup)
    requires u != MetricSet(MetricCost("", "", 0.0, 0.0, 0.0), MetricTokens(0, 0, 0, 0), 0, "")
    requires Sums(m, Steps([Completed(Usage(u))]))
    ensures m.agentSteps == 1 && m.totalUSD == u.cost.total
    ensures m.inTok == u.tokens.input && m.outTok == u.tokens.output && m.turns == u.turns
    ensures u.cost.source == "" ==> !m.hasCost && m.unpricedSteps == 1
    ensures u.cost.source != "" ==> m.hasCost && m.unpricedSteps == 0
    ensures u.cost.source == "derived" ==> m.hasSplit && m.inUSD == u.cost.input && m.outUSD == u.cost.output
    ensures u.cost.source != "derived" ==> !m.hasSplit && m.inUSD == 0.0 && m.outUSD == 0.0
    ensures m.reportedUSD == if u.cost.source == "reported" then u.cost.total else 0.0
  {
    var e := Completed(Usage(u));
    assert [e][..0] == [];
    assert Steps([e]) == [u];
    SumsOne(u);
  }

  lemma {:induction false} SumConcat(a: seq<MetricSet>, b: seq<MetricSet>, f: MetricSet -> real)
    ensures Sum(a + b, f) == Sum(a, f) + Sum(b, f)
  {
    if b == [] {
      assert a + b == a;
    } else {
      SumConcat(a, b[..|b| - 1], f);
      assert (a + b)[..|a + b| - 1] == a + b[..|b| - 1];
    }
  }

  lemma {:induction false} TallyConcat(a: seq<MetricSet>, b: seq<MetricSet>, f: MetricSet -> int)
    ensures Tally(a + b, f) == Tally(a, f) + Tally(b, f)
  {
    if b == [] {
      assert a + b == a;
    } else {
      TallyConcat(a, b[..|b| - 1], f);
      assert (a + b)[..|a + b| - 1] == a + b[..|b| - 1];
    }
  }

  lemma {:induction false} CountConcat(a: seq<MetricSet>, b: seq<MetricSet>, p: MetricSet -> bool)
    ensures Count(a + b, p) == Count(a, p) + Count(b, p)
  {
    if b == [] {
      assert a + b == a;
    } else {
      CountConcat(a, b[..|b| - 1], p);
      assert (a + b)[..|a + b| - 1] == a + b[..|b| - 1];
    }
  }

  lemma {:induction false} StepsConcat(a: seq<Event>, b: seq<Event>)
    ensures Steps(a + b) == Steps(a) + Steps(b)
  {
    if b == [] {
      assert a + b == a;
    } else {
      var front, last := b[..|b| - 1], b[|b| - 1];
      StepsConcat(a, front);
      assert (a + b)[..|a + b| - 1] == a + front;
      var tail := if IsAgentStep(last) then [last.usage.metrics] else [];
      assert Steps(a) + Steps(front) + tail == Steps(a) + (Steps(front) + tail);
    }
  }

  lemma SumsConcat(m: Rollup, s: seq<MetricSet>, n: Rollup, t: seq<MetricSet>)
    requires Sums(m, s) && Sums(n, t)
    ensures Sums(Add(m, n), s + t)
  {
    hide Sum, Tally, Count, Priced, IsDerived;
    SumConcat(s, t, Total);
    SumConcat(s, t, SplitInput);
    SumConcat(s, t, SplitOutput);
    SumConcat(s, t, ReportedTotal);
    TallyConcat(s, t, InputTokens);
    TallyConcat(s, t, OutputTokens);
    TallyConcat(s, t, Turns);
    CountConcat(s, t, Unpriced);
    assert forall u :: u in s + t <==> u in s || u in t;
  }

  /** A log in two parts costs what the parts cost together. */
  lemma RollupIsAdditive(a: seq<Event>, b: seq<Event>, m: Rollup, n: Rollup, whole: Rollup)
    requires Sums(m, Steps(a)) && Sums(n, Steps(b)) && Sums(whole, Steps(a + b))
    ensures whole == Add(m, n)
  {
    StepsConcat(a, b);
    SumsConcat(m, Steps(a), n, Steps(b));
  }

  /** Every agent step is either priced or unpriced, and a cost is known exactly when not all of them are unpriced. */
  lemma StepsAreCounted(m: Rollup, steps: seq<MetricSet>)
    requires Sums(m, steps)
    ensures m.agentSteps == Count(steps, Priced) + m.unpricedSteps
    ensures m.hasCost <==> m.unpricedSteps < m.agentSteps
    ensures m.hasSplit ==> m.hasCost
  {
    PricedOrNot(steps);
    if u :| u in steps && IsDerived(u) {
      assert Priced(u);
    }
  }

  lemma {:induction false} PricedOrNot(steps: seq<MetricSet>)
    ensures |steps| == Count(steps, Priced) + Count(steps, Unpriced)
    ensures Count(steps, Priced) > 0 <==> exists u :: u in steps && Priced(u)
  {
    if steps != [] {
      var front, last := steps[..|steps| - 1], steps[|steps| - 1];
      PricedOrNot(front);
      assert steps == front + [last];
      assert last in steps;
    }
  }

  /** What a step adds to the total beyond the parts shown. */
  function Gap(u: MetricSet): real {
    if u.cost.source == Derived then u.cost.total - u.cost.input - u.cost.output
    else if u.cost.source == Reported then 0.0
    else u.cost.total
  }

  /** Unpriced at no cost, reported, or derived with its split adding up. */
  predicate Balanced(u: MetricSet) {
    match u.cost.source
    case "derived" => u.cost.total == u.cost.input + u.cost.output
    case "reported" => true
    case _ => u.cost.total == 0.0
  }

  /** The total exceeds input + output + reported by the sum of the gaps, so they agree when every step is balanced. */
  lemma TotalSplits(m: Rollup, steps: seq<MetricSet>)
    requires Sums(m, steps)
    ensures m.totalUSD == m.inUSD + m.outUSD + m.reportedUSD + Sum(steps, Gap)
    ensures (forall u :: u in steps ==> Balanced(u)) ==> m.totalUSD == m.inUSD + m.outUSD + m.reportedUSD
  {
    GapsAddUp(steps);
    if forall u :: u in steps ==> Balanced(u) {
      NoGaps(steps);
    }
  }

  lemma {:induction false} GapsAddUp(steps: seq<MetricSet>)
    ensures Sum(steps, Total) == Sum(steps, SplitInput) + Sum(steps, SplitOutput) + Sum(steps, ReportedTotal) + Sum(steps, Gap)
  {
    if steps != [] {
      GapsAddUp(steps[..|steps| - 1]);
    }
  }

  lemma {:induction false} NoGaps(steps: seq<MetricSet>)
    requires forall u :: u in steps ==> Balanced(u)
    ensures Sum(steps, Gap) == 0.0
  {
    if steps != [] {
      assert Balanced(steps[|steps| - 1]);
      NoGaps(steps[..|steps| - 1]);
    }
  }

  /** Where no step shows more than its total, the figures agree only if every step is balanced. */
  lemma TotalSplitsOnlyIf(m: Rollup, steps: seq<MetricSet>)
    requires Sums(m, steps) && forall u :: u in steps ==> Gap(u) >= 0.0
    ensures m.totalUSD == m.inUSD + m.outUSD + m.reportedUSD <==> forall u :: u in steps ==> Balanced(u)
  {
    TotalSplits(m, steps);
    NonNegativeGaps(steps);
  }

  lemma {:induction false} NonNegativeGaps(steps: seq<MetricSet>)
    requires forall u :: u in steps ==> Gap(u) >= 0.0
    ensures Sum(steps, Gap) >= 0.0
    ensures Sum(steps, Gap) == 0.0 ==> forall u :: u in steps ==> Balanced(u)
  {
    if steps != [] {
      var front, last := steps[..|steps| - 1], steps[|steps| - 1];
      assert steps == front + [last];
      assert last in steps;
      NonNegativeGaps(front);
    }
  }
}
