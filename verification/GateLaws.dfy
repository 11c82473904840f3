/** What aggregated scores and the verdict of the regression gate mean, and which candidates are rejected. */
module GateLaws {
  import opened Schemas
  import opened Ordering
  import opened OrderStatistics
  import opened EvalRunner
  import opened RegressionGate

  // ----- aggregation -----

  /** The rank of a percentile is the least integer at or above p * n. */
  lemma {:induction false} NeededIsLeast(n: nat, p: real, k: int)
    ensures Needed(n, p) <= k <==> p * n as real <= k as real
  {
    assert -(p * n as real).Floor as real >= -(p * n as real);
  }

  lemma {:induction false} TotalOfAppended(xs: seq<real>, x: real)
    ensures Total(xs + [x]) == Total(xs) + x
  {
    if xs != [] {
      assert (xs + [x])[1..] == xs[1..] + [x];
      TotalOfAppended(xs[1..], x);
    }
  }

  /** Which value each aggregation stands for. */
  lemma {:induction false} AggregateMeans(values: seq<real>, r: real)
    requires values != []
    ensures Aggregate(values, Sum) == Some(r) <==> r == Total(values)
    ensures Aggregate(values, Mean) == Some(r) <==> r * |values| as real == Total(values)
    ensures Aggregate(values, Minimum) == Some(r) <==> r in values && forall x :: x in values ==> r <= x
    ensures Aggregate(values, Maximum) == Some(r) <==> r in values && forall x :: x in values ==> x <= r
    ensures Aggregate(values, P95) == Some(r) <==> IsPercentile(values, 0.95, r)
  {
    Quotient(Total(values), |values| as real, r);
    LeastIs(values);
    GreatestIs(values);
    RunnerP95IsPercentile(values);
    PercentileUnique(values, 0.95, r);
  }

  lemma {:induction false} Quotient(a: real, n: real, r: real)
    requires n > 0.0
    ensures r == a / n <==> r * n == a
  {
    assert a / n * n == a;
    if r * n == a {
      assert (r - a / n) * n == 0.0;
    }
  }

  // ----- raising every score raises the aggregate -----

  /** Scaled by `q` and moved by `d`, every score stays below its partner. */
  predicate Below(xs: seq<real>, q: real, d: real, ys: seq<real>) {
    |xs| == |ys| && forall i :: 0 <= i < |xs| ==> xs[i] * q + d < ys[i]
  }

  lemma {:induction false} TotalBelow(xs: seq<real>, q: real, d: real, ys: seq<real>)
    requires Below(xs, q, d, ys)
    ensures Total(xs) * q + |xs| as real * d <= Total(ys)
    ensures xs != [] ==> Total(xs) * q + |xs| as real * d < Total(ys)
  {
    if xs != [] {
      TotalBelow(xs[1..], q, d, ys[1..]);
      assert Total(xs) * q == xs[0] * q + Total(xs[1..]) * q;
    }
  }

  lemma {:induction false} MeanBelow(a: real, q: real, d: real, b: real, n: real)
    requires n > 0.0 && a * q + n * d < b
    ensures a / n * q + d < b / n
  {
    var x, y := a / n, b / n;
    assert x * n == a && y * n == b;
    assert (x * q + d) * n == a * q + n * d;
    assert (y - (x * q + d)) * n > 0.0;
  }

  /** The change that scales by `q` and moves by `d`. */
  function Line(q: real, d: real): real -> real {
    x => x * q + d
  }

  /** The same for any order-preserving change of the scores. */
  predicate Under(xs: seq<real>, f: real -> real, ys: seq<real>) {
    |xs| == |ys| && forall i :: 0 <= i < |xs| ==> f(xs[i]) < ys[i]
  }

  ghost predicate Rises(f: real -> real) {
    forall x, y :: x <= y ==> f(x) <= f(y)
  }

  /** A sample that `f` takes below `r` lies below any `t` that `f` does not. */
  lemma {:induction false} CountUnder(xs: seq<real>, f: real -> real, ys: seq<real>, t: real, r: real)
    requires Under(xs, f, ys) && Rises(f) && r <= f(t)
    ensures CountLe(ys, r) <= CountLt(xs, t)
  {
    if xs != [] {
      CountUnder(xs[1..], f, ys[1..], t, r);
      assert t <= xs[0] ==> f(t) <= f(xs[0]) < ys[0];
    }
  }

  lemma {:induction false} PercentileUnder(xs: seq<real>, f: real -> real, ys: seq<real>, p: real)
    requires Under(xs, f, ys) && Rises(f) && xs != [] && 0.0 <= p <= 1.0
    ensures f(Percentile(xs, p).value) < Percentile(ys, p).value
  {
    var k, t, r := RankIndex(|xs|, p), Percentile(xs, p).value, Percentile(ys, p).value;
    SortedByCount(xs, k, t);
    SortedByCount(ys, k, r);
    if r <= f(t) {
      CountUnder(xs, f, ys, t, r);
    }
  }

  /** The aggregations that pick a sample follow any such change. */
  lemma {:induction false} PickUnder(xs: seq<real>, f: real -> real, ys: seq<real>, how: Aggregation)
    requires Under(xs, f, ys) && Rises(f) && xs != [] && (how.Minimum? || how.Maximum? || how.P95?)
    ensures f(Aggregate(xs, how).value) < Aggregate(ys, how).value
  {
    LeastIs(xs);
    LeastIs(ys);
    GreatestIs(xs);
    GreatestIs(ys);
    match how {
      case Minimum =>
        var i :| 0 <= i < |ys| && ys[i] == OrderStatistics.Least(ys);
        assert f(OrderStatistics.Least(xs)) <= f(xs[i]) < ys[i];
      case Maximum =>
        var i :| 0 <= i < |xs| && xs[i] == Greatest(xs);
        assert f(xs[i]) < ys[i] <= Greatest(ys);
      case P95 =>
        RunnerP95IsPercentile(xs);
        RunnerP95IsPercentile(ys);
        PercentileUnder(xs, f, ys, 0.95);
    }
  }

  lemma {:induction false} LineRises(q: real, d: real)
    requires q >= 0.0
    ensures Rises(Line(q, d))
  {
    forall x, y | x <= y
      ensures Line(q, d)(x) <= Line(q, d)(y)
    {
      ScaleMonotone(x, y, q);
    }
  }

  lemma {:induction false} SumBelow(total: real, n: nat, d: real, bound: real)
    requires n > 0 && d >= 0.0 && total + n as real * d < bound
    ensures total + d < bound
  {
    ScaleMonotone(1.0, n as real, d);
  }

  /** Every aggregation is strictly monotone: when each score, scaled and moved, stays below its partner, so
      does the aggregate.  A sum needs that the move is not downwards. */
  lemma {:induction false} AggregateBelow(xs: seq<real>, q: real, d: real, ys: seq<real>, how: Aggregation)
    requires Under(xs, Line(q, d), ys) && q >= 0.0 && xs != [] && !how.Unsupported? && (how.Sum? ==> d >= 0.0)
    ensures Line(q, d)(Aggregate(xs, how).value) < Aggregate(ys, how).value
  {
    if how.Mean? || how.Sum? {
      TotalAggregateBelow(xs, q, d, ys);
    } else {
      LineRises(q, d);
      PickUnder(xs, Line(q, d), ys, how);
    }
  }

  lemma {:induction false} TotalAggregateBelow(xs: seq<real>, q: real, d: real, ys: seq<real>)
    requires Under(xs, Line(q, d), ys) && xs != []
    ensures Line(q, d)(Aggregate(xs, Mean).value) < Aggregate(ys, Mean).value
    ensures d >= 0.0 ==> Line(q, d)(Aggregate(xs, Sum).value) < Aggregate(ys, Sum).value
  {
    LineBelow(xs, q, d, ys);
    TotalBelow(xs, q, d, ys);
    MeanBelow(Total(xs), q, d, Total(ys), |xs| as real);
    if d >= 0.0 {
      SumBelow(Total(xs) * q, |xs|, d, Total(ys));
    }
  }

  lemma {:induction false} LineBelow(xs: seq<real>, q: real, d: real, ys: seq<real>)
    requires Under(xs, Line(q, d), ys)
    ensures Below(xs, q, d, ys)
  {
    forall i | 0 <= i < |xs|
      ensures xs[i] * q + d < ys[i]
    {
      assert Line(q, d)(xs[i]) == xs[i] * q + d;
    }
  }

  /** The same towards an upper limit: scores below it aggregate below it, a sum of them when it is not
      positive. */
  lemma {:induction false} AggregateUnder(xs: seq<real>, limit: real, how: Aggregation)
    requires xs != [] && !how.Unsupported? && (how.Sum? ==> limit <= 0.0)
    requires forall i :: 0 <= i < |xs| ==> xs[i] < limit
    ensures Aggregate(xs, how).value < limit
  {
    var top := seq(|xs|, _ => limit);
    assert Under(xs, Line(1.0, 0.0), top);
    AggregateBelow(xs, 1.0, 0.0, top, how);
    if how.Sum? {
      TotalBound(top, limit);
      ScaleMonotone(1.0, |xs| as real, -limit);
      assert limit * |xs| as real == -(|xs| as real * -limit);
    } else {
      AggregateBound(top, how, limit);
    }
  }

  // ----- what a run's scores are -----

  /** The scores of a case are its grades, its cost and its duration. */
  lemma {:induction false} CaseScoresMean(g: Graded)
    requires g.response.Some?
    ensures CaseScores(g).Keys == g.grades.Keys + {"cost_usd", "latency_ms"}
    ensures CaseScores(g)["cost_usd"] == g.response.value.cost
    ensures CaseScores(g)["latency_ms"] == g.response.value.duration
    ensures forall m :: m in g.grades && m != "cost_usd" && m != "latency_ms" ==> CaseScores(g)[m] == g.grades[m]
  {
  }

  /** What grading and the response say about one metric of one case. */
  function Reported(g: Graded, metric: string): Option<real> {
    if g.response.None? then None
    else if metric == "cost_usd" then Some(g.response.value.cost)
    else if metric == "latency_ms" then Some(g.response.value.duration)
    else if metric in g.grades then Some(g.grades[metric])
    else None
  }

  /** What was reported about a metric, over the cases that have it. */
  function AllReported(cases: seq<Graded>, metric: string): seq<real> {
    if cases == [] then [] else
    AllReported(cases[..|cases| - 1], metric) +
    match Reported(cases[|cases| - 1], metric) case Some(x) => [x] case None => []
  }

  lemma {:induction false} ColumnIsReported(cases: seq<Graded>, results: seq<CaseResult>, metric: string)
    requires |results| == |cases|
    requires forall i :: 0 <= i < |cases| ==> cases[i].response.Some? && results[i] == ResultOf(cases[i])
    ensures Column(results, metric) == AllReported(cases, metric)
  {
    if cases != [] {
      var n := |cases| - 1;
      ColumnIsReported(cases[..n], results[..n], metric);
      assert results[n] == ResultOf(cases[n]);
    }
  }

  /** A run scores exactly the declared metrics something was reported about, each by its declared aggregation
      of what was reported, and lists every case under its own identifier. */
  lemma {:induction false} RunMeans(metrics: Metrics, cases: seq<Graded>, metric: string)
    requires Supports(metrics) && RunOf(metrics, cases).Some?
    ensures var r := RunOf(metrics, cases).value;
            && (metric in r.scores <==> metric in metrics && AllReported(cases, metric) != [])
            && (metric in r.scores ==>
                  Some(r.scores[metric]) == Aggregate(AllReported(cases, metric), metrics[metric]))
            && |r.cases| == |cases|
            && forall i :: 0 <= i < |cases| ==> r.cases[i].id == cases[i].id
  {
    var r := RunOf(metrics, cases).value;
    ColumnIsReported(cases, r.cases, metric);
  }

  /** A run exists exactly when every case has a response and every metric of it is declared. */
  lemma {:induction false} RunExists(metrics: Metrics, cases: seq<Graded>)
    requires Supports(metrics)
    ensures RunOf(metrics, cases).Some? <==>
            && (forall i :: 0 <= i < |cases| ==> cases[i].response.Some?)
            && (forall i, m :: 0 <= i < |cases| && m in cases[i].grades ==> m in metrics)
            && (cases != [] ==> "cost_usd" in metrics && "latency_ms" in metrics)
  {
    forall i | 0 <= i < |cases|
      ensures Runnable(metrics, cases[i]) <==>
              && cases[i].response.Some?
              && (forall m :: m in cases[i].grades ==> m in metrics)
              && "cost_usd" in metrics && "latency_ms" in metrics
    {
      if cases[i].response.Some? {
        CaseScoresMean(cases[i]);
      }
    }
  }

  // ----- the verdict, in scores -----

  /** The limit a guardrail sets, `default` when it names none. */
  function Limit(g: Guardrail, default: real): real {
    match g.value case Some(v) => v case None => default
  }

  /** What a verdict that passed says about the guardrail at one position, in scores. */
  predicate GuardHolds(g: Guardrail, b: real, c: real) {
    && (g.comparison == NotIncrease ==> c <= b)
    && (g.comparison == MaxRatio && b == 0.0 ==> c == 0.0)
    && (g.comparison == MaxRatio && b != 0.0 ==> c <= b * Limit(g, 1.0))
    && (g.comparison == MaxAbsolute ==> c <= Limit(g, 0.0))
    && (g.comparison == MinAbsolute ==> c >= Limit(g, 0.0))
  }

  /** Two runs can be compared, in their fields. */
  lemma {:induction false} ComparableMeans(suite: Suite, b: Subject, c: Subject)
    ensures Comparable(suite, b, c) <==>
            && b.suite == suite.name && c.suite == suite.name && b.version == c.version
            && suite.gate.primary in b.scores && suite.gate.primary in c.scores
            && forall i :: 0 <= i < |suite.gate.guardrails| ==>
                 var g := suite.gate.guardrails[i];
                 && g.metric != "" && g.metric in b.scores && g.metric in c.scores
                 && g.comparison in {NotIncrease, MaxRatio, MaxAbsolute, MinAbsolute}
  {
    forall i | 0 <= i < |suite.gate.guardrails|
      ensures var g := suite.gate.guardrails[i];
              Evaluable(g, b.scores, c.scores) <==>
              && g.metric != "" && g.metric in b.scores && g.metric in c.scores
              && g.comparison in {NotIncrease, MaxRatio, MaxAbsolute, MinAbsolute}
    {
    }
  }

  /** A verdict passes if and only if, in scores, the primary fell by at most the allowance, no `not_increase`
      metric rose, and every ratio and limit holds; a baseline of zero admits only a candidate of zero under a
      ratio. */
  lemma {:induction false} VerdictMeans(suite: Suite, b: Subject, c: Subject)
    requires Comparable(suite, b, c)
    ensures VerdictOf(suite, b, c).passed <==>
            && b.scores[suite.gate.primary] - c.scores[suite.gate.primary] <= suite.gate.maxRegression
            && forall i :: 0 <= i < |suite.gate.guardrails| ==>
                 var g := suite.gate.guardrails[i];
                 GuardHolds(g, b.scores[g.metric], c.scores[g.metric])
  {
  }

  /** The verdict records the scores it judged and the judgement on each: first the primary, then the guardrails
      in order. */
  lemma {:induction false} VerdictRecords(suite: Suite, b: Subject, c: Subject, i: nat)
    requires Comparable(suite, b, c) && i <= |suite.gate.guardrails|
    ensures var v := VerdictOf(suite, b, c);
            && |v.checks| == |suite.gate.guardrails| + 1
            && v.checks[i].metric == (if i == 0 then suite.gate.primary else suite.gate.guardrails[i - 1].metric)
            && v.checks[i].baseline == b.scores[v.checks[i].metric]
            && v.checks[i].candidate == c.scores[v.checks[i].metric]
            && (v.checks[i].passed <==>
                  if i == 0 then b.scores[suite.gate.primary] - c.scores[suite.gate.primary] <= suite.gate.maxRegression
                  else GuardHolds(suite.gate.guardrails[i - 1], v.checks[i].baseline, v.checks[i].candidate))
  {
    if i > 0 {
      assert VerdictOf(suite, b, c).checks[i] == GuardCheck(suite.gate.guardrails[i - 1], b.scores, c.scores);
    }
  }

  // ----- from the cases to a rejection -----

  /** Every case of `c` that has the metric scores above what `f` makes of the baseline's score there. */
  predicate AlwaysAbove(b: seq<CaseResult>, f: real -> real, c: seq<CaseResult>, metric: string)
    requires SameShape(b, c)
  {
    forall i :: 0 <= i < |b| && metric in b[i].scores ==> f(b[i].scores[metric]) < c[i].scores[metric]
  }

  lemma {:induction false} ColumnFront(cases: seq<CaseResult>, metric: string)
    requires cases != []
    ensures var n := |cases| - 1;
            Column(cases, metric) == Column(cases[..n], metric) +
              if metric in cases[n].scores then [cases[n].scores[metric]] else []
  {
  }

  lemma {:induction false} ColumnBelow(b: seq<CaseResult>, f: real -> real, c: seq<CaseResult>, metric: string)
    requires SameShape(b, c) && AlwaysAbove(b, f, c, metric)
    ensures Under(Column(b, metric), f, Column(c, metric))
  {
    if b != [] {
      var n := |b| - 1;
      assert b[n].scores.Keys == c[n].scores.Keys;
      assert SameShape(b[..n], c[..n]) && AlwaysAbove(b[..n], f, c[..n], metric);
      ColumnBelow(b[..n], f, c[..n], metric);
      ColumnFront(b, metric);
      ColumnFront(c, metric);
    }
  }

  lemma {:induction false} ScoreOfColumn(metrics: Metrics, cases: seq<CaseResult>, metric: string)
    requires Supports(metrics) && metric in Scores(metrics, cases)
    ensures metric in metrics && Column(cases, metric) != []
    ensures Scores(metrics, cases)[metric] == Aggregate(Column(cases, metric), metrics[metric]).value
  {
  }

  lemma {:induction false} ScoresBelow(metrics: Metrics, b: seq<CaseResult>, q: real, d: real, c: seq<CaseResult>,
                                       metric: string)
    requires Supports(metrics) && SameShape(b, c) && AlwaysAbove(b, Line(q, d), c, metric)
    requires metric in Scores(metrics, b) && metric in Scores(metrics, c)
    requires q >= 0.0 && (metrics[metric].Sum? ==> d >= 0.0)
    ensures Line(q, d)(Scores(metrics, b)[metric]) < Scores(metrics, c)[metric]
  {
    ColumnBelow(b, Line(q, d), c, metric);
    ScoreOfColumn(metrics, b, metric);
    ScoreOfColumn(metrics, c, metric);
    AggregateBelow(Column(b, metric), q, d, Column(c, metric), metrics[metric]);
  }

  lemma {:induction false} ColumnUnder(c: seq<CaseResult>, metric: string, limit: real)
    requires forall i :: 0 <= i < |c| && metric in c[i].scores ==> c[i].scores[metric] < limit
    ensures forall i :: 0 <= i < |Column(c, metric)| ==> Column(c, metric)[i] < limit
  {
    if c != [] {
      ColumnUnder(c[..|c| - 1], metric, limit);
    }
  }

  /** In every case that has the metric, the candidate breaks the guardrail; a limit on a sum must be one that
      more cases cannot bring back. */
  predicate Worse(g: Guardrail, how: Aggregation, b: seq<CaseResult>, c: seq<CaseResult>)
    requires SameShape(b, c)
  {
    match g.comparison
    case NotIncrease => AlwaysAbove(b, Line(1.0, 0.0), c, g.metric)
    case MaxRatio => Limit(g, 1.0) >= 0.0 && AlwaysAbove(b, Line(Limit(g, 1.0), 0.0), c, g.metric)
    case MaxAbsolute => (how.Sum? ==> Limit(g, 0.0) >= 0.0) && AlwaysAbove(b, Line(0.0, Limit(g, 0.0)), c, g.metric)
    case MinAbsolute =>
      (how.Sum? ==> Limit(g, 0.0) <= 0.0) &&
      forall i :: 0 <= i < |c| && g.metric in c[i].scores ==> c[i].scores[g.metric] < Limit(g, 0.0)
    case OtherComparison(_) => false
  }

  lemma {:induction false} WorseFails(metrics: Metrics, g: Guardrail, b: seq<CaseResult>, c: seq<CaseResult>)
    requires Supports(metrics) && SameShape(b, c)
    requires g.metric in Scores(metrics, b) && g.metric in Scores(metrics, c)
    requires Worse(g, metrics[g.metric], b, c)
    ensures !GuardPasses(g, Scores(metrics, b)[g.metric], Scores(metrics, c)[g.metric])
  {
    match g.comparison {
      case NotIncrease => ScoresBelow(metrics, b, 1.0, 0.0, c, g.metric);
      case MaxRatio => ScoresBelow(metrics, b, Limit(g, 1.0), 0.0, c, g.metric);
      case MaxAbsolute => ScoresBelow(metrics, b, 0.0, Limit(g, 0.0), c, g.metric);
      case MinAbsolute =>
        ColumnUnder(c, g.metric, Limit(g, 0.0));
        AggregateUnder(Column(c, g.metric), Limit(g, 0.0), metrics[g.metric]);
    }
  }

  /** The strict dual of monotonicity: a candidate that breaks one guardrail in every case that has its metric,
      or falls below the primary by more than the allowance in every case, is rejected, whatever the aggregation
      of that metric. */
  lemma {:induction false} WorseIsRejected(suite: Suite, metrics: Metrics, b: seq<CaseResult>, c: seq<CaseResult>,
                                           baseline: Subject, candidate: Subject)
    requires Supports(metrics) && SameShape(b, c) && SameShape(c, b)
    requires baseline.scores == Scores(metrics, b) && candidate.scores == Scores(metrics, c)
    requires Comparable(suite, baseline, candidate)
    requires (suite.gate.maxRegression >= 0.0
              && AlwaysAbove(c, Line(1.0, suite.gate.maxRegression), b, suite.gate.primary)) ||
             exists i :: 0 <= i < |suite.gate.guardrails| &&
               Worse(suite.gate.guardrails[i], metrics[suite.gate.guardrails[i].metric], b, c)
    ensures !Passes(suite, baseline, candidate) && !VerdictOf(suite, baseline, candidate).passed
  {
    if i :| 0 <= i < |suite.gate.guardrails| &&
            Worse(suite.gate.guardrails[i], metrics[suite.gate.guardrails[i].metric], b, c)
    {
      WorseFails(metrics, suite.gate.guardrails[i], b, c);
    } else {
      ScoresBelow(metrics, c, 1.0, suite.gate.maxRegression, b, suite.gate.primary);
    }
  }

  /** One guarded count of violations: a rise from none to seven is rejected, none against none passes. */
  lemma {:induction false} RiseIsRejected(primary: real)
    ensures var suite := Suite("smoke", Gate("p", 0.0, [Guardrail("v", NotIncrease, None)]));
            var baseline := Subject("smoke", "1", map["p" := primary, "v" := 0.0]);
            var candidate := Subject("smoke", "1", map["p" := primary, "v" := 7.0]);
            && Comparable(suite, baseline, candidate) && !VerdictOf(suite, baseline, candidate).passed
            && Comparable(suite, baseline, baseline) && VerdictOf(suite, baseline, baseline).passed
  {
    var guard := Guardrail("v", NotIncrease, None);
    var suite := Suite("smoke", Gate("p", 0.0, [guard]));
    var baseline := Subject("smoke", "1", map["p" := primary, "v" := 0.0]);
    var candidate := Subject("smoke", "1", map["p" := primary, "v" := 7.0]);
    assert suite.gate.guardrails[0] == guard;
    VerdictMeans(suite, baseline, candidate);
    VerdictMeans(suite, baseline, baseline);
    assert !GuardHolds(guard, 0.0, 7.0) && GuardHolds(guard, 0.0, 0.0);
  }
}
