/** Running an evaluation suite (evals/runner.py): per-case scores are collected metric by metric and
    aggregated.  Grading itself is an input. */
module EvalRunner {
  import opened Schemas
  import opened Ordering
  import opened OrderStatistics

  datatype Response = Response(cost: real, duration: real, traceIds: seq<string>)

  /** A case with the candidate's response to it, if any, and what grading said. */
  datatype Graded = Graded(id: string, response: Option<Response>, grades: map<string, real>)

  datatype CaseResult = CaseResult(id: string, scores: map<string, real>, traceIds: seq<string>)

  type Metrics = map<string, Aggregation>

  datatype Run = Run(scores: map<string, real>, cases: seq<CaseResult>, traceIds: seq<string>)

  function CaseScores(g: Graded): map<string, real>
    requires g.response.Some?
  {
    g.grades["cost_usd" := g.response.value.cost]["latency_ms" := g.response.value.duration]
  }

  predicate Runnable(metrics: Metrics, g: Graded) {
    g.response.Some? && CaseScores(g).Keys <= metrics.Keys
  }

  function ResultOf(g: Graded): CaseResult
    requires g.response.Some?
  {
    CaseResult(g.id, CaseScores(g), g.response.value.traceIds)
  }

  /** One metric's scores, over the cases that have it, in case order. */
  function Column(cases: seq<CaseResult>, metric: string): seq<real> {
    if cases == [] then []
    else
      var front := Column(cases[..|cases| - 1], metric);
      var last := cases[|cases| - 1].scores;
      if metric in last then front + [last[metric]] else front
  }

  predicate Supports(metrics: Metrics) {
    forall m :: m in metrics ==> !metrics[m].Unsupported?
  }

  function Scores(metrics: Metrics, cases: seq<CaseResult>): map<string, real>
    requires Supports(metrics)
  {
    map m | m in metrics && Column(cases, m) != [] :: Aggregate(Column(cases, m), metrics[m]).value
  }

  /** The trace identifiers of all cases, one case after the other. */
  function Traces(cases: seq<CaseResult>): seq<string> {
    if cases == [] then [] else Traces(cases[..|cases| - 1]) + cases[|cases| - 1].traceIds
  }

  function TraceSet(ids: seq<string>): set<string> {
    set id | id in ids
  }

  /** The trace identifiers of a run are exactly those of its cases, in order and each once. */
  lemma {:induction false} TracesAreOfCases(cases: seq<CaseResult>, id: string)
    ensures id in SortedSet(TraceSet(Traces(cases))) <==> exists i :: 0 <= i < |cases| && id in cases[i].traceIds
  {
    TracesMember(cases, id);
  }

  lemma {:induction false} TracesMember(cases: seq<CaseResult>, id: string)
    ensures id in Traces(cases) <==> exists i :: 0 <= i < |cases| && id in cases[i].traceIds
  {
    if cases != [] {
      var front, last := cases[..|cases| - 1], cases[|cases| - 1];
      assert cases == front + [last];
      TracesMember(front, id);
      if i :| 0 <= i < |front| && id in front[i].traceIds {
        assert id in cases[i].traceIds;
      }
      if i :| 0 <= i < |cases| && id in cases[i].traceIds {
        assert i < |front| ==> id in front[i].traceIds;
      }
    }
  }

  /** A run needs a response to every case and no undeclared metric. */
  function RunOf(metrics: Metrics, cases: seq<Graded>): Option<Run>
    requires Supports(metrics)
  {
    if forall i :: 0 <= i < |cases| ==> Runnable(metrics, cases[i]) then
      var results := seq(|cases|, i requires 0 <= i < |cases| => ResultOf(cases[i]));
      Some(Run(Scores(metrics, results), results, SortedSet(TraceSet(Traces(results)))))
    else
      None
  }

  type Columns = map<string, seq<real>>

  predicate Collected(metrics: Metrics, values: Columns, cases: seq<CaseResult>) {
    values.Keys == metrics.Keys && forall m :: m in metrics ==> values[m] == Column(cases, m)
  }

  method RunSuite(metrics: Metrics, cases: seq<Graded>) returns (r: Option<Run>)
    requires Supports(metrics)
    ensures r == RunOf(metrics, cases)
  {
    var values: Columns := map m | m in metrics :: [];
    var results: seq<CaseResult> := [];
    var traceIds: seq<string> := [];
    for i := 0 to |cases|
      invariant |results| == i && traceIds == Traces(results)
      invariant forall j :: 0 <= j < i ==> Runnable(metrics, cases[j]) && results[j] == ResultOf(cases[j])
      invariant Collected(metrics, values, results)
    {
      if cases[i].response.None? {
        return None;
      }
      var scores := CaseScores(cases[i]);
      var ok;
      ok, values := AppendScores(metrics, values, results, ResultOf(cases[i]));
      if !ok {
        return None;
      }
      traceIds := traceIds + cases[i].response.value.traceIds;
      TracesStep(results, ResultOf(cases[i]));
      results := results + [ResultOf(cases[i])];
    }
    var aggregated := Aggregated(metrics, values, results);
    assert results == seq(|cases|, i requires 0 <= i < |cases| => ResultOf(cases[i]));
    r := Some(Run(aggregated, results, SortedSet(TraceSet(traceIds))));
  }

  lemma {:induction false} TracesStep(cases: seq<CaseResult>, result: CaseResult)
    ensures Traces(cases + [result]) == Traces(cases) + result.traceIds
  {
    assert (cases + [result])[..|cases|] == cases;
  }

  /** The inner loop: one case's scores go to the end of their metrics' lists. */
  method AppendScores(metrics: Metrics, before: Columns, cases: seq<CaseResult>, result: CaseResult)
    returns (ok: bool, values: Columns)
    requires Collected(metrics, before, cases)
    ensures ok <==> result.scores.Keys <= metrics.Keys
    ensures ok ==> Collected(metrics, values, cases + [result])
  {
    values := before;
    var left := result.scores.Keys;
    while left != {}
      invariant left <= result.scores.Keys
      invariant result.scores.Keys - left <= metrics.Keys
      invariant values.Keys == metrics.Keys
      invariant forall m :: m in metrics ==>
                  values[m] == if m in result.scores && m !in left then Column(cases, m) + [result.scores[m]]
                               else Column(cases, m)
    {
      var metric :| metric in left;
      if metric !in metrics {
        return false, values;
      }
      values := values[metric := values[metric] + [result.scores[metric]]];
      left := left - {metric};
    }
    ColumnStep(cases, result);
    ok := true;
  }

  lemma {:induction false} ColumnStep(cases: seq<CaseResult>, result: CaseResult)
    ensures forall m :: Column(cases + [result], m)
              == if m in result.scores then Column(cases, m) + [result.scores[m]] else Column(cases, m)
  {
    assert (cases + [result])[..|cases|] == cases;
  }

  method Aggregated(metrics: Metrics, values: Columns, cases: seq<CaseResult>) returns (scores: map<string, real>)
    requires Supports(metrics) && Collected(metrics, values, cases)
    ensures scores == Scores(metrics, cases)
  {
    scores := map m | m in values && values[m] != [] :: AggregateOf(values[m], metrics[m]);
  }

  function AggregateOf(values: seq<real>, how: Aggregation): real
    requires values != [] && !how.Unsupported?
  {
    Aggregate(values, how).value
  }

  // ----- comparing two runs case by case -----

  /** Two runs of the same cases: the same metrics are scored in the same places. */
  predicate SameShape(a: seq<CaseResult>, b: seq<CaseResult>) {
    |a| == |b| && forall i :: 0 <= i < |a| ==> a[i].scores.Keys == b[i].scores.Keys
  }

  /** No case of `a` scores above the same case of `b`. */
  predicate NeverAbove(a: seq<CaseResult>, b: seq<CaseResult>, metric: string)
    requires SameShape(a, b)
  {
    forall i :: 0 <= i < |a| && metric in a[i].scores ==> a[i].scores[metric] <= b[i].scores[metric]
  }

  predicate NeverNegative(a: seq<CaseResult>, metric: string) {
    forall i :: 0 <= i < |a| && metric in a[i].scores ==> a[i].scores[metric] >= 0.0
  }

  lemma {:induction false} ColumnPointwise(a: seq<CaseResult>, b: seq<CaseResult>, metric: string)
    requires SameShape(a, b) && NeverAbove(a, b, metric)
    ensures Pointwise(Column(a, metric), Column(b, metric))
  {
    if a != [] {
      var n := |a| - 1;
      assert a[n].scores.Keys == b[n].scores.Keys;
      ColumnPointwise(a[..n], b[..n], metric);
    }
  }

  lemma {:induction false} ColumnBounded(a: seq<CaseResult>, metric: string, low: real, high: real)
    requires forall i :: 0 <= i < |a| && metric in a[i].scores ==> low <= a[i].scores[metric] <= high
    ensures forall i :: 0 <= i < |Column(a, metric)| ==> low <= Column(a, metric)[i] <= high
  {
    if a != [] {
      ColumnBounded(a[..|a| - 1], metric, low, high);
    }
  }

  lemma {:induction false} ColumnNonNegative(a: seq<CaseResult>, metric: string)
    requires NeverNegative(a, metric)
    ensures forall i :: 0 <= i < |Column(a, metric)| ==> Column(a, metric)[i] >= 0.0
  {
    if a != [] {
      ColumnNonNegative(a[..|a| - 1], metric);
    }
  }

  lemma {:induction false} ColumnAtMost(a: seq<CaseResult>, metric: string, limit: real)
    requires forall i :: 0 <= i < |a| && metric in a[i].scores ==> a[i].scores[metric] <= limit
    ensures forall i :: 0 <= i < |Column(a, metric)| ==> Column(a, metric)[i] <= limit
  {
    if a != [] {
      ColumnAtMost(a[..|a| - 1], metric, limit);
    }
  }

  /** Case-by-case improvement carries over to every aggregated score. */
  lemma {:induction false} ScoresMonotone(metrics: Metrics, a: seq<CaseResult>, b: seq<CaseResult>, metric: string)
    requires Supports(metrics) && SameShape(a, b) && NeverAbove(a, b, metric)
    ensures metric in Scores(metrics, a) <==> metric in Scores(metrics, b)
    ensures metric in Scores(metrics, a) ==> Scores(metrics, a)[metric] <= Scores(metrics, b)[metric]
  {
    ColumnPointwise(a, b, metric);
    if metric in Scores(metrics, a) {
      AggregateMonotone(Column(a, metric), Column(b, metric), metrics[metric]);
    }
  }

  lemma {:induction false} ScoresNonNegative(metrics: Metrics, a: seq<CaseResult>, metric: string)
    requires Supports(metrics) && NeverNegative(a, metric)
    ensures metric in Scores(metrics, a) ==> Scores(metrics, a)[metric] >= 0.0
  {
    ColumnNonNegative(a, metric);
    if metric in Scores(metrics, a) {
      AggregateNonNegative(Column(a, metric), metrics[metric]);
    }
  }
}
