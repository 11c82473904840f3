/** The regression gate (evals/gate.py): a candidate run against a baseline run. */
module RegressionGate {
  import opened Schemas
  import opened EvalRunner

  datatype Comparison = NotIncrease | MaxRatio | MaxAbsolute | MinAbsolute | OtherComparison(name: string)

  datatype Guardrail = Guardrail(metric: string, comparison: Comparison, value: Option<real>)

  datatype Gate = Gate(primary: string, maxRegression: real, guardrails: seq<Guardrail>)

  datatype Suite = Suite(name: string, gate: Gate)

  /** A run as the gate reads it. */
  datatype Subject = Subject(suite: string, version: string, scores: map<string, real>)

  datatype Check = Check(metric: string, baseline: real, candidate: real, passed: bool)

  datatype Verdict = Verdict(checks: seq<Check>, passed: bool)

  function ValueOr(v: Option<real>, default: real): real {
    if v.Some? then v.value else default
  }

  function GuardPasses(g: Guardrail, baseline: real, candidate: real): bool {
    match g.comparison
    case NotIncrease => candidate <= baseline
    case MaxRatio => if baseline == 0.0 then candidate == 0.0 else candidate <= baseline * ValueOr(g.value, 1.0)
    case MaxAbsolute => candidate <= ValueOr(g.value, 0.0)
    case MinAbsolute => candidate >= ValueOr(g.value, 0.0)
    case OtherComparison(_) => false
  }

  /** A guardrail the gate can evaluate: a named metric scored in both runs, a known comparison. */
  predicate Evaluable(g: Guardrail, b: map<string, real>, c: map<string, real>) {
    g.metric != "" && g.metric in b && g.metric in c && !g.comparison.OtherComparison?
  }

  predicate Comparable(suite: Suite, baseline: Subject, candidate: Subject) {
    && baseline.suite == candidate.suite == suite.name
    && baseline.version == candidate.version
    && suite.gate.primary in baseline.scores && suite.gate.primary in candidate.scores
    && forall i :: 0 <= i < |suite.gate.guardrails| ==>
         Evaluable(suite.gate.guardrails[i], baseline.scores, candidate.scores)
  }

  predicate PrimaryPasses(gate: Gate, baseline: real, candidate: real) {
    candidate >= baseline - gate.maxRegression
  }

  /** Every check of the gate holds. */
  predicate Passes(suite: Suite, baseline: Subject, candidate: Subject)
    requires Comparable(suite, baseline, candidate)
  {
    var gate, b, c := suite.gate, baseline.scores, candidate.scores;
    && PrimaryPasses(gate, b[gate.primary], c[gate.primary])
    && forall i :: 0 <= i < |gate.guardrails| ==>
         GuardPasses(gate.guardrails[i], b[gate.guardrails[i].metric], c[gate.guardrails[i].metric])
  }

  function GuardCheck(g: Guardrail, b: map<string, real>, c: map<string, real>): Check
    requires Evaluable(g, b, c)
  {
    Check(g.metric, b[g.metric], c[g.metric], GuardPasses(g, b[g.metric], c[g.metric]))
  }

  /** What the gate reports: the primary check, then one check for each guardrail, in order. */
  function VerdictOf(suite: Suite, baseline: Subject, candidate: Subject): Verdict
    requires Comparable(suite, baseline, candidate)
  {
    var gate, b, c := suite.gate, baseline.scores, candidate.scores;
    Verdict([Check(gate.primary, b[gate.primary], c[gate.primary],
                   PrimaryPasses(gate, b[gate.primary], c[gate.primary]))]
            + seq(|gate.guardrails|, i requires 0 <= i < |gate.guardrails| => GuardCheck(gate.guardrails[i], b, c)),
            Passes(suite, baseline, candidate))
  }

  lemma {:induction false} VerdictByChecks(suite: Suite, baseline: Subject, candidate: Subject)
    requires Comparable(suite, baseline, candidate)
    ensures var v := VerdictOf(suite, baseline, candidate);
            v.passed <==> forall i :: 0 <= i < |v.checks| ==> v.checks[i].passed
  {
    var v, guards := VerdictOf(suite, baseline, candidate), suite.gate.guardrails;
    assert v.checks[0].passed ==
           PrimaryPasses(suite.gate, baseline.scores[suite.gate.primary], candidate.scores[suite.gate.primary]);
    forall i | 0 <= i < |guards|
      ensures v.checks[i + 1] == GuardCheck(guards[i], baseline.scores, candidate.scores)
    {
    }
    if v.passed {
      forall i | 0 <= i < |v.checks|
        ensures v.checks[i].passed
      {
        assert i > 0 ==> v.checks[i] == GuardCheck(guards[i - 1], baseline.scores, candidate.scores);
      }
    }
  }

  method CompareRuns(suite: Suite, baseline: Subject, candidate: Subject) returns (r: Option<Verdict>)
    ensures r.Some? <==> Comparable(suite, baseline, candidate)
    ensures r.Some? ==> r.value == VerdictOf(suite, baseline, candidate)
    ensures r.Some? ==> r.value.passed == Passes(suite, baseline, candidate)
    ensures r.Some? ==> (r.value.passed <==> forall i :: 0 <= i < |r.value.checks| ==> r.value.checks[i].passed)
  {
    if !(baseline.suite == candidate.suite == suite.name) || baseline.version != candidate.version {
      return None;
    }
    var gate := suite.gate;
    if gate.primary !in baseline.scores || gate.primary !in candidate.scores {
      return None;
    }
    var b, c := baseline.scores[gate.primary], candidate.scores[gate.primary];
    var primaryPassed := c >= b - gate.maxRegression;
    var guards: seq<Check> := [];
    for i := 0 to |gate.guardrails|
      invariant |guards| == i
      invariant forall j :: 0 <= j < i ==>
                  Evaluable(gate.guardrails[j], baseline.scores, candidate.scores)
                  && guards[j] == GuardCheck(gate.guardrails[j], baseline.scores, candidate.scores)
    {
      var check := EvaluateGuard(gate.guardrails[i], baseline.scores, candidate.scores);
      if check.None? {
        return None;
      }
      guards := guards + [check.value];
    }
    var passed := primaryPassed && forall i :: 0 <= i < |guards| ==> guards[i].passed;
    assert guards == seq(|gate.guardrails|, i requires 0 <= i < |gate.guardrails| =>
                           GuardCheck(gate.guardrails[i], baseline.scores, candidate.scores));
    VerdictByChecks(suite, baseline, candidate);
    r := Some(Verdict([Check(gate.primary, b, c, primaryPassed)] + guards, passed));
  }

  method EvaluateGuard(g: Guardrail, baseline: map<string, real>,
                       candidate: map<string, real>) returns (r: Option<Check>)
    ensures r.Some? <==> Evaluable(g, baseline, candidate)
    ensures r.Some? ==> r.value == GuardCheck(g, baseline, candidate)
  {
    if g.metric == "" || g.metric !in baseline || g.metric !in candidate {
      return None;
    }
    var baselineValue, candidateValue := baseline[g.metric], candidate[g.metric];
    var passed: bool;
    match g.comparison {
      case NotIncrease => passed := candidateValue <= baselineValue;
      case MaxRatio =>
        if baselineValue == 0.0 {
          passed := candidateValue == 0.0;
        } else {
          passed := candidateValue <= baselineValue * ValueOr(g.value, 1.0);
        }
      case MaxAbsolute => passed := candidateValue <= ValueOr(g.value, 0.0);
      case MinAbsolute => passed := candidateValue >= ValueOr(g.value, 0.0);
      case OtherComparison(_) => return None;
    }
    r := Some(Check(g.metric, baselineValue, candidateValue, passed));
  }

  // ----- the verdict is monotone in every case's scores -----

  /** On this guardrail the candidate is, case by case, no worse than the baseline, and the guardrail is one
      that the baseline itself would meet. */
  predicate NoWorse(g: Guardrail, b: seq<CaseResult>, c: seq<CaseResult>, baselineScore: real)
    requires SameShape(b, c) && SameShape(c, b)
  {
    match g.comparison
    case NotIncrease => NeverAbove(c, b, g.metric)
    case MaxRatio => NeverAbove(c, b, g.metric) && NeverNegative(c, g.metric) && ValueOr(g.value, 1.0) >= 1.0
    case MaxAbsolute => NeverAbove(c, b, g.metric) && baselineScore <= ValueOr(g.value, 0.0)
    case MinAbsolute => NeverAbove(b, c, g.metric) && baselineScore >= ValueOr(g.value, 0.0)
    case OtherComparison(_) => false
  }

  lemma {:induction false} RatioKeeps(b: real, ratio: real)
    requires b >= 0.0 && ratio >= 1.0
    ensures b <= b * ratio
  {
    assert b * ratio == b + b * (ratio - 1.0);
  }

  lemma {:induction false} GuardMonotone(metrics: Metrics, g: Guardrail, b: seq<CaseResult>, c: seq<CaseResult>)
    requires Supports(metrics) && SameShape(b, c) && SameShape(c, b)
    requires g.metric in Scores(metrics, b) && g.metric in Scores(metrics, c)
    requires NoWorse(g, b, c, Scores(metrics, b)[g.metric])
    ensures GuardPasses(g, Scores(metrics, b)[g.metric], Scores(metrics, c)[g.metric])
  {
    match g.comparison {
      case NotIncrease => ScoresMonotone(metrics, c, b, g.metric);
      case MaxRatio =>
        ScoresMonotone(metrics, c, b, g.metric);
        ScoresNonNegative(metrics, c, g.metric);
        RatioKeeps(Scores(metrics, b)[g.metric], ValueOr(g.value, 1.0));
      case MaxAbsolute => ScoresMonotone(metrics, c, b, g.metric);
      case MinAbsolute => ScoresMonotone(metrics, b, c, g.metric);
    }
  }

  /** From per-case scores to the verdict: a candidate that is no worse in any case passes the gate,
      whatever the aggregation of each metric. */
  lemma {:induction false} GateMonotone(suite: Suite, metrics: Metrics, b: seq<CaseResult>, c: seq<CaseResult>,
                                        baseline: Subject, candidate: Subject)
    requires Supports(metrics) && SameShape(b, c) && SameShape(c, b)
    requires baseline.scores == Scores(metrics, b) && candidate.scores == Scores(metrics, c)
    requires Comparable(suite, baseline, candidate)
    requires suite.gate.maxRegression >= 0.0 && NeverAbove(b, c, suite.gate.primary)
    requires forall i :: 0 <= i < |suite.gate.guardrails| ==>
               NoWorse(suite.gate.guardrails[i], b, c, baseline.scores[suite.gate.guardrails[i].metric])
    ensures Passes(suite, baseline, candidate)
  {
    ScoresMonotone(metrics, b, c, suite.gate.primary);
    forall i | 0 <= i < |suite.gate.guardrails|
      ensures var g := suite.gate.guardrails[i];
              GuardPasses(g, baseline.scores[g.metric], candidate.scores[g.metric])
    {
      GuardMonotone(metrics, suite.gate.guardrails[i], b, c);
    }
  }

  /** A run compared with itself: it passes exactly when no regression is demanded, the absolute limits
      hold, and every ratio is at least one for a positive score and at most one for a negative score.  A
      ratio above one therefore rejects an unchanged negative score. */
  lemma {:induction false} SelfComparison(suite: Suite, run: Subject)
    requires Comparable(suite, run, run)
    ensures Passes(suite, run, run) <==>
            && suite.gate.maxRegression >= 0.0
            && forall i :: 0 <= i < |suite.gate.guardrails| ==>
                 var g := suite.gate.guardrails[i];
                 var x := run.scores[g.metric];
                 match g.comparison
                 case NotIncrease => true
                 case MaxRatio => (x > 0.0 ==> ValueOr(g.value, 1.0) >= 1.0) &&
                     (x < 0.0 ==> ValueOr(g.value, 1.0) <= 1.0)
                 case MaxAbsolute => x <= ValueOr(g.value, 0.0)
                 case MinAbsolute => x >= ValueOr(g.value, 0.0)
                 case OtherComparison(_) => true
  {
    forall i | 0 <= i < |suite.gate.guardrails|
      ensures var g := suite.gate.guardrails[i];
              var x := run.scores[g.metric];
              g.comparison.MaxRatio? ==>
                (GuardPasses(g, x, x) <==>
                   (x > 0.0 ==> ValueOr(g.value, 1.0) >= 1.0) && (x < 0.0 ==> ValueOr(g.value, 1.0) <= 1.0))
    {
      var g := suite.gate.guardrails[i];
      RatioSelf(run.scores[g.metric], ValueOr(g.value, 1.0));
    }
  }

  /** A run whose only metric is guarded by a ratio of two. */
  function RatioSuite(): Suite {
    Suite("s", Gate("m", 0.0, [Guardrail("m", MaxRatio, Some(2.0))]))
  }

  /** Under a ratio of two an unchanged run passes with a positive score and fails with a negative one. */
  lemma {:induction false} RatioRejectsUnchanged(x: real)
    ensures var run := Subject("s", "1", map["m" := x]);
            && Comparable(RatioSuite(), run, run)
            && (x >= 0.0 ==> Passes(RatioSuite(), run, run))
            && (x < 0.0 ==> !Passes(RatioSuite(), run, run))
  {
    var run := Subject("s", "1", map["m" := x]);
    var g := RatioSuite().gate.guardrails[0];
    assert Evaluable(g, run.scores, run.scores);
    SelfComparison(RatioSuite(), run);
  }

  lemma {:induction false} RatioSelf(x: real, ratio: real)
    ensures x <= x * ratio <==> (x > 0.0 ==> ratio >= 1.0) && (x < 0.0 ==> ratio <= 1.0)
  {
    var d := ratio - 1.0;
    assert x * ratio == x + x * d;
    if x > 0.0 {
      SignWith(x, d);
    } else if x < 0.0 {
      SignWith(-x, d);
      assert (-x) * d == -(x * d);
    }
  }

  lemma {:induction false} SignWith(x: real, d: real)
    requires x > 0.0
    ensures x * d >= 0.0 <==> d >= 0.0
    ensures x * d <= 0.0 <==> d <= 0.0
  {
  }
}
