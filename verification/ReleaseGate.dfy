/** The release gate (evals/release.py): every required suite is run as the manifests pin it and passes the
    regression gate, every case of the candidate stays within every critical maximum it is scored on, and in
    release mode the supplemental evidence is complete. */
module ReleaseGate {
  import opened Schemas
  import opened Text
  import opened OrderStatistics
  import opened EvalRunner
  import opened RegressionGate

  datatype Limit = Limit(metric: string, maximum: real)

  datatype CriticalCheck = CriticalCheck(caseId: string, metric: string, value: real, maximum: real, passed: bool)

  datatype Profile = Profile(name: string, version: string)

  /** What a release manifest pins for its runs. */
  datatype Manifest = Manifest(
    source: string, evidenceMode: string, gitSha: string, suiteVersions: map<string, string>,
    profiles: map<string, Profile>)

  /** A run as it was recorded. */
  datatype Record = Record(subject: Subject, gitSha: string, candidate: Option<Profile>, cases: seq<CaseResult>)

  datatype SuitePair = SuitePair(suite: Suite, baseline: Record, candidate: Record)

  datatype Evidence = Evidence(status: string, ref: Option<string>, sampleSize: Option<int>,
                               confidenceMethod: Option<string>)

  datatype Mode = ContractMode | ReleaseMode

  datatype Policy = Policy(
    requiredSuites: seq<string>, limits: seq<Limit>, requiredEvidence: seq<string>, statistical: seq<string>,
    minimumSample: int)

  predicate WithinLimits(c: CaseResult, limits: seq<Limit>) {
    forall j :: 0 <= j < |limits| && limits[j].metric in c.scores ==> c.scores[limits[j].metric] <= limits[j].maximum
  }

  predicate CasesWithinLimits(cases: seq<CaseResult>, limits: seq<Limit>) {
    forall i :: 0 <= i < |cases| ==> WithinLimits(cases[i], limits)
  }

  predicate AllPassed(checks: seq<CriticalCheck>) {
    forall i :: 0 <= i < |checks| ==> checks[i].passed
  }

  lemma {:induction false} AllPassedAppend(a: seq<CriticalCheck>, b: seq<CriticalCheck>)
    ensures AllPassed(a + b) <==> AllPassed(a) && AllPassed(b)
  {
    assert forall i :: 0 <= i < |a| ==> (a + b)[i] == a[i];
    assert forall i :: 0 <= i < |b| ==> (a + b)[|a| + i] == b[i];
  }

  function LimitCheck(c: CaseResult, limit: Limit): seq<CriticalCheck> {
    if limit.metric !in c.scores then [] else
    var value := c.scores[limit.metric];
    [CriticalCheck(c.id, limit.metric, value, limit.maximum, value <= limit.maximum)]
  }

  /** The checks of one case: one for each critical metric it is scored on, in the order of the limits. */
  function LimitChecks(c: CaseResult, limits: seq<Limit>): seq<CriticalCheck> {
    if limits == [] then [] else
    LimitChecks(c, limits[..|limits| - 1]) + LimitCheck(c, limits[|limits| - 1])
  }

  function ChecksOf(cases: seq<CaseResult>, limits: seq<Limit>): seq<CriticalCheck> {
    if cases == [] then [] else
    ChecksOf(cases[..|cases| - 1], limits) + LimitChecks(cases[|cases| - 1], limits)
  }

  lemma {:induction false} LimitChecksPass(c: CaseResult, limits: seq<Limit>)
    ensures AllPassed(LimitChecks(c, limits)) <==> WithinLimits(c, limits)
  {
    if limits != [] {
      var front, limit := limits[..|limits| - 1], limits[|limits| - 1];
      assert limits == front + [limit];
      LimitChecksPass(c, front);
      WithinStep(c, front, limit);
      AllPassedAppend(LimitChecks(c, front), LimitCheck(c, limit));
      assert limit.metric in c.scores ==> LimitCheck(c, limit)[0].passed == (c.scores[limit.metric] <= limit.maximum);
    }
  }

  /** Every check passes exactly when every case is within every critical maximum it is scored on. */
  lemma {:induction false} ChecksPass(cases: seq<CaseResult>, limits: seq<Limit>)
    ensures AllPassed(ChecksOf(cases, limits)) <==> CasesWithinLimits(cases, limits)
  {
    if cases != [] {
      var front, last := cases[..|cases| - 1], cases[|cases| - 1];
      assert cases == front + [last];
      ChecksPass(front, limits);
      LimitChecksPass(last, limits);
      AllPassedAppend(ChecksOf(front, limits), LimitChecks(last, limits));
    }
  }

  lemma {:induction false} WithinStep(c: CaseResult, front: seq<Limit>, limit: Limit)
    ensures WithinLimits(c, front + [limit]) <==>
            WithinLimits(c, front) && (limit.metric in c.scores ==> c.scores[limit.metric] <= limit.maximum)
  {
    var all := front + [limit];
    assert all[|front|] == limit;
    assert forall j :: 0 <= j < |front| ==> all[j] == front[j];
  }

  /** One check per case and critical metric the case has. */
  method CriticalCaseChecks(cases: seq<CaseResult>, limits: seq<Limit>) returns (checks: seq<CriticalCheck>)
    ensures checks == ChecksOf(cases, limits)
    ensures AllPassed(checks) <==> CasesWithinLimits(cases, limits)
  {
    checks := [];
    for i := 0 to |cases|
      invariant checks == ChecksOf(cases[..i], limits)
    {
      var more := CaseChecks(cases[i], limits);
      assert cases[..i + 1][..i] == cases[..i];
      checks := checks + more;
    }
    assert cases[..|cases|] == cases;
    ChecksPass(cases, limits);
  }

  method CaseChecks(c: CaseResult, limits: seq<Limit>) returns (checks: seq<CriticalCheck>)
    ensures checks == LimitChecks(c, limits)
  {
    checks := [];
    for j := 0 to |limits|
      invariant checks == LimitChecks(c, limits[..j])
    {
      assert limits[..j + 1][..j] == limits[..j];
      if limits[j].metric !in c.scores {
        continue;
      }
      var value := c.scores[limits[j].metric];
      checks := checks + [CriticalCheck(c.id, limits[j].metric, value, limits[j].maximum, value <= limits[j].maximum)];
    }
    assert limits[..|limits|] == limits;
  }

  // ----- the runs are the pinned ones -----

  predicate Identified(m: Manifest, r: Record, suite: string) {
    && suite in m.suiteVersions && suite in m.profiles
    && r.subject.suite == suite && r.subject.version == m.suiteVersions[suite]
    && r.gitSha == m.gitSha && r.candidate == Some(m.profiles[suite])
  }

  method ValidateRunIdentity(m: Manifest, r: Record, suite: string) returns (ok: bool)
    ensures ok <==> Identified(m, r, suite)
  {
    if suite !in m.suiteVersions {
      return false;
    }
    if r.subject.suite != suite || r.subject.version != m.suiteVersions[suite] || r.gitSha != m.gitSha {
      return false;
    }
    if r.candidate.None? || suite !in m.profiles {
      return false;
    }
    ok := r.candidate.value == m.profiles[suite];
  }

  // ----- supplemental evidence -----

  predicate Blankless(s: Option<string>) {
    s.Some? && Strip(s.value) != ""
  }

  /** The evidence of this name is there, passes and is backed; statistical evidence has a sample and a method. */
  predicate Supported(policy: Policy, supplied: map<string, Evidence>, name: string) {
    && name in supplied && supplied[name].status == "PASS" && Blankless(supplied[name].ref)
    && (name in policy.statistical ==>
          && supplied[name].sampleSize.Some? && supplied[name].sampleSize.value >= policy.minimumSample
          && Blankless(supplied[name].confidenceMethod))
  }

  predicate AllSupported(policy: Policy, supplied: map<string, Evidence>) {
    forall i :: 0 <= i < |policy.requiredEvidence| ==> Supported(policy, supplied, policy.requiredEvidence[i])
  }

  /** What is recorded for one name. */
  datatype EvidenceCheck = EvidenceCheck(
    name: string, passed: bool, ref: Option<string>, statisticalRequired: bool, sampleSize: Option<int>,
    confidenceMethod: Option<string>, statisticalPassed: bool)

  /** The check is of this name, passes exactly when the evidence supports it, and shows the evidence it looked at:
      sample and method only where they are required. */
  predicate ChecksName(policy: Policy, supplied: map<string, Evidence>, name: string, check: EvidenceCheck) {
    var item, statistical := (if name in supplied then Some(supplied[name]) else None), name in policy.statistical;
    && check.name == name && check.passed == Supported(policy, supplied, name)
    && check.ref == (if item.Some? then item.value.ref else None)
    && check.statisticalRequired == statistical
    && check.sampleSize == (if statistical && item.Some? then item.value.sampleSize else None)
    && check.confidenceMethod == (if statistical && item.Some? then item.value.confidenceMethod else None)
    && (check.passed ==> check.statisticalPassed) && (!statistical ==> check.statisticalPassed)
    && (statistical ==> (check.statisticalPassed <==>
                           && check.sampleSize.Some? && check.sampleSize.value >= policy.minimumSample
                           && Blankless(check.confidenceMethod)))
  }

  /** The checks are those of these names, in order. */
  predicate ChecksNames(policy: Policy, supplied: map<string, Evidence>, names: seq<string>,
                        checks: seq<EvidenceCheck>) {
    |checks| == |names| && forall i :: 0 <= i < |names| ==> ChecksName(policy, supplied, names[i], checks[i])
  }

  predicate AllSupplied(checks: seq<EvidenceCheck>) {
    forall i :: 0 <= i < |checks| ==> checks[i].passed
  }

  method SupplementalChecks(policy: Policy, supplied: map<string, Evidence>)
    returns (checks: Option<seq<EvidenceCheck>>)
    ensures checks.Some? <==> policy.minimumSample >= 1
    ensures checks.Some? ==> ChecksNames(policy, supplied, policy.requiredEvidence, checks.value)
    ensures checks.Some? ==> (AllSupplied(checks.value) <==> AllSupported(policy, supplied))
  {
    if policy.minimumSample < 1 {
      return None;
    }
    var done: seq<EvidenceCheck> := [];
    for i := 0 to |policy.requiredEvidence|
      invariant |done| == i
      invariant forall j :: 0 <= j < i ==> ChecksName(policy, supplied, policy.requiredEvidence[j], done[j])
    {
      var check := CheckEvidence(policy, supplied, policy.requiredEvidence[i]);
      done := done + [check];
    }
    checks := Some(done);
  }

  method CheckEvidence(policy: Policy, supplied: map<string, Evidence>, name: string) returns (check: EvidenceCheck)
    ensures ChecksName(policy, supplied, name, check)
  {
    var item: Option<Evidence> := if name in supplied then Some(supplied[name]) else None;
    var passed := item.Some? && item.value.status == "PASS" && Blankless(item.value.ref);
    var statisticalOk := true;
    var sampleSize: Option<int> := None;
    var confidenceMethod: Option<string> := None;
    if name in policy.statistical {
      if item.Some? {
        sampleSize, confidenceMethod := item.value.sampleSize, item.value.confidenceMethod;
      }
      statisticalOk := sampleSize.Some? && sampleSize.value >= policy.minimumSample && Blankless(confidenceMethod);
      passed := passed && statisticalOk;
    }
    check := EvidenceCheck(name, passed, if item.Some? then item.value.ref else None, name in policy.statistical,
                           sampleSize, confidenceMethod, statisticalOk);
  }

  // ----- the verdict -----

  datatype Submission = Submission(
    baseline: Manifest, candidate: Manifest, pairs: map<string, SuitePair>, mode: Mode, supplied: map<string, Evidence>)

  /** In release mode both manifests stand for real evidence. */
  predicate RealEvidence(s: Submission) {
    && s.baseline.source == "production" && s.baseline.evidenceMode != "fixture"
    && s.candidate.source == "candidate" && s.candidate.evidenceMode != "fixture"
  }

  predicate SuiteDecidable(s: Submission, name: string) {
    && name in s.pairs
    && var pair := s.pairs[name];
    && Identified(s.baseline, pair.baseline, name) && Identified(s.candidate, pair.candidate, name)
    && Comparable(pair.suite, pair.baseline.subject, pair.candidate.subject)
  }

  /** The gate can give a verdict at all. */
  predicate Decidable(policy: Policy, s: Submission) {
    && policy.requiredSuites != []
    && (forall i :: 0 <= i < |policy.requiredSuites| ==> SuiteDecidable(s, policy.requiredSuites[i]))
    && (s.mode.ReleaseMode? ==> RealEvidence(s) && policy.minimumSample >= 1)
  }

  predicate SuitePasses(s: Submission, limits: seq<Limit>, name: string)
    requires SuiteDecidable(s, name)
  {
    var pair := s.pairs[name];
    Passes(pair.suite, pair.baseline.subject, pair.candidate.subject) && CasesWithinLimits(pair.candidate.cases, limits)
  }

  predicate Released(policy: Policy, s: Submission)
    requires Decidable(policy, s)
  {
    && (forall i :: 0 <= i < |policy.requiredSuites| ==> SuitePasses(s, policy.limits, policy.requiredSuites[i]))
    && (s.mode.ReleaseMode? ==> AllSupported(policy, s.supplied))
  }

  /** The gate's decision. */
  datatype Decision = Decision(suites: seq<Verdict>, critical: seq<CriticalCheck>, supplemental: seq<EvidenceCheck>,
                               passed: bool)

  function SuiteVerdict(s: Submission, name: string): Verdict
    requires SuiteDecidable(s, name)
  {
    var pair := s.pairs[name];
    VerdictOf(pair.suite, pair.baseline.subject, pair.candidate.subject)
  }

  function SuiteVerdicts(s: Submission, names: seq<string>): seq<Verdict>
    requires forall i :: 0 <= i < |names| ==> SuiteDecidable(s, names[i])
  {
    seq(|names|, i requires 0 <= i < |names| => SuiteVerdict(s, names[i]))
  }

  function SuiteChecks(s: Submission, limits: seq<Limit>, names: seq<string>): seq<CriticalCheck>
    requires forall i :: 0 <= i < |names| ==> names[i] in s.pairs
  {
    if names == [] then [] else
    SuiteChecks(s, limits, names[..|names| - 1]) + ChecksOf(s.pairs[names[|names| - 1]].candidate.cases, limits)
  }

  method EvaluateSuite(s: Submission, name: string) returns (verdict: Option<Verdict>)
    requires name in s.pairs
    ensures verdict.Some? <==> SuiteDecidable(s, name)
    ensures verdict.Some? ==> verdict.value == SuiteVerdict(s, name)
  {
    var pair := s.pairs[name];
    var ok := ValidateRunIdentity(s.baseline, pair.baseline, name);
    if !ok {
      return None;
    }
    ok := ValidateRunIdentity(s.candidate, pair.candidate, name);
    if !ok {
      return None;
    }
    verdict := CompareRuns(pair.suite, pair.baseline.subject, pair.candidate.subject);
  }

  /** What the loop over the required suites has after `i` of them. */
  ghost predicate SoFar(s: Submission, limits: seq<Limit>, names: seq<string>, i: nat, verdicts: seq<Verdict>,
                        critical: seq<CriticalCheck>)
    requires i <= |names| && forall k :: 0 <= k < |names| ==> names[k] in s.pairs
  {
    && (forall k :: 0 <= k < i ==> SuiteDecidable(s, names[k]))
    && verdicts == SuiteVerdicts(s, names[..i]) && critical == SuiteChecks(s, limits, names[..i])
  }

  lemma {:induction false} SoFarStep(s: Submission, limits: seq<Limit>, names: seq<string>, i: nat,
                                     verdicts: seq<Verdict>, critical: seq<CriticalCheck>)
    requires i < |names| && (forall k :: 0 <= k < |names| ==> names[k] in s.pairs) && SuiteDecidable(s, names[i])
    requires SoFar(s, limits, names, i, verdicts, critical)
    ensures SoFar(s, limits, names, i + 1, verdicts + [SuiteVerdict(s, names[i])],
                  critical + ChecksOf(s.pairs[names[i]].candidate.cases, limits))
  {
    assert names[..i + 1] == names[..i] + [names[i]] && names[..i + 1][..i] == names[..i];
    assert SuiteVerdicts(s, names[..i + 1]) == SuiteVerdicts(s, names[..i]) + [SuiteVerdict(s, names[i])];
  }

  /** The loop over the required suites. */
  method EvaluateSuites(names: seq<string>, limits: seq<Limit>, s: Submission)
    returns (suites: Option<seq<Verdict>>, critical: seq<CriticalCheck>)
    requires forall i :: 0 <= i < |names| ==> names[i] in s.pairs
    ensures suites.Some? <==> forall i :: 0 <= i < |names| ==> SuiteDecidable(s, names[i])
    ensures suites.Some? ==> suites.value == SuiteVerdicts(s, names) && critical == SuiteChecks(s, limits, names)
  {
    var verdicts: seq<Verdict> := [];
    critical := [];
    for i := 0 to |names|
      invariant SoFar(s, limits, names, i, verdicts, critical)
    {
      var verdict := EvaluateSuite(s, names[i]);
      if verdict.None? {
        return None, [];
      }
      var more := CriticalCaseChecks(s.pairs[names[i]].candidate.cases, limits);
      SoFarStep(s, limits, names, i, verdicts, critical);
      verdicts, critical := verdicts + [verdict.value], critical + more;
    }
    assert names[..|names|] == names;
    suites := Some(verdicts);
  }

  /** The supplemental checks, in release mode only. */
  method EvaluateSupplemental(policy: Policy, s: Submission) returns (checks: Option<seq<EvidenceCheck>>)
    ensures checks.Some? <==> (s.mode.ReleaseMode? ==> policy.minimumSample >= 1)
    ensures checks.Some? ==> SuppliedChecks(policy, s, checks.value)
    ensures checks.Some? ==> (AllSupplied(checks.value) <==> (s.mode.ReleaseMode? ==> AllSupported(policy, s.supplied)))
  {
    if !s.mode.ReleaseMode? {
      return Some([]);
    }
    checks := SupplementalChecks(policy, s.supplied);
  }

  predicate SuppliedChecks(policy: Policy, s: Submission, checks: seq<EvidenceCheck>) {
    if s.mode.ReleaseMode? then ChecksNames(policy, s.supplied, policy.requiredEvidence, checks) else checks == []
  }

  predicate AllVerdictsPass(verdicts: seq<Verdict>) {
    forall i :: 0 <= i < |verdicts| ==> verdicts[i].passed
  }

  lemma {:induction false} VerdictsPass(s: Submission, names: seq<string>)
    requires forall i :: 0 <= i < |names| ==> SuiteDecidable(s, names[i])
    ensures AllVerdictsPass(SuiteVerdicts(s, names)) <==>
            forall i :: 0 <= i < |names| ==> SuiteVerdict(s, names[i]).passed
  {
    assert forall i :: 0 <= i < |names| ==> SuiteVerdicts(s, names)[i] == SuiteVerdict(s, names[i]);
  }

  lemma {:induction false} SuiteChecksPass(s: Submission, limits: seq<Limit>, names: seq<string>)
    requires forall i :: 0 <= i < |names| ==> names[i] in s.pairs
    ensures AllPassed(SuiteChecks(s, limits, names)) <==>
            forall i :: 0 <= i < |names| ==> CasesWithinLimits(s.pairs[names[i]].candidate.cases, limits)
  {
    if names != [] {
      var front, last := names[..|names| - 1], names[|names| - 1];
      assert names == front + [last];
      SuiteChecksPass(s, limits, front);
      ChecksPass(s.pairs[last].candidate.cases, limits);
      AllPassedAppend(SuiteChecks(s, limits, front), ChecksOf(s.pairs[last].candidate.cases, limits));
    }
  }

  /** Every score of every case of every required suite is within the maximum set for it. */
  predicate EveryScoreWithin(policy: Policy, s: Submission) {
    forall i, k, j :: && 0 <= i < |policy.requiredSuites| && policy.requiredSuites[i] in s.pairs
                      && 0 <= k < |s.pairs[policy.requiredSuites[i]].candidate.cases| && 0 <= j < |policy.limits| ==>
      ScoreWithin(s.pairs[policy.requiredSuites[i]].candidate.cases[k], policy.limits[j])
  }

  predicate ScoreWithin(c: CaseResult, limit: Limit) {
    limit.metric in c.scores ==> c.scores[limit.metric] <= limit.maximum
  }

  /** The suite was run on both sides at one version, at the commits and with the profiles that are pinned. */
  predicate RunAsPinned(s: Submission, suite: string) {
    && suite in s.pairs && suite in s.baseline.suiteVersions && suite in s.candidate.suiteVersions
    && var pair := s.pairs[suite];
    && pair.baseline.subject.version == pair.candidate.subject.version == s.baseline.suiteVersions[suite]
    && s.baseline.suiteVersions[suite] == s.candidate.suiteVersions[suite]
    && pair.baseline.gitSha == s.baseline.gitSha && pair.candidate.gitSha == s.candidate.gitSha
    && suite in s.baseline.profiles && pair.baseline.candidate == Some(s.baseline.profiles[suite])
    && suite in s.candidate.profiles && pair.candidate.candidate == Some(s.candidate.profiles[suite])
  }

  lemma {:induction false} ReleasedMeans(policy: Policy, s: Submission)
    requires Decidable(policy, s) && Released(policy, s)
    ensures EveryScoreWithin(policy, s)
    ensures forall i :: 0 <= i < |policy.requiredSuites| ==> RunAsPinned(s, policy.requiredSuites[i])
  {
    forall i | 0 <= i < |policy.requiredSuites|
      ensures CasesWithinLimits(s.pairs[policy.requiredSuites[i]].candidate.cases, policy.limits)
      ensures RunAsPinned(s, policy.requiredSuites[i])
    {
      assert SuiteDecidable(s, policy.requiredSuites[i]) && SuitePasses(s, policy.limits, policy.requiredSuites[i]);
    }
    forall i, k, j | && 0 <= i < |policy.requiredSuites| && policy.requiredSuites[i] in s.pairs
                     && 0 <= k < |s.pairs[policy.requiredSuites[i]].candidate.cases| && 0 <= j < |policy.limits|
      ensures ScoreWithin(s.pairs[policy.requiredSuites[i]].candidate.cases[k], policy.limits[j])
    {
      assert WithinLimits(s.pairs[policy.requiredSuites[i]].candidate.cases[k], policy.limits);
    }
  }

  lemma {:induction false} ReleasedByChecks(policy: Policy, s: Submission)
    requires Decidable(policy, s)
    ensures Released(policy, s) <==>
            && AllVerdictsPass(SuiteVerdicts(s, policy.requiredSuites))
            && AllPassed(SuiteChecks(s, policy.limits, policy.requiredSuites))
            && (s.mode.ReleaseMode? ==> AllSupported(policy, s.supplied))
  {
    SuiteChecksPass(s, policy.limits, policy.requiredSuites);
    VerdictsPass(s, policy.requiredSuites);
  }

  /** The decision, and what it means when it is positive: one case over one maximum would have stopped it,
      whatever the aggregates; the runs are the pinned ones; and in release mode the evidence is real and complete. */
  method EvaluateRelease(policy: Policy, s: Submission) returns (r: Option<Decision>)
    ensures r.Some? <==> Decidable(policy, s)
    ensures r.Some? ==> r.value.passed == Released(policy, s)
    ensures r.Some? ==> r.value.suites == SuiteVerdicts(s, policy.requiredSuites)
    ensures r.Some? ==> r.value.critical == SuiteChecks(s, policy.limits, policy.requiredSuites)
    ensures r.Some? ==> SuppliedChecks(policy, s, r.value.supplemental)
    ensures r.Some? && r.value.passed ==> EveryScoreWithin(policy, s)
    ensures r.Some? && r.value.passed ==>
              forall i :: 0 <= i < |policy.requiredSuites| ==> RunAsPinned(s, policy.requiredSuites[i])
    ensures r.Some? && r.value.passed && s.mode.ReleaseMode? ==> RealEvidence(s) && AllSupported(policy, s.supplied)
  {
    var names := policy.requiredSuites;
    if names == [] || exists i :: 0 <= i < |names| && names[i] !in s.pairs {
      return None;
    }
    if s.mode.ReleaseMode? && !RealEvidence(s) {
      return None;
    }
    var suites, critical := EvaluateSuites(names, policy.limits, s);
    if suites.None? {
      return None;
    }
    var supplemental := EvaluateSupplemental(policy, s);
    if supplemental.None? {
      return None;
    }
    ReleasedByChecks(policy, s);
    var passed := && (forall i :: 0 <= i < |critical| ==> critical[i].passed)
                  && (forall i :: 0 <= i < |suites.value| ==> suites.value[i].passed)
                  && (forall i :: 0 <= i < |supplemental.value| ==> supplemental.value[i].passed);
    if passed {
      ReleasedMeans(policy, s);
    }
    r := Some(Decision(suites.value, critical, supplemental.value, passed));
  }

  // ----- the verdict cannot be averaged away -----

  /** A release that passed has every aggregated critical score within its maximum, for every aggregation
      that stays within the range of the scores. */
  lemma {:induction false} ReleasedBoundsAggregates(policy: Policy, s: Submission, i: nat, j: nat, metrics: Metrics)
    requires Decidable(policy, s) && Released(policy, s)
    requires i < |policy.requiredSuites| && j < |policy.limits| && Supports(metrics)
    requires var cases := s.pairs[policy.requiredSuites[i]].candidate.cases;
             policy.limits[j].metric in Scores(metrics, cases) && !metrics[policy.limits[j].metric].Sum?
    ensures Scores(metrics, s.pairs[policy.requiredSuites[i]].candidate.cases)[policy.limits[j].metric] <=
            policy.limits[j].maximum
  {
    assert SuitePasses(s, policy.limits, policy.requiredSuites[i]);
    LimitBoundsAggregate(s.pairs[policy.requiredSuites[i]].candidate.cases, policy.limits, j, metrics);
  }

  lemma {:induction false} LimitBoundsAggregate(cases: seq<CaseResult>, limits: seq<Limit>, j: nat, metrics: Metrics)
    requires CasesWithinLimits(cases, limits) && j < |limits| && Supports(metrics)
    requires limits[j].metric in Scores(metrics, cases) && !metrics[limits[j].metric].Sum?
    ensures Scores(metrics, cases)[limits[j].metric] <= limits[j].maximum
  {
    var metric, limit := limits[j].metric, limits[j].maximum;
    forall k | 0 <= k < |cases| && metric in cases[k].scores
      ensures cases[k].scores[metric] <= limit
    {
      assert WithinLimits(cases[k], limits);
    }
    ColumnAtMost(cases, metric, limit);
    AggregateBound(Column(cases, metric), metrics[metric], limit);
  }
}
