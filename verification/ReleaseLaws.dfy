/** When the release gate decides and when it releases, in the fields of the manifests, runs and evidence. */
module ReleaseLaws {
  import opened Schemas
  import opened TextLaws
  import opened EvalRunner
  import opened RegressionGate
  import opened GateLaws
  import opened ReleaseGate

  // ----- the runs -----

  /** The run is of this suite at the version, commit and profile that the manifest pins. */
  predicate Pinned(m: Manifest, r: Record, suite: string) {
    && r.subject.suite == suite
    && suite in m.suiteVersions && r.subject.version == m.suiteVersions[suite]
    && r.gitSha == m.gitSha
    && suite in m.profiles && r.candidate.Some?
    && r.candidate.value.name == m.profiles[suite].name && r.candidate.value.version == m.profiles[suite].version
  }

  lemma {:induction false} PinnedExactly(m: Manifest, r: Record, suite: string)
    ensures Identified(m, r, suite) <==> Pinned(m, r, suite)
  {
  }

  /** Every guardrail names a metric that both runs score, and a comparison the gate knows. */
  predicate Guarded(gate: Gate, b: map<string, real>, c: map<string, real>) {
    forall i :: 0 <= i < |gate.guardrails| ==>
      var g := gate.guardrails[i];
      && |g.metric| > 0 && g.metric in b && g.metric in c
      && (g.comparison.NotIncrease? || g.comparison.MaxRatio? || g.comparison.MaxAbsolute? || g.comparison.MinAbsolute?)
  }

  /** The suite was run on both sides as pinned, at one version, and its gate can be evaluated. */
  predicate Ready(s: Submission, name: string) {
    && name in s.pairs
    && Pinned(s.baseline, s.pairs[name].baseline, name) && Pinned(s.candidate, s.pairs[name].candidate, name)
    && s.pairs[name].suite.name == name
    && s.pairs[name].baseline.subject.version == s.pairs[name].candidate.subject.version
    && s.pairs[name].suite.gate.primary in s.pairs[name].baseline.subject.scores
    && s.pairs[name].suite.gate.primary in s.pairs[name].candidate.subject.scores
    && Guarded(s.pairs[name].suite.gate, s.pairs[name].baseline.subject.scores, s.pairs[name].candidate.subject.scores)
  }

  lemma {:induction false} ReadyExactly(s: Submission, name: string)
    ensures SuiteDecidable(s, name) <==> Ready(s, name)
  {
    if name in s.pairs {
      var pair := s.pairs[name];
      PinnedExactly(s.baseline, pair.baseline, name);
      PinnedExactly(s.candidate, pair.candidate, name);
      ComparableMeans(pair.suite, pair.baseline.subject, pair.candidate.subject);
    }
  }

  /** The gate decides if and only if some suite is required, every required one is ready, and, for a release, the
      two manifests are of real production and candidate evidence and the policy asks for a sample. */
  lemma {:induction false} DecidesExactly(policy: Policy, s: Submission)
    ensures Decidable(policy, s) <==>
            && |policy.requiredSuites| > 0
            && (forall i :: 0 <= i < |policy.requiredSuites| ==> Ready(s, policy.requiredSuites[i]))
            && (s.mode == ReleaseMode ==>
                  && s.baseline.source == "production" && s.candidate.source == "candidate"
                  && s.baseline.evidenceMode != "fixture" && s.candidate.evidenceMode != "fixture"
                  && policy.minimumSample > 0)
  {
    forall i | 0 <= i < |policy.requiredSuites|
      ensures SuiteDecidable(s, policy.requiredSuites[i]) <==> Ready(s, policy.requiredSuites[i])
    {
      ReadyExactly(s, policy.requiredSuites[i]);
    }
  }

  // ----- the decision -----

  /** The suite holds: the primary fell by at most what is allowed, every guardrail holds, and no case scores above a
      critical maximum. */
  predicate Holds(s: Submission, limits: seq<ReleaseGate.Limit>, name: string)
    requires Ready(s, name)
  {
    var pair := s.pairs[name];
    var b, c := pair.baseline.subject.scores, pair.candidate.subject.scores;
    && b[pair.suite.gate.primary] - c[pair.suite.gate.primary] <= pair.suite.gate.maxRegression
    && (forall i :: 0 <= i < |pair.suite.gate.guardrails| ==>
          var g := pair.suite.gate.guardrails[i]; GuardHolds(g, b[g.metric], c[g.metric]))
    && forall k, j :: 0 <= k < |pair.candidate.cases| && 0 <= j < |limits| ==>
         StaysBelow(pair.candidate.cases[k], limits[j])
  }

  predicate StaysBelow(c: CaseResult, limit: ReleaseGate.Limit) {
    limit.metric in c.scores ==> c.scores[limit.metric] <= limit.maximum
  }

  lemma {:induction false} CasesStayBelow(cases: seq<CaseResult>, limits: seq<ReleaseGate.Limit>)
    ensures CasesWithinLimits(cases, limits) <==>
            forall k, j :: 0 <= k < |cases| && 0 <= j < |limits| ==> StaysBelow(cases[k], limits[j])
  {
    if CasesWithinLimits(cases, limits) {
      forall k, j | 0 <= k < |cases| && 0 <= j < |limits|
        ensures StaysBelow(cases[k], limits[j])
      {
        assert WithinLimits(cases[k], limits);
      }
    } else {
      var k :| 0 <= k < |cases| && !WithinLimits(cases[k], limits);
      var j :| 0 <= j < |limits| && !StaysBelow(cases[k], limits[j]);
    }
  }

  lemma {:induction false} HoldsExactly(s: Submission, limits: seq<ReleaseGate.Limit>, name: string)
    requires SuiteDecidable(s, name)
    ensures Ready(s, name) && (SuitePasses(s, limits, name) <==> Holds(s, limits, name))
  {
    ReadyExactly(s, name);
    var pair := s.pairs[name];
    VerdictMeans(pair.suite, pair.baseline.subject, pair.candidate.subject);
    CasesStayBelow(pair.candidate.cases, limits);
  }

  /** Evidence that counts: marked as passed and backed by a reference; and where it is statistical, with a sample as
      large as the policy asks for and a named method. */
  predicate Counts(policy: Policy, supplied: map<string, Evidence>, name: string) {
    && name in supplied && supplied[name].status == "PASS"
    && supplied[name].ref.Some? && !AllWhite(supplied[name].ref.value)
    && (name in policy.statistical ==> Sampled(policy, supplied[name].sampleSize, supplied[name].confidenceMethod))
  }

  predicate Sampled(policy: Policy, sampleSize: Option<int>, confidenceMethod: Option<string>) {
    && sampleSize.Some? && sampleSize.value >= policy.minimumSample
    && confidenceMethod.Some? && !AllWhite(confidenceMethod.value)
  }

  lemma {:induction false} BlanklessMeans(s: Option<string>)
    ensures Blankless(s) <==> s.Some? && !AllWhite(s.value)
  {
    if s.Some? {
      StripsToNothing(s.value);
    }
  }

  lemma {:induction false} CountsExactly(policy: Policy, supplied: map<string, Evidence>, name: string)
    ensures Supported(policy, supplied, name) <==> Counts(policy, supplied, name)
  {
    if name in supplied {
      BlanklessMeans(supplied[name].ref);
      BlanklessMeans(supplied[name].confidenceMethod);
    }
  }

  /** A decision releases if and only if every required suite holds and, for a release, all required evidence
      counts. */
  lemma {:induction false} ReleasesExactly(policy: Policy, s: Submission)
    requires Decidable(policy, s)
    ensures forall i :: 0 <= i < |policy.requiredSuites| ==> Ready(s, policy.requiredSuites[i])
    ensures Released(policy, s) <==>
            && (forall i :: 0 <= i < |policy.requiredSuites| ==> Holds(s, policy.limits, policy.requiredSuites[i]))
            && (s.mode == ReleaseMode ==>
                  forall i :: 0 <= i < |policy.requiredEvidence| ==>
                    Counts(policy, s.supplied, policy.requiredEvidence[i]))
  {
    forall i | 0 <= i < |policy.requiredSuites|
      ensures Ready(s, policy.requiredSuites[i])
      ensures SuitePasses(s, policy.limits, policy.requiredSuites[i]) <==>
              Holds(s, policy.limits, policy.requiredSuites[i])
    {
      HoldsExactly(s, policy.limits, policy.requiredSuites[i]);
    }
    forall i | 0 <= i < |policy.requiredEvidence|
      ensures Supported(policy, s.supplied, policy.requiredEvidence[i]) <==>
              Counts(policy, s.supplied, policy.requiredEvidence[i])
    {
      CountsExactly(policy, s.supplied, policy.requiredEvidence[i]);
    }
  }

  // ----- the record -----

  /** The critical checks are exactly those of a case and a limit on a metric it scores, with score and maximum, and
      they pass exactly when the score is not above. */
  lemma {:induction false} CriticalRecords(cases: seq<CaseResult>, limits: seq<ReleaseGate.Limit>, check: CriticalCheck)
    ensures check in ChecksOf(cases, limits) <==> ChecksSome(cases, limits, check)
  {
    if cases != [] {
      var front, last := cases[..|cases| - 1], cases[|cases| - 1];
      CriticalRecords(front, limits, check);
      CaseRecords(last, limits, check);
      SomeStep(front, last, limits, check);
      assert cases == front + [last];
    }
  }

  predicate ChecksSome(cases: seq<CaseResult>, limits: seq<ReleaseGate.Limit>, check: CriticalCheck) {
    exists k :: 0 <= k < |cases| && ChecksCase(cases[k], limits, check)
  }

  lemma {:induction false} SomeStep(front: seq<CaseResult>, last: CaseResult, limits: seq<ReleaseGate.Limit>,
                                    check: CriticalCheck)
    ensures ChecksSome(front + [last], limits, check) <==>
            ChecksSome(front, limits, check) || ChecksCase(last, limits, check)
  {
    var all := front + [last];
    assert all[|front|] == last && forall k :: 0 <= k < |front| ==> all[k] == front[k];
  }

  predicate ChecksCase(c: CaseResult, limits: seq<ReleaseGate.Limit>, check: CriticalCheck) {
    exists j :: 0 <= j < |limits| && ChecksScore(c, limits[j], check)
  }

  predicate ChecksScore(c: CaseResult, limit: ReleaseGate.Limit, check: CriticalCheck) {
    && limit.metric in c.scores && check.caseId == c.id && check.metric == limit.metric
    && check.value == c.scores[limit.metric] && check.maximum == limit.maximum
    && (check.passed <==> check.value <= check.maximum)
  }

  lemma {:induction false} CaseRecords(c: CaseResult, limits: seq<ReleaseGate.Limit>, check: CriticalCheck)
    ensures check in LimitChecks(c, limits) <==> ChecksCase(c, limits, check)
  {
    if limits != [] {
      var n := |limits| - 1;
      CaseRecords(c, limits[..n], check);
      assert check in LimitCheck(c, limits[n]) <==> ChecksScore(c, limits[n], check);
      if j :| 0 <= j < n && ChecksScore(c, limits[..n][j], check) {
        assert ChecksScore(c, limits[j], check);
      }
      if j :| 0 <= j < |limits| && ChecksScore(c, limits[j], check) {
        assert j < n ==> ChecksScore(c, limits[..n][j], check);
      }
    }
  }

  /** The check of one piece of evidence: it passes exactly when the evidence counts, and shows what was looked at. */
  lemma {:induction false} EvidenceRecord(policy: Policy, supplied: map<string, Evidence>, name: string,
                                          check: EvidenceCheck)
    requires ChecksName(policy, supplied, name, check)
    ensures check.name == name && (check.passed <==> Counts(policy, supplied, name))
    ensures check.ref == (if name in supplied then supplied[name].ref else None)
    ensures check.statisticalRequired <==> name in policy.statistical
    ensures name in policy.statistical && name in supplied ==>
              check.sampleSize == supplied[name].sampleSize && check.confidenceMethod == supplied[name].confidenceMethod
    ensures name !in policy.statistical || name !in supplied ==>
              check.sampleSize == None && check.confidenceMethod == None
    ensures check.statisticalPassed <==>
            (name in policy.statistical ==> Sampled(policy, check.sampleSize, check.confidenceMethod))
  {
    CountsExactly(policy, supplied, name);
    BlanklessMeans(check.confidenceMethod);
  }

  /** A decision lists, in a release, the check of each required evidence in order, and otherwise none. */
  lemma {:induction false} EvidenceListed(policy: Policy, s: Submission, checks: seq<EvidenceCheck>)
    ensures SuppliedChecks(policy, s, checks) <==>
            && |checks| == (if s.mode == ReleaseMode then |policy.requiredEvidence| else 0)
            && forall i :: 0 <= i < |checks| ==> ChecksName(policy, s.supplied, policy.requiredEvidence[i], checks[i])
  {
  }

  /** It lists the critical checks of the cases of every required suite's candidate, suite by suite. */
  lemma {:induction false} CriticalListed(s: Submission, limits: seq<ReleaseGate.Limit>, names: seq<string>,
                                          last: string)
    requires (forall i :: 0 <= i < |names| ==> names[i] in s.pairs) && last in s.pairs
    ensures SuiteChecks(s, limits, []) == []
    ensures SuiteChecks(s, limits, names + [last]) ==
            SuiteChecks(s, limits, names) + ChecksOf(s.pairs[last].candidate.cases, limits)
  {
    var all := names + [last];
    assert all[..|names|] == names && all[|names|] == last;
  }

  /** And the verdict of each required suite in order, with a check on the primary and on each guardrail. */
  lemma {:induction false} VerdictsListed(s: Submission, names: seq<string>, i: nat)
    requires (forall k :: 0 <= k < |names| ==> SuiteDecidable(s, names[k])) && i < |names|
    ensures Ready(s, names[i]) && |SuiteVerdicts(s, names)| == |names|
    ensures var pair, v := s.pairs[names[i]], SuiteVerdicts(s, names)[i];
            var b, c := pair.baseline.subject.scores, pair.candidate.subject.scores;
            && |v.checks| == |pair.suite.gate.guardrails| + 1
            && (v.passed <==>
                  && b[pair.suite.gate.primary] - c[pair.suite.gate.primary] <= pair.suite.gate.maxRegression
                  && forall j :: 0 <= j < |pair.suite.gate.guardrails| ==>
                       var g := pair.suite.gate.guardrails[j]; GuardHolds(g, b[g.metric], c[g.metric]))
  {
    ReadyExactly(s, names[i]);
    var pair := s.pairs[names[i]];
    VerdictMeans(pair.suite, pair.baseline.subject, pair.candidate.subject);
  }
}
