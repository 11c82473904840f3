/** What it means, in the fields of the files, that a package is assembled and that it is accepted. */
module AcceptanceMeaning {
  import opened Schemas
  import opened Text
  import opened FrozenFiles
  import opened Authorization
  import opened AcceptanceFiles
  import opened AcceptanceGate
  import A = AcceptanceAssembler
  import AcceptanceAgreement

  // ----- frozen files -----

  /** The named file is there and has the recorded digest. */
  predicate OnRecord(files: Store, digest: Doc -> string, ref: Ref) {
    ref.path in files && |ref.sha256| == 64 && digest(files[ref.path]) == Lower(ref.sha256)
    && LowerHex(Lower(ref.sha256))
  }

  predicate EvidencePlace(path: string) {
    || Under(path, "reports") || Under(path, "docs") || Under(path, "evals") || Under(path, "staging")
    || Under(path, "production")
  }

  /** At least one reference, each to a file that is there, in a place for evidence and as recorded. */
  predicate Evidenced(files: Store, digest: Doc -> string, refs: Option<seq<Ref>>) {
    refs.Some? && |refs.value| > 0 && AllEvidence(files, digest, refs.value)
  }

  predicate AllEvidence(files: Store, digest: Doc -> string, refs: seq<Ref>) {
    forall i :: 0 <= i < |refs| ==>
      Present(refs[i].path) && EvidencePlace(refs[i].path) && OnRecord(files, digest, refs[i])
  }

  /** Text is under a root when it is the root or continues it after a slash. */
  lemma {:induction false} UnderMeans(path: string, root: string)
    ensures Under(path, root) <==> path == root || exists rest: string :: path == root + "/" + rest
  {
    if StartsWith(path, root + "/") {
      var rest := path[|root| + 1..];
      assert path == root + "/" + rest;
    }
    if rest: string :| path == root + "/" + rest {
      assert path[..|root| + 1] == root + "/";
    }
  }

  lemma {:induction false} RecordMeans(files: Store, digest: Doc -> string, ref: Ref, roots: set<string>)
    ensures RefHolds(files, digest, ref, roots) <==>
            Present(ref.path) && OnRecord(files, digest, ref) && exists root :: root in roots && Under(ref.path, root)
  {
  }

  lemma {:induction false} EvidencePlaces(path: string)
    ensures UnderAny(path, EVIDENCE_ROOTS) <==> EvidencePlace(path)
  {
    assert "reports" in EVIDENCE_ROOTS && "docs" in EVIDENCE_ROOTS && "evals" in EVIDENCE_ROOTS;
    assert "staging" in EVIDENCE_ROOTS && "production" in EVIDENCE_ROOTS;
  }

  lemma {:induction false} RefsMean(files: Store, digest: Doc -> string, refs: seq<Ref>)
    ensures AllRefsHold(files, digest, refs) <==> AllEvidence(files, digest, refs)
  {
    forall i | 0 <= i < |refs|
      ensures RefHolds(files, digest, refs[i], EVIDENCE_ROOTS) <==>
              Present(refs[i].path) && EvidencePlace(refs[i].path) && OnRecord(files, digest, refs[i])
    {
      EvidencePlaces(refs[i].path);
    }
  }

  // ----- an upstream decision -----

  /** The frozen decision of a gate: passed, with an identifier and evidence, and of the release's candidate when
      the gate is one of the five that name one. */
  predicate Decided(files: Store, digest: Doc -> string, release: Release, name: string) {
    && name in release.upstream
    && var ref := release.upstream[name];
    && Present(ref.path) && Under(ref.path, "reports") && OnRecord(files, digest, ref)
    && files[ref.path].DecisionDoc?
    && var d := files[ref.path].decision;
    && d.passed
    && d.decisionId.Some? && Present(d.decisionId.value)
    && Evidenced(files, digest, d.refs)
    && (|| name == "recovery" || name == "performance" || name == "ai_regression" || name == "staging_acceptance"
        || name == "production_deployment" ==>
          d.rc.Some? && d.rc == release.rc)
  }

  lemma {:induction false} DecidedExactly(files: Store, digest: Doc -> string, release: Release, name: string)
    ensures UpstreamClean(files, digest, release, name) <==> Decided(files, digest, release, name)
  {
    if name in release.upstream {
      var ref := release.upstream[name];
      UnderOnly(ref.path, "reports");
      if RefHolds(files, digest, ref, {"reports"}) && files[ref.path].DecisionDoc? {
        var d := files[ref.path].decision;
        if d.refs.Some? {
          RefsMean(files, digest, d.refs.value);
        }
      }
    }
  }

  // ----- the release and the deployment manifest -----

  predicate Candidate(rc: Option<Identity>) {
    && rc.Some? && |rc.value.gitSha| == 40 && LowerHex(Lower(rc.value.gitSha))
    && Present(rc.value.version) && Present(rc.value.migrationHead)
  }

  predicate AllSay(entries: map<string, string>, keys: set<string>, word: string) {
    entries.Keys == keys && forall k :: k in keys ==> entries[k] == word
  }

  predicate AllFilled(entries: map<string, string>, keys: set<string>) {
    entries.Keys == keys && forall k :: k in keys ==> Present(entries[k])
  }

  predicate Documented(release: Release, gates: seq<string>) {
    && release.schemaVersion == 1 && Present(release.releaseId) && Candidate(release.rc)
    && (forall name :: name in release.upstream ==> name in gates)
    && (forall name :: name in gates ==> name in release.upstream)
    && Present(release.deploymentId) && Present(release.domain)
    && Present(release.manifest.path) && |release.manifest.sha256| == 64 && LowerHex(Lower(release.manifest.sha256))
    && |release.releaseBlockers| == 0
    && AllSay(release.approvals, {"product", "engineering", "security", "operations", "release_owner"}, "APPROVED")
    && AllFilled(release.handoff, {
         "on_call_owner", "support_owner", "incident_commander_rotation", "first_day_watch_owner",
         "quality_cost_review_owner", "security_dependency_review_owner", "dr_drill_owner", "capacity_review_owner"})
  }

  lemma {:induction false} RolesNamed()
    ensures RoleSet(ROLES) == {"product", "engineering", "security", "operations", "release_owner"}
  {
    assert ROLES[0] == "product" && ROLES[1] == "engineering" && ROLES[2] == "security";
    assert ROLES[3] == "operations" && ROLES[4] == "release_owner";
  }

  lemma {:induction false} DocumentedExactly(release: Release, matrix: Matrix)
    ensures ManifestClean(release, matrix) <==> Documented(release, matrix.requiredGates)
  {
    RolesNamed();
    assert release.upstream.Keys == (set name | name in matrix.requiredGates) <==>
           forall name :: name in release.upstream <==> name in matrix.requiredGates;
  }

  /** The frozen deployment manifest names this deployment and this candidate. */
  predicate Deployed(files: Store, digest: Doc -> string, release: Release) {
    && Under(release.manifest.path, "reports/production-deployments") && OnRecord(files, digest, release.manifest)
    && files[release.manifest.path].ProductionDoc?
    && files[release.manifest.path].production.deploymentId == Some(release.deploymentId)
    && files[release.manifest.path].production.rc == release.rc
  }

  lemma {:induction false} DeployedExactly(files: Store, digest: Doc -> string, release: Release)
    requires Present(release.manifest.path)
    ensures ProductionClean(files, digest, release) <==> Deployed(files, digest, release)
  {
    UnderOnly(release.manifest.path, "reports/production-deployments");
  }

  // ----- the scenarios -----

  predicate GapExplained(gap: Option<Gap>) {
    && gap.Some?
    && "owner" in gap.value && Present(gap.value["owner"])
    && "reason" in gap.value && Present(gap.value["reason"])
    && "impact" in gap.value && Present(gap.value["impact"])
    && "target_release" in gap.value && Present(gap.value["target_release"])
    && "workaround" in gap.value && Present(gap.value["workaround"])
  }

  lemma {:induction false} GapMeans(gap: Option<Gap>)
    ensures GapComplete(gap) <==> GapExplained(gap)
  {
    if gap.Some? && GapComplete(gap) {
      assert "owner" in GAP_KEYS && "reason" in GAP_KEYS && "impact" in GAP_KEYS;
      assert "target_release" in GAP_KEYS && "workaround" in GAP_KEYS;
    }
  }

  predicate Postponed(item: Item) {
    item.status == "BLOCKED_EXTERNAL" || item.status == "DEFERRED_NON_CRITICAL"
  }

  predicate MayWait(scenario: Scenario) {
    scenario.priority != "P0" && scenario.severity != "critical" && scenario.severity != "high"
  }

  /** A scenario is answered by a pass with evidence, or postponed with an explanation when it may wait. */
  predicate Answered(files: Store, digest: Doc -> string, scenario: Scenario, item: Item) {
    || (item.status == "PASS" && Evidenced(files, digest, item.refs))
    || (Postponed(item) && MayWait(scenario) && GapExplained(item.gap))
  }

  lemma {:induction false} StatusIs(item: Item)
    ensures item.status in POSTPONED <==> Postponed(item)
    ensures item.status in FINAL_STATUSES <==> Postponed(item) || item.status == "PASS" || item.status == "FAIL"
  {
  }

  lemma {:induction false} SevereIs(scenario: Scenario)
    ensures Severe(scenario) <==> !MayWait(scenario)
  {
  }

  lemma {:induction false} AnsweredExactly(files: Store, digest: Doc -> string, scenario: Scenario, item: Item)
    ensures ItemClean(files, digest, scenario, item) <==> Answered(files, digest, scenario, item)
  {
    GapMeans(item.gap);
    StatusIs(item);
    SevereIs(scenario);
    if item.refs.Some? {
      RefsMean(files, digest, item.refs.value);
    }
  }

  /** Each scenario is listed once and answered by exactly one item, and there are no other items. */
  predicate AllAnswered(files: Store, digest: Doc -> string, scenarios: seq<Scenario>, items: seq<Item>) {
    && (forall i, j :: 0 <= i < j < |scenarios| ==> scenarios[i].id != scenarios[j].id)
    && (forall i, j :: 0 <= i < j < |items| ==> items[i].id != items[j].id)
    && (forall k :: 0 <= k < |scenarios| ==> HasItem(files, digest, scenarios[k], items))
    && (forall j :: 0 <= j < |items| ==> HasScenario(scenarios, items[j]))
  }

  predicate HasItem(files: Store, digest: Doc -> string, scenario: Scenario, items: seq<Item>) {
    exists j :: 0 <= j < |items| && items[j].id == scenario.id && Answered(files, digest, scenario, items[j])
  }

  predicate HasScenario(scenarios: seq<Scenario>, item: Item) {
    exists k :: 0 <= k < |scenarios| && scenarios[k].id == item.id
  }

  lemma {:induction false} ScenarioHasItem(files: Store, digest: Doc -> string, scenarios: seq<Scenario>,
                                           items: seq<Item>, k: nat)
    requires NoRepeats(scenarios) && NoRepeatedItems(items) && k < |scenarios|
    ensures scenarios[k].id in ScenarioById(scenarios) && ScenarioById(scenarios)[scenarios[k].id] == scenarios[k]
    ensures HasItem(files, digest, scenarios[k], items) <==>
            && scenarios[k].id in ItemsById(items)
            && ItemClean(files, digest, scenarios[k], ItemsById(items)[scenarios[k].id])
  {
    ScenarioByIdAt(scenarios, k);
    ItemsByIdKeys(items, scenarios[k].id);
    forall j | 0 <= j < |items| && items[j].id == scenarios[k].id
      ensures items[j] == ItemsById(items)[scenarios[k].id]
      ensures ItemClean(files, digest, scenarios[k], items[j]) <==> Answered(files, digest, scenarios[k], items[j])
    {
      ItemsByIdAt(items, j);
      AnsweredExactly(files, digest, scenarios[k], items[j]);
    }
  }

  lemma {:induction false} ItemHasScenario(scenarios: seq<Scenario>, items: seq<Item>)
    ensures ItemsById(items).Keys <= ScenarioById(scenarios).Keys <==>
            forall j :: 0 <= j < |items| ==> HasScenario(scenarios, items[j])
  {
    forall id
      ensures id in ItemsById(items) <==> exists j :: 0 <= j < |items| && items[j].id == id
      ensures id in ScenarioById(scenarios) <==> exists k :: 0 <= k < |scenarios| && scenarios[k].id == id
    {
      ItemsByIdKeys(items, id);
      ScenarioByIdKeys(scenarios, id);
    }
    if ItemsById(items).Keys <= ScenarioById(scenarios).Keys {
      forall j | 0 <= j < |items|
        ensures HasScenario(scenarios, items[j])
      {
        assert items[j].id in ItemsById(items);
      }
    }
  }

  lemma {:induction false} ScenariosByPosition(files: Store, digest: Doc -> string, scenarios: seq<Scenario>,
                                               items: seq<Item>)
    requires NoRepeats(scenarios) && NoRepeatedItems(items)
    ensures (forall k :: 0 <= k < |scenarios| ==> HasItem(files, digest, scenarios[k], items)) <==>
            && ScenarioById(scenarios).Keys <= ItemsById(items).Keys
            && PairsClean(files, digest, ScenarioById(scenarios), ItemsById(items), ScenarioById(scenarios).Keys)
  {
    var byScenario, byItem := ScenarioById(scenarios), ItemsById(items);
    forall k | 0 <= k < |scenarios|
      ensures scenarios[k].id in byScenario && byScenario[scenarios[k].id] == scenarios[k]
      ensures HasItem(files, digest, scenarios[k], items) <==>
              scenarios[k].id in byItem && ItemClean(files, digest, scenarios[k], byItem[scenarios[k].id])
    {
      ScenarioHasItem(files, digest, scenarios, items, k);
    }
    forall id | id in byScenario
      ensures exists k :: 0 <= k < |scenarios| && scenarios[k].id == id && byScenario[id] == scenarios[k]
    {
      ScenarioByIdKeys(scenarios, id);
    }
  }

  lemma {:induction false} AllAnsweredExactly(files: Store, digest: Doc -> string, scenarios: seq<Scenario>,
                                              items: seq<Item>)
    ensures ItemsClean(files, digest, scenarios, items) <==> AllAnswered(files, digest, scenarios, items)
  {
    ItemHasScenario(scenarios, items);
    if NoRepeats(scenarios) && NoRepeatedItems(items) {
      ScenariosByPosition(files, digest, scenarios, items);
    }
  }

  /** The evidence file is of this release and candidate, and it is the one the release froze. */
  predicate EvidenceOfRelease(files: Store, digest: Doc -> string, release: Release, evidence: Results,
                              evidencePath: string) {
    && evidence.schemaVersion == 1 && evidence.releaseId == release.releaseId && evidence.rc == release.rc
    && release.acceptanceEvidence.path == evidencePath
    && |release.acceptanceEvidence.sha256| == 64 && LowerHex(Lower(release.acceptanceEvidence.sha256))
    && (evidencePath in files ==> digest(files[evidencePath]) == Lower(release.acceptanceEvidence.sha256))
  }

  // ----- acceptance -----

  /** A package is accepted if and only if the release is documented, every required gate is decided, the deployment
      is the frozen one, the evidence is the release's, and every scenario is answered. */
  lemma {:induction false} AcceptedExactly(files: Store, digest: Doc -> string, matrix: Matrix, release: Release,
                                           evidence: Results, evidencePath: string)
    ensures Accepts(files, digest, matrix, release, evidence, evidencePath) <==>
            && Documented(release, matrix.requiredGates)
            && (forall i :: 0 <= i < |matrix.requiredGates| ==>
                  Decided(files, digest, release, matrix.requiredGates[i]))
            && Deployed(files, digest, release)
            && EvidenceOfRelease(files, digest, release, evidence, evidencePath)
            && matrix.scenarios.Some? && evidence.items.Some?
            && AllAnswered(files, digest, matrix.scenarios.value, evidence.items.value)
  {
    DocumentedExactly(release, matrix);
    DecidedAll(files, digest, release, matrix.requiredGates);
    if Present(release.manifest.path) {
      DeployedExactly(files, digest, release);
    }
    EvidenceExactly(files, digest, matrix, release, evidence, evidencePath);
  }

  lemma {:induction false} DecidedAll(files: Store, digest: Doc -> string, release: Release, names: seq<string>)
    ensures UpstreamsClean(files, digest, release, names) <==>
            forall i :: 0 <= i < |names| ==> Decided(files, digest, release, names[i])
  {
    forall i | 0 <= i < |names|
      ensures UpstreamClean(files, digest, release, names[i]) <==> Decided(files, digest, release, names[i])
    {
      DecidedExactly(files, digest, release, names[i]);
    }
  }

  lemma {:induction false} EvidenceExactly(files: Store, digest: Doc -> string, matrix: Matrix, release: Release,
                                           evidence: Results, evidencePath: string)
    ensures EvidenceClean(files, digest, matrix, release, evidence, evidencePath) <==>
            && EvidenceOfRelease(files, digest, release, evidence, evidencePath)
            && matrix.scenarios.Some? && evidence.items.Some?
            && AllAnswered(files, digest, matrix.scenarios.value, evidence.items.value)
  {
    if matrix.scenarios.Some? && evidence.items.Some? {
      AllAnsweredExactly(files, digest, matrix.scenarios.value, evidence.items.value);
    }
  }

  /** The decision as it would be if it had failed. */
  function Failed(d: Decision): Decision {
    d.(passed := false)
  }

  function Refrozen(release: Release, digest: Doc -> string, name: string, doc: Doc): Release
    requires name in release.upstream
  {
    release.(upstream := release.upstream[name := Ref(release.upstream[name].path, digest(doc))])
  }

  /** An accepted package whose decision of a required gate is replaced by the same decision, failed, and frozen
      anew, is not accepted. */
  lemma {:induction false} FailedDecisionBlocks(files: Store, digest: Doc -> string, matrix: Matrix, release: Release,
                                                evidence: Results, evidencePath: string, name: string)
    requires Accepts(files, digest, matrix, release, evidence, evidencePath) && name in matrix.requiredGates
    ensures name in release.upstream
    ensures var path := release.upstream[name].path;
            && path in files && files[path].DecisionDoc? && files[path].decision.passed
            && var doc := DecisionDoc(Failed(files[path].decision));
            && var refrozen := Refrozen(release, digest, name, doc);
            && !Accepts(files[path := doc], digest, matrix, refrozen, evidence, evidencePath)
  {
    AcceptedExactly(files, digest, matrix, release, evidence, evidencePath);
    var i :| 0 <= i < |matrix.requiredGates| && matrix.requiredGates[i] == name;
    var path := release.upstream[name].path;
    assert Decided(files, digest, release, matrix.requiredGates[i]);
    var doc := DecisionDoc(Failed(files[path].decision));
    var after, refrozen := files[path := doc], Refrozen(release, digest, name, doc);
    AcceptedExactly(after, digest, matrix, refrozen, evidence, evidencePath);
    assert !Decided(after, digest, refrozen, matrix.requiredGates[i]);
  }

  // ----- assembly -----

  /** The deployment manifest: of schema 1, of production, in the directory its deployment names, with a candidate
      and a domain. */
  predicate OfProduction(path: string, m: Production) {
    && m.schemaVersion == 1 && m.environment == "production"
    && m.deploymentId.Some? && Present(m.deploymentId.value) && LastSegment(ParentPath(path)) == m.deploymentId.value
    && Candidate(m.rc) && m.domain.Some? && Present(m.domain.value)
  }

  /** The decision of a gate as the assembler takes it: for this candidate, and for this deployment where the gate
      is one of the three that may name one. */
  predicate Taken(files: Store, digest: Doc -> string, args: A.Args, name: string, rc: Identity, deployment: string) {
    && name in args.upstreamPaths
    && var path := args.upstreamPaths[name];
    && Under(path, "reports") && path in files && files[path].DecisionDoc?
    && var d := files[path].decision;
    && d.passed && d.decisionId.Some? && Present(d.decisionId.value) && d.rc == Some(rc)
    && (name == "security" || name == "recovery" || name == "production_deployment" ==>
          d.deploymentId.None? || d.deploymentId.value == deployment)
    && Evidenced(files, digest, d.refs)
  }

  lemma {:induction false} TakenExactly(files: Store, digest: Doc -> string, args: A.Args, name: string, rc: Identity,
                                        deployment: string)
    ensures Taken(files, digest, args, name, rc, deployment) <==>
            && name in args.upstreamPaths
            && A.UpstreamValid(files, digest, name, args.upstreamPaths[name], rc, deployment)
  {
    if name in args.upstreamPaths && args.upstreamPaths[name] in files && files[args.upstreamPaths[name]].DecisionDoc? {
      var d := files[args.upstreamPaths[name]].decision;
      if d.refs.Some? {
        RefsMean(files, digest, d.refs.value);
      }
    }
  }

  /** A result as the assembler takes it: answered as the gate will demand, and whatever evidence it names is on
      record even when it needs none. */
  predicate TakenResult(files: Store, digest: Doc -> string, scenario: Scenario, item: Item) {
    Answered(files, digest, scenario, item) && (item.refs.Some? ==> AllEvidence(files, digest, item.refs.value))
  }

  lemma {:induction false} TakenResultExactly(files: Store, digest: Doc -> string, scenario: Scenario, item: Item)
    ensures A.Releasable(files, digest, scenario, item) <==> TakenResult(files, digest, scenario, item)
  {
    GapMeans(item.gap);
    StatusIs(item);
    if item.refs.Some? {
      RefsMean(files, digest, item.refs.value);
    }
  }

  /** The scenario results: of this release and candidate, one for each scenario of a matrix that lists some. */
  predicate ResultsTaken(files: Store, digest: Doc -> string, matrix: Matrix, doc: Doc, releaseId: string,
                         rc: Identity) {
    && doc.ResultsDoc? && doc.results.schemaVersion == 1 && doc.results.releaseId == releaseId
    && doc.results.rc == Some(rc)
    && matrix.scenarios.Some? && |matrix.scenarios.value| > 0 && doc.results.items.Some?
    && var scenarios, items := matrix.scenarios.value, doc.results.items.value;
    && (forall i, j :: 0 <= i < j < |scenarios| ==> scenarios[i].id != scenarios[j].id)
    && (forall i, j :: 0 <= i < j < |items| ==> items[i].id != items[j].id)
    && (forall k :: 0 <= k < |scenarios| ==> HasResult(files, digest, scenarios[k], items))
    && (forall j :: 0 <= j < |items| ==> HasScenario(scenarios, items[j]))
  }

  predicate HasResult(files: Store, digest: Doc -> string, scenario: Scenario, items: seq<Item>) {
    exists j :: 0 <= j < |items| && items[j].id == scenario.id && TakenResult(files, digest, scenario, items[j])
  }

  lemma {:induction false} ResultOfScenario(files: Store, digest: Doc -> string, scenario: Scenario, items: seq<Item>)
    requires NoRepeatedItems(items)
    ensures HasResult(files, digest, scenario, items) <==>
            && scenario.id in ItemsById(items)
            && A.Releasable(files, digest, scenario, ItemsById(items)[scenario.id])
  {
    ItemsByIdKeys(items, scenario.id);
    forall j | 0 <= j < |items| && items[j].id == scenario.id
      ensures items[j] == ItemsById(items)[scenario.id]
      ensures A.Releasable(files, digest, scenario, items[j]) <==> TakenResult(files, digest, scenario, items[j])
    {
      ItemsByIdAt(items, j);
      TakenResultExactly(files, digest, scenario, items[j]);
    }
  }

  predicate Listed(scenarios: seq<Scenario>, id: string) {
    exists i :: 0 <= i < |scenarios| && scenarios[i].id == id
  }

  lemma {:induction false} KeysHaveScenarios(scenarios: seq<Scenario>, items: seq<Item>)
    ensures (forall id :: id in ItemsById(items) ==> Listed(scenarios, id)) <==>
            forall j :: 0 <= j < |items| ==> HasScenario(scenarios, items[j])
  {
    forall j | 0 <= j < |items|
      ensures items[j].id in ItemsById(items)
    {
      ItemsByIdKeys(items, items[j].id);
    }
    forall id | id in ItemsById(items)
      ensures exists j :: 0 <= j < |items| && items[j].id == id
    {
      ItemsByIdKeys(items, id);
    }
    assert forall j :: 0 <= j < |items| ==> (HasScenario(scenarios, items[j]) <==> Listed(scenarios, items[j].id));
  }

  lemma {:induction false} ResultsMatched(files: Store, digest: Doc -> string, scenarios: seq<Scenario>,
                                          items: seq<Item>)
    requires NoRepeats(scenarios) && NoRepeatedItems(items) && scenarios != []
    ensures A.Matched(scenarios, items) && A.ScenariosReleasable(files, digest, scenarios, items) <==>
            && (forall k :: 0 <= k < |scenarios| ==> HasResult(files, digest, scenarios[k], items))
            && (forall j :: 0 <= j < |items| ==> HasScenario(scenarios, items[j]))
  {
    KeysHaveScenarios(scenarios, items);
    assert A.Matched(scenarios, items) <==>
           && (forall i :: 0 <= i < |scenarios| ==> scenarios[i].id in ItemsById(items))
           && (forall id :: id in ItemsById(items) ==> Listed(scenarios, id));
    forall k | 0 <= k < |scenarios|
      ensures HasResult(files, digest, scenarios[k], items) <==>
              && scenarios[k].id in ItemsById(items)
              && A.Releasable(files, digest, scenarios[k], ItemsById(items)[scenarios[k].id])
    {
      ResultOfScenario(files, digest, scenarios[k], items);
    }
  }

  lemma {:induction false} ResultsTakenExactly(files: Store, digest: Doc -> string, matrix: Matrix, doc: Doc,
                                               releaseId: string, rc: Identity)
    ensures A.ResultsValid(files, digest, matrix, doc, releaseId, rc) <==>
            ResultsTaken(files, digest, matrix, doc, releaseId, rc)
  {
    if matrix.scenarios.Some? && doc.ResultsDoc? && doc.results.items.Some? {
      var scenarios, items := matrix.scenarios.value, doc.results.items.value;
      if NoRepeats(scenarios) && NoRepeatedItems(items) && scenarios != [] {
        ResultsMatched(files, digest, scenarios, items);
      }
    }
  }

  predicate Placed(files: Store, path: string, root: string) {
    path in files && Under(path, root)
  }

  /** The five input files, each in its place. */
  predicate AllPlaced(files: Store, args: A.Args) {
    && Placed(files, args.matrixPath, "final/acceptance")
    && Placed(files, args.productionPath, "reports/production-deployments")
    && Placed(files, args.governancePath, "reports/repository-governance")
    && Placed(files, args.authorizationPath, "reports/final-acceptance")
    && Placed(files, args.scenarioPath, "reports/final-acceptance")
  }

  /** A release identifier names a directory of its own or the common one: letters, digits, dots, underscores and
      hyphens, but not the parent directory. */
  predicate NamesRelease(id: string) {
    && Present(id) && id != ".."
    && forall i :: 0 <= i < |id| ==>
         || 'a' <= id[i] <= 'z' || 'A' <= id[i] <= 'Z' || '0' <= id[i] <= '9'
         || id[i] == '.' || id[i] == '_' || id[i] == '-'
  }

  lemma {:induction false} NamesReleaseMeans(id: string)
    ensures NamesRelease(id) <==> Present(id) && SafeId(id) && id != ".."
  {
    if id == "" {
      assert Strip(id) == "";
    }
  }

  /** The candidate and the deployment of the manifest, with the commit in lower case. */
  predicate Names(m: Production, rc: Identity, deployment: string) {
    && m.rc.Some? && rc == Identity(Lower(m.rc.value.gitSha), m.rc.value.version, m.rc.value.migrationHead)
    && m.deploymentId == Some(deployment)
  }

  predicate ManifestNames(files: Store, args: A.Args, rc: Identity, deployment: string) {
    && args.productionPath in files && files[args.productionPath].ProductionDoc?
    && OfProduction(args.productionPath, files[args.productionPath].production)
    && Names(files[args.productionPath].production, rc, deployment)
  }

  predicate SixTaken(files: Store, digest: Doc -> string, args: A.Args, rc: Identity, deployment: string) {
    && Taken(files, digest, args, "security", rc, deployment) && Taken(files, digest, args, "recovery", rc, deployment)
    && Taken(files, digest, args, "performance", rc, deployment)
    && Taken(files, digest, args, "ai_regression", rc, deployment)
    && Taken(files, digest, args, "staging_acceptance", rc, deployment)
    && Taken(files, digest, args, "production_deployment", rc, deployment)
  }

  predicate BothConsent(v: A.Validators) {
    && v.governanceHolds && v.authorization.Some?
    && forall role :: role in v.authorization.value.approvals ==> v.authorization.value.approvals[role] == "APPROVED"
  }

  lemma {:induction false} SixTakenExactly(files: Store, digest: Doc -> string, args: A.Args, rc: Identity,
                                           deployment: string)
    ensures A.UpstreamsValid(files, digest, UPSTREAM_GATES, args.upstreamPaths, rc, deployment) <==>
            SixTaken(files, digest, args, rc, deployment)
  {
    forall name
      ensures Taken(files, digest, args, name, rc, deployment) <==>
              && name in args.upstreamPaths
              && A.UpstreamValid(files, digest, name, args.upstreamPaths[name], rc, deployment)
    {
      TakenExactly(files, digest, args, name, rc, deployment);
    }
    assert "security" in UPSTREAM_GATES && "recovery" in UPSTREAM_GATES && "performance" in UPSTREAM_GATES;
    assert "ai_regression" in UPSTREAM_GATES && "staging_acceptance" in UPSTREAM_GATES;
    assert "production_deployment" in UPSTREAM_GATES;
  }

  /** A package is assembled if and only if its inputs are in place, the manifest names a candidate and a deployment
      that all six decisions and the results are of, both validators consent, and every scenario has a result. */
  lemma {:induction false} AssembledExactly(files: Store, digest: Doc -> string, matrix: Matrix, args: A.Args,
                                            v: A.Validators)
    ensures A.Assemblable(files, digest, matrix, args, v) <==>
            && AllPlaced(files, args) && NamesRelease(args.releaseId) && BothConsent(v)
            && exists rc, deployment ::
                 && ManifestNames(files, args, rc, deployment)
                 && SixTaken(files, digest, args, rc, deployment)
                 && ResultsTaken(files, digest, matrix, files[args.scenarioPath], args.releaseId, rc)
  {
    NamesReleaseMeans(args.releaseId);
    InputsExactly(files, args, v);
    if AllPlaced(files, args) && files[args.productionPath].ProductionDoc? &&
       OfProduction(args.productionPath, files[args.productionPath].production)
    {
      var m := files[args.productionPath].production;
      var rc, deployment := A.ExpectedRc(m.rc.value), m.deploymentId.value;
      assert ManifestNames(files, args, rc, deployment);
      SixTakenExactly(files, digest, args, rc, deployment);
      ResultsTakenExactly(files, digest, matrix, files[args.scenarioPath], args.releaseId, rc);
    }
  }

  lemma {:induction false} CandidateIs(rc: Identity)
    ensures Candidate(Some(rc)) <==> Sha40(Lower(rc.gitSha)) && Present(rc.version) && Present(rc.migrationHead)
  {
  }

  lemma {:induction false} ProductionExactly(path: string, m: Production)
    ensures A.ProductionValid(path, ProductionDoc(m)) <==> OfProduction(path, m)
  {
    if m.rc.Some? {
      CandidateIs(m.rc.value);
    }
  }

  lemma {:induction false} PlacedExactly(files: Store, args: A.Args)
    ensures AllPlaced(files, args) <==>
            && A.RepoDoc(files, args.matrixPath, "final/acceptance")
            && A.RepoDoc(files, args.productionPath, "reports/production-deployments")
            && A.RepoDoc(files, args.governancePath, "reports/repository-governance")
            && A.RepoDoc(files, args.authorizationPath, A.OUTPUT_ROOT)
            && A.RepoDoc(files, args.scenarioPath, A.OUTPUT_ROOT)
  {
  }

  lemma {:induction false} InputsExactly(files: Store, args: A.Args, v: A.Validators)
    ensures A.InputsValid(files, args, v) <==>
            && AllPlaced(files, args) && files[args.productionPath].ProductionDoc?
            && OfProduction(args.productionPath, files[args.productionPath].production)
            && v.governanceHolds && Present(args.releaseId) && SafeId(args.releaseId)
  {
    PlacedExactly(files, args);
    if AllPlaced(files, args) && files[args.productionPath].ProductionDoc? {
      ProductionExactly(args.productionPath, files[args.productionPath].production);
    }
  }

  // ----- what is written -----

  predicate SixGates(gates: set<string>) {
    gates == {"security", "recovery", "performance", "ai_regression", "staging_acceptance", "production_deployment"}
  }

  /** The emitted release carries the manifest's candidate, deployment and domain, freezes the manifest, each
      decision and the evidence by the digests of what is there, lists no blockers and hands on what the
      authorization says. */
  lemma {:induction false} ReleaseWritten(files: Store, digest: Doc -> string, matrix: Matrix, args: A.Args,
                                          v: A.Validators)
    requires A.Assemblable(files, digest, matrix, args, v)
    ensures var after := A.Assembled(files, digest, matrix, args, v);
            && A.ReleasePath(args.releaseId) in after && after[A.ReleasePath(args.releaseId)].ReleaseDoc?
            && var release := after[A.ReleasePath(args.releaseId)].release;
            && release.schemaVersion == 1 && release.releaseId == args.releaseId && |release.releaseBlockers| == 0
            && OfManifest(release, args.productionPath, files, digest)
            && UpstreamsFrozen(release.upstream, args.upstreamPaths, files, digest)
            && release.approvals == v.authorization.value.approvals && release.handoff == v.authorization.value.handoff
            && release.acceptanceEvidence.path == A.EvidencePath(args.releaseId)
  {
    ReleaseStands(files, digest, matrix, args, v);
    var m := files[args.productionPath].production;
    assert m.deploymentId.Some? && m.domain.Some?;
    FrozenGates(files, digest, args);
  }

  lemma {:induction false} ReleaseStands(files: Store, digest: Doc -> string, matrix: Matrix, args: A.Args,
                                         v: A.Validators)
    requires A.Assemblable(files, digest, matrix, args, v)
    ensures var after := A.Assembled(files, digest, matrix, args, v);
            && A.ReleasePath(args.releaseId) in after
            && after[A.ReleasePath(args.releaseId)] == ReleaseDoc(A.ReleaseOf(files, digest, matrix, args, v))
  {
  }

  lemma {:induction false} FrozenGates(files: Store, digest: Doc -> string, args: A.Args)
    requires forall name :: name in UPSTREAM_GATES ==> name in args.upstreamPaths && args.upstreamPaths[name] in files
    ensures UpstreamsFrozen(A.FrozenUpstreams(files, digest, UPSTREAM_GATES, args.upstreamPaths), args.upstreamPaths,
                            files, digest)
  {
    assert SixGates(UPSTREAM_GATES);
    assert A.FrozenUpstreams(files, digest, UPSTREAM_GATES, args.upstreamPaths).Keys == UPSTREAM_GATES;
  }

  /** The six decisions, each frozen as it is. */
  predicate UpstreamsFrozen(upstream: map<string, Ref>, paths: map<string, string>, files: Store,
                            digest: Doc -> string) {
    && SixGates(upstream.Keys)
    && forall name :: name in upstream ==>
         && name in paths && paths[name] in files
         && upstream[name].path == paths[name] && upstream[name].sha256 == digest(files[paths[name]])
  }

  predicate OfManifest(release: Release, path: string, files: Store, digest: Doc -> string) {
    && path in files && files[path].ProductionDoc?
    && var m := files[path].production;
    && release.rc == m.rc && Some(release.deploymentId) == m.deploymentId && Some(release.domain) == m.domain
    && release.manifest.path == path && release.manifest.sha256 == digest(files[path])
  }

  /** The two files lie in the directory of the release; the identifier `.` stands for the common directory. */
  lemma {:induction false} OutputPaths(id: string)
    ensures id != "." ==> A.EvidencePath(id) == "reports/final-acceptance" + "/" + id + "/acceptance-evidence.json"
    ensures id != "." ==> A.ReleasePath(id) == "reports/final-acceptance" + "/" + id + "/release.json"
    ensures A.EvidencePath(".") == "reports/final-acceptance" + "/acceptance-evidence.json"
    ensures A.ReleasePath(".") == "reports/final-acceptance" + "/release.json"
  {
  }

  /** How a result is written: as it was, its digests in lower case, and the five parts of the explanation when it is
      postponed. */
  predicate WrittenAs(item: Item, written: Item) {
    && written.id == item.id && written.status == item.status && written.notes == item.notes
    && written.refs.Some?
    && |written.refs.value| == (if item.refs.Some? then |item.refs.value| else 0)
    && (forall i :: 0 <= i < |written.refs.value| ==>
          && written.refs.value[i].path == item.refs.value[i].path
          && written.refs.value[i].sha256 == Lower(item.refs.value[i].sha256))
    && (written.gap.Some? <==> Postponed(item))
    && (Postponed(item) ==>
          && item.gap.Some?
          && written.gap.value.Keys == {"owner", "reason", "impact", "target_release", "workaround"}
          && forall k :: k in written.gap.value ==> k in item.gap.value && written.gap.value[k] == item.gap.value[k])
  }

  lemma {:induction false} NormalItemIs(files: Store, digest: Doc -> string, scenario: Scenario, item: Item)
    requires A.Releasable(files, digest, scenario, item)
    ensures WrittenAs(item, A.NormalItem(item))
  {
    StatusIs(item);
    if Postponed(item) {
      assert A.NormalGap(item.gap.value).Keys == GAP_KEYS;
    }
  }

  /** The emitted evidence is of the release and the manifest's candidate, freezes the results it was made from, and
      holds for each scenario, in the order of the matrix, the result that answers it. */
  lemma {:induction false} EvidenceWritten(files: Store, digest: Doc -> string, matrix: Matrix, args: A.Args,
                                           v: A.Validators, k: nat, j: nat)
    requires A.Assemblable(files, digest, matrix, args, v)
    requires k < |matrix.scenarios.value| && j < |files[args.scenarioPath].results.items.value|
    requires files[args.scenarioPath].results.items.value[j].id == matrix.scenarios.value[k].id
    ensures var after := A.Assembled(files, digest, matrix, args, v);
            && A.EvidencePath(args.releaseId) in after && after[A.EvidencePath(args.releaseId)].ResultsDoc?
            && var evidence := after[A.EvidencePath(args.releaseId)].results;
            && evidence.schemaVersion == 1 && evidence.releaseId == args.releaseId
            && evidence.rc == files[args.productionPath].production.rc
            && evidence.source == Some(Ref(args.scenarioPath, digest(files[args.scenarioPath])))
            && evidence.items.Some? && |evidence.items.value| == |matrix.scenarios.value|
            && WrittenAs(files[args.scenarioPath].results.items.value[j], evidence.items.value[k])
  {
    AcceptanceAgreement.AssembledStore(files, digest, matrix, args, v);
    var scenarios, items := matrix.scenarios.value, files[args.scenarioPath].results.items.value;
    ItemsByIdAt(items, j);
    assert A.Releasable(files, digest, scenarios[k], ItemsById(items)[scenarios[k].id]);
    NormalItemIs(files, digest, scenarios[k], items[j]);
  }

  /** The emitted release also freezes four inputs: the governance report as it was, the others as they are once
      the evidence is written. */
  lemma {:induction false} InputsWritten(files: Store, digest: Doc -> string, matrix: Matrix, args: A.Args,
                                         v: A.Validators)
    requires A.Assemblable(files, digest, matrix, args, v)
    ensures var after, path := A.Assembled(files, digest, matrix, args, v), A.EvidencePath(args.releaseId);
            && A.ReleasePath(args.releaseId) in after && after[A.ReleasePath(args.releaseId)].ReleaseDoc?
            && path in after && after[A.ReleasePath(args.releaseId)].release.inputs.Some?
            && var release, evidence := after[A.ReleasePath(args.releaseId)].release, after[path];
            && var inputs := release.inputs.value;
            && inputs.governance == Ref(args.governancePath, digest(files[args.governancePath]))
            && FrozenAfter(files, path, evidence, digest, args.authorizationPath, inputs.authorization)
            && FrozenAfter(files, path, evidence, digest, args.matrixPath, inputs.matrixFile)
            && FrozenAfter(files, path, evidence, digest, args.scenarioPath, inputs.scenarios)
            && release.acceptanceEvidence == Ref(path, digest(evidence))
  {
    AcceptanceAgreement.AssembledStore(files, digest, matrix, args, v);
  }

  /** The file at `path`, frozen after `evidence` was written to another path or over it. */
  predicate FrozenAfter(files: Store, written: string, evidence: Doc, digest: Doc -> string, path: string, ref: Ref) {
    && ref.path == path
    && (path == written ==> ref.sha256 == digest(evidence))
    && (path != written ==> path in files && ref.sha256 == digest(files[path]))
  }
}
