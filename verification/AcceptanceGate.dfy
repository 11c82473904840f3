/** The final acceptance gate (scripts/final-acceptance-gate.py): it re-validates the release and evidence
    files and everything they freeze.  Each validator appends to one shared list of blockers; its contract
    says exactly when it appends nothing. */
module AcceptanceGate {
  import opened Schemas
  import opened Text
  import opened FrozenFiles
  import opened Authorization
  import opened AcceptanceFiles
  import opened Blockers

  const IDENTITY_GATES := {"recovery", "performance", "ai_regression", "staging_acceptance", "production_deployment"}
  const MANIFEST_ROOTS := {"reports/production-deployments"}

  // ----- frozen references -----

  method VerifyFrozenFile(files: Store, digest: Doc -> string, ref: Ref, roots: set<string>, blockers: BlockerList)
    returns (ok: bool)
    modifies blockers
    ensures ok <==> RefHolds(files, digest, ref, roots)
    ensures blockers.Clear() <==> old(blockers.Clear()) && ok
  {
    ok := false;
    if !Present(ref.path) {
      blockers.Require(false, "path is missing");
    } else if !Sha256(Lower(ref.sha256)) {
      blockers.Require(false, "sha256 must be exact");
    } else if !UnderAny(ref.path, roots) {
      blockers.Require(false, "outside allowed roots");
    } else if ref.path !in files {
      blockers.Require(false, "file does not exist");
    } else if digest(files[ref.path]) != Lower(ref.sha256) {
      blockers.Require(false, "SHA-256 mismatch");
    } else {
      ok := true;
    }
  }

  method VerifyRefs(files: Store, digest: Doc -> string, refs: Option<seq<Ref>>, blockers: BlockerList)
    modifies blockers
    ensures blockers.Clear() <==> old(blockers.Clear()) && Backed(files, digest, refs)
  {
    if refs.None? || refs.value == [] {
      blockers.Require(false, "requires frozen evidence_refs");
      return;
    }
    for i := 0 to |refs.value|
      invariant blockers.Clear() <==>
                  old(blockers.Clear()) && forall j :: 0 <= j < i ==>
                        RefHolds(files, digest, refs.value[j], EVIDENCE_ROOTS)
    {
      var _ := VerifyFrozenFile(files, digest, refs.value[i], EVIDENCE_ROOTS, blockers);
    }
  }

  /** At least one frozen reference, and all of them hold. */
  predicate Backed(files: Store, digest: Doc -> string, refs: Option<seq<Ref>>) {
    refs.Some? && refs.value != [] && AllRefsHold(files, digest, refs.value)
  }

  // ----- the release manifest -----

  predicate CandidateClean(rc: Option<Identity>) {
    rc.Some? && Sha40(Lower(rc.value.gitSha)) && Present(rc.value.version) && Present(rc.value.migrationHead)
  }

  predicate ProductionFieldsClean(release: Release) {
    && Present(release.deploymentId) && Present(release.domain)
    && Present(release.manifest.path) && Sha256(Lower(release.manifest.sha256))
  }

  predicate ApprovalsClean(approvals: map<string, string>, roles: set<string>) {
    approvals.Keys == roles && forall name :: name in approvals ==> approvals[name] == "APPROVED"
  }

  predicate ManifestClean(release: Release, matrix: Matrix) {
    && release.schemaVersion == 1 && Present(release.releaseId)
    && CandidateClean(release.rc)
    && release.upstream.Keys == (set name | name in matrix.requiredGates)
    && ProductionFieldsClean(release)
    && release.releaseBlockers == []
    && ApprovalsClean(release.approvals, RoleSet(ROLES))
    && ValidHandoff(release.handoff)
  }

  method ValidateReleaseManifest(release: Release, matrix: Matrix, blockers: BlockerList)
    modifies blockers
    ensures blockers.Clear() <==> old(blockers.Clear()) && ManifestClean(release, matrix)
  {
    blockers.Require(release.schemaVersion == 1, "schema_version must be 1");
    blockers.Require(Present(release.releaseId), "release_id is missing");
    ValidateCandidate(release.rc, blockers);
    blockers.Require(release.upstream.Keys == (set name | name in matrix.requiredGates), "upstream_gates must match");
    ValidateProductionFields(release, blockers);
    blockers.Require(release.releaseBlockers == [], "release_blockers must be zero");
    ValidateApprovals(release.approvals, RoleSet(ROLES), blockers);
    ValidateHandoff(release.handoff, blockers);
  }

  method ValidateCandidate(rc: Option<Identity>, blockers: BlockerList)
    modifies blockers
    ensures blockers.Clear() <==> old(blockers.Clear()) && CandidateClean(rc)
  {
    if rc.None? {
      blockers.Require(false, "release_candidate object missing");
    } else {
      blockers.Require(Sha40(Lower(rc.value.gitSha)), "git_sha must be exact SHA40");
      blockers.Require(Present(rc.value.version), "version is missing");
      blockers.Require(Present(rc.value.migrationHead), "migration_head is missing");
    }
  }

  method ValidateProductionFields(release: Release, blockers: BlockerList)
    modifies blockers
    ensures blockers.Clear() <==> old(blockers.Clear()) && ProductionFieldsClean(release)
  {
    blockers.Require(Present(release.deploymentId), "deployment_id is missing");
    blockers.Require(Present(release.domain), "domain is missing");
    blockers.Require(Present(release.manifest.path), "deployment_manifest_path is missing");
    blockers.Require(Sha256(Lower(release.manifest.sha256)), "deployment_manifest_sha256 must be SHA-256");
  }

  method ValidateApprovals(approvals: map<string, string>, roles: set<string>, blockers: BlockerList)
    modifies blockers
    ensures blockers.Clear() <==> old(blockers.Clear()) && ApprovalsClean(approvals, roles)
  {
    if approvals.Keys != roles {
      blockers.Require(false, "approvals must match");
      return;
    }
    var left := approvals.Keys;
    while left != {}
      invariant left <= approvals.Keys
      invariant blockers.Clear() <==>
                  old(blockers.Clear()) && forall name :: name in approvals && name !in left ==>
                        approvals[name] == "APPROVED"
    {
      var name :| name in left;
      blockers.Require(approvals[name] == "APPROVED", "approval is not APPROVED");
      left := left - {name};
    }
  }

  method ValidateHandoff(handoff: map<string, string>, blockers: BlockerList)
    modifies blockers
    ensures blockers.Clear() <==> old(blockers.Clear()) && ValidHandoff(handoff)
  {
    if handoff.Keys != HANDOFF_KEYS {
      blockers.Require(false, "operational_handoff must match");
      return;
    }
    var left := handoff.Keys;
    while left != {}
      invariant left <= handoff.Keys
      invariant blockers.Clear() <==>
                  old(blockers.Clear()) && forall name :: name in handoff && name !in left ==> Present(handoff[name])
    {
      var name :| name in left;
      blockers.Require(Present(handoff[name]), "operational_handoff is missing");
      left := left - {name};
    }
  }

  // ----- upstream decisions and the production manifest -----

  predicate DecisionClean(files: Store, digest: Doc -> string, release: Release, identity: bool, d: Decision) {
    && PresentOption(d.decisionId) && d.passed
    && Backed(files, digest, d.refs)
    && (identity ==> d.rc.Some? && d.rc == release.rc)
  }

  predicate UpstreamClean(files: Store, digest: Doc -> string, release: Release, name: string) {
    && name in release.upstream
    && RefHolds(files, digest, release.upstream[name], {"reports"})
    && files[release.upstream[name].path].DecisionDoc?
    && DecisionClean(files, digest, release, name in IDENTITY_GATES, files[release.upstream[name].path].decision)
  }

  predicate UpstreamsClean(files: Store, digest: Doc -> string, release: Release, names: seq<string>) {
    forall i :: 0 <= i < |names| ==> UpstreamClean(files, digest, release, names[i])
  }

  method ValidateUpstreamGates(files: Store, digest: Doc -> string, release: Release, names: seq<string>,
                               blockers: BlockerList)
    modifies blockers
    ensures blockers.Clear() <==> old(blockers.Clear()) && UpstreamsClean(files, digest, release, names)
  {
    for i := 0 to |names|
      invariant blockers.Clear() <==>
                  old(blockers.Clear()) && forall j :: 0 <= j < i ==> UpstreamClean(files, digest, release, names[j])
    {
      ValidateUpstreamGate(files, digest, release, names[i], blockers);
    }
  }

  method ValidateUpstreamGate(files: Store, digest: Doc -> string, release: Release, name: string,
                              blockers: BlockerList)
    modifies blockers
    ensures blockers.Clear() <==> old(blockers.Clear()) && UpstreamClean(files, digest, release, name)
  {
    if name !in release.upstream {
      blockers.Require(false, "spec missing");
      return;
    }
    var ref := release.upstream[name];
    var ok := VerifyFrozenFile(files, digest, ref, {"reports"}, blockers);
    if !ok {
      return;
    }
    if !files[ref.path].DecisionDoc? {
      blockers.Require(false, "decision invalid");
      return;
    }
    ValidateDecision(files, digest, release, name in IDENTITY_GATES, files[ref.path].decision, blockers);
  }

  method ValidateDecision(files: Store, digest: Doc -> string, release: Release, identity: bool, d: Decision,
                          blockers: BlockerList)
    modifies blockers
    ensures blockers.Clear() <==> old(blockers.Clear()) && DecisionClean(files, digest, release, identity, d)
  {
    blockers.Require(PresentOption(d.decisionId), "lacks a decision_id");
    blockers.Require(d.passed, "is not passed");
    VerifyRefs(files, digest, d.refs, blockers);
    if identity {
      if d.rc.None? {
        blockers.Require(false, "lacks release_candidate identity");
      } else {
        blockers.Require(d.rc == release.rc, "RC identity mismatch");
      }
    }
  }

  predicate ProductionClean(files: Store, digest: Doc -> string, release: Release) {
    && RefHolds(files, digest, release.manifest, MANIFEST_ROOTS)
    && files[release.manifest.path].ProductionDoc?
    && files[release.manifest.path].production.deploymentId == Some(release.deploymentId)
    && files[release.manifest.path].production.rc == release.rc
  }

  method ValidateProductionManifest(files: Store, digest: Doc -> string, release: Release, blockers: BlockerList)
    modifies blockers
    ensures blockers.Clear() <==> old(blockers.Clear()) && ProductionClean(files, digest, release)
  {
    var ok := VerifyFrozenFile(files, digest, release.manifest, MANIFEST_ROOTS, blockers);
    if !ok {
      return;
    }
    if !files[release.manifest.path].ProductionDoc? {
      blockers.Require(false, "manifest invalid");
      return;
    }
    var m := files[release.manifest.path].production;
    blockers.Require(m.deploymentId == Some(release.deploymentId), "deployment_id does not match");
    blockers.Require(m.rc == release.rc, "RC identity does not match");
  }

  // ----- one scenario -----

  /** A scenario that cannot be postponed. */
  predicate Severe(scenario: Scenario) {
    scenario.priority == "P0" || scenario.severity in {"critical", "high"}
  }

  /** A result that can be accepted: a P0 scenario passes, nothing fails, what is postponed is below high
      severity and fully explained, what passes is backed by references that hold. */
  predicate ItemClean(files: Store, digest: Doc -> string, scenario: Scenario, item: Item) {
    && item.status in FINAL_STATUSES
    && (scenario.priority == "P0" ==> item.status == "PASS")
    && item.status != "FAIL"
    && (item.status in POSTPONED ==> !Severe(scenario) && GapComplete(item.gap))
    && (item.status == "PASS" ==> Backed(files, digest, item.refs))
  }

  method ValidateGap(gap: Option<Gap>, blockers: BlockerList)
    modifies blockers
    ensures blockers.Clear() <==> old(blockers.Clear()) && GapComplete(gap)
  {
    if gap.None? {
      blockers.Require(false, "requires gap metadata");
      return;
    }
    var left := GAP_KEYS;
    while left != {}
      invariant left <= GAP_KEYS
      invariant blockers.Clear() <==>
                  old(blockers.Clear()) && forall k :: k in GAP_KEYS && k !in left ==>
                        k in gap.value && Present(gap.value[k])
    {
      var key :| key in left;
      blockers.Require(key in gap.value && Present(gap.value[key]), "gap key is missing");
      left := left - {key};
    }
  }

  method ValidateItem(files: Store, digest: Doc -> string, scenario: Scenario, item: Item, blockers: BlockerList)
    requires item.status in FINAL_STATUSES
    modifies blockers
    ensures blockers.Clear() <==> old(blockers.Clear()) && ItemClean(files, digest, scenario, item)
  {
    blockers.Require(scenario.priority == "P0" ==> item.status == "PASS", "P0 must PASS");
    blockers.Require(item.status != "FAIL", "is FAIL");
    if item.status in POSTPONED {
      blockers.Require(!Severe(scenario), "cannot be deferred or blocked");
      ValidateGap(item.gap, blockers);
    }
    if item.status == "PASS" {
      VerifyRefs(files, digest, item.refs, blockers);
    }
  }

  // ----- scenarios matched with items -----

  function ScenarioById(scenarios: seq<Scenario>): map<string, Scenario> {
    if scenarios == [] then map[] else
    ScenarioById(scenarios[..|scenarios| - 1])[scenarios[|scenarios| - 1].id := scenarios[|scenarios| - 1]]
  }

  lemma {:induction false} ScenarioByIdKeys(scenarios: seq<Scenario>, id: string)
    ensures id in ScenarioById(scenarios) <==> exists k :: 0 <= k < |scenarios| && scenarios[k].id == id
    ensures id in ScenarioById(scenarios) ==>
              ScenarioById(scenarios)[id] in scenarios && ScenarioById(scenarios)[id].id == id
  {
    if scenarios != [] {
      var front, last := scenarios[..|scenarios| - 1], scenarios[|scenarios| - 1];
      assert scenarios == front + [last];
      ScenarioByIdKeys(front, id);
      if k :| 0 <= k < |front| && front[k].id == id {
        assert scenarios[k].id == id;
      }
    }
  }

  /** No identifier repeats exactly when the index has as many entries as the list. */
  lemma {:induction false} NoRepeatsCounted(scenarios: seq<Scenario>)
    ensures |ScenarioById(scenarios)| <= |scenarios|
    ensures |ScenarioById(scenarios)| == |scenarios| <==> NoRepeats(scenarios)
  {
    if scenarios != [] {
      var front, last := scenarios[..|scenarios| - 1], scenarios[|scenarios| - 1];
      assert scenarios == front + [last];
      NoRepeatsCounted(front);
      ScenarioByIdKeys(front, last.id);
      var byId := ScenarioById(front);
      assert ScenarioById(scenarios).Keys == byId.Keys + {last.id};
      assert |ScenarioById(scenarios)| == |byId| + if last.id in byId then 0 else 1;
      if last.id in byId {
        var k :| 0 <= k < |front| && front[k].id == last.id;
        assert scenarios[k].id == scenarios[|front|].id;
      }
    }
  }

  /** Every scenario among these that has an item at all has one that can be accepted. */
  predicate PairsClean(files: Store, digest: Doc -> string, scenarios: map<string, Scenario>, items: map<string, Item>,
                       ids: set<string>)
  {
    forall id :: id in ids && id in scenarios && id in items ==> ItemClean(files, digest, scenarios[id], items[id])
  }

  /** Scenarios and items have distinct identifiers, the same ones, and every item can be accepted. */
  predicate ItemsClean(files: Store, digest: Doc -> string, scenarios: seq<Scenario>, items: seq<Item>) {
    && NoRepeats(scenarios) && NoRepeatedItems(items)
    && ItemsById(items).Keys == ScenarioById(scenarios).Keys
    && PairsClean(files, digest, ScenarioById(scenarios), ItemsById(items), ScenarioById(scenarios).Keys)
  }

  // ----- the status counts -----

  /** The scenarios whose item has this status. */
  function WithStatus(items: map<string, Item>, ids: set<string>, status: string): set<string> {
    set id | id in ids && id in items && items[id].status == status
  }

  function Counts(items: map<string, Item>, ids: set<string>, statuses: set<string>): map<string, nat> {
    map status | status in statuses :: |WithStatus(items, ids, status)|
  }

  function Zeros(statuses: set<string>): map<string, nat> {
    map status | status in statuses :: 0
  }

  function Bump(counts: map<string, nat>, status: string): map<string, nat> {
    if status in counts then counts[status := counts[status] + 1] else counts
  }

  lemma {:induction false} WithStatusStep(items: map<string, Item>, ids: set<string>, id: string, status: string)
    requires id !in ids
    ensures WithStatus(items, ids + {id}, status) ==
            WithStatus(items, ids, status) + if id in items && items[id].status == status then {id} else {}
  {
  }

  lemma {:induction false} CountStep(items: map<string, Item>, ids: set<string>, id: string, statuses: set<string>)
    requires id !in ids
    ensures var before := Counts(items, ids, statuses);
            Counts(items, ids + {id}, statuses) ==
            if id in items then Bump(before, items[id].status) else before
  {
    var before, after := Counts(items, ids, statuses), Counts(items, ids + {id}, statuses);
    forall status | status in statuses
      ensures after[status] == before[status] + if id in items && items[id].status == status then 1 else 0
    {
      WithStatusStep(items, ids, id, status);
    }
    assert after.Keys == before.Keys;
  }

  lemma {:induction false} NoneCounted(items: map<string, Item>, statuses: set<string>)
    ensures Counts(items, {}, statuses) == Zeros(statuses)
  {
    forall status
      ensures WithStatus(items, {}, status) == {}
    {
      assert WithStatus(items, {}, status) <= {};
    }
  }

  /** One scenario with its item: an item without a final status is reported and not counted. */
  method ValidatePair(files: Store, digest: Doc -> string, scenario: Scenario, item: Item, counts: map<string, nat>,
                      blockers: BlockerList) returns (counted: map<string, nat>)
    requires counts.Keys == FINAL_STATUSES
    modifies blockers
    ensures counted == Bump(counts, item.status) && counted.Keys == counts.Keys
    ensures blockers.Clear() <==> old(blockers.Clear()) && ItemClean(files, digest, scenario, item)
  {
    if item.status !in counts {
      blockers.Require(false, "invalid status");
      return counts;
    }
    counted := counts[item.status := counts[item.status] + 1];
    ValidateItem(files, digest, scenario, item, blockers);
  }

  lemma {:induction false} PairsStep(files: Store, digest: Doc -> string, scenarios: map<string, Scenario>,
                                     items: map<string, Item>, ids: set<string>, id: string)
    requires id in scenarios
    ensures PairsClean(files, digest, scenarios, items, ids + {id}) <==>
            PairsClean(files, digest, scenarios, items, ids)
            && (id in items ==> ItemClean(files, digest, scenarios[id], items[id]))
  {
  }

  /** The loop over the scenarios: blockers and status counts. */
  method ValidateScenarios(files: Store, digest: Doc -> string, scenarios: map<string, Scenario>,
                           items: map<string, Item>,
                           blockers: BlockerList) returns (counts: map<string, nat>)
    modifies blockers
    ensures counts == Counts(items, scenarios.Keys, FINAL_STATUSES)
    ensures blockers.Clear() <==> old(blockers.Clear()) && PairsClean(files, digest, scenarios, items, scenarios.Keys)
  {
    counts := Zeros(FINAL_STATUSES);
    NoneCounted(items, FINAL_STATUSES);
    var left, done := scenarios.Keys, {};
    while left != {}
      invariant done + left == scenarios.Keys && done !! left
      invariant counts == Counts(items, done, FINAL_STATUSES)
      invariant blockers.Clear() <==> old(blockers.Clear()) && PairsClean(files, digest, scenarios, items, done)
    {
      var id :| id in left;
      CountStep(items, done, id, FINAL_STATUSES);
      PairsStep(files, digest, scenarios, items, done, id);
      left, done := left - {id}, done + {id};
      if id in items {
        counts := ValidatePair(files, digest, scenarios[id], items[id], counts, blockers);
      }
    }
    assert done == scenarios.Keys;
  }

  // ----- the acceptance evidence -----

  predicate HeaderClean(release: Release, evidence: Results) {
    evidence.schemaVersion == 1 && evidence.releaseId == release.releaseId && evidence.rc == release.rc
  }

  predicate FreezeClean(files: Store, digest: Doc -> string, frozen: Ref, evidencePath: string) {
    && frozen.path == evidencePath && Sha256(Lower(frozen.sha256))
    && (evidencePath in files ==> digest(files[evidencePath]) == Lower(frozen.sha256))
  }

  predicate EvidenceClean(files: Store, digest: Doc -> string, matrix: Matrix, release: Release, evidence: Results,
                          evidencePath: string)
  {
    && HeaderClean(release, evidence)
    && FreezeClean(files, digest, release.acceptanceEvidence, evidencePath)
    && matrix.scenarios.Some? && evidence.items.Some?
    && ItemsClean(files, digest, matrix.scenarios.value, evidence.items.value)
  }

  function StatusCounts(matrix: Matrix, evidence: Results): map<string, nat> {
    if matrix.scenarios.None? || evidence.items.None? then map[] else
    Counts(ItemsById(evidence.items.value), ScenarioById(matrix.scenarios.value).Keys, FINAL_STATUSES)
  }

  method IndexEvidence(items: seq<Item>, blockers: BlockerList) returns (byId: map<string, Item>)
    modifies blockers
    ensures byId == ItemsById(items)
    ensures blockers.Clear() <==> old(blockers.Clear()) && NoRepeatedItems(items)
  {
    byId := map[];
    for i := 0 to |items|
      invariant byId == ItemsById(items[..i])
      invariant blockers.Clear() <==> old(blockers.Clear()) && NoRepeatedItems(items[..i])
    {
      assert items[..i + 1][..i] == items[..i];
      FreshItem(items[..i], items[i]);
      assert items[..i + 1] == items[..i] + [items[i]];
      blockers.Require(items[i].id !in byId, "duplicate evidence id");
      byId := byId[items[i].id := items[i]];
    }
    assert items[..|items|] == items;
  }

  lemma {:induction false} FreshItem(items: seq<Item>, last: Item)
    ensures NoRepeatedItems(items + [last]) <==> NoRepeatedItems(items) && last.id !in ItemsById(items)
  {
    ItemsByIdKeys(items, last.id);
    var all := items + [last];
    assert all[|items|] == last && forall i :: 0 <= i < |items| ==> all[i] == items[i];
  }

  method ValidateScenarioItems(files: Store, digest: Doc -> string, scenarios: seq<Scenario>, items: seq<Item>,
                               blockers: BlockerList) returns (counts: map<string, nat>)
    modifies blockers
    ensures counts == Counts(ItemsById(items), ScenarioById(scenarios).Keys, FINAL_STATUSES)
    ensures blockers.Clear() <==>
              old(blockers.Clear()) && NoRepeatedItems(items) && ItemsById(items).Keys == ScenarioById(scenarios).Keys
              && PairsClean(files, digest, ScenarioById(scenarios), ItemsById(items), ScenarioById(scenarios).Keys)
  {
    var byScenario := ScenarioById(scenarios);
    var byItem := IndexEvidence(items, blockers);
    blockers.Require(byItem.Keys == byScenario.Keys, "scenario set mismatch");
    counts := ValidateScenarios(files, digest, byScenario, byItem, blockers);
  }

  method ValidateFreeze(files: Store, digest: Doc -> string, frozen: Ref, evidencePath: string, blockers: BlockerList)
    modifies blockers
    ensures blockers.Clear() <==> old(blockers.Clear()) && FreezeClean(files, digest, frozen, evidencePath)
  {
    blockers.Require(frozen.path == evidencePath, "path does not match");
    if !Sha256(Lower(frozen.sha256)) {
      blockers.Require(false, "sha256 must be SHA-256");
    } else {
      blockers.Require(evidencePath in files ==>
                       digest(files[evidencePath]) == Lower(frozen.sha256), "SHA-256 does not match");
    }
  }

  method ValidateAcceptanceEvidence(files: Store, digest: Doc -> string, matrix: Matrix, release: Release,
                                    evidence: Results, evidencePath: string, blockers: BlockerList)
    returns (counts: map<string, nat>)
    modifies blockers
    ensures counts == StatusCounts(matrix, evidence)
    ensures blockers.Clear() <==>
              old(blockers.Clear()) && EvidenceClean(files, digest, matrix, release, evidence, evidencePath)
  {
    blockers.Require(HeaderClean(release, evidence), "does not match the release manifest");
    ValidateFreeze(files, digest, release.acceptanceEvidence, evidencePath, blockers);
    if matrix.scenarios.None? {
      blockers.Require(false, "scenarios missing");
      return map[];
    }
    NoRepeatsCounted(matrix.scenarios.value);
    blockers.Require(|ScenarioById(matrix.scenarios.value)| == |matrix.scenarios.value|, "duplicate scenario ids");
    if evidence.items.None? {
      blockers.Require(false, "items must be an array");
      return map[];
    }
    counts := ValidateScenarioItems(files, digest, matrix.scenarios.value, evidence.items.value, blockers);
  }

  // ----- the verdict -----

  datatype Verdict = Verdict(accepted: bool, counts: map<string, nat>)

  /** Everything the gate demands, over the files it reads. */
  predicate Accepts(files: Store, digest: Doc -> string, matrix: Matrix, release: Release, evidence: Results,
                    evidencePath: string)
  {
    && ManifestClean(release, matrix)
    && UpstreamsClean(files, digest, release, matrix.requiredGates)
    && ProductionClean(files, digest, release)
    && EvidenceClean(files, digest, matrix, release, evidence, evidencePath)
  }

  /** The gate accepts exactly when nothing it demands is missing: no blocker is lost on the way. */
  method Evaluate(files: Store, digest: Doc -> string, matrix: Matrix, release: Release, evidence: Results,
                  evidencePath: string) returns (v: Verdict)
    ensures v.accepted <==> Accepts(files, digest, matrix, release, evidence, evidencePath)
    ensures v.counts == StatusCounts(matrix, evidence)
  {
    var blockers := new BlockerList();
    ValidateReleaseManifest(release, matrix, blockers);
    ValidateUpstreamGates(files, digest, release, matrix.requiredGates, blockers);
    ValidateProductionManifest(files, digest, release, blockers);
    var counts := ValidateAcceptanceEvidence(files, digest, matrix, release, evidence, evidencePath, blockers);
    v := Verdict(blockers.entries == [], counts);
  }

  /** Three distinct statuses that cover all scenarios partition them. */
  lemma {:induction false} StatusesPartition(items: map<string, Item>, ids: set<string>, a: string, b: string,
                                             c: string)
    requires a != b && b != c && a != c
    requires forall id :: id in ids ==>
               id in items && (items[id].status == a || items[id].status == b || items[id].status == c)
    ensures |WithStatus(items, ids, a)| + |WithStatus(items, ids, b)| + |WithStatus(items, ids, c)| == |ids|
  {
    var x, y, z := WithStatus(items, ids, a), WithStatus(items, ids, b), WithStatus(items, ids, c);
    assert x + y + z == ids;
    assert x !! y && x + y !! z;
  }

  lemma {:induction false} CleanStatus(files: Store, digest: Doc -> string, scenario: Scenario, item: Item)
    requires ItemClean(files, digest, scenario, item)
    ensures item.status == "PASS" || item.status == "BLOCKED_EXTERNAL" || item.status == "DEFERRED_NON_CRITICAL"
    ensures item.status != "FAIL"
  {
  }

  lemma {:induction false} CleanCounts(files: Store, digest: Doc -> string, scenarios: seq<Scenario>, items: seq<Item>)
    requires ItemsClean(files, digest, scenarios, items)
    ensures var ids, byId := ScenarioById(scenarios).Keys, ItemsById(items);
            && |WithStatus(byId, ids, "FAIL")| == 0
            && |WithStatus(byId, ids, "PASS")| + |WithStatus(byId, ids, "BLOCKED_EXTERNAL")|
               + |WithStatus(byId, ids, "DEFERRED_NON_CRITICAL")| == |scenarios|
  {
    var byScenario, byItem := ScenarioById(scenarios), ItemsById(items);
    forall id | id in byScenario.Keys
      ensures byItem[id].status == "PASS" || byItem[id].status == "BLOCKED_EXTERNAL"
              || byItem[id].status == "DEFERRED_NON_CRITICAL"
      ensures byItem[id].status != "FAIL"
    {
      CleanStatus(files, digest, byScenario[id], byItem[id]);
    }
    StatusesPartition(byItem, byScenario.Keys, "PASS", "BLOCKED_EXTERNAL", "DEFERRED_NON_CRITICAL");
    assert WithStatus(byItem, byScenario.Keys, "FAIL") == {};
    NoRepeatsCounted(scenarios);
    assert |byScenario.Keys| == |byScenario|;
  }

  lemma {:induction false} CountsAt(items: map<string, Item>, ids: set<string>, statuses: set<string>, status: string)
    requires status in statuses
    ensures status in Counts(items, ids, statuses)
    ensures Counts(items, ids, statuses)[status] == |WithStatus(items, ids, status)|
  {
  }

  function CountOf(counts: map<string, nat>, status: string): nat {
    if status in counts then counts[status] else 0
  }

  lemma {:induction false} FinalCount(matrix: Matrix, evidence: Results, status: string)
    requires matrix.scenarios.Some? && evidence.items.Some? && status in FINAL_STATUSES
    ensures CountOf(StatusCounts(matrix, evidence), status) ==
            |WithStatus(ItemsById(evidence.items.value), ScenarioById(matrix.scenarios.value).Keys, status)|
  {
    CountsAt(ItemsById(evidence.items.value), ScenarioById(matrix.scenarios.value).Keys, FINAL_STATUSES, status);
  }

  /** When the gate accepts, there are no failures and the three other status counts add up to the number of
      scenarios. */
  lemma {:induction false} AcceptedCounts(files: Store, digest: Doc -> string, matrix: Matrix, release: Release,
                                          evidence: Results, evidencePath: string)
    requires Accepts(files, digest, matrix, release, evidence, evidencePath)
    ensures var counts := StatusCounts(matrix, evidence);
            && CountOf(counts, "FAIL") == 0
            && CountOf(counts, "PASS") + CountOf(counts, "BLOCKED_EXTERNAL") + CountOf(counts, "DEFERRED_NON_CRITICAL")
               == |matrix.scenarios.value|
  {
    CleanCounts(files, digest, matrix.scenarios.value, evidence.items.value);
    FinalCount(matrix, evidence, "FAIL");
    FinalCount(matrix, evidence, "PASS");
    FinalCount(matrix, evidence, "BLOCKED_EXTERNAL");
    FinalCount(matrix, evidence, "DEFERRED_NON_CRITICAL");
  }

  /** What an accepted package means, scenario by scenario: exactly one item answers each, and it is clean. */
  lemma {:induction false} AcceptedScenario(files: Store, digest: Doc -> string, matrix: Matrix, release: Release,
                                            evidence: Results, evidencePath: string, k: nat)
    requires Accepts(files, digest, matrix, release, evidence, evidencePath)
    requires k < |matrix.scenarios.value|
    ensures exists j :: 0 <= j < |evidence.items.value|
              && evidence.items.value[j].id == matrix.scenarios.value[k].id
              && ItemClean(files, digest, matrix.scenarios.value[k], evidence.items.value[j])
              && forall i :: 0 <= i < |evidence.items.value| && i != j ==>
                   evidence.items.value[i].id != matrix.scenarios.value[k].id
    ensures |evidence.items.value| == |matrix.scenarios.value|
  {
    var scenarios, items := matrix.scenarios.value, evidence.items.value;
    var id := scenarios[k].id;
    ScenarioByIdAt(scenarios, k);
    ItemsByIdKeys(items, id);
    var j :| 0 <= j < |items| && items[j].id == id;
    ItemsByIdAt(items, j);
    assert ItemClean(files, digest, scenarios[k], items[j]);
    assert forall i :: 0 <= i < |items| && i != j ==> items[i].id != id;
    NoRepeatsCounted(scenarios);
    ItemsCounted(items);
    assert |ItemsById(items).Keys| == |ItemsById(items)| && |ScenarioById(scenarios).Keys| == |ScenarioById(scenarios)|;
  }

  lemma {:induction false} ScenarioByIdAt(scenarios: seq<Scenario>, k: nat)
    requires NoRepeats(scenarios) && k < |scenarios|
    ensures scenarios[k].id in ScenarioById(scenarios) && ScenarioById(scenarios)[scenarios[k].id] == scenarios[k]
  {
    if k < |scenarios| - 1 {
      assert scenarios[..|scenarios| - 1][k] == scenarios[k];
      ScenarioByIdAt(scenarios[..|scenarios| - 1], k);
    }
  }

  lemma {:induction false} ItemsCounted(items: seq<Item>)
    requires NoRepeatedItems(items)
    ensures |ItemsById(items)| == |items|
  {
    if items != [] {
      var front, last := items[..|items| - 1], items[|items| - 1];
      assert items == front + [last];
      ItemsCounted(front);
      FreshItem(front, last);
      assert ItemsById(items).Keys == ItemsById(front).Keys + {last.id};
    }
  }
}
