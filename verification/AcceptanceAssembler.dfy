/** The final acceptance assembler (scripts/final-acceptance-assembler.py): it re-checks every input and
    writes the evidence and release files. */
module AcceptanceAssembler {
  import opened Schemas
  import opened Text
  import opened FrozenFiles
  import opened Authorization
  import opened AcceptanceFiles

  datatype Args = Args(
    matrixPath: string, productionPath: string, governancePath: string, authorizationPath: string,
    scenarioPath: string, releaseId: string, upstreamPaths: map<string, string>)

  /** What the two validators that the assembler loads said: whether the governance report holds, and what the
      authorization report hands on, if it holds. */
  datatype Validators = Validators(governanceHolds: bool, authorization: Option<Authorized>)

  // ----- inputs -----

  predicate RepoDoc(files: Store, path: string, root: string) {
    Under(path, root) && path in files
  }

  predicate ProductionValid(path: string, doc: Doc) {
    && doc.ProductionDoc?
    && var m := doc.production;
    && m.schemaVersion == 1 && m.environment == "production"
    && PresentOption(m.deploymentId) && LastSegment(ParentPath(path)) == m.deploymentId.value
    && m.rc.Some? && Sha40(Lower(m.rc.value.gitSha))
    && Present(m.rc.value.version) && Present(m.rc.value.migrationHead)
    && PresentOption(m.domain)
  }

  /** The candidate every other input must name: the manifest's, with the commit in lower case. */
  function ExpectedRc(rc: Identity): Identity {
    rc.(gitSha := Lower(rc.gitSha))
  }

  predicate UpstreamValid(files: Store, digest: Doc -> string, name: string, path: string, rc: Identity,
                          deploymentId: string) {
    && RepoDoc(files, path, "reports") && files[path].DecisionDoc?
    && var d := files[path].decision;
    && d.passed && PresentOption(d.decisionId) && d.rc == Some(rc)
    && (name in {"security", "recovery", "production_deployment"} ==>
          d.deploymentId == None || d.deploymentId == Some(deploymentId))
    && d.refs.Some? && d.refs.value != [] && AllRefsHold(files, digest, d.refs.value)
  }

  // ----- scenarios -----

  predicate Unresolved(scenario: Scenario, item: Item) {
    item.status in POSTPONED && (scenario.priority == "P0" || scenario.severity in {"critical", "high"})
  }

  /** Nothing about this result blocks the release. */
  predicate Releasable(files: Store, digest: Doc -> string, scenario: Scenario, item: Item) {
    && item.status in FINAL_STATUSES
    && (scenario.priority == "P0" ==> item.status == "PASS")
    && item.status != "FAIL"
    && !Unresolved(scenario, item)
    && (item.status == "PASS" ==> item.refs.Some? && item.refs.value != [])
    && (item.refs.Some? ==> AllRefsHold(files, digest, item.refs.value))
    && (item.status in POSTPONED ==> GapComplete(item.gap))
  }

  function NormalRefs(refs: Option<seq<Ref>>): seq<Ref> {
    if refs.None? then [] else
    seq(|refs.value|, i requires 0 <= i < |refs.value| => Ref(refs.value[i].path, Lower(refs.value[i].sha256)))
  }

  function NormalGap(gap: Gap): Gap {
    map k | k in GAP_KEYS && k in gap :: gap[k]
  }

  /** The item as it is written: digests in lower case, only the required gap keys. */
  function NormalItem(item: Item): Item {
    Item(item.id, item.status, Some(NormalRefs(item.refs)), item.notes,
         if item.status in POSTPONED && item.gap.Some? then Some(NormalGap(item.gap.value)) else None)
  }

  predicate Matched(scenarios: seq<Scenario>, items: seq<Item>) {
    && scenarios != [] && NoRepeats(scenarios) && NoRepeatedItems(items)
    && (forall i :: 0 <= i < |scenarios| ==> scenarios[i].id in ItemsById(items))
    && (forall id :: id in ItemsById(items) ==> exists i :: 0 <= i < |scenarios| && scenarios[i].id == id)
  }

  predicate ScenariosReleasable(files: Store, digest: Doc -> string, scenarios: seq<Scenario>, items: seq<Item>)
    requires Matched(scenarios, items)
  {
    forall i :: 0 <= i < |scenarios| ==>
      Releasable(files, digest, scenarios[i], ItemsById(items)[scenarios[i].id])
  }

  function NormalItems(scenarios: seq<Scenario>, items: seq<Item>): seq<Item>
    requires Matched(scenarios, items)
  {
    seq(|scenarios|, i requires 0 <= i < |scenarios| => NormalItem(ItemsById(items)[scenarios[i].id]))
  }

  /** Results of the right release and candidate, matching the matrix one to one, none of them blocking. */
  predicate ResultsValid(files: Store, digest: Doc -> string, matrix: Matrix, doc: Doc, releaseId: string,
                         rc: Identity) {
    && doc.ResultsDoc?
    && doc.results.schemaVersion == 1 && doc.results.releaseId == releaseId && doc.results.rc == Some(rc)
    && matrix.scenarios.Some? && doc.results.items.Some?
    && Matched(matrix.scenarios.value, doc.results.items.value)
    && ScenariosReleasable(files, digest, matrix.scenarios.value, doc.results.items.value)
  }

  // ----- the whole assembly -----

  const OUTPUT_ROOT := "reports/final-acceptance"

  function OutputDir(releaseId: string): string {
    if releaseId == "." then OUTPUT_ROOT else OUTPUT_ROOT + "/" + releaseId
  }

  function EvidencePath(releaseId: string): string {
    OutputDir(releaseId) + "/acceptance-evidence.json"
  }

  function ReleasePath(releaseId: string): string {
    OutputDir(releaseId) + "/release.json"
  }

  predicate InputsValid(files: Store, args: Args, v: Validators) {
    && RepoDoc(files, args.matrixPath, "final/acceptance")
    && RepoDoc(files, args.productionPath, "reports/production-deployments")
    && RepoDoc(files, args.governancePath, "reports/repository-governance")
    && RepoDoc(files, args.authorizationPath, OUTPUT_ROOT)
    && RepoDoc(files, args.scenarioPath, OUTPUT_ROOT)
    && ProductionValid(args.productionPath, files[args.productionPath])
    && v.governanceHolds
    && Present(args.releaseId) && SafeId(args.releaseId)
  }

  predicate UpstreamsValid(files: Store, digest: Doc -> string, gates: set<string>, paths: map<string, string>,
                           rc: Identity, deploymentId: string)
  {
    forall name :: name in gates ==>
      name in paths && UpstreamValid(files, digest, name, paths[name], rc, deploymentId)
  }

  predicate Assemblable(files: Store, digest: Doc -> string, matrix: Matrix, args: Args, v: Validators) {
    && InputsValid(files, args, v)
    && var m := files[args.productionPath].production;
    && var rc := ExpectedRc(m.rc.value);
    && UpstreamsValid(files, digest, UPSTREAM_GATES, args.upstreamPaths, rc, m.deploymentId.value)
    && v.authorization.Some? && v.authorization.value.AllApproved()
    && ResultsValid(files, digest, matrix, files[args.scenarioPath], args.releaseId, rc)
    && args.releaseId != ".."
  }

  function EvidenceOf(files: Store, digest: Doc -> string, matrix: Matrix, args: Args): Results
    requires RepoDoc(files, args.productionPath, "reports/production-deployments")
    requires files[args.productionPath].ProductionDoc?
    requires RepoDoc(files, args.scenarioPath, OUTPUT_ROOT) && files[args.scenarioPath].ResultsDoc?
    requires matrix.scenarios.Some? && files[args.scenarioPath].results.items.Some?
    requires Matched(matrix.scenarios.value, files[args.scenarioPath].results.items.value)
  {
    Results(1, args.releaseId, files[args.productionPath].production.rc,
            Some(NormalItems(matrix.scenarios.value, files[args.scenarioPath].results.items.value)),
            Some(Freeze(files, digest, args.scenarioPath)))
  }

  /** The upstream decisions, frozen. */
  function FrozenUpstreams(files: Store, digest: Doc -> string, gates: set<string>,
                           paths: map<string, string>): map<string, Ref>
    requires forall name :: name in gates ==> name in paths && paths[name] in files
  {
    map name | name in gates :: Freeze(files, digest, paths[name])
  }

  /** The inputs as they are frozen once the evidence file is written. */
  function InputsOf(files: Store, written: Store, digest: Doc -> string, args: Args): Inputs
    requires args.governancePath in files && args.authorizationPath in written && args.matrixPath in written
    requires args.scenarioPath in written
  {
    Inputs(Freeze(files, digest, args.governancePath), Freeze(written, digest, args.authorizationPath),
           Freeze(written, digest, args.matrixPath), Freeze(written, digest, args.scenarioPath))
  }

  function EvidenceWritten(files: Store, digest: Doc -> string, matrix: Matrix, args: Args, v: Validators): Store
    requires Assemblable(files, digest, matrix, args, v)
  {
    files[EvidencePath(args.releaseId) := ResultsDoc(EvidenceOf(files, digest, matrix, args))]
  }

  function ReleaseOf(files: Store, digest: Doc -> string, matrix: Matrix, args: Args, v: Validators): Release
    requires Assemblable(files, digest, matrix, args, v)
  {
    var m := files[args.productionPath].production;
    Release(1, args.releaseId, m.rc, m.deploymentId.value, m.domain.value,
            Freeze(files, digest, args.productionPath),
            FrozenUpstreams(files, digest, UPSTREAM_GATES, args.upstreamPaths),
            Ref(EvidencePath(args.releaseId), digest(ResultsDoc(EvidenceOf(files, digest, matrix, args)))),
            [],
            v.authorization.value.approvals, v.authorization.value.handoff,
            Some(InputsOf(files, EvidenceWritten(files, digest, matrix, args, v), digest, args)))
  }

  /** The files after a successful assembly. */
  function Assembled(files: Store, digest: Doc -> string, matrix: Matrix, args: Args, v: Validators): Store
    requires Assemblable(files, digest, matrix, args, v)
  {
    files[EvidencePath(args.releaseId) := ResultsDoc(EvidenceOf(files, digest, matrix, args))]
         [ReleasePath(args.releaseId) := ReleaseDoc(ReleaseOf(files, digest, matrix, args, v))]
  }

  // ----- the assembler, step by step -----

  method IndexItems(items: seq<Item>) returns (r: Option<map<string, Item>>)
    ensures r == if NoRepeatedItems(items) then Some(ItemsById(items)) else None
  {
    var byId: map<string, Item> := map[];
    for i := 0 to |items|
      invariant byId == ItemsById(items[..i])
      invariant forall id :: id in byId <==> exists k :: 0 <= k < i && items[k].id == id
      invariant NoRepeatedItems(items[..i])
    {
      if items[i].id in byId {
        return None;
      }
      assert items[..i + 1][..i] == items[..i];
      byId := byId[items[i].id := items[i]];
    }
    assert items[..|items|] == items;
    r := Some(byId);
  }

  /** What is wrong with one scenario result, if anything. */
  method ScenarioBlockers(files: Store, digest: Doc -> string, scenario: Scenario,
                          item: Item) returns (blockers: seq<string>)
    ensures blockers == [] <==> Releasable(files, digest, scenario, item)
  {
    blockers := [];
    if item.status !in FINAL_STATUSES {
      return ["invalid final status"];
    }
    if scenario.priority == "P0" && item.status != "PASS" {
      blockers := blockers + ["P0 must PASS"];
    }
    if item.status == "FAIL" {
      blockers := blockers + ["is FAIL"];
    }
    if Unresolved(scenario, item) {
      blockers := blockers + ["cannot be deferred or blocked"];
    }
    if item.status == "PASS" && (item.refs.None? || item.refs.value == []) {
      blockers := blockers + ["PASS requires frozen evidence_refs"];
    } else if item.refs.Some? && !AllRefsHold(files, digest, item.refs.value) {
      blockers := blockers + ["evidence_refs do not hold"];
    }
    if item.status in POSTPONED && !GapComplete(item.gap) {
      blockers := blockers + ["requires complete gap metadata"];
    }
  }

  method NormalizeScenarios(files: Store, digest: Doc -> string, scenarios: seq<Scenario>, items: seq<Item>)
    returns (r: Option<seq<Item>>)
    requires Matched(scenarios, items)
    ensures r == if ScenariosReleasable(files, digest, scenarios, items) then Some(NormalItems(scenarios, items))
            else None
  {
    var byId := ItemsById(items);
    var normalized: seq<Item> := [];
    var blockers: seq<string> := [];
    for i := 0 to |scenarios|
      invariant blockers == [] <==> forall j :: 0 <= j < i ==>
                  Releasable(files, digest, scenarios[j], byId[scenarios[j].id])
      invariant |normalized| == i
      invariant forall j :: 0 <= j < i ==> normalized[j] == NormalItem(byId[scenarios[j].id])
    {
      var item := byId[scenarios[i].id];
      var more := ScenarioBlockers(files, digest, scenarios[i], item);
      blockers := blockers + more;
      normalized := normalized + [NormalItem(item)];
    }
    if blockers != [] {
      return None;
    }
    assert normalized == NormalItems(scenarios, items);
    r := Some(normalized);
  }

  method ValidateUpstreams(files: Store, digest: Doc -> string, gates: set<string>, paths: map<string, string>,
                           rc: Identity, deploymentId: string)
    returns (upstream: Option<map<string, Ref>>)
    ensures upstream.Some? <==> UpstreamsValid(files, digest, gates, paths, rc, deploymentId)
    ensures upstream.Some? ==> upstream.value == FrozenUpstreams(files, digest, gates, paths)
  {
    var frozen: map<string, Ref> := map[];
    var left := gates;
    while left != {}
      invariant left <= gates
      invariant UpstreamsValid(files, digest, gates - left, paths, rc, deploymentId)
      invariant frozen == FrozenUpstreams(files, digest, gates - left, paths)
    {
      var name :| name in left;
      if name !in paths || !UpstreamValid(files, digest, name, paths[name], rc, deploymentId) {
        return None;
      }
      frozen := frozen[name := Freeze(files, digest, paths[name])];
      left := left - {name};
    }
    assert gates - {} == gates;
    upstream := Some(frozen);
  }

  function IdsOf(scenarios: seq<Scenario>): set<string> {
    set i | 0 <= i < |scenarios| :: scenarios[i].id
  }

  lemma {:induction false} MatchedByKeys(scenarios: seq<Scenario>, items: seq<Item>)
    ensures Matched(scenarios, items) <==>
            scenarios != [] && NoRepeats(scenarios) && NoRepeatedItems(items) &&
                ItemsById(items).Keys == IdsOf(scenarios)
  {
    var byId := ItemsById(items);
    if Matched(scenarios, items) {
      forall id
        ensures id in byId.Keys <==> id in IdsOf(scenarios)
      {
      }
    }
    if byId.Keys == IdsOf(scenarios) {
      forall i | 0 <= i < |scenarios|
        ensures scenarios[i].id in byId
      {
        assert scenarios[i].id in IdsOf(scenarios);
      }
      forall id | id in byId
        ensures exists i :: 0 <= i < |scenarios| && scenarios[i].id == id
      {
        assert id in IdsOf(scenarios);
      }
    }
  }

  method ValidateResults(files: Store, digest: Doc -> string, matrix: Matrix, doc: Doc, releaseId: string,
                         rc: Identity)
    returns (items: Option<seq<Item>>)
    ensures items.Some? <==> ResultsValid(files, digest, matrix, doc, releaseId, rc)
    ensures items.Some? ==> items.value == NormalItems(matrix.scenarios.value, doc.results.items.value)
  {
    if || !doc.ResultsDoc? || doc.results.schemaVersion != 1 || doc.results.releaseId != releaseId
       || doc.results.rc != Some(rc) || matrix.scenarios.None? || doc.results.items.None?
    {
      return None;
    }
    var scenarios, source := matrix.scenarios.value, doc.results.items.value;
    MatchedByKeys(scenarios, source);
    if scenarios == [] || !NoRepeats(scenarios) {
      return None;
    }
    var byId := IndexItems(source);
    if byId.None? || byId.value.Keys != IdsOf(scenarios) {
      return None;
    }
    items := NormalizeScenarios(files, digest, scenarios, source);
  }

  /** No input below another root can be one of the two output files. */
  lemma {:induction false} OutputElsewhere(path: string, releaseId: string)
    requires Under(path, "reports/production-deployments")
    ensures path != EvidencePath(releaseId) && path != ReleasePath(releaseId)
  {
    assert path[8] == 'p';
    assert EvidencePath(releaseId)[8] == 'f' && ReleasePath(releaseId)[8] == 'f' by {
      assert OUTPUT_ROOT[8] == 'f';
    }
  }

  method CheckInputs(files: Store, digest: Doc -> string, matrix: Matrix, args: Args, v: Validators)
    returns (upstream: Option<map<string, Ref>>, items: Option<seq<Item>>)
    ensures upstream.Some? && items.Some? <==> Assemblable(files, digest, matrix, args, v)
    ensures upstream.Some? && items.Some? ==>
              && upstream.value == FrozenUpstreams(files, digest, UPSTREAM_GATES, args.upstreamPaths)
              && items.value == NormalItems(matrix.scenarios.value, files[args.scenarioPath].results.items.value)
  {
    upstream, items := None, None;
    if !InputsValid(files, args, v) {
      return;
    }
    var production := files[args.productionPath].production;
    var rc := ExpectedRc(production.rc.value);
    upstream := ValidateUpstreams(files, digest, UPSTREAM_GATES, args.upstreamPaths, rc, production.deploymentId.value);
    if upstream.None? || v.authorization.None? || !v.authorization.value.AllApproved() {
      return;
    }
    items := ValidateResults(files, digest, matrix, files[args.scenarioPath], args.releaseId, rc);
    if args.releaseId == ".." {
      items := None;
    }
  }

  method WriteOutputs(store: FileStore, digest: Doc -> string, args: Args, production: Production,
                      upstream: map<string, Ref>, items: seq<Item>, authorized: Authorized)
    requires Under(args.productionPath, "reports/production-deployments") && args.productionPath in store.files
    requires production.deploymentId.Some? && production.domain.Some?
    requires args.governancePath in store.files && args.authorizationPath in store.files
    requires args.matrixPath in store.files && args.scenarioPath in store.files
    modifies store
    ensures var evidence := ResultsDoc(Results(1, args.releaseId, production.rc, Some(items),
                                               Some(Freeze(old(store.files), digest, args.scenarioPath))));
            var written := old(store.files)[EvidencePath(args.releaseId) := evidence];
            var release := Release(
              1, args.releaseId, production.rc, production.deploymentId.value, production.domain.value,
              Freeze(old(store.files), digest, args.productionPath), upstream,
              Ref(EvidencePath(args.releaseId), digest(evidence)), [], authorized.approvals, authorized.handoff,
              Some(InputsOf(old(store.files), written, digest, args)));
            store.files == written[ReleasePath(args.releaseId) := ReleaseDoc(release)]
  {
    var evidencePath, releasePath := EvidencePath(args.releaseId), ReleasePath(args.releaseId);
    var governance := Freeze(store.files, digest, args.governancePath);
    var source := Freeze(store.files, digest, args.scenarioPath);
    store.Write(evidencePath, ResultsDoc(Results(1, args.releaseId, production.rc, Some(items), Some(source))));
    OutputElsewhere(args.productionPath, args.releaseId);
    var inputs := Inputs(governance, Freeze(store.files, digest, args.authorizationPath),
                         Freeze(store.files, digest, args.matrixPath), Freeze(store.files, digest, args.scenarioPath));
    var release := Release(
      1, args.releaseId, production.rc, production.deploymentId.value, production.domain.value,
      Freeze(store.files, digest, args.productionPath), upstream,
      Freeze(store.files, digest, evidencePath), [], authorized.approvals, authorized.handoff, Some(inputs));
    store.Write(releasePath, ReleaseDoc(release));
  }

  /** Writes the two files, or nothing. */
  method Assemble(store: FileStore, digest: Doc -> string, matrix: Matrix, args: Args, v: Validators) returns (ok: bool)
    modifies store
    ensures ok == Assemblable(old(store.files), digest, matrix, args, v)
    ensures store.files == if ok then Assembled(old(store.files), digest, matrix, args, v) else old(store.files)
  {
    var upstream, items := CheckInputs(store.files, digest, matrix, args, v);
    if upstream.None? || items.None? {
      return false;
    }
    var production := store.files[args.productionPath].production;
    WriteOutputs(store, digest, args, production, upstream.value, items.value, v.authorization.value);
    ok := true;
  }
}
