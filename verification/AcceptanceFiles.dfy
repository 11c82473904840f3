/** The files that final acceptance reads and writes, as the assembler
    (scripts/final-acceptance-assembler.py) and the gate (scripts/final-acceptance-gate.py) see them. */
module AcceptanceFiles {
  import opened Schemas
  import opened Text
  import opened FrozenFiles
  import opened Authorization
  import opened AuthorizationV1

  datatype Scenario = Scenario(id: string, priority: string, severity: string)

  datatype Matrix = Matrix(requiredGates: seq<string>, scenarios: Option<seq<Scenario>>)

  type Gap = map<string, string>

  datatype Item = Item(id: string, status: string, refs: Option<seq<Ref>>, notes: string, gap: Option<Gap>)

  datatype Production = Production(
    schemaVersion: int, environment: string, deploymentId: Option<string>, rc: Option<Identity>,
    domain: Option<string>)

  datatype Decision = Decision(
    passed: bool, decisionId: Option<string>, rc: Option<Identity>, deploymentId: Option<string>,
    refs: Option<seq<Ref>>)

  /** Scenario results; `source` freezes the results that an assembled file was made from. */
  datatype Results = Results(
    schemaVersion: int, releaseId: string, rc: Option<Identity>, items: Option<seq<Item>>, source: Option<Ref>)

  /** The inputs of an assembly, frozen. */
  datatype Inputs = Inputs(governance: Ref, authorization: Ref, matrixFile: Ref, scenarios: Ref)

  datatype Release = Release(
    schemaVersion: int, releaseId: string, rc: Option<Identity>,
    deploymentId: string, domain: string, manifest: Ref,
    upstream: map<string, Ref>, acceptanceEvidence: Ref, releaseBlockers: seq<string>,
    approvals: map<string, string>, handoff: map<string, string>, inputs: Option<Inputs>)

  /** What a file holds.  The policy and the request of an authorization are parts of it. */
  datatype Doc =
    | ProductionDoc(production: Production)
    | DecisionDoc(decision: Decision)
    | ResultsDoc(results: Results)
    | ReleaseDoc(release: Release)
    | PartDoc(part: File)
    | AuthorizationDoc(report: ReportV1)
    | OtherDoc(bytes: string)

  type Store = map<string, Doc>

  /** The repository's files, overwritten in place. */
  class FileStore {
    var files: Store

    constructor (files: Store)
      ensures this.files == files
    {
      this.files := files;
    }

    method Write(path: string, doc: Doc)
      modifies this`files
      ensures files == old(files)[path := doc]
    {
      files := files[path := doc];
    }
  }

  const FINAL_STATUSES := {"PASS", "FAIL", "BLOCKED_EXTERNAL", "DEFERRED_NON_CRITICAL"}
  const POSTPONED := {"BLOCKED_EXTERNAL", "DEFERRED_NON_CRITICAL"}
  const GAP_KEYS := {"owner", "reason", "impact", "target_release", "workaround"}
  const EVIDENCE_ROOTS := {"reports", "docs", "evals", "staging", "production"}
  const UPSTREAM_GATES := {
    "security", "recovery", "performance", "ai_regression", "staging_acceptance", "production_deployment"}

  predicate PresentOption(s: Option<string>) {
    s.Some? && Present(s.value)
  }

  predicate AllRefsHold(files: Store, digest: Doc -> string, refs: seq<Ref>) {
    forall i :: 0 <= i < |refs| ==> RefHolds(files, digest, refs[i], EVIDENCE_ROOTS)
  }

  predicate GapComplete(gap: Option<Gap>) {
    gap.Some? && forall k :: k in GAP_KEYS ==> k in gap.value && Present(gap.value[k])
  }

  predicate NoRepeats(scenarios: seq<Scenario>) {
    forall i, j :: 0 <= i < j < |scenarios| ==> scenarios[i].id != scenarios[j].id
  }

  /** Items by identifier; a repeated identifier keeps the last item. */
  function ItemsById(items: seq<Item>): map<string, Item> {
    if items == [] then map[] else ItemsById(items[..|items| - 1])[items[|items| - 1].id := items[|items| - 1]]
  }

  predicate NoRepeatedItems(items: seq<Item>) {
    forall i, j :: 0 <= i < j < |items| ==> items[i].id != items[j].id
  }

  lemma {:induction false} ItemsByIdKeys(items: seq<Item>, id: string)
    ensures id in ItemsById(items) <==> exists k :: 0 <= k < |items| && items[k].id == id
    ensures id in ItemsById(items) ==> ItemsById(items)[id] in items && ItemsById(items)[id].id == id
  {
    if items != [] {
      var front, last := items[..|items| - 1], items[|items| - 1];
      assert items == front + [last];
      ItemsByIdKeys(front, id);
      if k :| 0 <= k < |front| && front[k].id == id {
        assert items[k].id == id;
      }
    }
  }

  lemma {:induction false} ItemsByIdAt(items: seq<Item>, k: nat)
    requires NoRepeatedItems(items) && k < |items|
    ensures items[k].id in ItemsById(items) && ItemsById(items)[items[k].id] == items[k]
  {
    if k < |items| - 1 {
      assert items[..|items| - 1][k] == items[k];
      ItemsByIdAt(items[..|items| - 1], k);
    }
  }
}
