/** The runtime services of a production deployment: the service rows, the capacity contract and the rollback
    rehearsal (scripts/production-deployment-decision.py, scripts/production-rollback-rehearsal-decision.py). */
module Services {
  import opened Schemas
  import opened Blockers

  /** One entry of the list of services; a field is missing or of the wrong type when it is None. */
  datatype Row =
    | NotAnObject
    | Row(name: Option<string>, image: Option<string>, imageKey: Option<string>, expectedImage: Option<string>,
          imageMatches: bool, expected: Option<int>, desired: Option<int>, capacityMatches: bool, steady: bool)

  type Counts = map<string, int>

  datatype Contract = Contract(
    schemaVersion: int, source: string, scope: string, deploymentId: Option<string>, counts: Option<Counts>)

  /** What a runtime identity report says about its services. */
  datatype Runtime = Runtime(services: Option<seq<Row>>, contract: Option<Contract>)

  const SOURCE := "terraform-live-state"
  const SCOPE := "production-app-service-desired-counts"

  /** The seven services, each with the key of the image it runs; two of them share one. */
  function Canonical(): map<string, string> {
    map["api" := "api", "agent-runtime" := "agent-runtime", "model-gateway" := "model-gateway",
        "tool-gateway" := "tool-gateway", "worker-media" := "worker-media", "outbox-dispatcher" := "worker-media",
        "sandbox-runtime" := "sandbox-runtime"]
  }

  /** A field of each row by service name, for the rows that have a name; the last row of a name wins. */
  function ByName<V>(rows: seq<Row>, field: Row -> V): map<string, V> {
    if rows == [] then map[] else
    var before, last := ByName(rows[..|rows| - 1], field), rows[|rows| - 1];
    if last.Row? && last.name.Some? then before[last.name.value := field(last)] else before
  }

  function ImageOf(row: Row): Option<string> {
    if row.Row? then row.image else None
  }

  function ImageKeyOf(row: Row): Option<string> {
    if row.Row? then row.imageKey else None
  }

  function ExpectedOf(row: Row): Option<int> {
    if row.Row? then row.expected else None
  }

  function Given<V>(m: map<string, V>): map<string, Option<V>> {
    map k | k in m :: Some(m[k])
  }

  function Lookup(images: map<string, string>, name: Option<string>): Option<string> {
    if name.Some? && name.value in images then Some(images[name.value]) else None
  }

  predicate CapacityRowValid(row: Row) {
    && row.Row? && row.expected.Some? && row.expected.value > 0
    && row.desired == row.expected && row.capacityMatches
  }

  predicate RowClean(row: Row, images: map<string, string>) {
    && row.Row? && row.expectedImage == Lookup(images, row.name) && row.imageMatches
    && CapacityRowValid(row) && row.steady
  }

  predicate RowsClean(rows: seq<Row>, images: map<string, string>) {
    forall i :: 0 <= i < |rows| ==> RowClean(rows[i], images)
  }

  predicate ImagesClean(images: Option<map<string, string>>, keys: map<string, string>) {
    images.Some? && images.value.Keys == keys.Values
  }

  /** The image each service is expected to run; none when the manifest does not list the right images. */
  function ServiceImages(images: Option<map<string, string>>, keys: map<string, string>): map<string, string> {
    if ImagesClean(images, keys) then map service | service in keys :: images.value[keys[service]] else map[]
  }

  predicate CountsClean(counts: Option<Counts>, names: set<string>) {
    counts.Some? && counts.value.Keys == names && forall name :: name in counts.value ==> counts.value[name] > 0
  }

  predicate HeaderClean(c: Contract, deploymentId: Option<string>) {
    c.schemaVersion == 1 && c.source == SOURCE && c.scope == SCOPE && c.deploymentId == deploymentId
  }

  predicate ContractClean(contract: Option<Contract>, rows: seq<Row>, deploymentId: Option<string>,
                          names: set<string>) {
    && contract.Some? && HeaderClean(contract.value, deploymentId)
    && CountsClean(contract.value.counts, names) && ByName(rows, ExpectedOf) == Given(contract.value.counts.value)
  }

  predicate RowsMatch(rows: seq<Row>, images: map<string, string>, keys: map<string, string>) {
    && ByName(rows, ImageOf) == Given(images)
    && ByName(rows, ImageKeyOf) == Given(keys)
    && RowsClean(rows, images)
  }

  /** As many rows as services, matching them, and a contract that matches the rows. */
  predicate ListClean(runtime: Runtime, images: map<string, string>, deploymentId: Option<string>,
                      keys: map<string, string>)
  {
    && runtime.services.Some? && |runtime.services.value| == |keys|
    && RowsMatch(runtime.services.value, images, keys)
    && ContractClean(runtime.contract, runtime.services.value, deploymentId, keys.Keys)
  }

  predicate ServicesClean(runtime: Runtime, images: Option<map<string, string>>, deploymentId: Option<string>,
                          keys: map<string, string>)
  {
    ImagesClean(images, keys) && ListClean(runtime, ServiceImages(images, keys), deploymentId, keys)
  }

  // ----- validation, step by step -----

  method ValidateContract(contract: Option<Contract>, rows: seq<Row>, deploymentId: Option<string>, names: set<string>,
                          blockers: BlockerList) returns (counts: Counts)
    modifies blockers
    ensures blockers.Clear() <==> old(blockers.Clear()) && ContractClean(contract, rows, deploymentId, names)
    ensures counts == if ContractClean(contract, rows, deploymentId, names) then contract.value.counts.value else map[]
  {
    if contract.None? {
      blockers.Require(false, "capacity_contract missing");
      return map[];
    }
    var c := contract.value;
    var header := HeaderClean(c, deploymentId);
    blockers.Require(header, "capacity_contract mismatch");
    if !CountsClean(c.counts, names) {
      blockers.Require(false, "counts must be positive integers for exactly the services");
      return map[];
    }
    var same := ByName(rows, ExpectedOf) == Given(c.counts.value);
    blockers.Require(same, "capacity_contract does not equal the expectations of the rows");
    counts := if header && same then c.counts.value else map[];
  }

  method ValidateRows(rows: seq<Row>, images: map<string, string>, keys: map<string, string>, blockers: BlockerList)
    modifies blockers
    ensures blockers.Clear() <==> old(blockers.Clear()) && RowsMatch(rows, images, keys)
  {
    blockers.Require(ByName(rows, ImageOf) == Given(images), "image mapping does not equal manifest");
    blockers.Require(ByName(rows, ImageKeyOf) == Given(keys), "image-key mapping is not canonical");
    blockers.Require(RowsClean(rows, images), "non-steady, image-mismatched or capacity-mismatched service");
  }

  /** What the contract offers when the services are listed at all. */
  function Capacity(runtime: Runtime, deploymentId: Option<string>, keys: map<string, string>): Counts {
    if && runtime.services.Some? && |runtime.services.value| == |keys|
       && ContractClean(runtime.contract, runtime.services.value, deploymentId, keys.Keys)
    then runtime.contract.value.counts.value else map[]
  }

  method ValidateServices(runtime: Runtime, images: Option<map<string, string>>, deploymentId: Option<string>,
                          keys: map<string, string>, blockers: BlockerList) returns (counts: Counts)
    modifies blockers
    ensures blockers.Clear() <==> old(blockers.Clear()) && ServicesClean(runtime, images, deploymentId, keys)
    ensures counts == Capacity(runtime, deploymentId, keys)
  {
    blockers.Require(ImagesClean(images, keys), "manifest must contain exactly the canonical runtime images");
    counts := ValidateList(runtime, ServiceImages(images, keys), deploymentId, keys, blockers);
  }

  method ValidateList(runtime: Runtime, images: map<string, string>, deploymentId: Option<string>,
                      keys: map<string, string>, blockers: BlockerList) returns (counts: Counts)
    modifies blockers
    ensures blockers.Clear() <==> old(blockers.Clear()) && ListClean(runtime, images, deploymentId, keys)
    ensures counts == Capacity(runtime, deploymentId, keys)
  {
    if runtime.services.None? || |runtime.services.value| != |keys| {
      blockers.Require(false, "runtime must contain exactly seven services");
      return map[];
    }
    ValidateRows(runtime.services.value, images, keys, blockers);
    counts := ValidateContract(runtime.contract, runtime.services.value, deploymentId, keys.Keys, blockers);
  }

  // ----- the two decisions -----

  /** The capacity contract that a rehearsal decision hands on. */
  datatype Handover = Handover(schemaVersion: int, source: string, scope: string, deploymentId: Option<string>,
                               preserved: bool, counts: Counts)

  datatype Rehearsal = Rehearsal(passed: bool, contract: Handover)

  /** Both runtimes are clean, and at one capacity. */
  predicate RehearsalPasses(previousRuntime: Runtime, previousImages: Option<map<string, string>>,
                            restoredRuntime: Runtime, currentImages: Option<map<string, string>>,
                            currentDeployment: Option<string>, keys: map<string, string>)
  {
    && ServicesClean(previousRuntime, previousImages, currentDeployment, keys)
    && ServicesClean(restoredRuntime, currentImages, currentDeployment, keys)
    && CapacityKept(previousRuntime, restoredRuntime, currentDeployment, keys)
  }

  predicate CapacityKept(previousRuntime: Runtime, restoredRuntime: Runtime, currentDeployment: Option<string>,
                         keys: map<string, string>)
  {
    && Capacity(previousRuntime, currentDeployment, keys) != map[]
    && Capacity(previousRuntime, currentDeployment, keys) == Capacity(restoredRuntime, currentDeployment, keys)
  }

  /** What a rehearsal hands on: the capacity, when it was kept. */
  function HandoverOf(previousRuntime: Runtime, restoredRuntime: Runtime, currentDeployment: Option<string>,
                      keys: map<string, string>): Handover
  {
    var kept := CapacityKept(previousRuntime, restoredRuntime, currentDeployment, keys);
    Handover(1, SOURCE, SCOPE, currentDeployment, kept,
             if kept then Capacity(restoredRuntime, currentDeployment, keys) else map[])
  }

  /** The rollback rehearsal: the rollback target and the restored release, both against the current
      deployment's contract.  `others` says whether all its other checks pass. */
  method EvaluateRehearsal(previousRuntime: Runtime, previousImages: Option<map<string, string>>,
                           restoredRuntime: Runtime, currentImages: Option<map<string, string>>,
                           currentDeployment: Option<string>, others: bool) returns (r: Rehearsal)
    ensures r.passed <==>
              others && RehearsalPasses(previousRuntime, previousImages, restoredRuntime, currentImages,
                                        currentDeployment, Canonical())
    ensures r.contract == HandoverOf(previousRuntime, restoredRuntime, currentDeployment, Canonical())
  {
    var blockers := new BlockerList();
    blockers.Require(others, "another check failed");
    var previous := ValidateServices(previousRuntime, previousImages, currentDeployment, Canonical(), blockers);
    var restored := ValidateServices(restoredRuntime, currentImages, currentDeployment, Canonical(), blockers);
    var preserved := previous != map[] && previous == restored;
    blockers.Require(preserved, "capacity contracts differ");
    r := Rehearsal(blockers.entries == [],
                   Handover(1, SOURCE, SCOPE, currentDeployment, preserved, if preserved then restored else map[]));
  }

  predicate HandoverClean(h: Option<Handover>, deploymentId: Option<string>, counts: Counts) {
    && h.Some? && h.value.schemaVersion == 1 && h.value.source == SOURCE && h.value.scope == SCOPE
    && h.value.deploymentId == deploymentId && h.value.preserved && h.value.counts == counts
  }

  predicate DeploymentPasses(runtime: Runtime, images: Option<map<string, string>>, deploymentId: Option<string>,
                             rehearsal: Option<Handover>, keys: map<string, string>)
  {
    && ServicesClean(runtime, images, deploymentId, keys)
    && HandoverClean(rehearsal, deploymentId, Capacity(runtime, deploymentId, keys))
  }

  method EvaluateDeployment(runtime: Runtime, images: Option<map<string, string>>, deploymentId: Option<string>,
                            rehearsal: Option<Handover>, others: bool) returns (passed: bool)
    ensures passed <==> others && DeploymentPasses(runtime, images, deploymentId, rehearsal, Canonical())
  {
    var blockers := new BlockerList();
    blockers.Require(others, "another check failed");
    var capacity := ValidateServices(runtime, images, deploymentId, Canonical(), blockers);
    if rehearsal.None? {
      blockers.Require(false, "capacity_contract missing");
    } else {
      var h := rehearsal.value;
      blockers.Require(h.schemaVersion == 1 && h.source == SOURCE && h.scope == SCOPE, "capacity_contract mismatch");
      blockers.Require(h.deploymentId == deploymentId, "not bound to current infrastructure");
      blockers.Require(h.preserved, "capacity preservation is not proved");
      blockers.Require(h.counts == capacity, "differs from deployed runtime capacity");
    }
    passed := blockers.entries == [];
  }

  // ----- one row per service -----

  predicate OneRowEach(rows: seq<Row>, names: set<string>) {
    && (forall i :: 0 <= i < |rows| ==> rows[i].Row? && rows[i].name.Some? && rows[i].name.value in names)
    && (forall i, j :: 0 <= i < j < |rows| ==> rows[i].Row? && rows[j].Row? ==> rows[i].name != rows[j].name)
    && (forall name :: name in names ==> exists i :: 0 <= i < |rows| && rows[i].Row? && rows[i].name == Some(name))
  }

  lemma {:induction false} OneRowMore(rows: seq<Row>, names: set<string>, last: Row)
    requires OneRowEach(rows, names) && last.Row? && last.name.Some? && last.name.value !in names
    ensures OneRowEach(rows + [last], names + {last.name.value})
  {
    var all := rows + [last];
    assert all[|rows|] == last && forall i :: 0 <= i < |rows| ==> all[i] == rows[i];
    forall name | name in names
      ensures exists i :: 0 <= i < |all| && all[i].Row? && all[i].name == Some(name)
    {
      var i :| 0 <= i < |rows| && rows[i].Row? && rows[i].name == Some(name);
      assert all[i].name == Some(name);
    }
  }

  /** The index agrees with every row. */
  predicate Indexes<V(==)>(m: map<string, V>, rows: seq<Row>, field: Row -> V) {
    forall i :: 0 <= i < |rows| ==>
      rows[i].Row? && rows[i].name.Some? && rows[i].name.value in m && m[rows[i].name.value] == field(rows[i])
  }

  lemma {:induction false} IndexesMore<V>(m: map<string, V>, rows: seq<Row>, field: Row -> V, last: Row)
    requires Indexes(m, rows, field) && last.Row? && last.name.Some? && last.name.value !in m
    ensures Indexes(m[last.name.value := field(last)], rows + [last], field)
  {
  }

  lemma {:induction false} ByNameSize<V>(rows: seq<Row>, field: Row -> V)
    ensures |ByName(rows, field).Keys| <= |rows|
    ensures |ByName(rows, field).Keys| == |rows| ==>
              OneRowEach(rows, ByName(rows, field).Keys) && Indexes(ByName(rows, field), rows, field)
  {
    if rows != [] {
      var front, last := rows[..|rows| - 1], rows[|rows| - 1];
      assert rows == front + [last];
      ByNameSize(front, field);
      var before := ByName(front, field);
      if last.Row? && last.name.Some? {
        assert ByName(rows, field).Keys == before.Keys + {last.name.value};
        if |ByName(rows, field).Keys| == |rows| {
          assert last.name.value !in before.Keys;
          OneRowMore(front, before.Keys, last);
          IndexesMore(before, front, field, last);
        }
      }
    }
  }

  /** Pigeonhole: a last-wins index with as many names as there are rows has overwritten nothing. */
  lemma {:induction false} NothingOverwritten<V>(rows: seq<Row>, field: Row -> V, names: set<string>)
    requires |rows| == |names| && ByName(rows, field).Keys == names
    ensures OneRowEach(rows, names) && Indexes(ByName(rows, field), rows, field)
  {
    ByNameSize(rows, field);
  }

  /** The counts a row has, in words: it wants and has the same positive number. */
  predicate RowCounts(row: Row, counts: Counts) {
    && row.Row? && row.name.Some? && row.name.value in counts
    && counts[row.name.value] > 0
    && row.expected == Some(counts[row.name.value]) && row.desired == Some(counts[row.name.value])
  }

  /** The image and the image key a row has. */
  predicate RowRuns(row: Row, images: map<string, string>, keys: map<string, string>) {
    && row.Row? && row.name.Some? && row.name.value in keys
    && row.imageKey == Some(keys[row.name.value]) && row.image == Lookup(images, row.name)
  }

  lemma {:induction false} GivenIndexes<V>(rows: seq<Row>, field: Row -> Option<V>, m: map<string, V>)
    requires |rows| == |m| && ByName(rows, field) == Given(m)
    ensures OneRowEach(rows, m.Keys)
    ensures forall i :: 0 <= i < |rows| ==>
              rows[i].Row? && rows[i].name.Some? && rows[i].name.value in m &&
                  field(rows[i]) == Some(m[rows[i].name.value])
  {
    assert |m.Keys| == |m| && ByName(rows, field).Keys == m.Keys;
    NothingOverwritten(rows, field, m.Keys);
  }

  lemma {:induction false} CleanRows(rows: seq<Row>, images: map<string, string>, keys: map<string, string>,
                                     counts: Counts)
    requires |rows| == |keys| && images.Keys == keys.Keys && RowsMatch(rows, images, keys)
    requires CountsClean(Some(counts), keys.Keys) && ByName(rows, ExpectedOf) == Given(counts)
    ensures OneRowEach(rows, keys.Keys)
    ensures forall i :: 0 <= i < |rows| ==> RowCounts(rows[i], counts) && RowRuns(rows[i], images, keys)
  {
    GivenIndexes(rows, ImageKeyOf, keys);
    assert |counts.Keys| == |counts| && |images.Keys| == |images| && |keys.Keys| == |keys|;
    GivenIndexes(rows, ExpectedOf, counts);
    GivenIndexes(rows, ImageOf, images);
    forall i | 0 <= i < |rows|
      ensures RowCounts(rows[i], counts) && RowRuns(rows[i], images, keys)
    {
      CleanRow(rows[i], images, keys, counts);
    }
  }

  lemma {:induction false} CleanRow(row: Row, images: map<string, string>, keys: map<string, string>, counts: Counts)
    requires row.Row? && row.name.Some? && RowClean(row, images)
    requires row.name.value in keys && row.name.value in counts && row.name.value in images
    requires row.imageKey == Some(keys[row.name.value]) && row.expected == Some(counts[row.name.value])
    requires row.image == Some(images[row.name.value]) && counts[row.name.value] > 0
    ensures RowCounts(row, counts) && RowRuns(row, images, keys)
  {
  }

  /** Services without a blocker: one row for each, with the same positive count in row and contract, and with
      the image the manifest names for it. */
  lemma {:induction false} CleanServices(runtime: Runtime, images: Option<map<string, string>>,
                                         deploymentId: Option<string>, keys: map<string, string>)
    requires ServicesClean(runtime, images, deploymentId, keys)
    ensures OneRowEach(runtime.services.value, keys.Keys)
    ensures forall i :: 0 <= i < |runtime.services.value| ==>
              && RowCounts(runtime.services.value[i], Capacity(runtime, deploymentId, keys))
              && RowRuns(runtime.services.value[i], ServiceImages(images, keys), keys)
    ensures Capacity(runtime, deploymentId, keys).Keys == keys.Keys
  {
    CleanRows(runtime.services.value, ServiceImages(images, keys), keys, runtime.contract.value.counts.value);
  }

  /** A passing deployment decision: each canonical service has exactly one row, and its count is one positive
      number in the row, in the capacity contract and in the rollback rehearsal. */
  lemma {:induction false} DeploymentAgrees(runtime: Runtime, images: Option<map<string, string>>,
                                            deploymentId: Option<string>, rehearsal: Option<Handover>,
                                            keys: map<string, string>)
    requires DeploymentPasses(runtime, images, deploymentId, rehearsal, keys)
    ensures OneRowEach(runtime.services.value, keys.Keys)
    ensures rehearsal.value.counts == runtime.contract.value.counts.value && rehearsal.value.counts.Keys == keys.Keys
    ensures forall i :: 0 <= i < |runtime.services.value| ==>
              RowCounts(runtime.services.value[i], rehearsal.value.counts)
  {
    CleanServices(runtime, images, deploymentId, keys);
  }

  /** Rehearsal and deployment together: when both pass on their own runtimes, all three runtimes run every service
      at the same positive count. */
  lemma {:induction false} RehearsedAndDeployed(previous: Runtime, previousImages: Option<map<string, string>>,
                                                restored: Runtime, deployed: Runtime,
                                                images: Option<map<string, string>>,
                                                deploymentId: Option<string>, keys: map<string, string>)
    requires RehearsalPasses(previous, previousImages, restored, images, deploymentId, keys)
    requires DeploymentPasses(deployed, images, deploymentId, Some(HandoverOf(previous, restored, deploymentId, keys)),
                              keys)
    ensures var counts := deployed.contract.value.counts.value;
            && (forall i :: 0 <= i < |previous.services.value| ==> RowCounts(previous.services.value[i], counts))
            && (forall i :: 0 <= i < |restored.services.value| ==> RowCounts(restored.services.value[i], counts))
            && (forall i :: 0 <= i < |deployed.services.value| ==> RowCounts(deployed.services.value[i], counts))
  {
    CleanServices(previous, previousImages, deploymentId, keys);
    CleanServices(restored, images, deploymentId, keys);
    DeploymentAgrees(deployed, images, deploymentId, Some(HandoverOf(previous, restored, deploymentId, keys)), keys);
  }
}
