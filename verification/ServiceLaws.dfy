/** What clean services and the two decisions about them mean, row by row and in the fields of the contract. */
module ServiceLaws {
  import opened Schemas
  import opened Services

  /** The row of one service: it runs its image under its key, wants and has the same positive number, and is
      steady. */
  predicate Runs(row: Row, name: string, key: string, image: string, n: int) {
    && row.Row? && row.name == Some(name) && row.imageKey == Some(key)
    && row.image == Some(image) && row.expectedImage == Some(image) && row.imageMatches
    && n > 0 && row.expected == Some(n) && row.desired == Some(n) && row.capacityMatches && row.steady
  }

  predicate HasRow(rows: seq<Row>, name: string, key: string, image: string, n: int) {
    exists i :: 0 <= i < |rows| && Runs(rows[i], name, key, image, n)
  }

  /** As many rows as services, and one for each that runs the image of its key at its count. */
  predicate AllRun(rows: seq<Row>, keys: map<string, string>, images: map<string, string>, counts: Counts) {
    && |rows| == |keys|
    && forall name :: name in keys ==>
         keys[name] in images && name in counts && HasRow(rows, name, keys[name], images[keys[name]], counts[name])
  }

  /** The contract of this deployment, with a count for each service. */
  predicate Contracted(contract: Option<Contract>, deploymentId: Option<string>, names: set<string>) {
    && contract.Some? && contract.value.schemaVersion == 1
    && contract.value.source == "terraform-live-state"
    && contract.value.scope == "production-app-service-desired-counts"
    && contract.value.deploymentId == deploymentId
    && contract.value.counts.Some? && contract.value.counts.value.Keys == names
  }

  predicate InOrder(runtime: Runtime, images: Option<map<string, string>>, deploymentId: Option<string>,
                    keys: map<string, string>)
  {
    && images.Some? && images.value.Keys == keys.Values
    && Contracted(runtime.contract, deploymentId, keys.Keys)
    && runtime.services.Some? && AllRun(runtime.services.value, keys, images.value, runtime.contract.value.counts.value)
  }

  lemma {:induction false} NameOccurs<V>(rows: seq<Row>, field: Row -> V, i: nat)
    requires i < |rows| && rows[i].Row? && rows[i].name.Some?
    ensures rows[i].name.value in ByName(rows, field)
  {
    var n := |rows| - 1;
    if i < n {
      assert rows[..n][i] == rows[i];
      NameOccurs(rows[..n], field, i);
    }
  }

  /** Names that all occur, as many as rows: nothing else occurs, and nothing twice. */
  lemma {:induction false} NamesFill<V>(rows: seq<Row>, field: Row -> V, names: set<string>)
    requires |rows| == |names|
    requires forall name :: name in names ==> exists i :: 0 <= i < |rows| && rows[i].Row? && rows[i].name == Some(name)
    ensures ByName(rows, field).Keys == names
    ensures OneRowEach(rows, names) && Indexes(ByName(rows, field), rows, field)
  {
    ByNameSize(rows, field);
    var keys := ByName(rows, field).Keys;
    forall name | name in names
      ensures name in keys
    {
      var i :| 0 <= i < |rows| && rows[i].Row? && rows[i].name == Some(name);
      NameOccurs(rows, field, i);
    }
    SubsetOfSize(names, keys);
    NothingOverwritten(rows, field, names);
  }

  lemma {:induction false} SubsetOfSize(a: set<string>, b: set<string>)
    requires a <= b && |b| <= |a|
    ensures a == b
  {
    assert |b - a| == |b| - |a|;
  }

  lemma {:induction false} RowOfName(rows: seq<Row>, keys: map<string, string>, images: map<string, string>,
                                     counts: Counts, i: nat)
    requires AllRun(rows, keys, images, counts) && OneRowEach(rows, keys.Keys) && i < |rows|
    ensures rows[i].Row? && rows[i].name.Some? && rows[i].name.value in keys
    ensures var name := rows[i].name.value;
            && keys[name] in images && name in counts
            && Runs(rows[i], name, keys[name], images[keys[name]], counts[name])
  {
    var name := rows[i].name.value;
    var j :| 0 <= j < |rows| && Runs(rows[j], name, keys[name], images[keys[name]], counts[name]);
    assert i < j || j < i || i == j;
  }

  /** A field that every row has as the map says is indexed as the map says. */
  lemma {:induction false} IndexIs<V>(rows: seq<Row>, field: Row -> Option<V>, m: map<string, V>)
    requires ByName(rows, field).Keys == m.Keys && OneRowEach(rows, m.Keys)
    requires Indexes(ByName(rows, field), rows, field)
    requires forall i :: 0 <= i < |rows| && rows[i].Row? && rows[i].name.Some? && rows[i].name.value in m ==>
               field(rows[i]) == Some(m[rows[i].name.value])
    ensures ByName(rows, field) == Services.Given(m)
  {
    forall name | name in m
      ensures ByName(rows, field)[name] == Some(m[name])
    {
      var i :| 0 <= i < |rows| && rows[i].Row? && rows[i].name == Some(name);
    }
  }

  lemma {:induction false} RunningNames(rows: seq<Row>, keys: map<string, string>, images: map<string, string>,
                                        counts: Counts)
    requires AllRun(rows, keys, images, counts)
    ensures |rows| == |keys.Keys|
    ensures forall name :: name in keys ==> exists i :: 0 <= i < |rows| && rows[i].Row? && rows[i].name == Some(name)
  {
    forall name | name in keys
      ensures exists i :: 0 <= i < |rows| && rows[i].Row? && rows[i].name == Some(name)
    {
      var i :| 0 <= i < |rows| && Runs(rows[i], name, keys[name], images[keys[name]], counts[name]);
    }
  }

  /** The row is of some service, and runs as that service does. */
  predicate RunsAs(row: Row, keys: map<string, string>, images: map<string, string>, counts: Counts) {
    && row.Row? && row.name.Some? && row.name.value in keys && row.name.value in counts
    && keys[row.name.value] in images
    && Runs(row, row.name.value, keys[row.name.value], images[keys[row.name.value]], counts[row.name.value])
  }

  lemma {:induction false} EachRuns(rows: seq<Row>, keys: map<string, string>, images: map<string, string>,
                                    counts: Counts)
    requires AllRun(rows, keys, images, counts)
    ensures forall i :: 0 <= i < |rows| ==> RunsAs(rows[i], keys, images, counts)
  {
    RunningNames(rows, keys, images, counts);
    NamesFill(rows, ImageOf, keys.Keys);
    forall i | 0 <= i < |rows|
      ensures RunsAs(rows[i], keys, images, counts)
    {
      RowOfName(rows, keys, images, counts, i);
    }
  }

  lemma {:induction false} RunningIndex<V>(rows: seq<Row>, keys: map<string, string>, images: map<string, string>,
                                           counts: Counts, field: Row -> Option<V>, m: map<string, V>)
    requires AllRun(rows, keys, images, counts) && m.Keys == keys.Keys
    requires forall row :: RunsAs(row, keys, images, counts) ==> field(row) == Some(m[row.name.value])
    ensures ByName(rows, field) == Services.Given(m)
  {
    RunningNames(rows, keys, images, counts);
    NamesFill(rows, field, keys.Keys);
    EachRuns(rows, keys, images, counts);
    IndexIs(rows, field, m);
  }

  lemma {:induction false} RunningClean(rows: seq<Row>, keys: map<string, string>, images: map<string, string>,
                                        counts: Counts, services: map<string, string>)
    requires AllRun(rows, keys, images, counts) && services.Keys == keys.Keys
    requires forall name :: name in keys ==> keys[name] in images && services[name] == images[keys[name]]
    ensures RowsClean(rows, services)
  {
    EachRuns(rows, keys, images, counts);
    forall i | 0 <= i < |rows|
      ensures RowClean(rows[i], services)
    {
      assert RunsAs(rows[i], keys, images, counts);
    }
  }

  /** Rows that all run are what the checks on images, keys and counts ask for. */
  lemma {:induction false} RunningMatches(rows: seq<Row>, keys: map<string, string>, images: map<string, string>,
                                          counts: Counts, services: map<string, string>)
    requires AllRun(rows, keys, images, counts) && counts.Keys == keys.Keys && services.Keys == keys.Keys
    requires forall name :: name in keys ==> keys[name] in images && services[name] == images[keys[name]]
    ensures RowsMatch(rows, services, keys) && ByName(rows, ExpectedOf) == Services.Given(counts)
  {
    RunningIndex(rows, keys, images, counts, ImageOf, services);
    RunningIndex(rows, keys, images, counts, ImageKeyOf, keys);
    RunningIndex(rows, keys, images, counts, ExpectedOf, counts);
    RunningClean(rows, keys, images, counts, services);
  }

  lemma {:induction false} CleanRuns(row: Row, keys: map<string, string>, images: map<string, string>, counts: Counts,
                                     services: map<string, string>)
    requires RowClean(row, services) && row.Row? && row.name.Some? && row.name.value in keys
    requires keys[row.name.value] in images && row.name.value in services && row.name.value in counts
    requires services[row.name.value] == images[keys[row.name.value]]
    requires row.image == Some(services[row.name.value]) && row.imageKey == Some(keys[row.name.value])
    requires row.expected == Some(counts[row.name.value])
    ensures Runs(row, row.name.value, keys[row.name.value], images[keys[row.name.value]], counts[row.name.value])
  {
  }

  lemma {:induction false} MatchingRuns(rows: seq<Row>, keys: map<string, string>, images: map<string, string>,
                                        counts: Counts, services: map<string, string>)
    requires |rows| == |keys| && counts.Keys == keys.Keys && services.Keys == keys.Keys
    requires forall name :: name in keys ==> keys[name] in images && services[name] == images[keys[name]]
    requires RowsMatch(rows, services, keys) && ByName(rows, ExpectedOf) == Services.Given(counts)
    ensures AllRun(rows, keys, images, counts)
  {
    assert |counts.Keys| == |counts| && |services.Keys| == |services| && |keys.Keys| == |keys|;
    GivenIndexes(rows, ImageKeyOf, keys);
    GivenIndexes(rows, ImageOf, services);
    GivenIndexes(rows, ExpectedOf, counts);
    forall name | name in keys
      ensures HasRow(rows, name, keys[name], images[keys[name]], counts[name])
    {
      var i :| 0 <= i < |rows| && rows[i].Row? && rows[i].name == Some(name);
      CleanRuns(rows[i], keys, images, counts, services);
    }
  }

  lemma {:induction false} ImagesAre(images: map<string, string>, keys: map<string, string>)
    requires images.Keys == keys.Values
    ensures ServiceImages(Some(images), keys).Keys == keys.Keys
    ensures forall name :: name in keys ==>
              keys[name] in images && ServiceImages(Some(images), keys)[name] == images[keys[name]]
  {
    forall name | name in keys
      ensures keys[name] in images
    {
      assert keys[name] in keys.Values;
    }
  }

  lemma {:induction false} PositiveCounts(rows: seq<Row>, keys: map<string, string>, images: map<string, string>,
                                          counts: Counts)
    requires AllRun(rows, keys, images, counts) && counts.Keys == keys.Keys
    ensures CountsClean(Some(counts), keys.Keys)
  {
    forall name | name in counts
      ensures counts[name] > 0
    {
      var i :| 0 <= i < |rows| && Runs(rows[i], name, keys[name], images[keys[name]], counts[name]);
    }
  }

  /** A runtime's services are clean if and only if the manifest lists the right images, the contract is of this
      deployment and counts each service, and there is one row for each, in order. */
  lemma {:induction false} CleanExactly(runtime: Runtime, images: Option<map<string, string>>,
                                        deploymentId: Option<string>, keys: map<string, string>)
    ensures ServicesClean(runtime, images, deploymentId, keys) <==> InOrder(runtime, images, deploymentId, keys)
  {
    if ImagesClean(images, keys) && Contracted(runtime.contract, deploymentId, keys.Keys) && runtime.services.Some? {
      var rows, counts := runtime.services.value, runtime.contract.value.counts.value;
      ImagesAre(images.value, keys);
      if AllRun(rows, keys, images.value, counts) {
        RunningMatches(rows, keys, images.value, counts, ServiceImages(images, keys));
        PositiveCounts(rows, keys, images.value, counts);
      }
      if ServicesClean(runtime, images, deploymentId, keys) {
        MatchingRuns(rows, keys, images.value, counts, ServiceImages(images, keys));
      }
    }
  }

  /** The seven services; each runs the image of its own name, except that two share one. */
  lemma {:induction false} SevenServices()
    ensures Canonical().Keys == {"api", "agent-runtime", "model-gateway", "tool-gateway", "worker-media",
                                 "outbox-dispatcher", "sandbox-runtime"}
    ensures forall name :: name in Canonical() ==>
              Canonical()[name] == (if name == "outbox-dispatcher" then "worker-media" else name)
  {
  }

  lemma {:induction false} CapacityIs(runtime: Runtime, images: Option<map<string, string>>,
                                      deploymentId: Option<string>, keys: map<string, string>)
    requires InOrder(runtime, images, deploymentId, keys)
    ensures Capacity(runtime, deploymentId, keys) == runtime.contract.value.counts.value
  {
    CleanExactly(runtime, images, deploymentId, keys);
  }

  /** As many rows as services, and one for each that expects its count. */
  predicate AllExpect(rows: seq<Row>, counts: Counts, size: nat) {
    && |rows| == size
    && forall name :: name in counts ==>
         counts[name] > 0 && exists i :: 0 <= i < |rows| && Expects(rows[i], name, counts[name])
  }

  predicate Expects(row: Row, name: string, n: int) {
    row.Row? && row.name == Some(name) && row.expected == Some(n)
  }

  lemma {:induction false} ExpectingRow(rows: seq<Row>, counts: Counts, i: nat)
    requires AllExpect(rows, counts, |counts|) && OneRowEach(rows, counts.Keys) && i < |rows|
    ensures rows[i].Row? && rows[i].name.Some? && rows[i].name.value in counts
    ensures rows[i].expected == Some(counts[rows[i].name.value])
  {
    var name := rows[i].name.value;
    var j :| 0 <= j < |rows| && Expects(rows[j], name, counts[name]);
    assert i < j || j < i || i == j;
  }

  lemma {:induction false} ExpectedExactly(rows: seq<Row>, counts: Counts)
    requires |rows| == |counts|
    ensures (forall name :: name in counts ==> counts[name] > 0) && ByName(rows, ExpectedOf) == Services.Given(counts)
            <==> AllExpect(rows, counts, |counts|)
  {
    assert |counts.Keys| == |counts|;
    if AllExpect(rows, counts, |counts|) {
      forall name | name in counts.Keys
        ensures exists i :: 0 <= i < |rows| && rows[i].Row? && rows[i].name == Some(name)
      {
        var i :| 0 <= i < |rows| && Expects(rows[i], name, counts[name]);
      }
      NamesFill(rows, ExpectedOf, counts.Keys);
      forall i | 0 <= i < |rows|
        ensures rows[i].Row? && rows[i].name.Some? && rows[i].name.value in counts
        ensures rows[i].expected == Some(counts[rows[i].name.value])
      {
        ExpectingRow(rows, counts, i);
      }
      IndexIs(rows, ExpectedOf, counts);
    }
    if ByName(rows, ExpectedOf) == Services.Given(counts) {
      GivenIndexes(rows, ExpectedOf, counts);
      forall name | name in counts
        ensures exists i :: 0 <= i < |rows| && Expects(rows[i], name, counts[name])
      {
        var i :| 0 <= i < |rows| && rows[i].Row? && rows[i].name == Some(name);
        assert Expects(rows[i], name, counts[name]);
      }
    }
  }

  /** The capacity of a runtime: the counts of its contract, when the contract is of this deployment and the rows
      expect what it says; otherwise nothing. */
  lemma {:induction false} CapacityExactly(runtime: Runtime, deploymentId: Option<string>, keys: map<string, string>)
    ensures Capacity(runtime, deploymentId, keys) ==
            if runtime.services.Some? && Contracted(runtime.contract, deploymentId, keys.Keys)
               && AllExpect(runtime.services.value, runtime.contract.value.counts.value, |keys|)
            then runtime.contract.value.counts.value else map[]
  {
    if && runtime.services.Some? && Contracted(runtime.contract, deploymentId, keys.Keys)
       && |runtime.services.value| == |keys|
    {
      var counts := runtime.contract.value.counts.value;
      assert |counts.Keys| == |counts| && |keys.Keys| == |keys|;
      ExpectedExactly(runtime.services.value, counts);
    }
  }

  /** What a rehearsal hands on: a contract of this deployment, kept exactly when both capacities are the same and not
      empty, and empty otherwise. */
  lemma {:induction false} HandoverMeans(previous: Runtime, restored: Runtime, deploymentId: Option<string>,
                                         keys: map<string, string>)
    ensures var h := HandoverOf(previous, restored, deploymentId, keys);
            var before, after := Capacity(previous, deploymentId, keys), Capacity(restored, deploymentId, keys);
            && h.schemaVersion == 1 && h.source == "terraform-live-state"
            && h.scope == "production-app-service-desired-counts" && h.deploymentId == deploymentId
            && (h.preserved <==> before == after && |before| > 0)
            && h.counts == (if before == after then before else map[])
  {
  }

  /** A deployment passes if and only if its services are in order and the rehearsal handed on, for this deployment
      and as preserved, the same counts. */
  lemma {:induction false} DeploymentExactly(runtime: Runtime, images: Option<map<string, string>>,
                                             deploymentId: Option<string>, rehearsal: Option<Handover>,
                                             keys: map<string, string>)
    ensures DeploymentPasses(runtime, images, deploymentId, rehearsal, keys) <==>
            && InOrder(runtime, images, deploymentId, keys)
            && rehearsal.Some? && rehearsal.value.schemaVersion == 1
            && rehearsal.value.source == "terraform-live-state"
            && rehearsal.value.scope == "production-app-service-desired-counts"
            && rehearsal.value.deploymentId == deploymentId && rehearsal.value.preserved
            && rehearsal.value.counts == runtime.contract.value.counts.value
  {
    CleanExactly(runtime, images, deploymentId, keys);
    if InOrder(runtime, images, deploymentId, keys) {
      CapacityIs(runtime, images, deploymentId, keys);
    }
  }

  /** A rehearsal passes if and only if both runtimes are in order with the same counts, and there are any. */
  lemma {:induction false} RehearsalExactly(previous: Runtime, previousImages: Option<map<string, string>>,
                                            restored: Runtime, images: Option<map<string, string>>,
                                            deploymentId: Option<string>, keys: map<string, string>)
    ensures RehearsalPasses(previous, previousImages, restored, images, deploymentId, keys) <==>
            && InOrder(previous, previousImages, deploymentId, keys) && InOrder(restored, images, deploymentId, keys)
            && previous.contract.value.counts.value == restored.contract.value.counts.value
            && |keys| > 0
  {
    CleanExactly(previous, previousImages, deploymentId, keys);
    CleanExactly(restored, images, deploymentId, keys);
    if InOrder(previous, previousImages, deploymentId, keys) && InOrder(restored, images, deploymentId, keys) {
      CapacityIs(previous, previousImages, deploymentId, keys);
      CapacityIs(restored, images, deploymentId, keys);
      var counts := previous.contract.value.counts.value;
      assert |counts.Keys| == |counts| && |keys.Keys| == |keys|;
    }
  }

  /** What a rehearsal that passes hands on is what a deployment at the same counts asks for, and nothing else is. */
  lemma {:induction false} HandoverFits(previous: Runtime, previousImages: Option<map<string, string>>,
                                        restored: Runtime, deployed: Runtime, images: Option<map<string, string>>,
                                        deploymentId: Option<string>, keys: map<string, string>)
    requires RehearsalPasses(previous, previousImages, restored, images, deploymentId, keys)
    ensures DeploymentPasses(deployed, images, deploymentId,
                             Some(HandoverOf(previous, restored, deploymentId, keys)), keys) <==>
            && InOrder(deployed, images, deploymentId, keys)
            && deployed.contract.value.counts == restored.contract.value.counts
  {
    RehearsalExactly(previous, previousImages, restored, images, deploymentId, keys);
    CapacityIs(restored, images, deploymentId, keys);
    DeploymentExactly(deployed, images, deploymentId, Some(HandoverOf(previous, restored, deploymentId, keys)), keys);
  }
}
