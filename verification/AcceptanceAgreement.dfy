/** What the assembler emits against what the gate accepts: two validators written separately, over a file
    store that the first one changes before the second one reads it. */
module AcceptanceAgreement {
  import opened Schemas
  import opened Text
  import opened FrozenFiles
  import opened Authorization
  import opened AcceptanceFiles
  import A = AcceptanceAssembler
  import G = AcceptanceGate

  // ----- what the two writes may disturb -----

  /** The file at this path still has the digest it had. */
  predicate Kept(files: Store, after: Store, digest: Doc -> string, path: string)
    requires path in files && path in after
  {
    digest(after[path]) == digest(files[path])
  }

  predicate RefsKept(files: Store, after: Store, digest: Doc -> string, refs: seq<Ref>) {
    forall i :: 0 <= i < |refs| && refs[i].path in files && refs[i].path in after ==>
      Kept(files, after, digest, refs[i].path)
  }

  predicate UpstreamKept(files: Store, after: Store, digest: Doc -> string, path: string, outputs: set<string>) {
    && path !in outputs
    && (path in files && files[path].DecisionDoc? && files[path].decision.refs.Some? ==>
          RefsKept(files, after, digest, files[path].decision.refs.value))
  }

  predicate UpstreamsKept(files: Store, after: Store, digest: Doc -> string, gates: set<string>,
                          paths: map<string, string>,
                          outputs: set<string>)
  {
    forall name :: name in gates && name in paths ==> UpstreamKept(files, after, digest, paths[name], outputs)
  }

  predicate ItemKept(files: Store, after: Store, digest: Doc -> string, item: Item) {
    item.status == "PASS" && item.refs.Some? ==> RefsKept(files, after, digest, item.refs.value)
  }

  predicate ItemsKept(files: Store, after: Store, digest: Doc -> string, scenarios: seq<Scenario>, items: seq<Item>)
    requires A.Matched(scenarios, items)
  {
    forall k :: 0 <= k < |scenarios| ==> ItemKept(files, after, digest, ItemsById(items)[scenarios[k].id])
  }

  function Outputs(releaseId: string): set<string> {
    {A.EvidencePath(releaseId), A.ReleasePath(releaseId)}
  }

  /** The two writes left everything that the gate will look at as it was. */
  predicate Undisturbed(files: Store, digest: Doc -> string, matrix: Matrix, args: A.Args, v: A.Validators)
    requires A.Assemblable(files, digest, matrix, args, v)
  {
    var after := A.Assembled(files, digest, matrix, args, v);
    && UpstreamsKept(files, after, digest, UPSTREAM_GATES, args.upstreamPaths, Outputs(args.releaseId))
    && ItemsKept(files, after, digest, matrix.scenarios.value, files[args.scenarioPath].results.items.value)
  }

  /** A store that differs from another one only at some paths, and lost none. */
  predicate ChangedOnly(files: Store, after: Store, outputs: set<string>) {
    && files.Keys <= after.Keys
    && forall path :: path in files && path !in outputs ==> after[path] == files[path]
  }

  // ----- references -----

  lemma {:induction false} RefAfter(files: Store, after: Store, digest: Doc -> string, ref: Ref, roots: set<string>)
    requires RefHolds(files, digest, ref, roots) && ref.path in after
    ensures RefHolds(after, digest, ref, roots) <==> Kept(files, after, digest, ref.path)
  {
  }

  lemma {:induction false} RefsAfter(files: Store, after: Store, digest: Doc -> string, refs: seq<Ref>)
    requires AllRefsHold(files, digest, refs) && files.Keys <= after.Keys
    ensures AllRefsHold(after, digest, refs) <==> RefsKept(files, after, digest, refs)
  {
    forall i | 0 <= i < |refs|
      ensures RefHolds(after, digest, refs[i], EVIDENCE_ROOTS) <==>
              (refs[i].path in files && refs[i].path in after ==> Kept(files, after, digest, refs[i].path))
    {
      RefAfter(files, after, digest, refs[i], EVIDENCE_ROOTS);
    }
  }

  /** A reference written with its digest in lower case holds exactly when the original one does. */
  lemma {:induction false} NormalRefHolds(files: Store, digest: Doc -> string, ref: Ref, roots: set<string>)
    ensures RefHolds(files, digest, Ref(ref.path, Lower(ref.sha256)), roots) <==> RefHolds(files, digest, ref, roots)
  {
    LowerTwice(ref.sha256);
  }

  lemma {:induction false} NormalRefsHold(files: Store, digest: Doc -> string, refs: seq<Ref>)
    ensures AllRefsHold(files, digest, A.NormalRefs(Some(refs))) <==> AllRefsHold(files, digest, refs)
  {
    forall i | 0 <= i < |refs|
      ensures RefHolds(files, digest, A.NormalRefs(Some(refs))[i], EVIDENCE_ROOTS) <==>
              RefHolds(files, digest, refs[i], EVIDENCE_ROOTS)
    {
      NormalRefHolds(files, digest, refs[i], EVIDENCE_ROOTS);
    }
  }

  /** A file below a directory whose name starts with r has a concrete path, and freezing it gives a reference
      that holds. */
  lemma {:induction false} FrozenHolds(files: Store, digest: Doc -> string, path: string, root: string)
    requires path in files && Under(path, root) && root != "" && root[0] == 'r'
    requires Sha256(digest(files[path]))
    ensures RefHolds(files, digest, Freeze(files, digest, path), {root})
  {
    assert path[0] == 'r';
    PresentByHead(path);
    LowerHexIsLower(digest(files[path]));
  }

  // ----- upstream decisions -----

  /** An upstream decision the assembler took is one the gate takes, provided the writes left it alone and the
      candidate it names is the one the release names. */
  lemma {:induction false} UpstreamAgrees(files: Store, after: Store, digest: Doc -> string, release: Release,
                                          name: string,
                                          path: string, rc: Identity, deploymentId: string, outputs: set<string>)
    requires forall d :: Sha256(digest(d))
    requires A.UpstreamValid(files, digest, name, path, rc, deploymentId)
    requires ChangedOnly(files, after, outputs) && (path in outputs ==> path in after && !after[path].DecisionDoc?)
    requires name in release.upstream && release.upstream[name] == Freeze(files, digest, path)
    ensures G.UpstreamClean(after, digest, release, name) <==>
            UpstreamKept(files, after, digest, path, outputs) && (name in G.IDENTITY_GATES ==> release.rc == Some(rc))
  {
    FrozenHolds(files, digest, path, "reports");
    RefAfter(files, after, digest, Freeze(files, digest, path), {"reports"});
    RefsAfter(files, after, digest, files[path].decision.refs.value);
  }

  lemma {:induction false} UpstreamsAgree(files: Store, after: Store, digest: Doc -> string, release: Release,
                                          gates: set<string>, names: seq<string>, paths: map<string, string>,
                                          rc: Identity, deploymentId: string, outputs: set<string>)
    requires forall d :: Sha256(digest(d))
    requires A.UpstreamsValid(files, digest, gates, paths, rc, deploymentId)
    requires ChangedOnly(files, after, outputs)
    requires forall path :: path in outputs ==> path in after && !after[path].DecisionDoc?
    requires release.upstream == A.FrozenUpstreams(files, digest, gates, paths)
    requires gates == set name | name in names
    ensures G.UpstreamsClean(after, digest, release, names) <==>
            UpstreamsKept(files, after, digest, gates, paths, outputs)
            && forall name :: name in gates && name in G.IDENTITY_GATES ==> release.rc == Some(rc)
  {
    forall name | name in gates
      ensures G.UpstreamClean(after, digest, release, name) <==>
              UpstreamKept(files, after, digest, paths[name], outputs)
              && (name in G.IDENTITY_GATES ==> release.rc == Some(rc))
    {
      UpstreamAgrees(files, after, digest, release, name, paths[name], rc, deploymentId, outputs);
    }
    forall name | name in gates
      ensures exists i :: 0 <= i < |names| && names[i] == name
    {
    }
  }

  // ----- scenario items -----

  lemma {:induction false} NormalGapComplete(gap: Gap)
    requires GapComplete(Some(gap))
    ensures GapComplete(Some(A.NormalGap(gap)))
  {
  }

  /** A result the assembler releases is, once written, one the gate accepts, provided its references were left
      alone. */
  lemma {:induction false} ItemAgrees(files: Store, after: Store, digest: Doc -> string, scenario: Scenario, item: Item)
    requires A.Releasable(files, digest, scenario, item) && files.Keys <= after.Keys
    ensures G.ItemClean(after, digest, scenario, A.NormalItem(item)) <==> ItemKept(files, after, digest, item)
  {
    if item.status in POSTPONED {
      NormalGapComplete(item.gap.value);
    }
    if item.status == "PASS" {
      RefsAfter(files, after, digest, item.refs.value);
      NormalRefsHold(after, digest, item.refs.value);
    }
  }

  lemma {:induction false} NormalItemsIndexed(scenarios: seq<Scenario>, items: seq<Item>)
    requires A.Matched(scenarios, items)
    ensures NoRepeatedItems(A.NormalItems(scenarios, items))
    ensures ItemsById(A.NormalItems(scenarios, items)).Keys == G.ScenarioById(scenarios).Keys
    ensures forall k :: 0 <= k < |scenarios| ==>
              && scenarios[k].id in ItemsById(A.NormalItems(scenarios, items))
              && ItemsById(A.NormalItems(scenarios, items))[scenarios[k].id] ==
                   A.NormalItem(ItemsById(items)[scenarios[k].id])
  {
    var normal := A.NormalItems(scenarios, items);
    forall k | 0 <= k < |scenarios|
      ensures normal[k].id == scenarios[k].id
    {
      ItemsByIdKeys(items, scenarios[k].id);
    }
    forall k | 0 <= k < |scenarios|
      ensures scenarios[k].id in ItemsById(normal) && ItemsById(normal)[scenarios[k].id] == normal[k]
    {
      ItemsByIdAt(normal, k);
    }
    forall id
      ensures id in ItemsById(normal) <==> id in G.ScenarioById(scenarios)
    {
      ItemsByIdKeys(normal, id);
      G.ScenarioByIdKeys(scenarios, id);
    }
  }

  lemma {:induction false} ItemsAgree(files: Store, after: Store, digest: Doc -> string, scenarios: seq<Scenario>,
                                      items: seq<Item>)
    requires A.Matched(scenarios, items) && A.ScenariosReleasable(files, digest, scenarios, items)
    requires files.Keys <= after.Keys
    ensures G.ItemsClean(after, digest, scenarios, A.NormalItems(scenarios, items)) <==>
            ItemsKept(files, after, digest, scenarios, items)
  {
    var normal := A.NormalItems(scenarios, items);
    NormalItemsIndexed(scenarios, items);
    var byScenario, byItem := G.ScenarioById(scenarios), ItemsById(normal);
    forall k | 0 <= k < |scenarios|
      ensures scenarios[k].id in byScenario && byScenario[scenarios[k].id] == scenarios[k]
      ensures G.ItemClean(after, digest, scenarios[k], byItem[scenarios[k].id]) <==>
              ItemKept(files, after, digest, ItemsById(items)[scenarios[k].id])
    {
      G.ScenarioByIdAt(scenarios, k);
      ItemAgrees(files, after, digest, scenarios[k], ItemsById(items)[scenarios[k].id]);
    }
    forall id | id in byScenario
      ensures exists k :: 0 <= k < |scenarios| && scenarios[k].id == id
    {
      G.ScenarioByIdKeys(scenarios, id);
    }
  }

  // ----- the whole package -----

  lemma {:induction false} ManifestAgrees(files: Store, digest: Doc -> string, matrix: Matrix, args: A.Args,
                                          v: A.Validators)
    requires forall d :: Sha256(digest(d))
    requires A.Assemblable(files, digest, matrix, args, v)
    ensures G.ManifestClean(A.ReleaseOf(files, digest, matrix, args, v), matrix) <==>
            UPSTREAM_GATES == (set name | name in matrix.requiredGates) && v.authorization.value.Complete()
  {
    var m := files[args.productionPath].production;
    FrozenProduction(files, digest, args.productionPath, m, A.ReleaseOf(files, digest, matrix, args, v));
    FrozenKeys(files, digest, UPSTREAM_GATES, args.upstreamPaths);
    ManifestParts(A.ReleaseOf(files, digest, matrix, args, v), matrix, v.authorization.value, UPSTREAM_GATES);
  }

  lemma {:induction false} ManifestParts(release: Release, matrix: Matrix, a: Authorized, gates: set<string>)
    requires release.schemaVersion == 1 && Present(release.releaseId)
    requires G.CandidateClean(release.rc) && G.ProductionFieldsClean(release) && release.releaseBlockers == []
    requires release.upstream.Keys == gates && release.approvals == a.approvals && release.handoff == a.handoff
    requires a.AllApproved()
    ensures G.ManifestClean(release, matrix) <==>
            gates == (set name | name in matrix.requiredGates) && a.Complete()
  {
  }

  lemma {:induction false} FrozenProduction(files: Store, digest: Doc -> string, path: string, m: Production,
                                            release: Release)
    requires path in files && Under(path, "reports/production-deployments") && Sha256(digest(files[path]))
    requires A.ProductionValid(path, ProductionDoc(m))
    requires release.rc == m.rc && release.deploymentId == m.deploymentId.value && release.domain == m.domain.value
    requires release.manifest == Freeze(files, digest, path)
    ensures G.CandidateClean(release.rc) && G.ProductionFieldsClean(release)
  {
    FrozenHolds(files, digest, path, "reports/production-deployments");
  }

  lemma {:induction false} FrozenKeys(files: Store, digest: Doc -> string, gates: set<string>,
                                      paths: map<string, string>)
    requires forall name :: name in gates ==> name in paths && paths[name] in files
    ensures A.FrozenUpstreams(files, digest, gates, paths).Keys == gates
  {
  }

  lemma {:induction false} OutputsDiffer(releaseId: string)
    ensures A.EvidencePath(releaseId) != A.ReleasePath(releaseId)
  {
    assert |A.EvidencePath(releaseId)| > |A.ReleasePath(releaseId)|;
  }

  lemma {:induction false} TwoWrites(files: Store, p: string, q: string, first: Doc, second: Doc)
    requires p != q && !first.DecisionDoc? && !second.DecisionDoc?
    ensures var after := files[p := first][q := second];
            && ChangedOnly(files, after, {p, q})
            && (forall path :: path in {p, q} ==> path in after && !after[path].DecisionDoc?)
            && after[p] == first
  {
  }

  /** The two output files are different files, and neither holds a decision. */
  lemma {:induction false} AssembledStore(files: Store, digest: Doc -> string, matrix: Matrix, args: A.Args,
                                          v: A.Validators)
    requires A.Assemblable(files, digest, matrix, args, v)
    ensures var after := A.Assembled(files, digest, matrix, args, v);
            && ChangedOnly(files, after, Outputs(args.releaseId))
            && (forall path :: path in Outputs(args.releaseId) ==> path in after && !after[path].DecisionDoc?)
            && A.EvidencePath(args.releaseId) in after
            && after[A.EvidencePath(args.releaseId)] == ResultsDoc(A.EvidenceOf(files, digest, matrix, args))
  {
    OutputsDiffer(args.releaseId);
    TwoWrites(files, A.EvidencePath(args.releaseId), A.ReleasePath(args.releaseId),
              ResultsDoc(A.EvidenceOf(files, digest, matrix, args)),
              ReleaseDoc(A.ReleaseOf(files, digest, matrix, args, v)));
  }

  lemma {:induction false} ManifestFileAgrees(files: Store, after: Store, digest: Doc -> string, release: Release,
                                              path: string,
                                              outputs: set<string>)
    requires ChangedOnly(files, after, outputs) && path !in outputs
    requires path in files && Under(path, "reports/production-deployments") && Sha256(digest(files[path]))
    requires release.manifest == Freeze(files, digest, path)
    requires files[path].ProductionDoc? && files[path].production.deploymentId == Some(release.deploymentId)
    requires files[path].production.rc == release.rc
    ensures G.ProductionClean(after, digest, release)
  {
    FrozenHolds(files, digest, path, "reports/production-deployments");
    RefAfter(files, after, digest, release.manifest, {"reports/production-deployments"});
  }

  lemma {:induction false} ProductionAgrees(files: Store, digest: Doc -> string, matrix: Matrix, args: A.Args,
                                            v: A.Validators)
    requires forall d :: Sha256(digest(d))
    requires A.Assemblable(files, digest, matrix, args, v)
    ensures G.ProductionClean(A.Assembled(files, digest, matrix, args, v), digest,
                              A.ReleaseOf(files, digest, matrix, args, v))
  {
    AssembledStore(files, digest, matrix, args, v);
    A.OutputElsewhere(args.productionPath, args.releaseId);
    ManifestFileAgrees(files, A.Assembled(files, digest, matrix, args, v), digest,
                       A.ReleaseOf(files, digest, matrix, args, v), args.productionPath, Outputs(args.releaseId));
  }

  lemma {:induction false} EvidenceAgrees(files: Store, digest: Doc -> string, matrix: Matrix, args: A.Args,
                                          v: A.Validators)
    requires forall d :: Sha256(digest(d))
    requires A.Assemblable(files, digest, matrix, args, v)
    ensures var after := A.Assembled(files, digest, matrix, args, v);
            G.EvidenceClean(after, digest, matrix, A.ReleaseOf(files, digest, matrix, args, v),
                            A.EvidenceOf(files, digest, matrix, args), A.EvidencePath(args.releaseId)) <==>
            ItemsKept(files, after, digest, matrix.scenarios.value, files[args.scenarioPath].results.items.value)
  {
    var after := A.Assembled(files, digest, matrix, args, v);
    AssembledStore(files, digest, matrix, args, v);
    LowerHexIsLower(digest(ResultsDoc(A.EvidenceOf(files, digest, matrix, args))));
    ItemsAgree(files, after, digest, matrix.scenarios.value, files[args.scenarioPath].results.items.value);
  }

  /** The commit of the production manifest is in lower case. */
  predicate LowerCommit(files: Store, args: A.Args)
    requires args.productionPath in files && files[args.productionPath].ProductionDoc?
    requires files[args.productionPath].production.rc.Some?
  {
    var rc := files[args.productionPath].production.rc.value;
    rc.gitSha == Lower(rc.gitSha)
  }

  /** The gate's verdict on what a successful assembly emits. */
  predicate Accepted(files: Store, digest: Doc -> string, matrix: Matrix, args: A.Args, v: A.Validators)
    requires A.Assemblable(files, digest, matrix, args, v)
  {
    G.Accepts(A.Assembled(files, digest, matrix, args, v), digest, matrix, A.ReleaseOf(files, digest, matrix, args, v),
              A.EvidenceOf(files, digest, matrix, args), A.EvidencePath(args.releaseId))
  }

  /** The agreement.  What a successful assembly emits is accepted by the gate exactly when the production
      manifest writes its commit in lower case (the assembler compares it in lower case, the gate as written),
      the matrix requires exactly the six gates the assembler knows (it never reads the list), the authorization
      names every role and every handoff (a condition on the validator, which the canonical one meets), and the
      two files it wrote replaced nothing that was checked. */
  lemma {:induction false} Agreement(files: Store, digest: Doc -> string, matrix: Matrix, args: A.Args, v: A.Validators)
    requires forall d :: Sha256(digest(d))
    requires A.Assemblable(files, digest, matrix, args, v)
    ensures Accepted(files, digest, matrix, args, v) <==>
            && LowerCommit(files, args)
            && UPSTREAM_GATES == (set name | name in matrix.requiredGates)
            && v.authorization.value.Complete()
            && Undisturbed(files, digest, matrix, args, v)
  {
    var after, release := A.Assembled(files, digest, matrix, args, v), A.ReleaseOf(files, digest, matrix, args, v);
    var m := files[args.productionPath].production;
    ManifestAgrees(files, digest, matrix, args, v);
    ProductionAgrees(files, digest, matrix, args, v);
    EvidenceAgrees(files, digest, matrix, args, v);
    AssembledStore(files, digest, matrix, args, v);
    if UPSTREAM_GATES == (set name | name in matrix.requiredGates) {
      UpstreamsAgree(files, after, digest, release, UPSTREAM_GATES, matrix.requiredGates, args.upstreamPaths,
                     A.ExpectedRc(m.rc.value), m.deploymentId.value, Outputs(args.releaseId));
      IdentityMatters();
      assert release.rc == Some(A.ExpectedRc(m.rc.value)) <==> m.rc.value.gitSha == Lower(m.rc.value.gitSha);
    }
  }

  lemma {:induction false} IdentityMatters()
    ensures "recovery" in UPSTREAM_GATES && "recovery" in G.IDENTITY_GATES
  {
  }

  // ----- references that the writes cannot disturb, as a caller would check them -----

  predicate RefsOutside(refs: Option<seq<Ref>>, outputs: set<string>) {
    refs.Some? ==> forall i :: 0 <= i < |refs.value| ==> refs.value[i].path !in outputs
  }

  /** No decision, and no file that a decision or a scenario result refers to, is one of the two output files. */
  predicate ReferencesOutside(files: Store, gates: set<string>, paths: map<string, string>, items: seq<Item>,
                              outputs: set<string>) {
    && (forall name :: name in gates && name in paths ==>
          && paths[name] !in outputs
          && (paths[name] in files && files[paths[name]].DecisionDoc? ==>
                RefsOutside(files[paths[name]].decision.refs, outputs)))
    && (forall k :: 0 <= k < |items| ==> RefsOutside(items[k].refs, outputs))
  }

  lemma {:induction false} OutsideUndisturbed(files: Store, digest: Doc -> string, matrix: Matrix, args: A.Args,
                                              v: A.Validators)
    requires A.Assemblable(files, digest, matrix, args, v)
    requires ReferencesOutside(files, UPSTREAM_GATES, args.upstreamPaths, files[args.scenarioPath].results.items.value,
                               Outputs(args.releaseId))
    ensures Undisturbed(files, digest, matrix, args, v)
  {
    var after := A.Assembled(files, digest, matrix, args, v);
    var scenarios, items := matrix.scenarios.value, files[args.scenarioPath].results.items.value;
    AssembledStore(files, digest, matrix, args, v);
    OutsideUpstreams(files, after, digest, UPSTREAM_GATES, args.upstreamPaths, items, Outputs(args.releaseId));
    OutsideItems(files, after, digest, scenarios, items, Outputs(args.releaseId));
  }

  lemma {:induction false} OutsideUpstreams(files: Store, after: Store, digest: Doc -> string, gates: set<string>,
                                            paths: map<string, string>, items: seq<Item>, outputs: set<string>)
    requires ChangedOnly(files, after, outputs) && ReferencesOutside(files, gates, paths, items, outputs)
    ensures UpstreamsKept(files, after, digest, gates, paths, outputs)
  {
    forall name | name in gates && name in paths
      ensures UpstreamKept(files, after, digest, paths[name], outputs)
    {
    }
  }

  lemma {:induction false} OutsideItems(files: Store, after: Store, digest: Doc -> string, scenarios: seq<Scenario>,
                                        items: seq<Item>, outputs: set<string>)
    requires ChangedOnly(files, after, outputs) && A.Matched(scenarios, items)
    requires forall k :: 0 <= k < |items| ==> RefsOutside(items[k].refs, outputs)
    ensures ItemsKept(files, after, digest, scenarios, items)
  {
    forall k | 0 <= k < |scenarios|
      ensures ItemKept(files, after, digest, ItemsById(items)[scenarios[k].id])
    {
      ItemsByIdKeys(items, scenarios[k].id);
    }
  }

  /** With a lower-case commit, a matrix that requires exactly the six gates, a complete authorization and no
      reference to an output file, whatever the assembler emits the gate accepts. */
  lemma {:induction false} AssembledIsAccepted(files: Store, digest: Doc -> string, matrix: Matrix, args: A.Args,
                                               v: A.Validators)
    requires forall d :: Sha256(digest(d))
    requires A.Assemblable(files, digest, matrix, args, v) && v.authorization.value.Complete()
    requires Sha40(files[args.productionPath].production.rc.value.gitSha)
    requires UPSTREAM_GATES == set name | name in matrix.requiredGates
    requires ReferencesOutside(files, UPSTREAM_GATES, args.upstreamPaths, files[args.scenarioPath].results.items.value,
                               Outputs(args.releaseId))
    ensures Accepted(files, digest, matrix, args, v)
  {
    LowerHexIsLower(files[args.productionPath].production.rc.value.gitSha);
    OutsideUndisturbed(files, digest, matrix, args, v);
    Agreement(files, digest, matrix, args, v);
  }
}
