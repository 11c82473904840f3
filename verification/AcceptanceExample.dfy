/** A minimal package for final acceptance: one scenario, one decision file for all six gates, one piece of
    evidence, and an authorization that version 1 built.  It shows that the conditions under which assembler and
    gate agree are needed. */
module AcceptanceExample {
  import opened Schemas
  import opened Text
  import opened FrozenFiles
  import opened Authorization
  import opened AcceptanceFiles
  import opened AcceptanceAgreement
  import opened AuthorizationV1
  import opened ReleasePipeline
  import A = AcceptanceAssembler
  import G = AcceptanceGate
  import opened AcceptanceMeaning
  import E = AuthorizationExample

  datatype Paths = Paths(production: string, governance: string, scenario: string, decision: string,
                         acceptanceMatrix: string, authorization: string)

  function CandidateOf(sha: string): Identity {
    Identity(sha, "v", "m")
  }

  function ProductionOf(sha: string): Doc {
    ProductionDoc(Production(1, "production", Some("d"), Some(CandidateOf(sha)), Some("x")))
  }

  function DecisionOf(sha: string, ref: Ref): Doc {
    DecisionDoc(Decision(true, Some("x"), Some(CandidateOf(Lower(sha))), None, Some([ref])))
  }

  function ItemOf(ref: Ref): Item {
    Item("i", "PASS", Some([ref]), "", None)
  }

  function ResultsOf(sha: string, ref: Ref): Doc {
    ResultsDoc(Results(1, "r", Some(CandidateOf(Lower(sha))), Some([ItemOf(ref)]), None))
  }

  /** The governance report doubles as the evidence. */
  function EvidenceRef(p: Paths, digest: Doc -> string): Ref {
    Ref(p.governance, digest(OtherDoc("")))
  }

  function BaseFiles(sha: string, p: Paths, digest: Doc -> string): Store {
    map[p.acceptanceMatrix := OtherDoc(""), p.governance := OtherDoc(""), p.production := ProductionOf(sha),
        p.scenario := ResultsOf(sha, EvidenceRef(p, digest)), p.decision := DecisionOf(sha, EvidenceRef(p, digest))]
  }

  ghost predicate Hashes(digest: Doc -> string, sha: string) {
    (forall d :: Sha256(digest(d))) && Sha40(Lower(sha))
  }

  function RequestPath(): string {
    Below(EVIDENCE_ROOT, "request.json")
  }

  function PartsOf(sha: string, digest: Doc -> string): Files {
    E.FilesOf(V1, sha, RequestPath(), PartDigest(digest))
  }

  ghost function CheckedOf(sha: string, digest: Doc -> string): Checked
    requires Hashes(digest, sha)
  {
    Built(sha, digest);
    ValidateRequest(V1, PartsOf(sha, digest), PartDigest(digest), PartsOf(sha, digest)[RequestPath()].request).value
  }

  lemma {:induction false} Built(sha: string, digest: Doc -> string)
    requires Hashes(digest, sha)
    ensures var parts := PartsOf(sha, digest);
            && RequestPath() in parts && parts[RequestPath()].RequestFile?
            && var checked := ValidateRequest(V1, parts, PartDigest(digest), parts[RequestPath()].request);
            && checked.Some? && checked.value.policyPath in parts && checked.value.policy.Normal()
            && checked.value.policyPath == E.PolicyPath()
            && checked.value.request.releaseId == "r" && checked.value.request.source == CandidateOf(Lower(sha))
            && BuildV1(parts, PartDigest(digest), RequestPath(), checked.value, E.PayloadOf(sha),
                       E.ReviewsOf(sha)).Some?
  {
    assert |RequestPath()| != |E.PolicyPath()|;
    E.BuiltV1(sha, RequestPath(), PartDigest(digest));
    E.RequestChecked(V1, sha, RequestPath(), PartDigest(digest));
  }

  ghost function ReportOf(sha: string, digest: Doc -> string): ReportV1
    requires Hashes(digest, sha)
  {
    Built(sha, digest);
    BuildV1(PartsOf(sha, digest), PartDigest(digest), RequestPath(), CheckedOf(sha, digest), E.PayloadOf(sha),
            E.ReviewsOf(sha)).value
  }

  /** The policy, the request and the report that version 1 built from them. */
  ghost function AuthorizationFiles(sha: string, p: Paths, digest: Doc -> string): Store
    requires Hashes(digest, sha)
  {
    Built(sha, digest);
    map[E.PolicyPath() := PartDoc(PartsOf(sha, digest)[E.PolicyPath()]),
        RequestPath() := PartDoc(PartsOf(sha, digest)[RequestPath()]),
        p.authorization := AuthorizationDoc(ReportOf(sha, digest))]
  }

  ghost function FilesOf(sha: string, p: Paths, digest: Doc -> string): Store
    requires Hashes(digest, sha)
  {
    AuthorizationFiles(sha, p, digest) + BaseFiles(sha, p, digest)
  }

  function ScenarioOf(): Scenario {
    Scenario("i", "P0", "critical")
  }

  function MatrixOf(gates: seq<string>): Matrix {
    Matrix(gates, Some([ScenarioOf()]))
  }

  function ArgsOf(p: Paths, gates: set<string>): A.Args {
    A.Args(p.acceptanceMatrix, p.production, p.governance, p.authorization, p.scenario, "r",
           map name | name in gates :: p.decision)
  }

  predicate Distinct(p: Paths) {
    && p.production != p.governance && p.production != p.scenario && p.production != p.decision
    && p.governance != p.scenario && p.governance != p.decision && p.scenario != p.decision
    && p.acceptanceMatrix != p.governance && p.acceptanceMatrix != p.production
    && p.acceptanceMatrix != p.scenario && p.acceptanceMatrix != p.decision
  }

  predicate Elsewhere(p: Paths, path: string) {
    && path != p.production && path != p.governance && path != p.scenario && path != p.decision
    && path != p.acceptanceMatrix
  }

  /** The paths of the authorization are different, and not among the others. */
  predicate Apart(p: Paths) {
    && Elsewhere(p, E.PolicyPath()) && Elsewhere(p, RequestPath()) && Elsewhere(p, p.authorization)
    && p.authorization != E.PolicyPath() && p.authorization != RequestPath()
  }

  predicate Placed(p: Paths) {
    && Under(p.acceptanceMatrix, "final/acceptance")
    && Under(p.production, "reports/production-deployments") && LastSegment(ParentPath(p.production)) == "d"
    && Under(p.governance, "reports/repository-governance") && Under(p.governance, "reports")
    && Under(p.scenario, A.OUTPUT_ROOT) && Under(p.decision, "reports") && Under(p.authorization, A.OUTPUT_ROOT)
  }

  lemma {:induction false} Concrete()
    ensures Present("d") && Present("v") && Present("m") && Present("x") && Present("r")
  {
    PresentByHead("d");
    PresentByHead("v");
    PresentByHead("m");
    PresentByHead("x");
    PresentByHead("r");
  }

  lemma {:induction false} RefOk(files: Store, digest: Doc -> string, path: string)
    requires path in files && Under(path, "reports") && Sha256(digest(files[path]))
    ensures RefHolds(files, digest, Freeze(files, digest, path), EVIDENCE_ROOTS)
  {
    FrozenHolds(files, digest, path, "reports");
    assert "reports" in EVIDENCE_ROOTS;
  }

  /** The files that are not about the authorization. */
  predicate HasBase(files: Store, sha: string, p: Paths, digest: Doc -> string) {
    && p.acceptanceMatrix in files && p.governance in files && p.production in files && p.scenario in files
    && p.decision in files
    && files[p.governance] == OtherDoc("") && files[p.production] == ProductionOf(sha)
    && files[p.scenario] == ResultsOf(sha, EvidenceRef(p, digest))
    && files[p.decision] == DecisionOf(sha, EvidenceRef(p, digest))
  }

  lemma {:induction false} BaseLookups(sha: string, p: Paths, digest: Doc -> string, under: Store)
    requires Distinct(p)
    ensures HasBase(under + BaseFiles(sha, p, digest), sha, p, digest)
  {
  }

  lemma {:induction false} Lookups(sha: string, p: Paths, digest: Doc -> string)
    requires Distinct(p) && Hashes(digest, sha)
    ensures HasBase(FilesOf(sha, p, digest), sha, p, digest)
  {
    BaseLookups(sha, p, digest, AuthorizationFiles(sha, p, digest));
  }

  lemma {:induction false} ThreeFiles(a: string, b: string, c: string, x: Doc, y: Doc, z: Doc, over: Store)
    requires a != b && a != c && b != c && a !in over && b !in over && c !in over
    ensures var files := map[a := x, b := y, c := z] + over;
            a in files && b in files && c in files && files[a] == x && files[b] == y && files[c] == z
  {
  }

  lemma {:induction false} NotInBase(sha: string, p: Paths, digest: Doc -> string, path: string)
    requires Elsewhere(p, path)
    ensures path !in BaseFiles(sha, p, digest)
  {
  }

  lemma {:induction false} AuthorizationLookups(sha: string, p: Paths, digest: Doc -> string)
    requires Apart(p) && Hashes(digest, sha)
    ensures var files, parts := FilesOf(sha, p, digest), PartsOf(sha, digest);
            && E.PolicyPath() in parts && RequestPath() in parts
            && E.PolicyPath() in files && files[E.PolicyPath()] == PartDoc(parts[E.PolicyPath()])
            && RequestPath() in files && files[RequestPath()] == PartDoc(parts[RequestPath()])
            && p.authorization in files && files[p.authorization] == AuthorizationDoc(ReportOf(sha, digest))
  {
    Built(sha, digest);
    assert |RequestPath()| != |E.PolicyPath()|;
    NotInBase(sha, p, digest, E.PolicyPath());
    NotInBase(sha, p, digest, RequestPath());
    NotInBase(sha, p, digest, p.authorization);
    ThreeFiles(E.PolicyPath(), RequestPath(), p.authorization, PartDoc(PartsOf(sha, digest)[E.PolicyPath()]),
               PartDoc(PartsOf(sha, digest)[RequestPath()]), AuthorizationDoc(ReportOf(sha, digest)),
               BaseFiles(sha, p, digest));
  }

  /** The validator takes the authorization. */
  lemma {:induction false} Authorizes(sha: string, p: Paths, digest: Doc -> string)
    requires Apart(p) && Hashes(digest, sha)
    ensures AuthorizationOf(FilesOf(sha, p, digest), digest, p.authorization, "r", CandidateOf(Lower(sha))).Some?
  {
    Built(sha, digest);
    AuthorizationLookups(sha, p, digest);
    BelowUnder(EVIDENCE_ROOT, "request.json");
    BuiltReportAuthorizes(FilesOf(sha, p, digest), PartsOf(sha, digest), digest, RequestPath(), CheckedOf(sha, digest),
                          E.PayloadOf(sha), E.ReviewsOf(sha), p.authorization);
  }

  lemma {:induction false} DecisionOk(files: Store, digest: Doc -> string, name: string, path: string, sha: string,
                                      ref: Ref)
    requires path in files && Under(path, "reports") && files[path] == DecisionOf(sha, ref)
    requires RefHolds(files, digest, ref, EVIDENCE_ROOTS)
    ensures A.UpstreamValid(files, digest, name, path, CandidateOf(Lower(sha)), "d")
  {
    Concrete();
  }

  lemma {:induction false} DecisionsOk(files: Store, sha: string, p: Paths, digest: Doc -> string, gates: set<string>)
    requires HasBase(files, sha, p, digest) && Placed(p) && forall d :: Sha256(digest(d))
    ensures A.UpstreamsValid(files, digest, gates, ArgsOf(p, gates).upstreamPaths, CandidateOf(Lower(sha)), "d")
  {
    RefOk(files, digest, p.governance);
    forall name | name in gates
      ensures A.UpstreamValid(files, digest, name, p.decision, CandidateOf(Lower(sha)), "d")
    {
      DecisionOk(files, digest, name, p.decision, sha, EvidenceRef(p, digest));
    }
  }

  lemma {:induction false} ItemOk(files: Store, digest: Doc -> string, ref: Ref)
    requires RefHolds(files, digest, ref, EVIDENCE_ROOTS)
    ensures A.Releasable(files, digest, ScenarioOf(), ItemOf(ref))
  {
  }

  lemma {:induction false} ResultsOk(files: Store, sha: string, p: Paths, digest: Doc -> string, gates: seq<string>)
    requires HasBase(files, sha, p, digest) && Placed(p) && forall d :: Sha256(digest(d))
    ensures A.ResultsValid(files, digest, MatrixOf(gates), files[p.scenario], "r", CandidateOf(Lower(sha)))
  {
    var ref := EvidenceRef(p, digest);
    RefOk(files, digest, p.governance);
    ItemOk(files, digest, ref);
    ItemsByIdAt([ItemOf(ref)], 0);
    forall id | id in ItemsById([ItemOf(ref)])
      ensures MatrixOf(gates).scenarios.value[0].id == id
    {
      ItemsByIdKeys([ItemOf(ref)], id);
    }
  }

  lemma {:induction false} ProductionOk(sha: string, path: string)
    requires LastSegment(ParentPath(path)) == "d" && Sha40(Lower(sha))
    ensures A.ProductionValid(path, ProductionOf(sha))
  {
    Concrete();
  }

  lemma {:induction false} ReleaseIdOk()
    ensures Present("r") && SafeId("r")
  {
    Concrete();
  }

  lemma {:induction false} InputsOk(sha: string, p: Paths, digest: Doc -> string, gates: set<string>,
                                    authorized: Option<Authorized>)
    requires Distinct(p) && Apart(p) && Placed(p) && Hashes(digest, sha)
    ensures A.InputsValid(FilesOf(sha, p, digest), ArgsOf(p, gates), A.Validators(true, authorized))
  {
    Lookups(sha, p, digest);
    AuthorizationLookups(sha, p, digest);
    ProductionOk(sha, p.production);
    ReleaseIdOk();
  }

  /** The package assembles, whatever gates the matrix requires, whatever the case of the commit, and whatever
      approvals its validator returns. */
  lemma {:induction false} Assembles(sha: string, p: Paths, digest: Doc -> string, gates: seq<string>, a: Authorized)
    requires Distinct(p) && Apart(p) && Placed(p) && Hashes(digest, sha) && a.AllApproved()
    ensures A.Assemblable(FilesOf(sha, p, digest), digest, MatrixOf(gates), ArgsOf(p, UPSTREAM_GATES),
                          A.Validators(true, Some(a)))
  {
    Lookups(sha, p, digest);
    InputsOk(sha, p, digest, UPSTREAM_GATES, Some(a));
    DecisionsOk(FilesOf(sha, p, digest), sha, p, digest, UPSTREAM_GATES);
    ResultsOk(FilesOf(sha, p, digest), sha, p, digest, gates);
  }

  function Below(root: string, name: string): string {
    root + "/" + name
  }

  lemma {:induction false} BelowUnder(root: string, name: string)
    ensures Under(Below(root, name), root)
  {
  }

  lemma {:induction false} BelowTwice(root: string, middle: string, name: string)
    ensures Under(Below(Below(root, middle), name), root)
  {
    assert Below(Below(root, middle), name) == Below(root, Below(middle, name));
  }

  lemma {:induction false} BelowParent(dir: string, name: string)
    requires '/' !in name
    ensures ParentPath(Below(dir, name)) == dir && LastSegment(Below(dir, name)) == name
  {
    LastSegmentAfterSlash(dir, name);
    assert Below(dir, name)[|dir|] == '/';
  }

  function ExamplePaths(): Paths {
    Paths(Below(Below("reports/production-deployments", "d"), "m"),
          Below(Below("reports", "repository-governance"), "g"),
          Below(A.OUTPUT_ROOT, "s"), Below("reports", "u"), Below("final/acceptance", "m"),
          Below(A.OUTPUT_ROOT, "authorization"))
  }

  lemma {:induction false} ExamplePlaced()
    ensures Placed(ExamplePaths())
  {
    BelowTwice("reports/production-deployments", "d", "m");
    BelowParent(Below("reports/production-deployments", "d"), "m");
    BelowParent("reports/production-deployments", "d");
    GovernanceRoot();
    BelowUnder(Below("reports", "repository-governance"), "g");
    BelowTwice("reports", "repository-governance", "g");
    BelowUnder(A.OUTPUT_ROOT, "s");
    BelowUnder("reports", "u");
    BelowUnder("final/acceptance", "m");
    BelowUnder(A.OUTPUT_ROOT, "authorization");
  }

  lemma {:induction false} GovernanceRoot()
    ensures Below("reports", "repository-governance") == "reports/repository-governance"
  {
  }

  lemma {:induction false} ExampleDistinct()
    ensures Distinct(ExamplePaths())
  {
    var p := ExamplePaths();
    assert |p.production| == 34 && |p.governance| == 31;
    assert |p.scenario| == 26 && |p.decision| == 9 && |p.acceptanceMatrix| == 18;
  }

  /** A decision elsewhere does not matter. */
  lemma {:induction false} ExampleApart(p: Paths)
    requires p == ExamplePaths() || p == OverwrittenPaths()
    ensures Apart(p)
  {
    assert |p.production| == 34 && |p.governance| == 31 && |p.scenario| == 26 && |p.acceptanceMatrix| == 18;
    assert |p.decision| == 9 || |p.decision| == 39;
    assert |p.authorization| == 38 && |E.PolicyPath()| == 31 && |RequestPath()| == 37;
    assert p.governance[8] == 'r' && E.PolicyPath()[8] == 'f';
  }

  lemma {:induction false} ExampleOutside(files: Store, sha: string, digest: Doc -> string, gates: set<string>)
    requires HasBase(files, sha, ExamplePaths(), digest)
    ensures ReferencesOutside(files, gates, ArgsOf(ExamplePaths(), gates).upstreamPaths,
                              [ItemOf(EvidenceRef(ExamplePaths(), digest))], Outputs("r"))
  {
    var p := ExamplePaths();
    assert |p.governance| == 31 && |p.decision| == 9;
    assert |A.EvidencePath("r")| == 51 && |A.ReleasePath("r")| == 39;
  }

  /** The package of these paths is emitted by the assembler, and the gate's verdict on it. */
  ghost predicate EmittedAs(accepted: bool, digest: Doc -> string, sha: string, p: Paths, gates: seq<string>)
    requires Hashes(digest, sha)
  {
    var files, matrix, args := FilesOf(sha, p, digest), MatrixOf(gates), ArgsOf(p, UPSTREAM_GATES);
    var v := Canonical(files, digest, args, true);
    A.Assemblable(files, digest, matrix, args, v) && Accepted(files, digest, matrix, args, v) == accepted
  }

  /** The package assembles with the verdict of its own validator. */
  lemma {:induction false} Emitted(digest: Doc -> string, sha: string, p: Paths, gates: seq<string>)
    requires Distinct(p) && Apart(p) && Placed(p) && Hashes(digest, sha)
    ensures var files, args := FilesOf(sha, p, digest), ArgsOf(p, UPSTREAM_GATES);
            A.Assemblable(files, digest, MatrixOf(gates), args, Canonical(files, digest, args, true))
  {
    var files, args := FilesOf(sha, p, digest), ArgsOf(p, UPSTREAM_GATES);
    Lookups(sha, p, digest);
    Authorizes(sha, p, digest);
    var v := Canonical(files, digest, args, true);
    assert v == A.Validators(true, AuthorizationOf(files, digest, p.authorization, "r", CandidateOf(Lower(sha))));
    CanonicalIsComplete(files, digest, args, true);
    Assembles(sha, p, digest, gates, v.authorization.value);
  }

  /** With a commit in lower case and the six gates required, the package is emitted and accepted. */
  lemma {:induction false} EmittedAndAccepted(digest: Doc -> string, sha: string, gates: seq<string>)
    requires Hashes(digest, sha) && Sha40(sha) && UPSTREAM_GATES == set name | name in gates
    ensures EmittedAs(true, digest, sha, ExamplePaths(), gates)
  {
    var p := ExamplePaths();
    ExamplePlaced();
    ExampleDistinct();
    ExampleApart(p);
    Lookups(sha, p, digest);
    Emitted(digest, sha, p, gates);
    ExampleOutside(FilesOf(sha, p, digest), sha, digest, UPSTREAM_GATES);
    ReleaseIsAccepted(FilesOf(sha, p, digest), digest, MatrixOf(gates), ArgsOf(p, UPSTREAM_GATES), true);
  }

  /** The same package with any one of its decisions failed, and frozen anew, is refused. */
  lemma {:induction false} FailedDecisionRefused(digest: Doc -> string, sha: string, gates: seq<string>, name: string)
    requires Hashes(digest, sha) && Sha40(sha) && UPSTREAM_GATES == set gate | gate in gates
    requires name in gates
    ensures EmittedAs(true, digest, sha, ExamplePaths(), gates)
    ensures var p := ExamplePaths();
            var files, args := FilesOf(sha, p, digest), ArgsOf(p, UPSTREAM_GATES);
            var v := Canonical(files, digest, args, true);
            RefusedIfFailed(A.Assembled(files, digest, MatrixOf(gates), args, v), digest, MatrixOf(gates),
                            A.ReleaseOf(files, digest, MatrixOf(gates), args, v),
                            A.EvidenceOf(files, digest, MatrixOf(gates), args), A.EvidencePath(args.releaseId), name)
  {
    EmittedAndAccepted(digest, sha, gates);
    var p := ExamplePaths();
    var files, args := FilesOf(sha, p, digest), ArgsOf(p, UPSTREAM_GATES);
    var v := Canonical(files, digest, args, true);
    FailedDecisionBlocks(A.Assembled(files, digest, MatrixOf(gates), args, v), digest, MatrixOf(gates),
                         A.ReleaseOf(files, digest, MatrixOf(gates), args, v),
                         A.EvidenceOf(files, digest, MatrixOf(gates), args), A.EvidencePath(args.releaseId), name);
  }

  /** The gate takes these files, and not when the decision of this gate is the failed one. */
  predicate RefusedIfFailed(files: Store, digest: Doc -> string, matrix: Matrix, release: Release, evidence: Results,
                            evidencePath: string, name: string) {
    && name in release.upstream
    && var path := release.upstream[name].path;
    && path in files && files[path].DecisionDoc? && files[path].decision.passed
    && var failed := DecisionDoc(Failed(files[path].decision));
    && G.Accepts(files, digest, matrix, release, evidence, evidencePath)
    && !G.Accepts(files[path := failed], digest, matrix, Refrozen(release, digest, name, failed), evidence,
                  evidencePath)
  }

  lemma {:induction false} EmittedAnyway(digest: Doc -> string, sha: string, gates: seq<string>)
    requires Hashes(digest, sha) && (sha != Lower(sha) || UPSTREAM_GATES != set name | name in gates)
    ensures EmittedAs(false, digest, sha, ExamplePaths(), gates)
  {
    var p := ExamplePaths();
    ExamplePlaced();
    ExampleDistinct();
    ExampleApart(p);
    Lookups(sha, p, digest);
    Emitted(digest, sha, p, gates);
    ReleaseAgreement(FilesOf(sha, p, digest), digest, MatrixOf(gates), ArgsOf(p, UPSTREAM_GATES), true);
  }

  /** The assembler emits, and the gate refuses, a package whose commit is written in capitals, or whose matrix
      requires no gate. */
  lemma {:induction false} EmittedButRefused(digest: Doc -> string, sha: string, gates: seq<string>)
    requires Hashes(digest, sha) && (sha[0] == 'A' || gates == [])
    ensures EmittedAs(false, digest, sha, ExamplePaths(), gates)
  {
    assert Lower(sha)[0] != 'A';
    if gates == [] {
      assert "recovery" in UPSTREAM_GATES;
    }
    EmittedAnyway(digest, sha, gates);
  }

  /** The same files, the decisions standing where the assembler will write its release. */
  function OverwrittenPaths(): Paths {
    ExamplePaths().(decision := A.ReleasePath("r"))
  }

  lemma {:induction false} OutputRoot()
    ensures A.OUTPUT_ROOT == Below("reports", "final-acceptance")
  {
  }

  lemma {:induction false} ReleaseUnderReports()
    ensures Under(A.ReleasePath("r"), "reports") && |A.ReleasePath("r")| == 39
  {
    OutputRoot();
    BelowTwice("reports", "final-acceptance", "r" + "/release.json");
    assert A.ReleasePath("r") == Below(A.OUTPUT_ROOT, "r" + "/release.json");
  }

  lemma {:induction false} OverwrittenPlaced()
    ensures Placed(OverwrittenPaths())
  {
    ExamplePlaced();
    ReleaseUnderReports();
  }

  lemma {:induction false} OverwrittenDistinct()
    ensures Distinct(OverwrittenPaths())
  {
    var p := OverwrittenPaths();
    ReleaseUnderReports();
    assert |p.production| == 34 && |p.governance| == 31 && |p.scenario| == 26 && |p.acceptanceMatrix| == 18;
  }

  /** A decision at an output path is checked, then overwritten: emitted and refused, whatever the commit and
      the gates. */
  lemma {:induction false} OverwrittenDecision(digest: Doc -> string, sha: string, gates: seq<string>)
    requires Hashes(digest, sha)
    ensures EmittedAs(false, digest, sha, OverwrittenPaths(), gates)
  {
    var p := OverwrittenPaths();
    OverwrittenPlaced();
    OverwrittenDistinct();
    ExampleApart(p);
    Lookups(sha, p, digest);
    Emitted(digest, sha, p, gates);
    var args := ArgsOf(p, UPSTREAM_GATES);
    ReleaseAgreement(FilesOf(sha, p, digest), digest, MatrixOf(gates), args, true);
    assert "recovery" in UPSTREAM_GATES;
    assert args.upstreamPaths["recovery"] in Outputs("r");
  }

  /** The assumption on the validator is needed: one that returned no role would be believed by the assembler, and
      the gate would refuse the package.  The canonical validator always returns all roles. */
  lemma {:induction false} NobodyApproved(digest: Doc -> string, sha: string, gates: seq<string>)
    requires Hashes(digest, sha)
    ensures var files, args := FilesOf(sha, ExamplePaths(), digest), ArgsOf(ExamplePaths(), UPSTREAM_GATES);
            var v := A.Validators(true, Some(Authorized(map[], map[])));
            && A.Assemblable(files, digest, MatrixOf(gates), args, v)
            && !Accepted(files, digest, MatrixOf(gates), args, v)
  {
    var p, a := ExamplePaths(), Authorized(map[], map[]);
    ExamplePlaced();
    ExampleDistinct();
    ExampleApart(p);
    Lookups(sha, p, digest);
    Assembles(sha, p, digest, gates, a);
    assert ROLES[0] in RoleSet(ROLES);
    Agreement(FilesOf(sha, p, digest), digest, MatrixOf(gates), ArgsOf(p, UPSTREAM_GATES), A.Validators(true, Some(a)));
  }
}
