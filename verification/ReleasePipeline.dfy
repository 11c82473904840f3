/** Authorization, assembler and gate over one file store: the assembler calls the version 1 authorization validator
    (scripts/final-acceptance-assembler.py:177-206) on the files that it assembles. */
module ReleasePipeline {
  import opened Schemas
  import opened Text
  import opened FrozenFiles
  import opened Reviews
  import opened Authorization
  import opened AuthorizationV1
  import opened AcceptanceFiles
  import opened AcceptanceAgreement
  import A = AcceptanceAssembler

  /** The files that an authorization report can name; any other file is neither a policy nor a request. */
  function PartsIn(files: Store): Files {
    map path | path in files && files[path].PartDoc? :: files[path].part
  }

  function PartDigest(digest: Doc -> string): File -> string {
    part => digest(PartDoc(part))
  }

  /** What the authorization report hands on, when its validator takes it for this release and candidate. */
  function AuthorizationOf(files: Store, digest: Doc -> string, path: string, releaseId: string,
                           rc: Identity): Option<Authorized> {
    if path in files && files[path].AuthorizationDoc? then
      ValidateReportV1(PartsIn(files), PartDigest(digest), files[path].report, Some(releaseId), Some(rc))
    else
      None
  }

  /** The candidate of the production manifest, when there is one. */
  function CandidateIn(files: Store, path: string): Option<Identity> {
    if path in files && files[path].ProductionDoc? then files[path].production.rc else None
  }

  /** The verdicts the assembler gets from its validators. */
  function Canonical(files: Store, digest: Doc -> string, args: A.Args, governed: bool): A.Validators {
    var rc := CandidateIn(files, args.productionPath);
    A.Validators(governed,
                 if rc.None? then None
                 else AuthorizationOf(files, digest, args.authorizationPath, args.releaseId, A.ExpectedRc(rc.value)))
  }

  method AssembleRelease(store: FileStore, digest: Doc -> string, matrix: Matrix, args: A.Args, governed: bool)
    returns (ok: bool)
    modifies store
    ensures var v := Canonical(old(store.files), digest, args, governed);
            && ok == A.Assemblable(old(store.files), digest, matrix, args, v)
            && store.files == if ok then A.Assembled(old(store.files), digest, matrix, args, v) else old(store.files)
  {
    ok := A.Assemble(store, digest, matrix, args, Canonical(store.files, digest, args, governed));
  }

  lemma {:induction false} CanonicalIsComplete(files: Store, digest: Doc -> string, args: A.Args, governed: bool)
    requires Canonical(files, digest, args, governed).authorization.Some?
    ensures Canonical(files, digest, args, governed).authorization.value.Complete()
  {
    var rc := A.ExpectedRc(CandidateIn(files, args.productionPath).value);
    AuthorizedIsComplete(PartsIn(files), PartDigest(digest), files[args.authorizationPath].report,
                         Some(args.releaseId), Some(rc));
  }

  /** With its own validator, what the assembler emits is accepted by the gate exactly when the production manifest
      writes its commit in lower case, the matrix requires exactly the six gates, and the two writes replaced
      nothing that was checked. */
  lemma {:induction false} ReleaseAgreement(files: Store, digest: Doc -> string, matrix: Matrix, args: A.Args,
                                            governed: bool)
    requires forall d :: Sha256(digest(d))
    requires A.Assemblable(files, digest, matrix, args, Canonical(files, digest, args, governed))
    ensures Accepted(files, digest, matrix, args, Canonical(files, digest, args, governed)) <==>
            && LowerCommit(files, args)
            && UPSTREAM_GATES == (set name | name in matrix.requiredGates)
            && Undisturbed(files, digest, matrix, args, Canonical(files, digest, args, governed))
  {
    CanonicalIsComplete(files, digest, args, governed);
    Agreement(files, digest, matrix, args, Canonical(files, digest, args, governed));
  }

  /** The same as a guarantee, with conditions that can be checked before assembling. */
  lemma {:induction false} ReleaseIsAccepted(files: Store, digest: Doc -> string, matrix: Matrix, args: A.Args,
                                             governed: bool)
    requires forall d :: Sha256(digest(d))
    requires A.Assemblable(files, digest, matrix, args, Canonical(files, digest, args, governed))
    requires Sha40(files[args.productionPath].production.rc.value.gitSha)
    requires UPSTREAM_GATES == set name | name in matrix.requiredGates
    requires ReferencesOutside(files, UPSTREAM_GATES, args.upstreamPaths, files[args.scenarioPath].results.items.value,
                               Outputs(args.releaseId))
    ensures Accepted(files, digest, matrix, args, Canonical(files, digest, args, governed))
  {
    CanonicalIsComplete(files, digest, args, governed);
    AssembledIsAccepted(files, digest, matrix, args, Canonical(files, digest, args, governed));
  }

  lemma {:induction false} PartsKept(files: Store, parts: Files, path: string)
    requires path in parts && path in files && files[path] == PartDoc(parts[path])
    ensures path in PartsIn(files) && PartsIn(files)[path] == parts[path]
  {
  }

  /** A report that version 1 built, stored beside the policy and the request it names, authorizes the release of
      its own candidate exactly when the request lies under the evidence root. */
  lemma {:induction false} BuiltReportAuthorizes(files: Store, parts: Files, digest: Doc -> string,
                                                 requestPath: string, checked: Checked, payload: PrPayload,
                                                 reviews: seq<Review>, path: string)
    requires forall d :: Sha256(digest(d))
    requires requestPath in parts && parts[requestPath].RequestFile?
    requires ValidateRequest(V1, parts, PartDigest(digest), parts[requestPath].request) == Some(checked)
    requires checked.policyPath in parts && checked.policy.Normal()
    requires BuildV1(parts, PartDigest(digest), requestPath, checked, payload, reviews).Some?
    requires requestPath in files && files[requestPath] == PartDoc(parts[requestPath])
    requires checked.policyPath in files && files[checked.policyPath] == PartDoc(parts[checked.policyPath])
    requires path in files && files[path] ==
               AuthorizationDoc(BuildV1(parts, PartDigest(digest), requestPath, checked, payload, reviews).value)
    ensures AuthorizationOf(files, digest, path, checked.request.releaseId, checked.request.source).Some? <==>
            Under(requestPath, EVIDENCE_ROOT)
  {
    PartsKept(files, parts, requestPath);
    PartsKept(files, parts, checked.policyPath);
    BuiltReportV1Validates(parts, PartsIn(files), PartDigest(digest), requestPath, checked, payload, reviews);
  }
}
