/** Release authorization, version 1 (scripts/capture_release_authorization.py): building a report and validating
    one.  Policy and request differ from version 2 only in what their edition demands. */
module AuthorizationV1 {
  import opened Schemas
  import opened Text
  import opened FrozenFiles
  import opened Reviews
  import opened Authorization
  import opened AuthorizationReport

  // ----- version 1 selects like version 2, but ignores the case of commit ids -----

  function FoldCommit(r: Review): Review {
    if r.commit.Some? then r.(commit := Some(Lower(r.commit.value))) else r
  }

  function ApprovedV1(latest: map<string, Review>, rcSha: string, author: string): map<string, Review> {
    map actor | actor in latest && Approves(FoldCommit(latest[actor]), actor, Lower(rcSha), author) ::
      FoldCommit(latest[actor])
  }

  function SelectV1(policy: Policy, reviews: seq<Review>, rcSha: string, author: string): Option<Approvals>
    requires policy.Normal()
  {
    SelectFrom(policy, ApprovedV1(Latest(reviews), rcSha, author), Lower(rcSha))
  }

  function ValidatePrV1(payload: PrPayload, rcSha: string): Option<Pr> {
    ValidatePr(payload.(headSha := Lower(payload.headSha)), Lower(rcSha))
  }

  // ----- the report -----

  datatype ReportV1 = ReportV1(
    schemaVersion: int, kind: string, status: string, repository: string, releaseId: string, rc: Identity, pr: Pr,
    requestRef: Ref, approvalPolicy: Ref, distinctApprovers: int, approvals: Approvals, handoff: map<string, string>)

  function BuildV1(files: Files, digest: File -> string, requestPath: string, checked: Checked, payload: PrPayload,
                   reviews: seq<Review>): Option<ReportV1>
    requires requestPath in files && checked.policyPath in files && checked.policy.Normal()
  {
    var rc := checked.request.source;
    match ValidatePrV1(payload, rc.gitSha)
    case None => None
    case Some(pr) =>
      match SelectV1(checked.policy, reviews, rc.gitSha, pr.author)
      case None => None
      case Some(approvals) =>
        Some(ReportV1(1, V1.AuthorizationKind(), "PASS", REPOSITORY, checked.request.releaseId,
                      rc.(gitSha := Lower(rc.gitSha)), pr, Freeze(files, digest, requestPath),
                      Freeze(files, digest, checked.policyPath), |Actors(approvals)|, approvals,
                      checked.request.handoff))
  }

  predicate UrlsValid(roles: seq<string>, approvals: Approvals) {
    forall role :: role in roles && role in approvals ==> StartsWith(approvals[role].url, PR_URL)
  }

  predicate HeadValid(report: ReportV1, releaseId: Option<string>, rc: Option<Identity>) {
    && report.schemaVersion == 1 && report.kind == V1.AuthorizationKind() && report.status == "PASS"
    && report.repository == REPOSITORY
    && Present(report.releaseId) && SafeId(report.releaseId)
    && (releaseId.Some? ==> report.releaseId == releaseId.value)
    && Sha40(Lower(report.rc.gitSha)) && Present(report.rc.version) && Present(report.rc.migrationHead)
    && (rc.Some? ==> report.rc == rc.value)
  }

  /** The policy and the request that the report names, when both still hold. */
  function NamedFiles(files: Files, digest: File -> string, report: ReportV1): Option<(Policy, Checked)> {
    var policyPath, requestPath := report.approvalPolicy.path, report.requestRef.path;
    if !VerifiedRef(files, digest, report.approvalPolicy, EVIDENCE_ROOT) || !files[policyPath].PolicyFile? then None
    else if ValidatePolicy(V1, files[policyPath].policy).None? then None
    else if !VerifiedRef(files, digest, report.requestRef, EVIDENCE_ROOT) || !files[requestPath].RequestFile? then None
    else
      match ValidateRequest(V1, files, digest, files[requestPath].request)
      case None => None
      case Some(checked) => Some((ValidatePolicy(V1, files[policyPath].policy).value, checked))
  }

  predicate SameRelease(report: ReportV1, policy: Policy, checked: Checked) {
    && checked.policyPath == report.approvalPolicy.path && checked.policy == policy
    && checked.request.releaseId == report.releaseId && checked.request.source == report.rc
    && checked.request.handoff == report.handoff
  }

  predicate PrValid(pr: Pr, gitSha: string) {
    && pr.number == PULL_REQUEST && pr.baseRef == BASE_REF && pr.headRef == HEAD_REF
    && pr.headSha == Lower(gitSha) && Present(pr.author)
  }

  /** The rest of the report, against the policy and the request it names. */
  predicate BodyValid(report: ReportV1, policy: Policy, checked: Checked) {
    && SameRelease(report, policy, checked) && PrValid(report.pr, report.rc.gitSha)
    && SelectedValid(policy, report.approvals, report.pr.author, Lower(report.rc.gitSha))
    && UrlsValid(policy.roles, report.approvals)
    && report.distinctApprovers == |Actors(report.approvals)| && ValidHandoff(report.handoff)
  }

  /** The independent validator of version 1: what it returns, if the report holds. */
  function ValidateReportV1(files: Files, digest: File -> string, report: ReportV1, releaseId: Option<string>,
                            rc: Option<Identity>): Option<Authorized>
  {
    if !HeadValid(report, releaseId, rc) then None else
    match NamedFiles(files, digest, report)
    case None => None
    case Some((policy, checked)) =>
      if BodyValid(report, policy, checked)
      then Some(Authorized(map role | role in ROLES :: "APPROVED", report.handoff))
      else None
  }

  /** What the assembler of the final acceptance relies on: an authorization that holds is complete. */
  lemma {:induction false} AuthorizedIsComplete(files: Files, digest: File -> string, report: ReportV1,
                                                releaseId: Option<string>, rc: Option<Identity>)
    requires ValidateReportV1(files, digest, report, releaseId, rc).Some?
    ensures ValidateReportV1(files, digest, report, releaseId, rc).value.Complete()
  {
    ApprovedRoles(ROLES);
  }

  lemma {:induction false} ApprovedRoles(roles: seq<string>)
    ensures (map role | role in roles :: "APPROVED").Keys == RoleSet(roles)
  {
  }

  // ----- a report that was built validates -----

  lemma {:induction false} FoldedApprove(latest: map<string, Review>, rcSha: string, author: string)
    ensures forall actor :: actor in ApprovedV1(latest, rcSha, author) ==>
              Approves(ApprovedV1(latest, rcSha, author)[actor], actor, Lower(rcSha), author)
  {
  }

  lemma {:induction false} BuiltUrls(policy: Policy, approved: map<string, Review>, evidence: string)
    requires policy.Normal() && SelectFrom(policy, approved, evidence).Some?
    ensures UrlsValid(policy.roles, SelectFrom(policy, approved, evidence).value)
  {
    ChooseDecides(policy, approved.Keys);
    RecordUrls(policy.roles, Choose(policy, approved.Keys).value, approved, evidence);
  }

  lemma {:induction false} RecordUrls(roles: seq<string>, chosen: map<string, string>, approved: map<string, Review>,
                                      evidence: string)
    requires forall role :: role in roles ==> role in chosen && chosen[role] in approved
    requires RecordsOf(roles, chosen, approved, evidence).Some?
    ensures UrlsValid(roles, RecordsOf(roles, chosen, approved, evidence).value)
  {
    forall role | role in roles
      ensures StartsWith(RecordsOf(roles, chosen, approved, evidence).value[role].url, PR_URL)
    {
      assert ApprovalRecord(approved[chosen[role]], chosen[role], evidence).Some?;
    }
  }

  lemma {:induction false} BuiltSelection(policy: Policy, reviews: seq<Review>, rcSha: string, author: string)
    requires policy.Normal() && SelectV1(policy, reviews, rcSha, author).Some?
    ensures SelectedValid(policy, SelectV1(policy, reviews, rcSha, author).value, author, Lower(rcSha))
    ensures UrlsValid(policy.roles, SelectV1(policy, reviews, rcSha, author).value)
  {
    var approved := ApprovedV1(Latest(reviews), rcSha, author);
    FoldedApprove(Latest(reviews), rcSha, author);
    SelectedApprovalsValid(policy, approved, Lower(rcSha), author);
    BuiltUrls(policy, approved, Lower(rcSha));
  }

  /** What version 1 writes into a report. */
  lemma {:induction false} BuiltFieldsV1(files: Files, digest: File -> string, requestPath: string, checked: Checked,
                                         payload: PrPayload, reviews: seq<Review>)
    requires requestPath in files && checked.policyPath in files && checked.policy.Normal()
    requires BuildV1(files, digest, requestPath, checked, payload, reviews).Some?
    ensures var report := BuildV1(files, digest, requestPath, checked, payload, reviews).value;
            && report.rc == checked.request.source.(gitSha := Lower(checked.request.source.gitSha))
            && ValidatePrV1(payload, checked.request.source.gitSha) == Some(report.pr)
            && SelectV1(checked.policy, reviews, checked.request.source.gitSha, report.pr.author) ==
                 Some(report.approvals)
            && PrValid(report.pr, checked.request.source.gitSha)
            && SelectedValid(checked.policy, report.approvals, report.pr.author, Lower(checked.request.source.gitSha))
            && UrlsValid(checked.policy.roles, report.approvals)
            && report.distinctApprovers == |Actors(report.approvals)|
  {
    var report := BuildV1(files, digest, requestPath, checked, payload, reviews).value;
    BuiltSelection(checked.policy, reviews, checked.request.source.gitSha, report.pr.author);
  }

  lemma {:induction false} CheckedV1(files: Files, digest: File -> string, raw: RawRequest)
    requires ValidateRequest(V1, files, digest, raw).Some?
    ensures var c := ValidateRequest(V1, files, digest, raw).value;
            && Lower(c.request.source.gitSha) == c.request.source.gitSha
            && ValidHandoff(c.request.handoff)
            && c.policyPath in files && files[c.policyPath].PolicyFile?
            && ValidatePolicy(V1, files[c.policyPath].policy) == Some(c.policy)
            && VerifiedRef(files, digest, Freeze(files, digest, c.policyPath), EVIDENCE_ROOT)
  {
    LowerTwice(raw.source.gitSha);
    LowerTwice(raw.approvalPolicy.sha256);
  }

  lemma {:induction false} NamedFilesHold(files: Files, digest: File -> string, report: ReportV1, requestPath: string,
                                          checked: Checked)
    requires requestPath in files && files[requestPath].RequestFile? && Sha256(digest(files[requestPath]))
    requires ValidateRequest(V1, files, digest, files[requestPath].request) == Some(checked)
    requires checked.policyPath in files && report.approvalPolicy == Freeze(files, digest, checked.policyPath)
    requires report.requestRef == Freeze(files, digest, requestPath)
    ensures NamedFiles(files, digest, report) ==
            if Under(requestPath, EVIDENCE_ROOT) then Some((checked.policy, checked)) else None
  {
    CheckedV1(files, digest, files[requestPath].request);
    FrozenVerifies(files, digest, requestPath);
    PolicyHolds(files, digest, report, checked.policyPath, checked.policy);
  }

  lemma {:induction false} PolicyHolds(files: Files, digest: File -> string, report: ReportV1, path: string,
                                       policy: Policy)
    requires path in files && report.approvalPolicy == Freeze(files, digest, path) && files[path].PolicyFile?
    requires ValidatePolicy(V1, files[path].policy) == Some(policy)
    requires VerifiedRef(files, digest, Freeze(files, digest, path), EVIDENCE_ROOT)
    ensures var requestPath := report.requestRef.path;
            NamedFiles(files, digest, report) ==
            if !VerifiedRef(files, digest, report.requestRef, EVIDENCE_ROOT) ||
                !files[requestPath].RequestFile? then None
            else match ValidateRequest(V1, files, digest, files[requestPath].request)
              case None => None
              case Some(checked) => Some((policy, checked))
  {
  }

  lemma {:induction false} BuiltHead(report: ReportV1, request: Request)
    requires report.schemaVersion == 1 && report.kind == V1.AuthorizationKind() && report.status == "PASS"
    requires report.repository == REPOSITORY && report.releaseId == request.releaseId && report.rc == request.source
    requires Present(request.releaseId) && SafeId(request.releaseId) && Sha40(Lower(request.source.gitSha))
    requires Present(request.source.version) && Present(request.source.migrationHead)
    ensures HeadValid(report, Some(request.releaseId), Some(request.source)) && HeadValid(report, None, None)
  {
  }

  lemma {:induction false} BuiltBody(files: Files, digest: File -> string, requestPath: string, checked: Checked,
                                     payload: PrPayload, reviews: seq<Review>)
    requires requestPath in files && checked.policyPath in files && checked.policy.Normal()
    requires Lower(checked.request.source.gitSha) == checked.request.source.gitSha
    requires BuildV1(files, digest, requestPath, checked, payload, reviews).Some?
    ensures var report := BuildV1(files, digest, requestPath, checked, payload, reviews).value;
            && report.schemaVersion == 1 && report.kind == V1.AuthorizationKind() && report.status == "PASS"
            && report.repository == REPOSITORY && report.releaseId == checked.request.releaseId
            && report.rc == checked.request.source
            && report.requestRef == Freeze(files, digest, requestPath)
            && report.approvalPolicy == Freeze(files, digest, checked.policyPath)
            && SameRelease(report, checked.policy, checked)
  {
  }

  lemma {:induction false} ReportDecided(files: Files, digest: File -> string, report: ReportV1, checked: Checked,
                                         releaseId: Option<string>, rc: Option<Identity>)
    requires HeadValid(report, releaseId, rc) && SameRelease(report, checked.policy, checked)
    requires NamedFiles(files, digest, report).Some? ==>
               NamedFiles(files, digest, report).value == (checked.policy, checked)
    requires PrValid(report.pr, report.rc.gitSha) && UrlsValid(checked.policy.roles, report.approvals)
    requires SelectedValid(checked.policy, report.approvals, report.pr.author, Lower(report.rc.gitSha))
    requires report.distinctApprovers == |Actors(report.approvals)| && ValidHandoff(report.handoff)
    ensures ValidateReportV1(files, digest, report, releaseId, rc).Some? <==> NamedFiles(files, digest, report).Some?
  {
  }

  /** A version 1 report built from a checked request passes its validator over any store that still holds the
      two frozen files, exactly when the request file lies under the evidence root. */
  lemma {:induction false} BuiltReportV1Validates(files: Files, files': Files, digest: File -> string,
                                                  requestPath: string, checked: Checked, payload: PrPayload,
                                                  reviews: seq<Review>)
    requires forall f :: Sha256(digest(f))
    requires requestPath in files && files[requestPath].RequestFile?
    requires ValidateRequest(V1, files, digest, files[requestPath].request) == Some(checked)
    requires checked.policyPath in files && checked.policy.Normal()
    requires requestPath in files' && files'[requestPath] == files[requestPath]
    requires checked.policyPath in files' && files'[checked.policyPath] == files[checked.policyPath]
    requires BuildV1(files, digest, requestPath, checked, payload, reviews).Some?
    ensures var report := BuildV1(files, digest, requestPath, checked, payload, reviews).value;
            && (ValidateReportV1(files', digest, report, None, None).Some? <==> Under(requestPath, EVIDENCE_ROOT))
            && (ValidateReportV1(files', digest, report, Some(checked.request.releaseId),
                                 Some(checked.request.source)).Some?
                <==> Under(requestPath, EVIDENCE_ROOT))
  {
    var report := BuildV1(files, digest, requestPath, checked, payload, reviews).value;
    var raw := files[requestPath].request;
    CheckedRequest(V1, files, digest, raw);
    CheckedV1(files, digest, raw);
    CheckedElsewhere(V1, files, files', digest, raw);
    BuiltFieldsV1(files, digest, requestPath, checked, payload, reviews);
    BuiltBody(files, digest, requestPath, checked, payload, reviews);
    BuiltHead(report, checked.request);
    NamedFilesHold(files', digest, report, requestPath, checked);
    ReportDecided(files', digest, report, checked, None, None);
    ReportDecided(files', digest, report, checked, Some(checked.request.releaseId), Some(checked.request.source));
  }
}
