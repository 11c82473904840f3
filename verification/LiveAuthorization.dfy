/** Release authorization, version 1 (scripts/capture_release_authorization.py): selecting the approvals
    and verifying a frozen report against the pull request as it is now. */
module LiveAuthorization {
  import opened Schemas
  import opened Text
  import opened Ordering
  import opened Reviews
  import opened FrozenFiles
  import opened Authorization
  import opened AuthorizationReport
  import opened AuthorizationV1

  // ----- live verification -----

  /** Reviews by identifier; a repeated identifier keeps the last review. */
  function ById(rs: seq<Review>): map<int, Review> {
    if rs == [] then
      map[]
    else
      var m, r := ById(rs[..|rs| - 1]), rs[|rs| - 1];
      if r.id.Some? then m[r.id.value := r] else m
  }

  predicate RoleLive(frozen: Approval, byId: map<int, Review>, latest: map<string, Review>, gitSha: string) {
    && frozen.reviewId in byId
    && var review := byId[frozen.reviewId];
    && review.login == Some(frozen.actor)
    && review.state == "APPROVED"
    && review.commit == Some(gitSha)
    && frozen.actor in latest && latest[frozen.actor].id == Some(frozen.reviewId)
  }

  predicate LiveOk(roles: seq<string>, approvals: Approvals, gitSha: string, frozenPr: Pr, payload: PrPayload,
                   reviews: seq<Review>)
    requires forall role :: role in roles ==> role in approvals
  {
    && ValidatePrV1(payload, gitSha) == Some(frozenPr)
    && forall role :: role in roles ==> RoleLive(approvals[role], ById(reviews), Latest(reviews), gitSha)
  }

  method VerifyLive(roles: seq<string>, approvals: Approvals, gitSha: string, frozenPr: Pr, payload: PrPayload,
                    reviews: seq<Review>) returns (ok: bool)
    requires forall role :: role in roles ==> role in approvals
    ensures ok == LiveOk(roles, approvals, gitSha, frozenPr, payload, reviews)
  {
    var currentPr := ValidatePrV1(payload, gitSha);
    if currentPr != Some(frozenPr) {
      return false;
    }
    var byId := ById(reviews);
    var latest := LatestDecisiveReviews(reviews);
    for i := 0 to |roles|
      invariant forall j :: 0 <= j < i ==> RoleLive(approvals[roles[j]], byId, latest, gitSha)
    {
      if !RoleLive(approvals[roles[i]], byId, latest, gitSha) {
        return false;
      }
    }
    ok := true;
  }

  // ----- what live verification means -----

  lemma {:induction false} ByIdHolds(rs: seq<Review>, r: Review)
    requires r.id.Some?
    ensures r.id.value in ById(rs) ==> ById(rs)[r.id.value] in rs && ById(rs)[r.id.value].id == r.id
    ensures r in rs ==> r.id.value in ById(rs)
  {
    if rs != [] {
      assert rs == rs[..|rs| - 1] + [rs[|rs| - 1]];
      ByIdHolds(rs[..|rs| - 1], r);
    }
  }

  /** The frozen review is still there, approves the exact commit, and is the actor's latest word. */
  ghost predicate Stands(frozen: Approval, gitSha: string, reviews: seq<Review>) {
    exists r :: && r in reviews && r.id == Some(frozen.reviewId)
                && r.state == "APPROVED" && r.commit == Some(gitSha)
                && IsLatest(reviews, frozen.actor, r)
  }

  lemma {:induction false} RoleLiveMeans(frozen: Approval, gitSha: string, reviews: seq<Review>)
    requires UniqueIds(reviews)
    ensures RoleLive(frozen, ById(reviews), Latest(reviews), gitSha) <==> Stands(frozen, gitSha, reviews)
  {
    var byId, latest := ById(reviews), Latest(reviews);
    LatestIsGreatest(reviews, frozen.actor);
    if RoleLive(frozen, byId, latest, gitSha) {
      var r := byId[frozen.reviewId];
      var probe := r.(id := Some(frozen.reviewId));
      ByIdHolds(reviews, probe);
      SameReview(reviews, r, latest[frozen.actor]);
    }
    if Stands(frozen, gitSha, reviews) {
      var r :| && r in reviews && r.id == Some(frozen.reviewId)
               && r.state == "APPROVED" && r.commit == Some(gitSha) && IsLatest(reviews, frozen.actor, r);
      ByIdHolds(reviews, r);
      SameReview(reviews, r, byId[frozen.reviewId]);
      LatestIs(reviews, frozen.actor, r);
    }
  }

  /** Version 1 approvals record their actors' latest decisive reviews. */
  lemma {:induction false} SelectedRole(policy: Policy, reviews: seq<Review>, rcSha: string, author: string,
                                        role: string)
    requires policy.Normal() && UniqueIds(reviews) && role in policy.roles
    requires SelectV1(policy, reviews, rcSha, author).Some?
    ensures var approvals := SelectV1(policy, reviews, rcSha, author).value;
            && role in approvals
            && var actor := approvals[role].actor;
            && actor in Latest(reviews) && IsLatest(reviews, actor, Latest(reviews)[actor])
            && Latest(reviews)[actor].id == Some(approvals[role].reviewId)
            && Latest(reviews)[actor].state == "APPROVED"
  {
    var approved := ApprovedV1(Latest(reviews), rcSha, author);
    ChooseDecides(policy, approved.Keys);
    var chosen := Choose(policy, approved.Keys).value;
    assert chosen[role] in approved;
    LatestIsGreatest(reviews, chosen[role]);
  }

  /** On an unchanged pull request a freshly selected set of approvals verifies exactly when every selected
      review names the commit in lower case: selection ignores the case, live verification does not. */
  lemma {:induction false} FreshApprovalsLive(policy: Policy, payload: PrPayload, reviews: seq<Review>, rcSha: string)
    requires policy.Normal() && UniqueIds(reviews)
    requires ValidatePrV1(payload, rcSha).Some?
    requires SelectV1(policy, reviews, rcSha, payload.author).Some?
    ensures var approvals := SelectV1(policy, reviews, rcSha, payload.author).value;
            && (forall role :: role in policy.roles ==>
                  role in approvals && approvals[role].actor in Latest(reviews))
            && (LiveOk(policy.roles, approvals, Lower(rcSha), ValidatePrV1(payload, rcSha).value, payload, reviews)
                <==> forall role :: role in policy.roles ==>
                       Latest(reviews)[approvals[role].actor].commit == Some(Lower(rcSha)))
  {
    var approvals := SelectV1(policy, reviews, rcSha, payload.author).value;
    LowerTwice(rcSha);
    forall role | role in policy.roles
      ensures role in approvals && approvals[role].actor in Latest(reviews)
      ensures RoleLive(approvals[role], ById(reviews), Latest(reviews), Lower(rcSha))
              <==> Latest(reviews)[approvals[role].actor].commit == Some(Lower(rcSha))
    {
      SelectedRole(policy, reviews, rcSha, payload.author, role);
      FreshRole(approvals[role], reviews, Lower(rcSha));
    }
  }

  lemma {:induction false} FreshRole(frozen: Approval, reviews: seq<Review>, gitSha: string)
    requires UniqueIds(reviews) && frozen.actor in Latest(reviews)
    requires var r := Latest(reviews)[frozen.actor];
             IsLatest(reviews, frozen.actor, r) && r.id == Some(frozen.reviewId) && r.state == "APPROVED"
    ensures RoleLive(frozen, ById(reviews), Latest(reviews), gitSha)
            <==> Latest(reviews)[frozen.actor].commit == Some(gitSha)
  {
    var r := Latest(reviews)[frozen.actor];
    RoleLiveMeans(frozen, gitSha, reviews);
    if Stands(frozen, gitSha, reviews) {
      var x :| && x in reviews && x.id == Some(frozen.reviewId)
               && x.state == "APPROVED" && x.commit == Some(gitSha) && IsLatest(reviews, frozen.actor, x);
      SameReview(reviews, x, r);
    }
  }

  // ----- later reviews -----

  /** Nothing new that could count: every added review is no decision, or not by a selected actor. */
  ghost predicate AddsNoDecision(before: seq<Review>, after: seq<Review>, actors: set<string>) {
    && (forall r :: r in before ==> r in after)
    && (forall r, actor :: r in after && r !in before && actor in actors ==> !DecisiveOf(r, actor))
  }

  function SelectedActors(roles: seq<string>, approvals: Approvals): set<string>
    requires forall role :: role in roles ==> role in approvals
  {
    set role | role in roles :: approvals[role].actor
  }

  /** Live verification is not disturbed by comments or by other people's reviews. */
  lemma {:induction false} LiveSurvives(roles: seq<string>, approvals: Approvals, gitSha: string, pr: Pr,
                                        payload: PrPayload,
                                        before: seq<Review>, after: seq<Review>)
    requires forall role :: role in roles ==> role in approvals
    requires UniqueIds(before) && UniqueIds(after)
    requires AddsNoDecision(before, after, SelectedActors(roles, approvals))
    requires LiveOk(roles, approvals, gitSha, pr, payload, before)
    ensures LiveOk(roles, approvals, gitSha, pr, payload, after)
  {
    forall role | role in roles
      ensures RoleLive(approvals[role], ById(after), Latest(after), gitSha)
    {
      var frozen := approvals[role];
      assert frozen.actor in SelectedActors(roles, approvals);
      RoleLiveMeans(frozen, gitSha, before);
      RoleLiveMeans(frozen, gitSha, after);
      var r :| && r in before && r.id == Some(frozen.reviewId)
               && r.state == "APPROVED" && r.commit == Some(gitSha) && IsLatest(before, frozen.actor, r);
      assert IsLatest(after, frozen.actor, r);
    }
  }

  /** It fails as soon as a selected actor has another decisive review that is not earlier than the frozen
      one. */
  lemma {:induction false} LiveRevoked(roles: seq<string>, approvals: Approvals, gitSha: string, pr: Pr,
                                       payload: PrPayload,
                                       reviews: seq<Review>, role: string, frozen: Review, later: Review)
    requires forall r :: r in roles ==> r in approvals
    requires UniqueIds(reviews) && role in roles
    requires frozen in reviews && frozen.id == Some(approvals[role].reviewId)
    requires later in reviews && DecisiveOf(later, approvals[role].actor) && later.id != frozen.id
    requires ReviewLeq(frozen, later)
    ensures !LiveOk(roles, approvals, gitSha, pr, payload, reviews)
  {
    var item := approvals[role];
    RoleLiveMeans(item, gitSha, reviews);
    if Stands(item, gitSha, reviews) {
      var r :| && r in reviews && r.id == Some(item.reviewId)
               && r.state == "APPROVED" && r.commit == Some(gitSha) && IsLatest(reviews, item.actor, r);
      SameReview(reviews, r, frozen);
      if SubmittedOf(r) != SubmittedOf(later) {
        StrLeqAntisymmetric(SubmittedOf(r), SubmittedOf(later));
      }
    }
  }

  // ----- the whole verification: the report first, then the reviews -----

  lemma {:induction false} ValidRoles(files: Files, digest: File -> string, report: ReportV1)
    requires ValidateReportV1(files, digest, report, None, None).Some?
    ensures forall role :: role in ROLES ==> role in report.approvals
  {
    var policy := NamedFiles(files, digest, report).value.0;
    assert policy.roles == ROLES;
  }

  /** The report still holds, and so do the reviews it records. */
  predicate LiveReportOk(files: Files, digest: File -> string, report: ReportV1, payload: PrPayload,
                         reviews: seq<Review>) {
    && ValidateReportV1(files, digest, report, None, None).Some?
    && (ValidRoles(files, digest, report);
        LiveOk(ROLES, report.approvals, Lower(report.rc.gitSha), report.pr, payload, reviews))
  }

  method VerifyLiveReport(files: Files, digest: File -> string, report: ReportV1, payload: PrPayload,
                          reviews: seq<Review>)
    returns (ok: bool)
    ensures ok == LiveReportOk(files, digest, report, payload, reviews)
  {
    if ValidateReportV1(files, digest, report, None, None).None? {
      return false;
    }
    ValidRoles(files, digest, report);
    ok := VerifyLive(ROLES, report.approvals, Lower(report.rc.gitSha), report.pr, payload, reviews);
  }

  /** A report verified on the unchanged pull request it was built from, over any files that still hold the two
      frozen ones, passes exactly when the request file lies under the evidence root and every selected review
      names the commit in lower case. */
  lemma {:induction false} FreshReportLive(files: Files, files': Files, digest: File -> string, requestPath: string,
                                           checked: Checked, payload: PrPayload, reviews: seq<Review>)
    requires (forall f :: Sha256(digest(f))) && UniqueIds(reviews)
    requires requestPath in files && files[requestPath].RequestFile?
    requires ValidateRequest(V1, files, digest, files[requestPath].request) == Some(checked)
    requires checked.policyPath in files && checked.policy.Normal()
    requires requestPath in files' && files'[requestPath] == files[requestPath]
    requires checked.policyPath in files' && files'[checked.policyPath] == files[checked.policyPath]
    requires BuildV1(files, digest, requestPath, checked, payload, reviews).Some?
    ensures var report := BuildV1(files, digest, requestPath, checked, payload, reviews).value;
            && (forall role :: role in ROLES ==>
                role in report.approvals && report.approvals[role].actor in Latest(reviews))
            && (LiveReportOk(files', digest, report, payload, reviews) <==>
                && Under(requestPath, EVIDENCE_ROOT)
                && forall role :: role in ROLES ==>
                     Latest(reviews)[report.approvals[role].actor].commit == Some(Lower(report.rc.gitSha)))
  {
    var report := BuildV1(files, digest, requestPath, checked, payload, reviews).value;
    BuiltReportV1Validates(files, files', digest, requestPath, checked, payload, reviews);
    FreshFields(files, digest, requestPath, checked, payload, reviews);
    FreshSelection(checked.policy, payload, reviews, report);
  }

  predicate Keeps(files: Files, files': Files) {
    forall path :: path in files ==> path in files' && files'[path] == files[path]
  }

  lemma {:induction false} KeptRef(files: Files, files': Files, digest: File -> string, ref: Ref)
    requires Keeps(files, files') && VerifiedRef(files, digest, ref, EVIDENCE_ROOT)
    ensures VerifiedRef(files', digest, ref, EVIDENCE_ROOT)
    ensures ref.path in files && ref.path in files' && files'[ref.path] == files[ref.path]
  {
  }

  lemma {:induction false} CheckedNames(files: Files, digest: File -> string, raw: RawRequest)
    requires ValidateRequest(V1, files, digest, raw).Some?
    ensures ValidateRequest(V1, files, digest, raw).value.policyPath in files
  {
  }

  lemma {:induction false} KeptNamedFiles(files: Files, files': Files, digest: File -> string, report: ReportV1)
    requires Keeps(files, files') && NamedFiles(files, digest, report).Some?
    ensures NamedFiles(files', digest, report) == NamedFiles(files, digest, report)
  {
    KeptRef(files, files', digest, report.approvalPolicy);
    KeptRef(files, files', digest, report.requestRef);
    var raw := files[report.requestRef.path].request;
    CheckedNames(files, digest, raw);
    CheckedElsewhere(V1, files, files', digest, raw);
  }

  lemma {:induction false} KeptReport(files: Files, files': Files, digest: File -> string, report: ReportV1)
    requires Keeps(files, files') && ValidateReportV1(files, digest, report, None, None).Some?
    ensures ValidateReportV1(files', digest, report, None, None).Some?
  {
    KeptNamedFiles(files, files', digest, report);
  }

  /** A report that verifies keeps verifying while files are only added and nobody selected decides again. */
  lemma {:induction false} ReportSurvives(files: Files, files': Files, digest: File -> string, report: ReportV1,
                                          payload: PrPayload, before: seq<Review>, after: seq<Review>)
    requires UniqueIds(before) && UniqueIds(after)
    requires LiveReportOk(files, digest, report, payload, before) && Keeps(files, files')
    requires (forall role :: role in ROLES ==> role in report.approvals) &&
             AddsNoDecision(before, after, SelectedActors(ROLES, report.approvals))
    ensures LiveReportOk(files', digest, report, payload, after)
  {
    KeptReport(files, files', digest, report);
    LiveSurvives(ROLES, report.approvals, Lower(report.rc.gitSha), report.pr, payload, before, after);
  }

  /** A report stops verifying when a selected actor has another decisive review that is not earlier. */
  lemma {:induction false} ReportRevoked(files: Files, digest: File -> string, report: ReportV1, payload: PrPayload,
                                         reviews: seq<Review>, role: string, frozen: Review, later: Review)
    requires UniqueIds(reviews) && role in ROLES && role in report.approvals
    requires frozen in reviews && frozen.id == Some(report.approvals[role].reviewId)
    requires later in reviews && DecisiveOf(later, report.approvals[role].actor) && later.id != frozen.id
    requires ReviewLeq(frozen, later)
    ensures !LiveReportOk(files, digest, report, payload, reviews)
  {
    if ValidateReportV1(files, digest, report, None, None).Some? {
      ValidRoles(files, digest, report);
      LiveRevoked(ROLES, report.approvals, Lower(report.rc.gitSha), report.pr, payload, reviews, role, frozen, later);
    }
  }

  lemma {:induction false} FreshFields(files: Files, digest: File -> string, requestPath: string, checked: Checked,
                                       payload: PrPayload, reviews: seq<Review>)
    requires requestPath in files && files[requestPath].RequestFile?
    requires ValidateRequest(V1, files, digest, files[requestPath].request) == Some(checked)
    requires checked.policyPath in files && checked.policy.Normal()
    requires BuildV1(files, digest, requestPath, checked, payload, reviews).Some?
    ensures var report := BuildV1(files, digest, requestPath, checked, payload, reviews).value;
            && checked.policy.roles == ROLES
            && ValidatePrV1(payload, report.rc.gitSha) == Some(report.pr)
            && SelectV1(checked.policy, reviews, report.rc.gitSha, report.pr.author) == Some(report.approvals)
  {
    BuiltFieldsV1(files, digest, requestPath, checked, payload, reviews);
    CheckedV1(files, digest, files[requestPath].request);
  }

  lemma {:induction false} FreshSelection(policy: Policy, payload: PrPayload, reviews: seq<Review>, report: ReportV1)
    requires policy.Normal() && policy.roles == ROLES && UniqueIds(reviews)
    requires ValidatePrV1(payload, report.rc.gitSha) == Some(report.pr)
    requires SelectV1(policy, reviews, report.rc.gitSha, report.pr.author) == Some(report.approvals)
    ensures forall role :: role in ROLES ==> role in report.approvals && report.approvals[role].actor in Latest(reviews)
    ensures LiveOk(ROLES, report.approvals, Lower(report.rc.gitSha), report.pr, payload, reviews) <==>
            forall role :: role in ROLES ==>
              Latest(reviews)[report.approvals[role].actor].commit == Some(Lower(report.rc.gitSha))
  {
    PrAuthor(payload, report.rc.gitSha);
    FreshApprovalsLive(policy, payload, reviews, report.rc.gitSha);
  }

  lemma {:induction false} PrAuthor(payload: PrPayload, rcSha: string)
    requires ValidatePrV1(payload, rcSha).Some?
    ensures ValidatePrV1(payload, rcSha).value.author == payload.author
  {
  }

  /** A frozen file that no longer has its digest blocks, whatever the reviews say. */
  lemma {:induction false} ChangedFileBlocks(files: Files, digest: File -> string, report: ReportV1, payload: PrPayload,
                                             reviews: seq<Review>, ref: Ref)
    requires ref == report.approvalPolicy || ref == report.requestRef
    requires ref.path in files ==> digest(files[ref.path]) != Lower(ref.sha256)
    ensures !LiveReportOk(files, digest, report, payload, reviews)
  {
    assert NamedFiles(files, digest, report).None?;
  }
}
