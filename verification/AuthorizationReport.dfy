/** Building an authorization report, validating one, and the proof that the two agree
    (scripts/capture_release_authorization_v2.py, build_authorization and
    validate_authorization_report). */
module AuthorizationReport {
  import opened Schemas
  import opened Text
  import opened FrozenFiles
  import opened Reviews
  import opened ApprovalSearch
  import opened Authorization
  import Ordering

  // ----- selecting the approvals, step by step -----

  method ApprovedReviews(latest: map<string, Review>, evidence: string, author: string)
    returns (approved: map<string, Review>)
    ensures approved == Approved(latest, evidence, author)
  {
    approved := map[];
    var left := latest.Keys;
    while left != {}
      invariant left <= latest.Keys
      invariant approved == map a | a in latest && a !in left && Approves(latest[a], a, evidence, author) :: latest[a]
    {
      var actor :| actor in left;
      if Approves(latest[actor], actor, evidence, author) {
        approved := approved[actor := latest[actor]];
      }
      left := left - {actor};
    }
  }

  method SelectApprovals(policy: Policy, reviews: seq<Review>, evidence: string, author: string)
    returns (r: Option<Approvals>)
    requires policy.Normal()
    ensures r == SelectRoleApprovals(policy, reviews, evidence, author)
  {
    var latest := LatestDecisiveReviews(reviews);
    var approved := ApprovedReviews(latest, evidence, author);
    var chosen := ChooseActors(policy, approved.Keys);
    if chosen.None? {
      return None;
    }
    ChooseDecides(policy, approved.Keys);
    r := Records(policy.roles, chosen.value, approved, evidence);
  }

  method ChooseActors(policy: Policy, approved: set<string>) returns (r: Option<Assignment>)
    requires policy.Normal()
    ensures r == Choose(policy, approved)
  {
    var p := ProblemOf(policy, approved);
    ProblemOfValid(policy, approved);
    var open := NoCandidates(p.roles, p.candidates);
    if open {
      return None;
    }
    var search := new Search(p);
    var found := search.Run(0);
    r := if found then Some(search.assignment) else None;
  }

  method NoCandidates(roles: seq<string>, candidates: map<string, seq<string>>) returns (open: bool)
    requires forall i :: 0 <= i < |roles| ==> roles[i] in candidates
    ensures open == SomeRoleOpen(roles, candidates)
  {
    for i := 0 to |roles|
      invariant forall j :: 0 <= j < i ==> candidates[roles[j]] != []
    {
      if candidates[roles[i]] == [] {
        return true;
      }
    }
    open := false;
  }

  method Records(roles: seq<string>, chosen: Assignment, approved: map<string, Review>,
                 evidence: string) returns (r: Option<Approvals>)
    requires forall role :: role in roles ==> role in chosen && chosen[role] in approved
    ensures r == RecordsOf(roles, chosen, approved, evidence)
  {
    var records: Approvals := map[];
    for i := 0 to |roles|
      invariant forall role :: role in roles[..i] ==>
                  ApprovalRecord(approved[chosen[role]], chosen[role], evidence).Some?
      invariant records == map role | role in roles[..i] ::
                  ApprovalRecord(approved[chosen[role]], chosen[role], evidence).value
    {
      var role := roles[i];
      assert role in roles;
      assert roles[..i + 1] == roles[..i] + [role];
      var record := ApprovalRecord(approved[chosen[role]], chosen[role], evidence);
      if record.None? {
        return None;
      }
      records := records[role := record.value];
    }
    assert roles[..|roles|] == roles;
    r := Some(records);
  }

  // ----- when approvals can be selected, in terms of the reviews -----

  /** `actor`'s greatest decisive review approves the evidence commit, and `actor` is a person other than
      the author. */
  ghost predicate HasApproved(reviews: seq<Review>, actor: string, evidence: string, author: string) {
    exists r :: IsLatest(reviews, actor, r) && Approves(r, actor, evidence, author)
  }

  lemma {:induction false} PairNormal(names: seq<string>)
    requires ValidPair(names)
    ensures var pair := RolePair(names[0], names[1]);
            pair.0 in ROLES && pair.1 in ROLES && pair.0 != pair.1 && RolePair(pair.0, pair.1) == pair
  {
    RolePairSymmetric(names[0], names[1]);
  }

  lemma {:induction false} ValidatedPolicyNormal(e: Edition, raw: RawPolicy)
    requires ValidatePolicy(e, raw).Some?
    ensures ValidatePolicy(e, raw).value.Normal()
  {
    var policy := ValidatePolicy(e, raw).value;
    RolesDistinct();
    forall pair | pair in policy.separated
      ensures pair.0 in ROLES && pair.1 in ROLES && pair.0 != pair.1 && RolePair(pair.0, pair.1) == pair
    {
      var i :| 0 <= i < |raw.separation| && RolePair(raw.separation[i][0], raw.separation[i][1]) == pair;
      PairNormal(raw.separation[i]);
    }
  }

  lemma {:induction false} RolesDistinct()
    ensures Ordering.AllDifferent(ROLES)
  {
    assert |ROLES[0]| == 7 && |ROLES[1]| == 11 && |ROLES[2]| == 8 && |ROLES[3]| == 10 && |ROLES[4]| == 13;
  }

  lemma {:induction false} ApprovedMeans(reviews: seq<Review>, actor: string, evidence: string, author: string)
    requires UniqueIds(reviews)
    ensures actor in Approved(Latest(reviews), evidence, author) <==> HasApproved(reviews, actor, evidence, author)
  {
    LatestIsGreatest(reviews, actor);
    if r :| IsLatest(reviews, actor, r) && Approves(r, actor, evidence, author) {
      LatestIs(reviews, actor, r);
    }
  }

  /** A way to fill every role that respects the policy, in terms of the reviews. */
  ghost predicate LegalApprovers(policy: Policy, reviews: seq<Review>, evidence: string, author: string,
                                 who: Assignment)
    requires policy.Normal()
  {
    && (forall role :: role in who <==> role in policy.roles)
    && (forall role :: role in policy.roles ==>
          who[role] in policy.allowed[role] && HasApproved(reviews, who[role], evidence, author))
    && (forall pair :: pair in policy.separated ==> who[pair.0] != who[pair.1])
    && |who.Values| >= policy.minimum
  }

  /** Every approving review carries what a record needs. */
  ghost predicate CompleteReviews(reviews: seq<Review>, evidence: string, author: string) {
    forall r, actor :: r in reviews && IsLatest(reviews, actor, r) && Approves(r, actor, evidence, author) ==>
      ApprovalRecord(r, actor, evidence).Some?
  }

  lemma {:induction false} FillsMeans(policy: Policy, approved: set<string>, reviews: seq<Review>, evidence: string,
                                      author: string, who: Assignment)
    requires policy.Normal()
    requires forall actor :: actor in approved <==> HasApproved(reviews, actor, evidence, author)
    ensures Fills(policy, approved, who) <==> LegalApprovers(policy, reviews, evidence, author, who)
  {
  }

  lemma {:induction false} SelectFromDecides(policy: Policy, approved: map<string, Review>, evidence: string)
    requires policy.Normal()
    requires forall actor :: actor in approved ==> ApprovalRecord(approved[actor], actor, evidence).Some?
    ensures SelectFrom(policy, approved, evidence).Some? <==> exists who :: Fills(policy, approved.Keys, who)
  {
    ChooseDecides(policy, approved.Keys);
    var chosen := Choose(policy, approved.Keys);
    if chosen.Some? {
      CompleteRecords(policy.roles, chosen.value, approved, evidence);
    }
  }

  lemma {:induction false} CompleteRecords(roles: seq<string>, chosen: Assignment, approved: map<string, Review>,
                                           evidence: string)
    requires forall role :: role in roles ==> role in chosen && chosen[role] in approved
    requires forall actor :: actor in approved ==> ApprovalRecord(approved[actor], actor, evidence).Some?
    ensures RecordsOf(roles, chosen, approved, evidence).Some?
  {
  }

  /** Approvals are selected exactly when the people who approved can fill the roles legally at all. */
  lemma {:induction false} SelectionDecides(policy: Policy, reviews: seq<Review>, evidence: string, author: string)
    requires policy.Normal() && UniqueIds(reviews) && CompleteReviews(reviews, evidence, author)
    ensures SelectRoleApprovals(policy, reviews, evidence, author).Some? <==>
            exists who :: LegalApprovers(policy, reviews, evidence, author, who)
  {
    var approved := Approved(Latest(reviews), evidence, author);
    forall actor
      ensures actor in approved <==> HasApproved(reviews, actor, evidence, author)
      ensures actor in approved ==> ApprovalRecord(approved[actor], actor, evidence).Some?
    {
      ApprovedMeans(reviews, actor, evidence, author);
      LatestIsGreatest(reviews, actor);
    }
    SelectFromDecides(policy, approved, evidence);
    forall who
      ensures Fills(policy, approved.Keys, who) <==> LegalApprovers(policy, reviews, evidence, author, who)
    {
      FillsMeans(policy, approved.Keys, reviews, evidence, author, who);
    }
  }

  /** The reviews that count for the chosen people carry what a record needs. */
  ghost predicate Recordable(roles: seq<string>, reviews: seq<Review>, evidence: string, who: Assignment) {
    forall role :: role in roles ==>
      role in who && exists r :: IsLatest(reviews, who[role], r) && ApprovalRecord(r, who[role], evidence).Some?
  }

  lemma {:induction false} RecordsNeeded(roles: seq<string>, chosen: Assignment, approved: map<string, Review>,
                                         reviews: seq<Review>, evidence: string)
    requires UniqueIds(reviews) && forall role :: role in roles ==> role in chosen && chosen[role] in approved
    requires forall actor :: actor in approved ==> IsLatest(reviews, actor, approved[actor])
    ensures RecordsOf(roles, chosen, approved, evidence).Some? <==> Recordable(roles, reviews, evidence, chosen)
  {
    forall role | role in roles
      ensures ApprovalRecord(approved[chosen[role]], chosen[role], evidence).Some? <==>
              exists r :: IsLatest(reviews, chosen[role], r) && ApprovalRecord(r, chosen[role], evidence).Some?
    {
      if r :| IsLatest(reviews, chosen[role], r) && ApprovalRecord(r, chosen[role], evidence).Some? {
        LatestIs(reviews, chosen[role], r);
        LatestIs(reviews, chosen[role], approved[chosen[role]]);
      }
    }
  }

  lemma {:induction false} SelectFromExactly(policy: Policy, approved: map<string, Review>, reviews: seq<Review>,
                                             evidence: string)
    requires policy.Normal() && UniqueIds(reviews)
    requires forall actor :: actor in approved ==> IsLatest(reviews, actor, approved[actor])
    ensures SelectFrom(policy, approved, evidence).Some? <==>
            exists who :: BestFilling(policy, approved.Keys, who) && Recordable(policy.roles, reviews, evidence, who)
  {
    ChooseDecides(policy, approved.Keys);
    var chosen := Choose(policy, approved.Keys);
    if chosen.Some? {
      ChosenIsBest(policy, approved.Keys, chosen.value);
      RecordsNeeded(policy.roles, chosen.value, approved, reviews, evidence);
    }
    if who :| BestFilling(policy, approved.Keys, who) && Recordable(policy.roles, reviews, evidence, who) {
      ChosenIsBest(policy, approved.Keys, who);
    }
  }

  /** Exactly when approvals are selected: the best filling by the people who approved has reviews that can be
      recorded.  Other fillings do not help: the search does not look at what a record needs. */
  lemma {:induction false} SelectionExactly(policy: Policy, reviews: seq<Review>, evidence: string, author: string,
                                            approvers: set<string>)
    requires policy.Normal() && UniqueIds(reviews)
    requires forall actor :: actor in approvers <==> HasApproved(reviews, actor, evidence, author)
    ensures SelectRoleApprovals(policy, reviews, evidence, author).Some? <==>
            exists who :: BestFilling(policy, approvers, who) && Recordable(policy.roles, reviews, evidence, who)
  {
    var approved := Approved(Latest(reviews), evidence, author);
    forall actor
      ensures actor in approved <==> actor in approvers
      ensures actor in approved ==> IsLatest(reviews, actor, approved[actor])
    {
      ApprovedMeans(reviews, actor, evidence, author);
      LatestIsGreatest(reviews, actor);
    }
    assert approved.Keys == approvers;
    SelectFromExactly(policy, approved, reviews, evidence);
  }

  // ----- the report -----

  datatype Report = Report(
    schemaVersion: int, kind: string, status: string, repository: string,
    releaseId: string, source: Identity, evidence: string, pr: Pr,
    requestRef: Ref, approvalPolicy: Ref, distinctApprovers: int,
    approvals: Approvals, handoff: map<string, string>)

  function Actors(approvals: Approvals): set<string> {
    set role | role in approvals :: approvals[role].actor
  }

  function BuildAuthorization(files: Files, digest: File -> string, requestPath: string, checked: Checked,
                              payload: PrPayload, reviews: seq<Review>, evidenceHead: string): Option<Report>
    requires requestPath in files && checked.policyPath in files && checked.policy.Normal()
  {
    var evidence := Lower(evidenceHead);
    if !Sha40(evidence) then None else
    match ValidatePr(payload, evidence)
    case None => None
    case Some(pr) =>
      match SelectRoleApprovals(checked.policy, reviews, evidence, pr.author)
      case None => None
      case Some(approvals) =>
        Some(Report(2, V2.AuthorizationKind(), "PASS", REPOSITORY, checked.request.releaseId, checked.request.source,
                    evidence, pr, Freeze(files, digest, requestPath), Freeze(files, digest, checked.policyPath),
                    |Actors(approvals)|, approvals, checked.request.handoff))
  }

  predicate ApprovalValid(item: Approval, allowed: seq<string>, author: string, evidence: string) {
    && item.status == "APPROVED" && item.actor in allowed
    && item.actor != author && !Bot(item.actor)
    && item.reviewId > 0 && item.commit == evidence && Present(item.submitted)
  }

  predicate SelectedValid(policy: Policy, approvals: Approvals, author: string, evidence: string) {
    && approvals.Keys == (set role | role in policy.roles)
    && (forall role :: role in policy.roles ==>
          role in policy.allowed && role in approvals
          && ApprovalValid(approvals[role], policy.allowed[role], author, evidence))
    && |Actors(approvals)| >= policy.minimum
    && (forall pair :: pair in policy.separated ==>
          pair.0 in approvals && pair.1 in approvals && approvals[pair.0].actor != approvals[pair.1].actor)
  }

  /** The header, and what the caller expects of the report. */
  predicate ReportHeadValid(report: Report, releaseId: Option<string>, source: Option<Identity>,
                            evidenceHead: Option<string>) {
    && report.schemaVersion == 2 && report.kind == V2.AuthorizationKind() && report.status == "PASS"
    && report.repository == REPOSITORY
    && Present(report.releaseId) && SafeId(report.releaseId)
    && (releaseId.Some? ==> report.releaseId == releaseId.value)
    && Sha40(Lower(report.source.gitSha))
    && Present(report.source.version) && Present(report.source.migrationHead)
    && (source.Some? ==> report.source == source.value)
    && Sha40(Lower(report.evidence))
    && (evidenceHead.Some? ==> Sha40(Lower(evidenceHead.value)) && Lower(report.evidence) == Lower(evidenceHead.value))
  }

  /** The rest of the report, against the request it names. */
  predicate ReportBodyValid(files: Files, digest: File -> string, report: Report, checked: Checked) {
    && checked.request.releaseId == report.releaseId && checked.request.source == report.source
    && checked.policyPath in files
    && report.approvalPolicy == Freeze(files, digest, checked.policyPath)
    && report.pr.headSha == Lower(report.evidence) && report.pr.number == PULL_REQUEST
    && Present(report.pr.author)
    && SelectedValid(checked.policy, report.approvals, report.pr.author, Lower(report.evidence))
    && report.distinctApprovers == |Actors(report.approvals)|
    && report.handoff == checked.request.handoff
  }

  /** The independent validator: the report against the request and policy files it names. */
  predicate ReportValid(files: Files, digest: File -> string, report: Report, releaseId: Option<string>,
                        source: Option<Identity>, evidenceHead: Option<string>)
  {
    && ReportHeadValid(report, releaseId, source, evidenceHead)
    && VerifiedRef(files, digest, report.requestRef, EVIDENCE_ROOT)
    && files[report.requestRef.path].RequestFile?
    && var checked := ValidateRequest(V2, files, digest, files[report.requestRef.path].request);
    && checked.Some? && ReportBodyValid(files, digest, report, checked.value)
  }

  predicate RolesApproved(policy: Policy, approvals: Approvals, author: string, evidence: string) {
    forall role :: role in policy.roles ==>
      role in policy.allowed && role in approvals
      && ApprovalValid(approvals[role], policy.allowed[role], author, evidence)
  }

  predicate PairsApart(pairs: set<(string, string)>, approvals: Approvals) {
    forall pair :: pair in pairs ==>
      pair.0 in approvals && pair.1 in approvals && approvals[pair.0].actor != approvals[pair.1].actor
  }

  /** The validator's pass over the roles, the head count and the separated pairs. */
  method ValidateSelected(policy: Policy, approvals: Approvals, author: string, evidence: string) returns (ok: bool)
    requires policy.Normal()
    ensures ok == SelectedValid(policy, approvals, author, evidence)
  {
    if approvals.Keys != set role | role in policy.roles {
      return false;
    }
    var selected: Assignment;
    ok, selected := ValidateRoles(policy, approvals, author, evidence);
    if !ok {
      return;
    }
    ActorsAreChosen(policy.roles, selected, approvals);
    if |selected.Values| < policy.minimum {
      return false;
    }
    ok := ValidatePairs(policy.separated, approvals);
  }

  method ValidateRoles(policy: Policy, approvals: Approvals, author: string, evidence: string)
    returns (ok: bool, selected: Assignment)
    requires policy.Normal() && forall role :: role in policy.roles ==> role in approvals
    ensures ok == RolesApproved(policy, approvals, author, evidence)
    ensures ok ==> selected == map role | role in policy.roles :: approvals[role].actor
  {
    selected := map[];
    for i := 0 to |policy.roles|
      invariant forall j :: 0 <= j < i ==>
                  ApprovalValid(approvals[policy.roles[j]], policy.allowed[policy.roles[j]], author, evidence)
      invariant selected == map role | role in policy.roles[..i] :: approvals[role].actor
    {
      var role := policy.roles[i];
      assert role in policy.roles;
      assert policy.roles[..i + 1] == policy.roles[..i] + [role];
      if !ApprovalValid(approvals[role], policy.allowed[role], author, evidence) {
        return false, selected;
      }
      selected := selected[role := approvals[role].actor];
    }
    assert policy.roles[..|policy.roles|] == policy.roles;
    ok := true;
  }

  method ValidatePairs(pairs: set<(string, string)>, approvals: Approvals) returns (ok: bool)
    requires forall pair :: pair in pairs ==> pair.0 in approvals && pair.1 in approvals
    ensures ok == PairsApart(pairs, approvals)
  {
    var left := pairs;
    while left != {}
      invariant left <= pairs
      invariant forall pair :: pair in pairs && pair !in left ==> approvals[pair.0].actor != approvals[pair.1].actor
    {
      var pair :| pair in left;
      if approvals[pair.0].actor == approvals[pair.1].actor {
        return false;
      }
      left := left - {pair};
    }
    ok := true;
  }

  // ----- builder and validator agree -----

  /** The path of a file under the evidence root is a concrete value. */
  lemma {:induction false} UnderIsPresent(path: string)
    requires Under(path, EVIDENCE_ROOT)
    ensures Present(path)
  {
    assert path[0] == 'r' by {
      if path != EVIDENCE_ROOT {
        assert path[..|EVIDENCE_ROOT + "/"|][0] == 'r';
      }
    }
    PresentByHead(path);
  }

  lemma {:induction false} SelectedApprovalsValid(policy: Policy, approved: map<string, Review>, evidence: string,
                                                  author: string)
    requires policy.Normal() && SelectFrom(policy, approved, evidence).Some?
    requires forall actor :: actor in approved ==> Approves(approved[actor], actor, evidence, author)
    ensures SelectedValid(policy, SelectFrom(policy, approved, evidence).value, author, evidence)
  {
    ChooseDecides(policy, approved.Keys);
    FillingValid(policy, approved, evidence, author, Choose(policy, approved.Keys).value);
  }

  lemma {:induction false} FillingValid(policy: Policy, approved: map<string, Review>, evidence: string,
                                        author: string, chosen: Assignment)
    requires policy.Normal() && Fills(policy, approved.Keys, chosen)
    requires RecordsOf(policy.roles, chosen, approved, evidence).Some?
    requires forall actor :: actor in approved ==> Approves(approved[actor], actor, evidence, author)
    ensures SelectedValid(policy, RecordsOf(policy.roles, chosen, approved, evidence).value, author, evidence)
  {
    var approvals := RecordsOf(policy.roles, chosen, approved, evidence).value;
    ActorsAreChosen(policy.roles, chosen, approvals);
    forall role | role in policy.roles
      ensures ApprovalValid(approvals[role], policy.allowed[role], author, evidence)
    {
      assert ApprovalRecord(approved[chosen[role]], chosen[role], evidence).Some?;
    }
    forall pair | pair in policy.separated
      ensures pair.0 in approvals && pair.1 in approvals && approvals[pair.0].actor != approvals[pair.1].actor
    {
      assert chosen[pair.0] != chosen[pair.1];
    }
  }

  lemma {:induction false} ActorsAreChosen(roles: seq<string>, chosen: Assignment, approvals: Approvals)
    requires forall role :: role in chosen <==> role in roles
    requires approvals.Keys == (set role | role in roles)
    requires forall role :: role in approvals ==> role in chosen && approvals[role].actor == chosen[role]
    ensures Actors(approvals) == chosen.Values
  {
    forall x
      ensures x in Actors(approvals) <==> x in chosen.Values
    {
      if x in chosen.Values {
        var role :| role in chosen && chosen[role] == x;
        assert role in approvals;
      }
    }
  }

  lemma {:induction false} FrozenVerifies(files: Files, digest: File -> string, path: string)
    requires path in files && Sha256(digest(files[path]))
    ensures VerifiedRef(files, digest, Freeze(files, digest, path), EVIDENCE_ROOT) <==> Under(path, EVIDENCE_ROOT)
  {
    LowerHexIsLower(digest(files[path]));
    UnderOnly(path, EVIDENCE_ROOT);
    if Under(path, EVIDENCE_ROOT) {
      UnderIsPresent(path);
    }
  }

  /** What a checked request guarantees. */
  lemma {:induction false} CheckedRequest(e: Edition, files: Files, digest: File -> string, raw: RawRequest)
    requires ValidateRequest(e, files, digest, raw).Some?
    ensures var c := ValidateRequest(e, files, digest, raw).value;
            && Present(c.request.releaseId) && SafeId(c.request.releaseId)
            && Sha40(Lower(c.request.source.gitSha))
            && Present(c.request.source.version) && Present(c.request.source.migrationHead)
            && c.policyPath in files && c.policy.Normal()
            && c.request.approvalPolicy == Freeze(files, digest, c.policyPath)
  {
    LowerTwice(raw.source.gitSha);
    ValidatedPolicyNormal(e, files[raw.approvalPolicy.path].policy);
  }

  lemma {:induction false} CheckedElsewhere(e: Edition, files: Files, files': Files, digest: File -> string,
                                            raw: RawRequest)
    requires ValidateRequest(e, files, digest, raw).Some?
    requires var path := ValidateRequest(e, files, digest, raw).value.policyPath;
             path in files && path in files' && files'[path] == files[path]
    ensures ValidateRequest(e, files', digest, raw) == ValidateRequest(e, files, digest, raw)
  {
  }

  lemma {:induction false} BuiltApprovalsValid(policy: Policy, reviews: seq<Review>, evidence: string, author: string)
    requires policy.Normal() && SelectRoleApprovals(policy, reviews, evidence, author).Some?
    ensures SelectedValid(policy, SelectRoleApprovals(policy, reviews, evidence, author).value, author, evidence)
  {
    SelectedApprovalsValid(policy, Approved(Latest(reviews), evidence, author), evidence, author);
  }

  /** What the builder writes into a report. */
  lemma {:induction false} BuiltFields(files: Files, digest: File -> string, requestPath: string, checked: Checked,
                                       payload: PrPayload, reviews: seq<Review>, evidenceHead: string)
    requires requestPath in files && checked.policyPath in files && checked.policy.Normal()
    requires BuildAuthorization(files, digest, requestPath, checked, payload, reviews, evidenceHead).Some?
    ensures var report := BuildAuthorization(files, digest, requestPath, checked, payload, reviews, evidenceHead).value;
            && report.schemaVersion == 2 && report.kind == V2.AuthorizationKind() && report.status == "PASS"
            && report.repository == REPOSITORY
            && report.releaseId == checked.request.releaseId && report.source == checked.request.source
            && report.evidence == Lower(evidenceHead) && Sha40(report.evidence)
            && report.pr.headSha == report.evidence && report.pr.number == PULL_REQUEST && Present(report.pr.author)
            && report.requestRef == Freeze(files, digest, requestPath)
            && report.approvalPolicy == Freeze(files, digest, checked.policyPath)
            && SelectedValid(checked.policy, report.approvals, report.pr.author, report.evidence)
            && report.distinctApprovers == |Actors(report.approvals)|
            && report.handoff == checked.request.handoff
  {
    var report := BuildAuthorization(files, digest, requestPath, checked, payload, reviews, evidenceHead).value;
    BuiltApprovalsValid(checked.policy, reviews, report.evidence, report.pr.author);
  }

  lemma {:induction false} BuiltHeadValid(report: Report, request: Request, evidenceHead: string)
    requires report.schemaVersion == 2 && report.kind == V2.AuthorizationKind() && report.status == "PASS"
    requires report.repository == REPOSITORY && Present(request.releaseId) && SafeId(request.releaseId)
    requires report.releaseId == request.releaseId && report.source == request.source
    requires Sha40(Lower(request.source.gitSha))
    requires Present(request.source.version) && Present(request.source.migrationHead)
    requires report.evidence == Lower(evidenceHead) && Sha40(report.evidence)
    ensures ReportHeadValid(report, Some(request.releaseId), Some(request.source), Some(evidenceHead))
  {
    LowerTwice(evidenceHead);
  }

  lemma {:induction false} BuiltBodyValid(files: Files, digest: File -> string, report: Report, checked: Checked,
                                          evidenceHead: string)
    requires checked.policyPath in files && report.approvalPolicy == Freeze(files, digest, checked.policyPath)
    requires report.releaseId == checked.request.releaseId && report.source == checked.request.source
    requires report.evidence == Lower(evidenceHead) && report.handoff == checked.request.handoff
    requires report.pr.headSha == report.evidence && report.pr.number == PULL_REQUEST && Present(report.pr.author)
    requires SelectedValid(checked.policy, report.approvals, report.pr.author, report.evidence)
    requires report.distinctApprovers == |Actors(report.approvals)|
    ensures ReportBodyValid(files, digest, report, checked)
  {
    LowerTwice(evidenceHead);
  }

  /** A report built from a checked request passes the validator over any store that still holds the two
      frozen files, exactly when the request file lies under the evidence root. */
  lemma {:induction false} BuiltReportValidates(files: Files, files': Files, digest: File -> string,
                                                requestPath: string,
                                                checked: Checked, payload: PrPayload, reviews: seq<Review>,
                                                evidenceHead: string)
    requires forall f :: Sha256(digest(f))
    requires requestPath in files && files[requestPath].RequestFile?
    requires ValidateRequest(V2, files, digest, files[requestPath].request) == Some(checked)
    requires checked.policyPath in files && checked.policy.Normal()
    requires requestPath in files' && files'[requestPath] == files[requestPath]
    requires checked.policyPath in files' && files'[checked.policyPath] == files[checked.policyPath]
    requires BuildAuthorization(files, digest, requestPath, checked, payload, reviews, evidenceHead).Some?
    ensures var report := BuildAuthorization(files, digest, requestPath, checked, payload, reviews, evidenceHead).value;
            ReportValid(files', digest, report, Some(checked.request.releaseId), Some(checked.request.source),
                        Some(evidenceHead))
            <==> Under(requestPath, EVIDENCE_ROOT)
  {
    var report := BuildAuthorization(files, digest, requestPath, checked, payload, reviews, evidenceHead).value;
    var raw := files[requestPath].request;
    CheckedRequest(V2, files, digest, raw);
    CheckedElsewhere(V2, files, files', digest, raw);
    FrozenVerifies(files', digest, requestPath);
    BuiltFields(files, digest, requestPath, checked, payload, reviews, evidenceHead);
    BuiltHeadValid(report, checked.request, evidenceHead);
    BuiltBodyValid(files', digest, report, checked, evidenceHead);
  }

  /** Whatever report passes, three different people approved, engineering and security are two people,
      so are security and the release owner, and none of them wrote the change. */
  lemma {:induction false} ValidReportSeparates(files: Files, digest: File -> string, report: Report)
    requires ReportValid(files, digest, report, None, None, None)
    ensures forall role :: role in ROLES ==>
              role in report.approvals && report.approvals[role].actor != report.pr.author
    ensures |Actors(report.approvals)| >= 3
    ensures "engineering" in report.approvals && "security" in report.approvals && "release_owner" in report.approvals
    ensures report.approvals["engineering"].actor != report.approvals["security"].actor
    ensures report.approvals["security"].actor != report.approvals["release_owner"].actor
  {
    var raw := files[report.requestRef.path].request;
    var policy := ValidateRequest(V2, files, digest, raw).value.policy;
    PolicySeparates(V2, files[raw.approvalPolicy.path].policy);
    SeparatedPair(policy, report.approvals, "engineering", "security");
    SeparatedPair(policy, report.approvals, "security", "release_owner");
  }

  lemma {:induction false} PolicySeparates(e: Edition, raw: RawPolicy)
    requires ValidatePolicy(e, raw).Some?
    ensures var policy := ValidatePolicy(e, raw).value;
            && policy.roles == ROLES && policy.minimum >= 3
            && RolePair("engineering", "security") in policy.separated
            && RolePair("security", "release_owner") in policy.separated
  {
  }

  lemma {:induction false} SeparatedPair(policy: Policy, approvals: Approvals, a: string, b: string)
    requires RolePair(a, b) in policy.separated
    requires forall pair :: pair in policy.separated ==>
               pair.0 in approvals && pair.1 in approvals && approvals[pair.0].actor != approvals[pair.1].actor
    ensures a in approvals && b in approvals && approvals[a].actor != approvals[b].actor
  {
    var pair := RolePair(a, b);
  }
}
