/** What it means, in the fields of the documents, that a policy, a request, a pull request or a report passes, and
    what the selected approvals say about the reviews they come from. */
module AuthorizationMeaning {
  import opened Schemas
  import opened Text
  import opened FrozenFiles
  import opened Reviews
  import opened ApprovalSearch
  import opened Authorization
  import opened AuthorizationReport
  import opened AuthorizationV1
  import opened LiveAuthorization
  import Ordering

  // ----- policies -----

  /** A login: letters, digits and inner hyphens, at most 39 of them. */
  lemma {:induction false} LoginMeans(s: string)
    ensures LoginName(s) <==>
            && s != "" && |s| <= 39 && s[0] != '-' && s[|s| - 1] != '-'
            && forall i :: 0 <= i < |s| ==>
                 s[i] == '-' || 'a' <= s[i] <= 'z' || 'A' <= s[i] <= 'Z' || '0' <= s[i] <= '9'
  {
    if s != "" && |s| <= 39 && LoginName(s) {
      assert LetterOrDigit(s[0]) && LetterOrDigit(s[|s| - 1]);
    }
  }

  /** The people a policy lists for one role. */
  predicate ListsPeople(logins: seq<string>) {
    && logins != []
    && (forall i, j :: 0 <= i < j < |logins| ==> logins[i] != logins[j])
    && forall i :: 0 <= i < |logins| ==>
         LoginName(logins[i]) && Upper(logins[i]) != "PENDING" && !EndsWith(logins[i], "[bot]")
  }

  /** The two roles are listed as separate, in either order. */
  predicate ListsPair(separation: seq<seq<string>>, a: string, b: string) {
    exists i :: 0 <= i < |separation| && (separation[i] == [a, b] || separation[i] == [b, a])
  }

  lemma {:induction false} PairListed(separation: seq<seq<string>>, a: string, b: string)
    ensures RolePair(a, b) in PairsOf(separation) <==> ListsPair(separation, a, b)
  {
    if RolePair(a, b) in PairsOf(separation) {
      var i :| 0 <= i < |separation| && |separation[i]| == 2
               && RolePair(separation[i][0], separation[i][1]) == RolePair(a, b);
      PairReads(separation[i], a, b);
    }
    if i :| 0 <= i < |separation| && (separation[i] == [a, b] || separation[i] == [b, a]) {
      RolePairSymmetric(a, b);
      assert |separation[i]| == 2;
    }
  }

  lemma {:induction false} PairReads(pair: seq<string>, a: string, b: string)
    requires |pair| == 2 && RolePair(pair[0], pair[1]) == RolePair(a, b)
    ensures pair == [a, b] || pair == [b, a]
  {
    assert pair == [pair[0], pair[1]];
  }

  lemma {:induction false} RolesAre()
    ensures RoleSet(ROLES) == {"product", "engineering", "security", "operations", "release_owner"}
  {
    assert ROLES[0] == "product" && ROLES[1] == "engineering" && ROLES[2] == "security";
    assert ROLES[3] == "operations" && ROLES[4] == "release_owner";
  }

  predicate PolicyHead(e: Edition, raw: RawPolicy) {
    && raw.schemaVersion == (if e.V1? then 1 else 2)
    && raw.kind == (if e.V1? then "LUMI_RELEASE_APPROVAL_POLICY_V1" else "LUMI_RELEASE_APPROVAL_POLICY_V2")
    && raw.repository == "zhangjaky71-stack/LUMI-AI-DESIGN-OS" && raw.pullRequest == 135
    && raw.baseRef == "node-73-final-acceptance-release" && raw.headRef == "release-closure-p0"
    && 3 <= raw.minimum <= 5 && raw.human && raw.exactHead && (e.V1? || (raw.excludeAuthor && raw.latestDecisive))
  }

  predicate PolicyBody(raw: RawPolicy) {
    && raw.roles.Keys == RoleSet(ROLES)
    && (forall role :: role in raw.roles ==> ListsPeople(raw.roles[role]))
    && (forall i :: 0 <= i < |raw.separation| ==>
          && |raw.separation[i]| == 2 && raw.separation[i][0] != raw.separation[i][1]
          && raw.separation[i][0] in raw.roles && raw.separation[i][1] in raw.roles)
    && ListsPair(raw.separation, "engineering", "security") && ListsPair(raw.separation, "security", "release_owner")
  }

  lemma {:induction false} PeopleListed(logins: seq<string>)
    ensures ValidLogins(logins) <==> ListsPeople(logins)
  {
  }

  /** Exactly when a policy file passes. */
  lemma {:induction false} PolicyPasses(e: Edition, raw: RawPolicy)
    ensures ValidatePolicy(e, raw).Some? <==> PolicyHead(e, raw) && PolicyBody(raw)
  {
    PairListed(raw.separation, "engineering", "security");
    PairListed(raw.separation, "security", "release_owner");
    forall role | role in raw.roles
      ensures ValidLogins(raw.roles[role]) <==> ListsPeople(raw.roles[role])
    {
      PeopleListed(raw.roles[role]);
    }
    PolicyHeads(e, raw);
    PolicyBodies(e, raw);
    PolicyWhole(e, raw);
  }

  lemma {:induction false} PolicyHeads(e: Edition, raw: RawPolicy)
    ensures ValidPolicy(e, raw) ==> PolicyHead(e, raw)
  {
  }

  lemma {:induction false} PolicyBodies(e: Edition, raw: RawPolicy)
    requires RolePair("engineering", "security") in PairsOf(raw.separation) <==>
             ListsPair(raw.separation, "engineering", "security")
    requires RolePair("security", "release_owner") in PairsOf(raw.separation) <==>
             ListsPair(raw.separation, "security", "release_owner")
    requires forall role :: role in raw.roles ==> (ValidLogins(raw.roles[role]) <==> ListsPeople(raw.roles[role]))
    ensures ValidPolicy(e, raw) ==> PolicyBody(raw)
  {
  }

  lemma {:induction false} PolicyWhole(e: Edition, raw: RawPolicy)
    requires RolePair("engineering", "security") in PairsOf(raw.separation) <==>
             ListsPair(raw.separation, "engineering", "security")
    requires RolePair("security", "release_owner") in PairsOf(raw.separation) <==>
             ListsPair(raw.separation, "security", "release_owner")
    requires forall role :: role in raw.roles ==> (ValidLogins(raw.roles[role]) <==> ListsPeople(raw.roles[role]))
    ensures PolicyHead(e, raw) && PolicyBody(raw) ==> ValidPolicy(e, raw)
  {
    if PolicyBody(raw) {
      assert forall role :: role in ROLES ==> role in raw.roles && ValidLogins(raw.roles[role]);
      assert forall i :: 0 <= i < |raw.separation| ==> ValidPair(raw.separation[i]);
    }
  }

  /** What is kept of a policy that passes: its minimum, the people it lists and the pairs it separates. */
  lemma {:induction false} PolicyKept(e: Edition, raw: RawPolicy)
    requires ValidatePolicy(e, raw).Some?
    ensures var policy := ValidatePolicy(e, raw).value;
            && policy.roles == ROLES && policy.minimum == raw.minimum
            && (forall role, x :: role in ROLES ==>
                  role in raw.roles && role in policy.allowed && (x in policy.allowed[role] <==> x in raw.roles[role]))
            && (forall a, b :: RolePair(a, b) in policy.separated <==> ListsPair(raw.separation, a, b))
  {
    var policy := ValidatePolicy(e, raw).value;
    forall role, x | role in ROLES
      ensures role in raw.roles && role in policy.allowed && (x in policy.allowed[role] <==> x in raw.roles[role])
    {
      Ordering.SortMembers(raw.roles[role], Ordering.StrLeq);
    }
    forall a, b
      ensures RolePair(a, b) in policy.separated <==> ListsPair(raw.separation, a, b)
    {
      PairListed(raw.separation, a, b);
    }
  }

  // ----- requests -----

  lemma {:induction false} HandoffsAre()
    ensures HANDOFF_KEYS == {
              "on_call_owner", "support_owner", "incident_commander_rotation", "first_day_watch_owner",
              "quality_cost_review_owner", "security_dependency_review_owner", "dr_drill_owner",
              "capacity_review_owner"}
  {
  }

  predicate RequestHead(e: Edition, raw: RawRequest) {
    && raw.schemaVersion == (if e.V1? then 1 else 2)
    && raw.kind == (if e.V1? then "LUMI_RELEASE_AUTHORIZATION_REQUEST_V1"
                    else "LUMI_RELEASE_AUTHORIZATION_REQUEST_V2")
    && raw.repository == "zhangjaky71-stack/LUMI-AI-DESIGN-OS" && raw.pullRequest == 135
  }

  /** The release is named, its commit is one, its version and migration head are concrete. */
  predicate NamesRelease(releaseId: string, source: Identity) {
    && Present(releaseId) && releaseId != ""
    && (forall i :: 0 <= i < |releaseId| ==>
          LetterOrDigit(releaseId[i]) || releaseId[i] == '.' || releaseId[i] == '_' || releaseId[i] == '-')
    && |source.gitSha| == 40 && LowerHex(Lower(source.gitSha))
    && Present(source.version) && Present(source.migrationHead)
  }

  /** A file under the evidence root has the digest recorded for it. */
  predicate Kept(files: Files, digest: File -> string, ref: Ref) {
    && Present(ref.path) && (ref.path == EVIDENCE_ROOT || StartsWith(ref.path, EVIDENCE_ROOT + "/"))
    && |ref.sha256| == 64 && LowerHex(Lower(ref.sha256))
    && ref.path in files && digest(files[ref.path]) == Lower(ref.sha256)
  }

  /** Every duty is handed to somebody. */
  predicate HandedOver(handoff: map<string, string>) {
    handoff.Keys == HANDOFF_KEYS && forall k :: k in handoff ==> Present(handoff[k])
  }

  lemma {:induction false} KeptMeans(files: Files, digest: File -> string, ref: Ref)
    ensures VerifiedRef(files, digest, ref, EVIDENCE_ROOT) <==> Kept(files, digest, ref)
  {
    UnderOnly(ref.path, EVIDENCE_ROOT);
  }

  /** Exactly when a request passes. */
  lemma {:induction false} RequestPasses(e: Edition, files: Files, digest: File -> string, raw: RawRequest)
    ensures ValidateRequest(e, files, digest, raw).Some? <==>
            && RequestHead(e, raw) && NamesRelease(raw.releaseId, raw.source) && HandedOver(raw.handoff)
            && Kept(files, digest, raw.approvalPolicy) && files[raw.approvalPolicy.path].PolicyFile?
            && ValidatePolicy(e, files[raw.approvalPolicy.path].policy).Some?
  {
    KeptMeans(files, digest, raw.approvalPolicy);
    RequestHeads(e, raw);
  }

  lemma {:induction false} RequestHeads(e: Edition, raw: RawRequest)
    ensures RequestHead(e, raw) && NamesRelease(raw.releaseId, raw.source) && HandedOver(raw.handoff) <==>
            && raw.schemaVersion == e.Schema() && raw.kind == e.RequestKind()
            && Present(raw.releaseId) && SafeId(raw.releaseId) && Sha40(Lower(raw.source.gitSha))
            && Present(raw.source.version) && Present(raw.source.migrationHead)
            && raw.repository == REPOSITORY && raw.pullRequest == PULL_REQUEST && ValidHandoff(raw.handoff)
  {
  }

  /** What is kept of a request that passes. */
  lemma {:induction false} RequestKept(e: Edition, files: Files, digest: File -> string, raw: RawRequest)
    requires ValidateRequest(e, files, digest, raw).Some?
    ensures var c := ValidateRequest(e, files, digest, raw).value;
            && c.request.releaseId == raw.releaseId && c.request.handoff == raw.handoff
            && c.request.source == Identity(Lower(raw.source.gitSha), raw.source.version, raw.source.migrationHead)
            && c.policyPath == raw.approvalPolicy.path && c.policyPath in files && files[c.policyPath].PolicyFile?
            && Some(c.policy) == ValidatePolicy(e, files[c.policyPath].policy)
  {
  }

  /** Where evidence lies and what the pull request's address is. */
  lemma {:induction false} AddressesAre()
    ensures EVIDENCE_ROOT == "reports/final-acceptance"
    ensures PR_URL == "https://github.com/" + "zhangjaky71-stack/LUMI-AI-DESIGN-OS" + "/pull/135"
  {
  }

  // ----- pull requests -----

  /** The release's pull request, open, at this commit. */
  predicate StandsAt(payload: PrPayload, commit: string) {
    && payload.number == 135 && payload.state == "open"
    && payload.headRef == "release-closure-p0" && payload.baseRef == "node-73-final-acceptance-release"
    && payload.headRepo == "zhangjaky71-stack/LUMI-AI-DESIGN-OS" && payload.headSha == commit
    && Present(payload.author)
    && StartsWith(payload.url, PR_URL)
  }

  /** Exactly when a pull request passes, and what is kept of it. */
  lemma {:induction false} PullRequestPasses(payload: PrPayload, commit: string)
    ensures ValidatePr(payload, commit).Some? <==> StandsAt(payload, commit)
    ensures ValidatePr(payload, commit).Some? ==>
              ValidatePr(payload, commit).value ==
              Pr(payload.number, payload.url, payload.state, payload.baseRef, payload.headRef, payload.headSha,
                 payload.author)
  {
  }

  /** A pull request as version 1 reads it: in any case of the commit. */
  predicate StandsFolded(payload: PrPayload, commit: string) {
    StandsAt(payload, payload.headSha) && Lower(payload.headSha) == Lower(commit)
  }

  lemma {:induction false} FoldedPasses(payload: PrPayload, commit: string)
    ensures ValidatePrV1(payload, commit).Some? <==> StandsFolded(payload, commit)
    ensures ValidatePrV1(payload, commit).Some? ==>
              ValidatePrV1(payload, commit).value ==
              Pr(payload.number, payload.url, payload.state, payload.baseRef, payload.headRef,
                 Lower(payload.headSha), payload.author)
  {
    PullRequestPasses(payload.(headSha := Lower(payload.headSha)), Lower(commit));
  }

  /** A version 2 report is built only for the open pull request at the evidence commit, and records it. */
  lemma {:induction false} BuiltForPullRequest(files: Files, digest: File -> string, requestPath: string,
                                               checked: Checked, payload: PrPayload, reviews: seq<Review>,
                                               evidenceHead: string)
    requires requestPath in files && checked.policyPath in files && checked.policy.Normal()
    requires BuildAuthorization(files, digest, requestPath, checked, payload, reviews, evidenceHead).Some?
    ensures StandsAt(payload, Lower(evidenceHead)) && |evidenceHead| == 40 && LowerHex(Lower(evidenceHead))
    ensures var pr := BuildAuthorization(files, digest, requestPath, checked, payload, reviews, evidenceHead).value.pr;
            pr.url == payload.url && pr.author == payload.author && pr.headSha == payload.headSha
  {
    PullRequestPasses(payload, Lower(evidenceHead));
  }

  /** The same for version 1, in any case of the commit. */
  lemma {:induction false} BuiltForPullRequestV1(files: Files, digest: File -> string, requestPath: string,
                                                 checked: Checked, payload: PrPayload, reviews: seq<Review>)
    requires requestPath in files && checked.policyPath in files && checked.policy.Normal()
    requires BuildV1(files, digest, requestPath, checked, payload, reviews).Some?
    ensures StandsFolded(payload, checked.request.source.gitSha)
    ensures var pr := BuildV1(files, digest, requestPath, checked, payload, reviews).value.pr;
            pr.url == payload.url && pr.author == payload.author && pr.headSha == Lower(payload.headSha)
  {
    FoldedPasses(payload, checked.request.source.gitSha);
  }

  /** When a report is built at all: for a commit, a pull request that stands at it, and approvals that can be
      selected from the reviews; and it hands on exactly those. */
  lemma {:induction false} BuildsExactly(files: Files, digest: File -> string, requestPath: string, checked: Checked,
                                         payload: PrPayload, reviews: seq<Review>, evidenceHead: string)
    requires requestPath in files && checked.policyPath in files && checked.policy.Normal()
    ensures var r := BuildAuthorization(files, digest, requestPath, checked, payload, reviews, evidenceHead);
            var selected := SelectRoleApprovals(checked.policy, reviews, Lower(evidenceHead), payload.author);
            && (r.Some? <==>
                  && |evidenceHead| == 40 && LowerHex(Lower(evidenceHead)) && StandsAt(payload, Lower(evidenceHead))
                  && selected.Some?)
            && (r.Some? ==>
                  && r.value.approvals == selected.value && r.value.handoff == checked.request.handoff
                  && r.value.releaseId == checked.request.releaseId)
  {
    PullRequestPasses(payload, Lower(evidenceHead));
  }

  lemma {:induction false} BuildsExactlyV1(files: Files, digest: File -> string, requestPath: string,
                                           checked: Checked, payload: PrPayload, reviews: seq<Review>)
    requires requestPath in files && checked.policyPath in files && checked.policy.Normal()
    ensures var r := BuildV1(files, digest, requestPath, checked, payload, reviews);
            var selected := SelectV1(checked.policy, reviews, checked.request.source.gitSha, payload.author);
            && (r.Some? <==> StandsFolded(payload, checked.request.source.gitSha) && selected.Some?)
            && (r.Some? ==>
                  && r.value.approvals == selected.value && r.value.handoff == checked.request.handoff
                  && r.value.releaseId == checked.request.releaseId)
  {
    FoldedPasses(payload, checked.request.source.gitSha);
  }

  /** A report verifies live only on the pull request that it froze: open, at its commit, with its address and its
      author. */
  lemma {:induction false} LivePullRequest(files: Files, digest: File -> string, report: ReportV1,
                                           payload: PrPayload, reviews: seq<Review>)
    requires LiveReportOk(files, digest, report, payload, reviews)
    ensures StandsFolded(payload, report.rc.gitSha)
    ensures payload.url == report.pr.url && payload.author == report.pr.author
    ensures payload.number == report.pr.number && payload.state == report.pr.state
    ensures payload.headRef == report.pr.headRef && payload.baseRef == report.pr.baseRef
  {
    LowerTwice(report.rc.gitSha);
    FoldedPasses(payload, Lower(report.rc.gitSha));
    ValidRoles(files, digest, report);
  }

  /** A pull request that moved to another commit, or is no longer open, blocks the live verification. */
  lemma {:induction false} MovedOrClosedBlocks(files: Files, digest: File -> string, report: ReportV1,
                                               payload: PrPayload, reviews: seq<Review>)
    requires Lower(payload.headSha) != Lower(report.rc.gitSha) || payload.state != "open"
             || payload.author != report.pr.author || payload.url != report.pr.url
    ensures !LiveReportOk(files, digest, report, payload, reviews)
  {
    if LiveReportOk(files, digest, report, payload, reviews) {
      LivePullRequest(files, digest, report, payload, reviews);
    }
  }

  // ----- who approved, and what a record says -----

  /** Of this person's reviews that decide anything, the last approves this commit; and the person is neither the
      author nor a bot. */
  ghost predicate Consents(reviews: seq<Review>, actor: string, commit: string, author: string) {
    && actor != author && !EndsWith(actor, "[bot]")
    && exists r :: && r in reviews && r.login == Some(actor) && r.state == "APPROVED" && r.commit == Some(commit)
                   && forall x :: && x in reviews && x.login == Some(actor)
                                  && (x.state == "APPROVED" || x.state == "CHANGES_REQUESTED" || x.state == "DISMISSED")
                                  ==> ReviewLeq(x, r)
  }

  lemma {:induction false} DecisiveMeans(r: Review, actor: string)
    ensures DecisiveOf(r, actor) <==>
            && r.login == Some(actor)
            && (r.state == "APPROVED" || r.state == "CHANGES_REQUESTED" || r.state == "DISMISSED")
  {
  }

  lemma {:induction false} ConsentMeans(reviews: seq<Review>, actor: string, commit: string, author: string)
    ensures HasApproved(reviews, actor, commit, author) <==> Consents(reviews, actor, commit, author)
  {
    forall r
      ensures DecisiveOf(r, actor) <==>
              && r.login == Some(actor)
              && (r.state == "APPROVED" || r.state == "CHANGES_REQUESTED" || r.state == "DISMISSED")
    {
      DecisiveMeans(r, actor);
    }
    if HasApproved(reviews, actor, commit, author) {
      var r :| IsLatest(reviews, actor, r) && Approves(r, actor, commit, author);
      assert r.login == Some(actor);
    }
    if Consents(reviews, actor, commit, author) {
      var r :| && r in reviews && r.login == Some(actor) && r.state == "APPROVED" && r.commit == Some(commit)
               && forall x :: && x in reviews && x.login == Some(actor)
                              && (x.state == "APPROVED" || x.state == "CHANGES_REQUESTED" || x.state == "DISMISSED")
                              ==> ReviewLeq(x, r);
      assert IsLatest(reviews, actor, r);
    }
  }

  /** The people whose approval counts are exactly those who consent. */
  lemma {:induction false} ApproversConsent(reviews: seq<Review>, actor: string, commit: string, author: string)
    requires UniqueIds(reviews)
    ensures actor in Approved(Latest(reviews), commit, author) <==> Consents(reviews, actor, commit, author)
  {
    ApprovedMeans(reviews, actor, commit, author);
    ConsentMeans(reviews, actor, commit, author);
  }

  /** Submitted before the other one, or at the same time with a smaller identifier; what is missing comes first. */
  predicate Earlier(a: Review, b: Review) {
    var s := if a.submitted.Some? then a.submitted.value else "";
    var t := if b.submitted.Some? then b.submitted.value else "";
    if s != t then !Ordering.StrLeq(t, s)
    else (if a.id.Some? then a.id.value else -1) < (if b.id.Some? then b.id.value else -1)
  }

  lemma {:induction false} EarlierMeans(a: Review, b: Review)
    ensures Earlier(a, b) <==> !ReviewLeq(b, a)
  {
  }

  /** A later review that requests changes or dismisses overrides an approval. */
  lemma {:induction false} LaterDecisionOverrides(reviews: seq<Review>, actor: string, commit: string,
                                                  author: string, later: Review)
    requires UniqueIds(reviews) && later in reviews && later.login == Some(actor)
    requires later.state == "DISMISSED" || later.state == "CHANGES_REQUESTED"
    requires forall r :: r in reviews && r.login == Some(actor) && r.state == "APPROVED" ==> Earlier(r, later)
    ensures actor !in Approved(Latest(reviews), commit, author)
  {
    ApproversConsent(reviews, actor, commit, author);
    forall r | r in reviews && r.login == Some(actor) && r.state == "APPROVED"
      ensures !ReviewLeq(later, r)
    {
      EarlierMeans(r, later);
    }
  }

  /** A record says what the review says that it was made from. */
  lemma {:induction false} RecordMeans(review: Review, actor: string, commit: string)
    ensures ApprovalRecord(review, actor, commit).Some? <==>
            && review.id.Some? && review.id.value > 0 && review.commit == Some(commit)
            && review.url.Some? && StartsWith(review.url.value, PR_URL)
            && review.submitted.Some? && Present(review.submitted.value)
    ensures ApprovalRecord(review, actor, commit).Some? ==>
              var a := ApprovalRecord(review, actor, commit).value;
              && a.status == "APPROVED" && a.actor == actor && review.commit == Some(a.commit)
              && review.id == Some(a.reviewId) && review.url == Some(a.url) && review.submitted == Some(a.submitted)
  {
  }

  /** The record was made from a review by which its person consents. */
  ghost predicate Recorded(reviews: seq<Review>, a: Approval, commit: string, author: string) {
    && Consents(reviews, a.actor, commit, author)
    && a.status == "APPROVED" && a.commit == commit && a.reviewId > 0
    && exists r :: && r in reviews && r.login == Some(a.actor) && r.state == "APPROVED" && r.commit == Some(commit)
                   && r.id == Some(a.reviewId) && r.url == Some(a.url) && r.submitted == Some(a.submitted)
  }

  lemma {:induction false} RecordAt(roles: seq<string>, chosen: Assignment, approved: map<string, Review>,
                                    commit: string, role: string)
    requires forall r :: r in roles ==> r in chosen && chosen[r] in approved
    requires RecordsOf(roles, chosen, approved, commit).Some? && role in roles
    ensures var records := RecordsOf(roles, chosen, approved, commit).value;
            && role in records && records[role].actor == chosen[role]
            && ApprovalRecord(approved[chosen[role]], chosen[role], commit) == Some(records[role])
  {
    assert ApprovalRecord(approved[chosen[role]], chosen[role], commit).Some?;
  }

  lemma {:induction false} FillsRole(policy: Policy, approved: set<string>, who: Assignment, role: string)
    requires policy.Normal() && role in policy.roles && Fills(policy, approved, who)
    ensures role in who && who[role] in policy.allowed[role] && who[role] in approved
  {
  }

  /** Every selected approval is the record of somebody approved whom the policy allows for the role. */
  lemma {:induction false} ChosenRecord(policy: Policy, approved: map<string, Review>, commit: string, role: string)
    requires policy.Normal() && role in policy.roles && SelectFrom(policy, approved, commit).Some?
    ensures var approvals := SelectFrom(policy, approved, commit).value;
            && role in approvals && approvals[role].actor in policy.allowed[role] && approvals[role].actor in approved
            && ApprovalRecord(approved[approvals[role].actor], approvals[role].actor, commit) == Some(approvals[role])
  {
    ChooseDecides(policy, approved.Keys);
    var chosen := Choose(policy, approved.Keys).value;
    FillsRole(policy, approved.Keys, chosen, role);
    RecordAt(policy.roles, chosen, approved, commit, role);
  }

  lemma {:induction false} RecordOf(reviews: seq<Review>, actor: string, commit: string, author: string)
    requires UniqueIds(reviews) && actor in Approved(Latest(reviews), commit, author)
    ensures var record := ApprovalRecord(Approved(Latest(reviews), commit, author)[actor], actor, commit);
            record.Some? ==> record.value.actor == actor && Recorded(reviews, record.value, commit, author)
  {
    var r := Approved(Latest(reviews), commit, author)[actor];
    LatestIsGreatest(reviews, actor);
    ApproversConsent(reviews, actor, commit, author);
    RecordMeans(r, actor, commit);
    assert r in reviews && r.login == Some(actor) && r.state == "APPROVED" && r.commit == Some(commit);
  }

  /** Every approval that is selected is by somebody the policy allows for the role, and was made from a review by
      which that person consents. */
  lemma {:induction false} SelectedIsRecorded(policy: Policy, reviews: seq<Review>, commit: string, author: string,
                                              role: string)
    requires policy.Normal() && UniqueIds(reviews) && role in policy.roles
    requires SelectRoleApprovals(policy, reviews, commit, author).Some?
    ensures var approvals := SelectRoleApprovals(policy, reviews, commit, author).value;
            && role in approvals && approvals[role].actor in policy.allowed[role]
            && Recorded(reviews, approvals[role], commit, author)
  {
    ChosenRecord(policy, Approved(Latest(reviews), commit, author), commit, role);
    RecordOf(reviews, SelectRoleApprovals(policy, reviews, commit, author).value[role].actor, commit, author);
  }

  // ----- reports -----

  /** One approval, by somebody the policy file lists for the role. */
  predicate AsDemanded(a: Approval, logins: seq<string>, author: string, commit: string) {
    && a.status == "APPROVED" && a.actor in logins && a.actor != author && !EndsWith(a.actor, "[bot]")
    && a.reviewId > 0 && a.commit == commit && Present(a.submitted)
  }

  /** Separated roles are held by two people. */
  predicate KeptApart(raw: RawPolicy, approvals: Approvals) {
    forall a, b :: a in approvals && b in approvals && ListsPair(raw.separation, a, b) ==>
      approvals[a].actor != approvals[b].actor
  }

  /** What every version demands of the approvals, in terms of the policy file. */
  predicate ApprovedAsDemanded(raw: RawPolicy, approvals: Approvals, author: string, commit: string) {
    && approvals.Keys == raw.roles.Keys
    && (forall role :: role in approvals ==> AsDemanded(approvals[role], raw.roles[role], author, commit))
    && |set role | role in approvals :: approvals[role].actor| >= raw.minimum
    && KeptApart(raw, approvals)
  }

  /** The policy says what its file says. */
  ghost predicate Says(policy: Policy, raw: RawPolicy) {
    && policy.Normal() && policy.roles == ROLES && policy.minimum == raw.minimum && raw.roles.Keys == RoleSet(ROLES)
    && (forall role, x :: role in ROLES ==>
          role in raw.roles && role in policy.allowed && (x in policy.allowed[role] <==> x in raw.roles[role]))
    && (forall a, b :: RolePair(a, b) in policy.separated <==> ListsPair(raw.separation, a, b))
  }

  lemma {:induction false} PolicySays(e: Edition, raw: RawPolicy)
    requires ValidatePolicy(e, raw).Some?
    ensures Says(ValidatePolicy(e, raw).value, raw)
  {
    PolicyKept(e, raw);
    PolicyPasses(e, raw);
    ValidatedPolicyNormal(e, raw);
  }

  lemma {:induction false} SelectedMeans(policy: Policy, raw: RawPolicy, approvals: Approvals, author: string,
                                         commit: string)
    requires Says(policy, raw)
    ensures SelectedValid(policy, approvals, author, commit) <==> ApprovedAsDemanded(raw, approvals, author, commit)
  {
    if approvals.Keys == RoleSet(ROLES) {
      ApprovalsMean(policy, raw, approvals, author, commit);
      PairsMean(policy, raw, approvals);
      SameActors(approvals);
    }
  }

  lemma {:induction false} SameActors(approvals: Approvals)
    ensures Actors(approvals) == set role | role in approvals :: approvals[role].actor
  {
  }

  lemma {:induction false} ApprovalsMean(policy: Policy, raw: RawPolicy, approvals: Approvals, author: string,
                                         commit: string)
    requires Says(policy, raw) && approvals.Keys == RoleSet(ROLES)
    ensures (forall role :: role in policy.roles ==>
               role in policy.allowed && role in approvals
               && ApprovalValid(approvals[role], policy.allowed[role], author, commit))
            <==> forall role :: role in approvals ==> AsDemanded(approvals[role], raw.roles[role], author, commit)
  {
    forall role | role in ROLES
      ensures role in approvals && role in policy.allowed && role in raw.roles
      ensures ApprovalValid(approvals[role], policy.allowed[role], author, commit) <==>
              AsDemanded(approvals[role], raw.roles[role], author, commit)
    {
      assert role in RoleSet(ROLES);
    }
    assert forall role :: role in approvals <==> role in ROLES;
  }

  lemma {:induction false} PairsMean(policy: Policy, raw: RawPolicy, approvals: Approvals)
    requires Says(policy, raw) && approvals.Keys == RoleSet(ROLES)
    ensures (forall pair :: pair in policy.separated ==>
               pair.0 in approvals && pair.1 in approvals && approvals[pair.0].actor != approvals[pair.1].actor)
            <==> KeptApart(raw, approvals)
  {
    if KeptApart(raw, approvals) {
      forall pair | pair in policy.separated
        ensures pair.0 in approvals && pair.1 in approvals && approvals[pair.0].actor != approvals[pair.1].actor
      {
        assert RolePair(pair.0, pair.1) == pair;
      }
    }
    if forall pair :: pair in policy.separated ==>
         pair.0 in approvals && pair.1 in approvals && approvals[pair.0].actor != approvals[pair.1].actor
    {
      forall a, b | a in approvals && b in approvals && ListsPair(raw.separation, a, b)
        ensures approvals[a].actor != approvals[b].actor
      {
        var pair := RolePair(a, b);
        assert pair in policy.separated;
      }
    }
  }

  /** The request file that a report names, and the policy file that the request names, both still as frozen. */
  ghost predicate NamesRequest(e: Edition, files: Files, digest: File -> string, requestRef: Ref, raw: RawRequest) {
    && Kept(files, digest, requestRef) && files[requestRef.path] == RequestFile(raw)
    && RequestHead(e, raw) && NamesRelease(raw.releaseId, raw.source) && HandedOver(raw.handoff)
    && Kept(files, digest, raw.approvalPolicy) && files[raw.approvalPolicy.path].PolicyFile?
    && PolicyHead(e, files[raw.approvalPolicy.path].policy) && PolicyBody(files[raw.approvalPolicy.path].policy)
  }

  lemma {:induction false} RequestNamed(e: Edition, files: Files, digest: File -> string, requestRef: Ref,
                                        raw: RawRequest)
    requires requestRef.path in files ==> files[requestRef.path] == RequestFile(raw)
    ensures NamesRequest(e, files, digest, requestRef, raw) <==>
            VerifiedRef(files, digest, requestRef, EVIDENCE_ROOT) && ValidateRequest(e, files, digest, raw).Some?
  {
    KeptMeans(files, digest, requestRef);
    RequestPasses(e, files, digest, raw);
    if raw.approvalPolicy.path in files && files[raw.approvalPolicy.path].PolicyFile? {
      PolicyPasses(e, files[raw.approvalPolicy.path].policy);
    }
  }

  predicate HeadStands(report: Report, releaseId: Option<string>, source: Option<Identity>,
                       evidenceHead: Option<string>) {
    && report.schemaVersion == 2 && report.kind == "LUMI_RELEASE_AUTHORIZATION_V2" && report.status == "PASS"
    && report.repository == "zhangjaky71-stack/LUMI-AI-DESIGN-OS" && NamesRelease(report.releaseId, report.source)
    && |report.evidence| == 40 && LowerHex(Lower(report.evidence))
    && (releaseId.Some? ==> releaseId.value == report.releaseId)
    && (source.Some? ==> source.value == report.source)
    && (evidenceHead.Some? ==> Lower(evidenceHead.value) == Lower(report.evidence))
  }

  /** A version 2 report against the request and the policy file that it names. */
  predicate BodyStands(files: Files, digest: File -> string, report: Report, raw: RawRequest)
    requires raw.approvalPolicy.path in files && files[raw.approvalPolicy.path].PolicyFile?
  {
    && report.releaseId == raw.releaseId && report.handoff == raw.handoff
    && report.source == Identity(Lower(raw.source.gitSha), raw.source.version, raw.source.migrationHead)
    && report.approvalPolicy == Ref(raw.approvalPolicy.path, digest(files[raw.approvalPolicy.path]))
    && report.pr.headSha == Lower(report.evidence) && report.pr.number == 135 && Present(report.pr.author)
    && report.distinctApprovers == |set role | role in report.approvals :: report.approvals[role].actor|
    && ApprovedAsDemanded(files[raw.approvalPolicy.path].policy, report.approvals, report.pr.author,
                          Lower(report.evidence))
  }

  lemma {:induction false} Sha40Means(s: string)
    ensures Sha40(Lower(s)) <==> |s| == 40 && LowerHex(Lower(s))
  {
  }

  lemma {:induction false} HeadMeans(report: Report, releaseId: Option<string>, source: Option<Identity>,
                                     evidenceHead: Option<string>)
    ensures ReportHeadValid(report, releaseId, source, evidenceHead) <==>
            HeadStands(report, releaseId, source, evidenceHead)
  {
    Sha40Means(report.evidence);
    Sha40Means(report.source.gitSha);
  }

  lemma {:induction false} BodyMeans(files: Files, digest: File -> string, report: Report, raw: RawRequest,
                                     checked: Checked)
    requires checked.policyPath == raw.approvalPolicy.path && checked.policyPath in files
    requires files[checked.policyPath].PolicyFile? && Says(checked.policy, files[checked.policyPath].policy)
    requires checked.request.releaseId == raw.releaseId && checked.request.handoff == raw.handoff
    requires checked.request.source == Identity(Lower(raw.source.gitSha), raw.source.version, raw.source.migrationHead)
    ensures ReportBodyValid(files, digest, report, checked) <==> BodyStands(files, digest, report, raw)
  {
    SelectedMeans(checked.policy, files[checked.policyPath].policy, report.approvals, report.pr.author,
                  Lower(report.evidence));
    SameActors(report.approvals);
  }

  /** Exactly when a version 2 report passes, in the fields of the report and of the two files. */
  lemma {:induction false} ReportPasses(files: Files, digest: File -> string, report: Report,
                                        releaseId: Option<string>, source: Option<Identity>,
                                        evidenceHead: Option<string>, raw: RawRequest)
    requires report.requestRef.path in files && files[report.requestRef.path] == RequestFile(raw)
    ensures ReportValid(files, digest, report, releaseId, source, evidenceHead) <==>
            && HeadStands(report, releaseId, source, evidenceHead)
            && NamesRequest(V2, files, digest, report.requestRef, raw) && BodyStands(files, digest, report, raw)
  {
    RequestNamed(V2, files, digest, report.requestRef, raw);
    HeadMeans(report, releaseId, source, evidenceHead);
    var checked := ValidateRequest(V2, files, digest, raw);
    if checked.Some? {
      RequestKept(V2, files, digest, raw);
      PolicySays(V2, files[raw.approvalPolicy.path].policy);
      BodyMeans(files, digest, report, raw, checked.value);
    }
  }

  // ----- version 1 -----

  /** As version 1 reads it: the commit in any case. */
  ghost predicate ConsentsFolded(reviews: seq<Review>, actor: string, commit: string, author: string) {
    && actor != author && !EndsWith(actor, "[bot]")
    && exists r :: && r in reviews && r.login == Some(actor) && r.state == "APPROVED"
                   && r.commit.Some? && Lower(r.commit.value) == Lower(commit)
                   && forall x :: && x in reviews && x.login == Some(actor)
                                  && (x.state == "APPROVED" || x.state == "CHANGES_REQUESTED" || x.state == "DISMISSED")
                                  ==> ReviewLeq(x, r)
  }

  lemma {:induction false} FoldedApproves(r: Review, actor: string, commit: string, author: string)
    ensures Approves(FoldCommit(r), actor, Lower(commit), author) <==>
            && actor != author && !EndsWith(actor, "[bot]") && r.state == "APPROVED"
            && r.commit.Some? && Lower(r.commit.value) == Lower(commit)
  {
  }

  lemma {:induction false} LatestMeans(reviews: seq<Review>, actor: string, r: Review)
    ensures IsLatest(reviews, actor, r) <==>
            && r in reviews && r.login == Some(actor)
            && (r.state == "APPROVED" || r.state == "CHANGES_REQUESTED" || r.state == "DISMISSED")
            && forall x :: && x in reviews && x.login == Some(actor)
                           && (x.state == "APPROVED" || x.state == "CHANGES_REQUESTED" || x.state == "DISMISSED")
                           ==> ReviewLeq(x, r)
  {
    forall x
      ensures DecisiveOf(x, actor) <==>
              && x.login == Some(actor)
              && (x.state == "APPROVED" || x.state == "CHANGES_REQUESTED" || x.state == "DISMISSED")
    {
      DecisiveMeans(x, actor);
    }
  }

  /** The people whose approval version 1 counts are exactly those who consent. */
  lemma {:induction false} ApproversConsentV1(reviews: seq<Review>, actor: string, commit: string, author: string)
    requires UniqueIds(reviews)
    ensures actor in ApprovedV1(Latest(reviews), commit, author) <==> ConsentsFolded(reviews, actor, commit, author)
  {
    LatestIsGreatest(reviews, actor);
    if actor in Latest(reviews) {
      LatestMeans(reviews, actor, Latest(reviews)[actor]);
      FoldedApproves(Latest(reviews)[actor], actor, commit, author);
    }
    if ConsentsFolded(reviews, actor, commit, author) {
      var r :| && r in reviews && r.login == Some(actor) && r.state == "APPROVED"
               && r.commit.Some? && Lower(r.commit.value) == Lower(commit)
               && forall x :: && x in reviews && x.login == Some(actor)
                              && (x.state == "APPROVED" || x.state == "CHANGES_REQUESTED" || x.state == "DISMISSED")
                              ==> ReviewLeq(x, r);
      LatestMeans(reviews, actor, r);
      LatestIs(reviews, actor, r);
    }
  }

  /** The record was made from a review by which its person consents, the commit written in lower case. */
  ghost predicate RecordedFolded(reviews: seq<Review>, a: Approval, commit: string, author: string) {
    && ConsentsFolded(reviews, a.actor, commit, author)
    && a.status == "APPROVED" && a.commit == Lower(commit) && a.reviewId > 0
    && exists r :: && r in reviews && r.login == Some(a.actor) && r.state == "APPROVED"
                   && r.commit.Some? && Lower(r.commit.value) == a.commit
                   && r.id == Some(a.reviewId) && r.url == Some(a.url) && r.submitted == Some(a.submitted)
  }

  lemma {:induction false} RecordOfV1(reviews: seq<Review>, actor: string, commit: string, author: string)
    requires UniqueIds(reviews) && actor in ApprovedV1(Latest(reviews), commit, author)
    ensures var record := ApprovalRecord(ApprovedV1(Latest(reviews), commit, author)[actor], actor, Lower(commit));
            record.Some? ==> record.value.actor == actor && RecordedFolded(reviews, record.value, commit, author)
  {
    var r := Latest(reviews)[actor];
    LatestIsGreatest(reviews, actor);
    ApproversConsentV1(reviews, actor, commit, author);
    FoldedApproves(r, actor, commit, author);
    RecordMeans(FoldCommit(r), actor, Lower(commit));
    assert r in reviews && r.login == Some(actor) && r.state == "APPROVED" && r.commit.Some?;
  }

  lemma {:induction false} SelectedIsRecordedV1(policy: Policy, reviews: seq<Review>, commit: string, author: string,
                                                role: string)
    requires policy.Normal() && UniqueIds(reviews) && role in policy.roles
    requires SelectV1(policy, reviews, commit, author).Some?
    ensures var approvals := SelectV1(policy, reviews, commit, author).value;
            && role in approvals && approvals[role].actor in policy.allowed[role]
            && RecordedFolded(reviews, approvals[role], commit, author)
  {
    ChosenRecord(policy, ApprovedV1(Latest(reviews), commit, author), Lower(commit), role);
    RecordOfV1(reviews, SelectV1(policy, reviews, commit, author).value[role].actor, commit, author);
  }

  predicate HeadStandsV1(report: ReportV1, releaseId: Option<string>, rc: Option<Identity>) {
    && report.schemaVersion == 1 && report.kind == "LUMI_RELEASE_AUTHORIZATION_V1" && report.status == "PASS"
    && report.repository == "zhangjaky71-stack/LUMI-AI-DESIGN-OS" && NamesRelease(report.releaseId, report.rc)
    && (releaseId.Some? ==> releaseId.value == report.releaseId) && (rc.Some? ==> rc.value == report.rc)
  }

  /** A version 1 report against the request and the policy file that both name. */
  predicate BodyStandsV1(files: Files, digest: File -> string, report: ReportV1, raw: RawRequest)
    requires raw.approvalPolicy.path in files && files[raw.approvalPolicy.path].PolicyFile?
  {
    && Kept(files, digest, report.approvalPolicy) && report.approvalPolicy.path == raw.approvalPolicy.path
    && report.releaseId == raw.releaseId && report.handoff == raw.handoff
    && report.rc == Identity(Lower(raw.source.gitSha), raw.source.version, raw.source.migrationHead)
    && report.pr.headSha == Lower(report.rc.gitSha) && report.pr.number == 135
    && report.pr.baseRef == "node-73-final-acceptance-release" && report.pr.headRef == "release-closure-p0"
    && Present(report.pr.author)
    && report.distinctApprovers == |set role | role in report.approvals :: report.approvals[role].actor|
    && ApprovedAsDemanded(files[raw.approvalPolicy.path].policy, report.approvals, report.pr.author,
                          Lower(report.rc.gitSha))
    && (forall role :: role in report.approvals ==> StartsWith(report.approvals[role].url, PR_URL))
    && HandedOver(report.handoff)
  }

  lemma {:induction false} HeadMeansV1(report: ReportV1, releaseId: Option<string>, rc: Option<Identity>)
    ensures HeadValid(report, releaseId, rc) <==> HeadStandsV1(report, releaseId, rc)
  {
    Sha40Means(report.rc.gitSha);
  }

  lemma {:induction false} BodyMeansV1(files: Files, digest: File -> string, report: ReportV1, raw: RawRequest,
                                       checked: Checked)
    requires checked.policyPath == raw.approvalPolicy.path && checked.policyPath in files
    requires files[checked.policyPath].PolicyFile? && Says(checked.policy, files[checked.policyPath].policy)
    requires checked.request.releaseId == raw.releaseId && checked.request.handoff == raw.handoff
    requires checked.request.source == Identity(Lower(raw.source.gitSha), raw.source.version, raw.source.migrationHead)
    requires Kept(files, digest, report.approvalPolicy)
    ensures BodyValid(report, checked.policy, checked) <==> BodyStandsV1(files, digest, report, raw)
  {
    SelectedMeans(checked.policy, files[checked.policyPath].policy, report.approvals, report.pr.author,
                  Lower(report.rc.gitSha));
    SameActors(report.approvals);
    if report.approvals.Keys == RoleSet(ROLES) {
      assert forall role :: role in report.approvals <==> role in ROLES;
    }
  }

  /** Exactly when a version 1 report passes, in the fields of the report and of the two files, and what it hands
      on. */
  lemma {:induction false} ReportPassesV1(files: Files, digest: File -> string, report: ReportV1,
                                          releaseId: Option<string>, rc: Option<Identity>, raw: RawRequest)
    requires report.requestRef.path in files && files[report.requestRef.path] == RequestFile(raw)
    ensures ValidateReportV1(files, digest, report, releaseId, rc).Some? <==>
            && HeadStandsV1(report, releaseId, rc)
            && NamesRequest(V1, files, digest, report.requestRef, raw) && BodyStandsV1(files, digest, report, raw)
  {
    RequestNamed(V1, files, digest, report.requestRef, raw);
    KeptMeans(files, digest, report.approvalPolicy);
    HeadMeansV1(report, releaseId, rc);
    var checked := ValidateRequest(V1, files, digest, raw);
    if checked.Some? {
      RequestKept(V1, files, digest, raw);
      PolicySays(V1, files[raw.approvalPolicy.path].policy);
      if Kept(files, digest, report.approvalPolicy) {
        BodyMeansV1(files, digest, report, raw, checked.value);
      }
    }
    PassesByParts(files, digest, report, releaseId, rc, raw);
  }

  lemma {:induction false} FilesNamed(files: Files, digest: File -> string, report: ReportV1, raw: RawRequest)
    requires report.requestRef.path in files && files[report.requestRef.path] == RequestFile(raw)
    ensures NamedFiles(files, digest, report).Some? <==>
            && VerifiedRef(files, digest, report.approvalPolicy, EVIDENCE_ROOT)
            && files[report.approvalPolicy.path].PolicyFile?
            && ValidatePolicy(V1, files[report.approvalPolicy.path].policy).Some?
            && VerifiedRef(files, digest, report.requestRef, EVIDENCE_ROOT)
            && ValidateRequest(V1, files, digest, raw).Some?
    ensures NamedFiles(files, digest, report).Some? ==>
              && NamedFiles(files, digest, report).value.1 == ValidateRequest(V1, files, digest, raw).value
              && Some(NamedFiles(files, digest, report).value.0) ==
                   ValidatePolicy(V1, files[report.approvalPolicy.path].policy)
  {
  }

  lemma {:induction false} PassesByParts(files: Files, digest: File -> string, report: ReportV1,
                                         releaseId: Option<string>, rc: Option<Identity>, raw: RawRequest)
    requires report.requestRef.path in files && files[report.requestRef.path] == RequestFile(raw)
    ensures ValidateReportV1(files, digest, report, releaseId, rc).Some? <==>
            && HeadValid(report, releaseId, rc)
            && VerifiedRef(files, digest, report.requestRef, EVIDENCE_ROOT)
            && VerifiedRef(files, digest, report.approvalPolicy, EVIDENCE_ROOT)
            && var checked := ValidateRequest(V1, files, digest, raw);
            && checked.Some? && checked.value.policyPath == report.approvalPolicy.path
            && BodyValid(report, checked.value.policy, checked.value)
  {
    FilesNamed(files, digest, report, raw);
    DecidedByParts(files, digest, report, releaseId, rc);
    var checked := ValidateRequest(V1, files, digest, raw);
    if checked.Some? {
      RequestKept(V1, files, digest, raw);
      NamesSamePolicy(report, checked.value);
    }
  }

  lemma {:induction false} DecidedByParts(files: Files, digest: File -> string, report: ReportV1,
                                          releaseId: Option<string>, rc: Option<Identity>)
    ensures ValidateReportV1(files, digest, report, releaseId, rc).Some? <==>
            && HeadValid(report, releaseId, rc)
            && var named := NamedFiles(files, digest, report);
            && named.Some? && BodyValid(report, named.value.0, named.value.1)
  {
  }

  lemma {:induction false} NamesSamePolicy(report: ReportV1, checked: Checked)
    ensures forall policy :: BodyValid(report, policy, checked) ==>
              checked.policyPath == report.approvalPolicy.path && policy == checked.policy
  {
  }

  /** What a version 1 report that passes hands on. */
  lemma {:induction false} HandsOn(files: Files, digest: File -> string, report: ReportV1,
                                   releaseId: Option<string>, rc: Option<Identity>)
    requires ValidateReportV1(files, digest, report, releaseId, rc).Some?
    ensures var a := ValidateReportV1(files, digest, report, releaseId, rc).value;
            && a.approvals.Keys == {"product", "engineering", "security", "operations", "release_owner"}
            && (forall role :: role in a.approvals ==> a.approvals[role] == "APPROVED")
            && a.handoff == report.handoff && HandedOver(report.handoff)
  {
    RolesAre();
    AuthorizedIsComplete(files, digest, report, releaseId, rc);
  }
}
