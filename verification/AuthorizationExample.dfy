/** A small release authorization, in both editions: three people who fill the five roles.  It shows that a report
    can be built at all, and that the conditions under which it validates, or verifies live, are needed. */
module AuthorizationExample {
  import opened Schemas
  import opened Text
  import opened FrozenFiles
  import opened Ordering
  import opened Reviews
  import opened ApprovalSearch
  import opened Authorization
  import opened AuthorizationReport
  import opened AuthorizationV1
  import opened LiveAuthorization

  function HolderOf(role: string): string {
    if role == "security" then "b" else if role == "release_owner" then "c" else "a"
  }

  function Separation(): seq<seq<string>> {
    [["engineering", "security"], ["security", "release_owner"]]
  }

  function PolicyOf(e: Edition): RawPolicy {
    RawPolicy(e.Schema(), e.PolicyKind(), REPOSITORY, PULL_REQUEST, BASE_REF, HEAD_REF, 3, true, true, true, true,
              map role | role in ROLES :: [HolderOf(role)], Separation())
  }

  function ReviewOf(id: int, login: string, commit: string): Review {
    Review(Some(id), "APPROVED", Some(login), Some(PR_URL), Some(commit), Some("t"))
  }

  function ReviewsOf(commit: string): seq<Review> {
    [ReviewOf(1, "a", commit), ReviewOf(2, "b", commit), ReviewOf(3, "c", commit)]
  }

  // ----- the policy -----

  lemma {:induction false} LoginsOk(role: string)
    ensures ValidLogins([HolderOf(role)])
  {
    var x := HolderOf(role);
    assert |x| == 1 && 'a' <= x[0] <= 'c';
    assert |Upper(x)| == 1;
  }

  lemma {:induction false} PairsOk()
    ensures ValidPair(Separation()[0]) && ValidPair(Separation()[1])
    ensures RolePair("engineering", "security") in PairsOf(Separation())
    ensures RolePair("security", "release_owner") in PairsOf(Separation())
  {
    assert ROLES[1] == "engineering" && ROLES[2] == "security" && ROLES[4] == "release_owner";
    assert |"engineering"| == 11 && |"security"| == 8 && |"release_owner"| == 13;
    assert Separation()[0][0] == "engineering" && Separation()[0][1] == "security";
    assert Separation()[1][0] == "security" && Separation()[1][1] == "release_owner";
  }

  lemma {:induction false} PolicyOk(e: Edition)
    ensures ValidPolicy(e, PolicyOf(e))
  {
    PairsOk();
    forall role | role in ROLES
      ensures ValidLogins(PolicyOf(e).roles[role])
    {
      LoginsOk(role);
    }
    RoleKeys(ROLES);
  }

  lemma {:induction false} RoleKeys(roles: seq<string>)
    ensures (map role | role in roles :: [HolderOf(role)]).Keys == set role | role in roles
  {
  }

  // ----- the reviews -----

  lemma {:induction false} ReviewsUnique(commit: string)
    ensures UniqueIds(ReviewsOf(commit))
  {
  }

  function PeopleOf(): set<string> {
    {"a", "b", "c"}
  }

  function ReviewBy(login: string, commit: string): Review {
    ReviewOf(if login == "a" then 1 else if login == "b" then 2 else 3, login, commit)
  }

  lemma {:induction false} LatestBy(login: string, commit: string)
    requires login in PeopleOf()
    ensures login in Latest(ReviewsOf(commit)) && Latest(ReviewsOf(commit))[login] == ReviewBy(login, commit)
  {
    var rs, r := ReviewsOf(commit), ReviewBy(login, commit);
    ReviewsUnique(commit);
    assert rs[0] == ReviewBy("a", commit) && rs[1] == ReviewBy("b", commit) && rs[2] == ReviewBy("c", commit);
    assert r in rs && DecisiveOf(r, login);
    forall x | x in rs && DecisiveOf(x, login)
      ensures x == r
    {
    }
    LatestIs(rs, login, r);
  }

  lemma {:induction false} LatestPeople(commit: string, login: string)
    requires login in Latest(ReviewsOf(commit))
    ensures login in PeopleOf()
  {
    LatestIsGreatest(ReviewsOf(commit), login);
  }

  lemma {:induction false} ReviewPasses(login: string, commit: string, id: int)
    requires login in PeopleOf() && id > 0
    ensures Approves(ReviewOf(id, login, commit), login, commit, "w")
    ensures ApprovalRecord(ReviewOf(id, login, commit), login, commit).Some?
  {
    PresentByHead("t");
    assert |login| == 1;
  }

  // ----- the roles are filled -----

  function Holders(): Assignment {
    map role | role in ROLES :: HolderOf(role)
  }

  lemma {:induction false} HoldersSeparated(a: string, b: string)
    requires (a == "engineering" && b == "security") || (a == "security" && b == "release_owner")
    requires a in ROLES && b in ROLES
    ensures Holders()[RolePair(a, b).0] != Holders()[RolePair(a, b).1]
  {
    assert |"engineering"| == 11 && |"security"| == 8 && |"release_owner"| == 13;
  }

  lemma {:induction false} ThreeHolders()
    ensures |Holders().Values| >= 3
  {
    assert ROLES[0] == "product" && ROLES[2] == "security" && ROLES[4] == "release_owner";
    assert |"product"| == 7 && |"security"| == 8 && |"release_owner"| == 13;
    var h := Holders();
    assert h["product"] == "a" && h["security"] == "b" && h["release_owner"] == "c";
    assert {"a", "b", "c"} <= h.Values;
    SubsetCount({"a", "b", "c"}, h.Values);
  }

  lemma {:induction false} SubsetCount(s: set<string>, t: set<string>)
    requires s <= t
    ensures |s| <= |t|
  {
    assert t == s + (t - s);
  }

  lemma {:induction false} PolicyFields(e: Edition, policy: Policy)
    requires ValidatePolicy(e, PolicyOf(e)) == Some(policy)
    ensures policy.roles == ROLES && policy.minimum == 3 && policy.separated == PairsOf(Separation())
    ensures forall role :: role in ROLES ==> role in policy.allowed && HolderOf(role) in policy.allowed[role]
  {
    forall role | role in ROLES
      ensures role in policy.allowed && HolderOf(role) in policy.allowed[role]
    {
      SortMembers([HolderOf(role)], StrLeq);
    }
  }

  lemma {:induction false} HoldersApart(pair: (string, string))
    requires pair in PairsOf(Separation()) && pair.0 in ROLES && pair.1 in ROLES
    ensures Holders()[pair.0] != Holders()[pair.1]
  {
    TwoPairs(pair);
    assert ROLES[1] == "engineering" && ROLES[2] == "security" && ROLES[4] == "release_owner";
    HoldersSeparated("engineering", "security");
    HoldersSeparated("security", "release_owner");
  }

  lemma {:induction false} TwoPairs(pair: (string, string))
    requires pair in PairsOf(Separation())
    ensures pair == RolePair("engineering", "security") || pair == RolePair("security", "release_owner")
  {
    assert |Separation()| == 2;
    assert Separation()[0] == ["engineering", "security"] && Separation()[1] == ["security", "release_owner"];
  }

  lemma {:induction false} HoldersFill(policy: Policy, approved: set<string>)
    requires policy.Normal() && PeopleOf() <= approved
    requires policy.roles == ROLES && policy.minimum == 3 && policy.separated == PairsOf(Separation())
    requires forall role :: role in policy.roles ==> role in policy.allowed && HolderOf(role) in policy.allowed[role]
    ensures Fills(policy, approved, Holders())
  {
    forall pair | pair in policy.separated
      ensures Holders()[pair.0] != Holders()[pair.1]
    {
      HoldersApart(pair);
    }
    ThreeHolders();
    PeopleHold();
  }

  lemma {:induction false} PeopleHold()
    ensures forall role :: HolderOf(role) in PeopleOf()
  {
  }

  // ----- approvals are selected -----

  lemma {:induction false} ApprovedPeople(commit: string)
    ensures Approved(Latest(ReviewsOf(commit)), commit, "w").Keys == PeopleOf()
    ensures forall login :: login in PeopleOf() ==>
              Approved(Latest(ReviewsOf(commit)), commit, "w")[login] == ReviewBy(login, commit)
  {
    forall login
      ensures login in PeopleOf() ==>
                && login in Latest(ReviewsOf(commit))
                && Latest(ReviewsOf(commit))[login] == ReviewBy(login, commit)
                && Approves(ReviewBy(login, commit), login, commit, "w")
      ensures login in Latest(ReviewsOf(commit)) ==> login in PeopleOf()
    {
      if login in PeopleOf() {
        LatestBy(login, commit);
        ReviewPasses(login, commit, ReviewBy(login, commit).id.value);
      }
      if login in Latest(ReviewsOf(commit)) {
        LatestPeople(commit, login);
      }
    }
  }

  lemma {:induction false} ApprovedPeopleV1(commit: string)
    ensures ApprovedV1(Latest(ReviewsOf(commit)), commit, "w").Keys == PeopleOf()
    ensures forall login :: login in PeopleOf() ==>
              ApprovedV1(Latest(ReviewsOf(commit)), commit, "w")[login] == ReviewBy(login, Lower(commit))
  {
    forall login
      ensures login in PeopleOf() ==>
                && login in Latest(ReviewsOf(commit))
                && FoldCommit(Latest(ReviewsOf(commit))[login]) == ReviewBy(login, Lower(commit))
                && Approves(ReviewBy(login, Lower(commit)), login, Lower(commit), "w")
      ensures login in Latest(ReviewsOf(commit)) ==> login in PeopleOf()
    {
      if login in PeopleOf() {
        LatestBy(login, commit);
        ReviewPasses(login, Lower(commit), ReviewBy(login, commit).id.value);
      }
      if login in Latest(ReviewsOf(commit)) {
        LatestPeople(commit, login);
      }
    }
  }

  lemma {:induction false} Selected(policy: Policy, approved: map<string, Review>, evidence: string)
    requires policy.Normal() && approved.Keys == PeopleOf()
    requires policy.roles == ROLES && policy.minimum == 3 && policy.separated == PairsOf(Separation())
    requires forall role :: role in policy.roles ==> role in policy.allowed && HolderOf(role) in policy.allowed[role]
    requires forall login :: login in approved ==> approved[login] == ReviewBy(login, evidence)
    ensures SelectFrom(policy, approved, evidence).Some?
  {
    HoldersFill(policy, approved.Keys);
    forall login | login in approved
      ensures ApprovalRecord(approved[login], login, evidence).Some?
    {
      ReviewPasses(login, evidence, ReviewBy(login, evidence).id.value);
    }
    SelectFromDecides(policy, approved, evidence);
  }

  // ----- the request, the pull request and the files -----

  function HandoffOf(keys: set<string>): map<string, string> {
    map key | key in keys :: "x"
  }

  function RequestOf(e: Edition, sha: string, policyRef: Ref): RawRequest {
    RawRequest(e.Schema(), e.RequestKind(), "r", Identity(sha, "v", "m"), REPOSITORY, PULL_REQUEST, policyRef,
               HandoffOf(HANDOFF_KEYS))
  }

  function PolicyPath(): string {
    EVIDENCE_ROOT + "/" + "policy"
  }

  function FilesOf(e: Edition, sha: string, requestPath: string, digest: File -> string): Files {
    map[PolicyPath() := PolicyFile(PolicyOf(e)),
        requestPath := RequestFile(RequestOf(e, sha, Ref(PolicyPath(), digest(PolicyFile(PolicyOf(e))))))]
  }

  function PayloadOf(sha: string): PrPayload {
    PrPayload(PULL_REQUEST, "open", HEAD_REF, sha, REPOSITORY, BASE_REF, "w", PR_URL)
  }

  lemma {:induction false} Concrete()
    ensures Present("r") && SafeId("r") && Present("v") && Present("m") && Present("x") && Present("w")
  {
    PresentByHead("r");
    PresentByHead("v");
    PresentByHead("m");
    PresentByHead("x");
    PresentByHead("w");
  }

  lemma {:induction false} PolicyRefHolds(files: Files, digest: File -> string)
    requires PolicyPath() in files && Sha256(digest(files[PolicyPath()]))
    ensures VerifiedRef(files, digest, Freeze(files, digest, PolicyPath()), EVIDENCE_ROOT)
  {
    FrozenVerifies(files, digest, PolicyPath());
  }

  lemma {:induction false} HandoffOk(keys: set<string>)
    ensures HandoffOf(keys).Keys == keys && forall key :: key in HandoffOf(keys) ==> Present(HandoffOf(keys)[key])
  {
    Concrete();
  }

  lemma {:induction false} RequestAccepted(e: Edition, files: Files, digest: File -> string, raw: RawRequest,
                                           policy: Policy)
    requires raw.schemaVersion == e.Schema() && raw.kind == e.RequestKind() && Present(raw.releaseId) &&
             SafeId(raw.releaseId)
    requires Sha40(Lower(raw.source.gitSha)) && Present(raw.source.version) && Present(raw.source.migrationHead)
    requires raw.repository == REPOSITORY && raw.pullRequest == PULL_REQUEST && ValidHandoff(raw.handoff)
    requires VerifiedRef(files, digest, raw.approvalPolicy, EVIDENCE_ROOT)
    requires var path := raw.approvalPolicy.path;
             files[path].PolicyFile? && ValidatePolicy(e, files[path].policy) == Some(policy)
    ensures ValidateRequest(e, files, digest, raw) ==
            Some(Checked(Request(raw.releaseId, raw.source.(gitSha := Lower(raw.source.gitSha)),
                                 Freeze(files, digest, raw.approvalPolicy.path), raw.handoff),
                         raw.approvalPolicy.path, policy))
  {
  }

  lemma {:induction false} FilesFound(e: Edition, sha: string, requestPath: string, digest: File -> string)
    requires requestPath != PolicyPath()
    ensures var files := FilesOf(e, sha, requestPath, digest);
            && PolicyPath() in files && files[PolicyPath()] == PolicyFile(PolicyOf(e))
            && requestPath in files
            && files[requestPath] == RequestFile(RequestOf(e, sha, Ref(PolicyPath(), digest(PolicyFile(PolicyOf(e))))))
  {
  }

  /** The policy that the example is checked against. */
  function CheckedPolicy(e: Edition): Policy {
    PolicyOk(e);
    ValidatePolicy(e, PolicyOf(e)).value
  }

  lemma {:induction false} RequestChecked(e: Edition, sha: string, requestPath: string, digest: File -> string)
    requires (forall f :: Sha256(digest(f))) && Sha40(Lower(sha)) && requestPath != PolicyPath()
    ensures var files := FilesOf(e, sha, requestPath, digest);
            && requestPath in files && files[requestPath].RequestFile? && PolicyPath() in files
            && var checked := ValidateRequest(e, files, digest, files[requestPath].request);
            && checked.Some? && checked.value.policyPath == PolicyPath()
            && checked.value.request.releaseId == "r"
            && checked.value.request.source == Identity(Lower(sha), "v", "m")
            && checked.value.policy == CheckedPolicy(e)
    ensures CheckedPolicy(e).Normal()
  {
    var files := FilesOf(e, sha, requestPath, digest);
    FilesFound(e, sha, requestPath, digest);
    PolicyOk(e);
    ValidatedPolicyNormal(e, PolicyOf(e));
    PolicyRefHolds(files, digest);
    HandoffOk(HANDOFF_KEYS);
    Concrete();
    RequestAccepted(e, files, digest, files[requestPath].request, CheckedPolicy(e));
  }

  lemma {:induction false} PayloadOk(sha: string)
    ensures ValidatePr(PayloadOf(sha), sha) ==
            Some(Pr(PULL_REQUEST, PR_URL, "open", BASE_REF, HEAD_REF, sha, "w"))
  {
    Concrete();
  }

  // ----- version 2: a report is built wherever the request lies, and validates only in its place -----

  lemma {:induction false} Built(sha: string, requestPath: string, digest: File -> string)
    requires (forall f :: Sha256(digest(f))) && Sha40(sha) && requestPath != PolicyPath()
    ensures var files := FilesOf(V2, sha, requestPath, digest);
            && requestPath in files && files[requestPath].RequestFile?
            && var checked := ValidateRequest(V2, files, digest, files[requestPath].request);
            && checked.Some? && checked.value.policyPath in files && checked.value.policy.Normal()
            && BuildAuthorization(files, digest, requestPath, checked.value, PayloadOf(sha), ReviewsOf(sha), sha).Some?
  {
    var files := FilesOf(V2, sha, requestPath, digest);
    LowerHexIsLower(sha);
    RequestChecked(V2, sha, requestPath, digest);
    PayloadOk(sha);
    SelectedV2(sha);
    BuildsFrom(files, digest, requestPath, ValidateRequest(V2, files, digest, files[requestPath].request).value, sha);
  }

  lemma {:induction false} SelectedV2(sha: string)
    requires CheckedPolicy(V2).Normal()
    ensures SelectRoleApprovals(CheckedPolicy(V2), ReviewsOf(sha), sha, "w").Some?
  {
    PolicyOk(V2);
    PolicyFields(V2, CheckedPolicy(V2));
    ApprovedPeople(sha);
    Selected(CheckedPolicy(V2), Approved(Latest(ReviewsOf(sha)), sha, "w"), sha);
  }

  lemma {:induction false} BuildsFrom(files: Files, digest: File -> string, requestPath: string, checked: Checked,
                                      sha: string)
    requires requestPath in files && checked.policyPath in files && checked.policy.Normal()
    requires Sha40(sha) && Lower(sha) == sha
    requires ValidatePr(PayloadOf(sha), sha).Some? && ValidatePr(PayloadOf(sha), sha).value.author == "w"
    requires SelectRoleApprovals(checked.policy, ReviewsOf(sha), sha, "w").Some?
    ensures BuildAuthorization(files, digest, requestPath, checked, PayloadOf(sha), ReviewsOf(sha), sha).Some?
  {
  }

  /** The report of this request is built, and whether the validator takes it. */
  ghost predicate BuiltAndTaken(taken: bool, digest: File -> string, sha: string, requestPath: string) {
    var files := FilesOf(V2, sha, requestPath, digest);
    && requestPath in files && files[requestPath].RequestFile?
    && var checked := ValidateRequest(V2, files, digest, files[requestPath].request);
    && checked.Some? && checked.value.policyPath in files && checked.value.policy.Normal()
    && var report := BuildAuthorization(files, digest, requestPath, checked.value, PayloadOf(sha), ReviewsOf(sha), sha);
    && report.Some?
    && ReportValid(files, digest, report.value, Some(checked.value.request.releaseId),
                   Some(checked.value.request.source), Some(sha)) == taken
  }

  lemma {:induction false} TakenInPlace(digest: File -> string, sha: string, requestPath: string)
    requires (forall f :: Sha256(digest(f))) && Sha40(sha) && requestPath != PolicyPath()
    ensures BuiltAndTaken(Under(requestPath, EVIDENCE_ROOT), digest, sha, requestPath)
  {
    var files := FilesOf(V2, sha, requestPath, digest);
    Built(sha, requestPath, digest);
    var checked := ValidateRequest(V2, files, digest, files[requestPath].request).value;
    BuiltReportValidates(files, files, digest, requestPath, checked, PayloadOf(sha), ReviewsOf(sha), sha);
  }

  /** The same documents, with the request outside the evidence root and inside it. */
  lemma {:induction false} BuiltButNotTaken(digest: File -> string, sha: string)
    requires (forall f :: Sha256(digest(f))) && Sha40(sha)
    ensures BuiltAndTaken(false, digest, sha, "docs/request.json")
    ensures BuiltAndTaken(true, digest, sha, EVIDENCE_ROOT + "/" + "request.json")
  {
    assert "docs/request.json"[0] == 'd' && PolicyPath()[0] == 'r';
    assert |EVIDENCE_ROOT + "/" + "request.json"| != |PolicyPath()|;
    TakenInPlace(digest, sha, "docs/request.json");
    TakenInPlace(digest, sha, EVIDENCE_ROOT + "/" + "request.json");
    OutsideRoot("docs/request.json");
  }

  lemma {:induction false} OutsideRoot(path: string)
    requires path != "" && path[0] == 'd'
    ensures !Under(path, EVIDENCE_ROOT)
  {
    assert EVIDENCE_ROOT[0] == 'r';
  }

  // ----- version 1: approvals are selected in any case, and verify live only in lower case -----

  /** The version 1 report for this commit is built, and whether it verifies on the same pull request. */
  ghost predicate BuiltAndLive(live: bool, digest: File -> string, sha: string, requestPath: string) {
    var files := FilesOf(V1, sha, requestPath, digest);
    && requestPath in files && files[requestPath].RequestFile?
    && var checked := ValidateRequest(V1, files, digest, files[requestPath].request);
    && checked.Some? && checked.value.policyPath in files && checked.value.policy.Normal()
    && var report := BuildV1(files, digest, requestPath, checked.value, PayloadOf(sha), ReviewsOf(sha));
    && report.Some?
    && LiveReportOk(files, digest, report.value, PayloadOf(sha), ReviewsOf(sha)) == live
  }

  lemma {:induction false} SelectedInV1(sha: string)
    requires CheckedPolicy(V1).Normal()
    ensures SelectV1(CheckedPolicy(V1), ReviewsOf(sha), Lower(sha), "w").Some?
  {
    PolicyOk(V1);
    PolicyFields(V1, CheckedPolicy(V1));
    ApprovedPeopleV1(sha);
    Selected(CheckedPolicy(V1), ApprovedV1(Latest(ReviewsOf(sha)), sha, "w"), Lower(sha));
    InAnyCase(CheckedPolicy(V1), ReviewsOf(sha), sha, "w");
  }

  lemma {:induction false} InAnyCase(policy: Policy, reviews: seq<Review>, sha: string, author: string)
    requires policy.Normal()
    ensures SelectV1(policy, reviews, Lower(sha), author) ==
            SelectFrom(policy, ApprovedV1(Latest(reviews), sha, author), Lower(sha))
  {
    LowerTwice(sha);
    SameApproved(Latest(reviews), Lower(sha), sha, author);
  }

  lemma {:induction false} SameApproved(latest: map<string, Review>, a: string, b: string, author: string)
    requires Lower(a) == Lower(b)
    ensures ApprovedV1(latest, a, author) == ApprovedV1(latest, b, author)
  {
  }

  lemma {:induction false} PayloadOkV1(sha: string)
    ensures ValidatePrV1(PayloadOf(sha), Lower(sha)).Some? &&
            ValidatePrV1(PayloadOf(sha), Lower(sha)).value.author == "w"
  {
    LowerTwice(sha);
    PayloadOk(Lower(sha));
    assert PayloadOf(sha).(headSha := Lower(sha)) == PayloadOf(Lower(sha));
  }

  lemma {:induction false} BuildsFromV1(files: Files, digest: File -> string, requestPath: string, checked: Checked,
                                        sha: string)
    requires requestPath in files && checked.policyPath in files && checked.policy.Normal()
    requires checked.request.source.gitSha == Lower(sha)
    requires ValidatePrV1(PayloadOf(sha), Lower(sha)).Some? &&
             ValidatePrV1(PayloadOf(sha), Lower(sha)).value.author == "w"
    requires SelectV1(checked.policy, ReviewsOf(sha), Lower(sha), "w").Some?
    ensures BuildV1(files, digest, requestPath, checked, PayloadOf(sha), ReviewsOf(sha)).Some?
    ensures BuildV1(files, digest, requestPath, checked, PayloadOf(sha), ReviewsOf(sha)).value.rc.gitSha == Lower(sha)
  {
    LowerTwice(sha);
  }

  lemma {:induction false} BuiltV1(sha: string, requestPath: string, digest: File -> string)
    requires (forall f :: Sha256(digest(f))) && Sha40(Lower(sha)) && requestPath != PolicyPath()
    ensures var files := FilesOf(V1, sha, requestPath, digest);
            && requestPath in files && files[requestPath].RequestFile?
            && var checked := ValidateRequest(V1, files, digest, files[requestPath].request);
            && checked.Some? && checked.value.policyPath in files && checked.value.policy.Normal()
            && var report := BuildV1(files, digest, requestPath, checked.value, PayloadOf(sha), ReviewsOf(sha));
            && report.Some? && report.value.rc.gitSha == Lower(sha)
  {
    var files := FilesOf(V1, sha, requestPath, digest);
    RequestChecked(V1, sha, requestPath, digest);
    PayloadOkV1(sha);
    SelectedInV1(sha);
    BuildsFromV1(files, digest, requestPath, ValidateRequest(V1, files, digest, files[requestPath].request).value, sha);
  }

  lemma {:induction false} CommitOf(sha: string, login: string)
    requires login in Latest(ReviewsOf(sha))
    ensures Latest(ReviewsOf(sha))[login].commit == Some(sha)
  {
    LatestPeople(sha, login);
    LatestBy(login, sha);
  }

  /** The report verifies exactly when the request is in its place and the commit is written in lower case. */
  lemma {:induction false} LiveInLowerCase(digest: File -> string, sha: string, requestPath: string)
    requires (forall f :: Sha256(digest(f))) && Sha40(Lower(sha)) && requestPath != PolicyPath()
    ensures BuiltAndLive(Under(requestPath, EVIDENCE_ROOT) && sha == Lower(sha), digest, sha, requestPath)
  {
    var files, rs := FilesOf(V1, sha, requestPath, digest), ReviewsOf(sha);
    BuiltV1(sha, requestPath, digest);
    ReviewsUnique(sha);
    var checked := ValidateRequest(V1, files, digest, files[requestPath].request).value;
    FreshReportLive(files, files, digest, requestPath, checked, PayloadOf(sha), rs);
    var report := BuildV1(files, digest, requestPath, checked, PayloadOf(sha), rs).value;
    forall role | role in ROLES
      ensures Latest(rs)[report.approvals[role].actor].commit == Some(sha)
    {
      CommitOf(sha, report.approvals[role].actor);
    }
    assert ROLES[0] in ROLES;
    LowerTwice(sha);
  }

  /** A commit in capitals: the approvals are selected and the report is built, and it never verifies. */
  lemma {:induction false} BuiltButNotLive(digest: File -> string, sha: string)
    requires (forall f :: Sha256(digest(f))) && Sha40(Lower(sha))
    ensures sha[0] == 'A' ==> BuiltAndLive(false, digest, sha, EVIDENCE_ROOT + "/" + "request.json")
    ensures Sha40(sha) ==> BuiltAndLive(true, digest, sha, EVIDENCE_ROOT + "/" + "request.json")
  {
    assert |EVIDENCE_ROOT + "/" + "request.json"| != |PolicyPath()|;
    LiveInLowerCase(digest, sha, EVIDENCE_ROOT + "/" + "request.json");
    assert sha[0] == 'A' ==> Lower(sha)[0] == 'a';
    if Sha40(sha) {
      LowerHexIsLower(sha);
    }
  }

  // ----- a review without an address stops the selection, although somebody else could take the role -----

  const ONE_ROLE := Policy(["x"], 1, map["x" := ["a", "b"]], {})

  /** Both approve; the review of `a` has no address. */
  function TwoReviews(commit: string): seq<Review> {
    [ReviewOf(1, "a", commit).(url := None), ReviewOf(2, "b", commit)]
  }

  lemma {:induction false} OnlyReview(commit: string, login: string, r: Review)
    requires IsLatest(TwoReviews(commit), login, r)
    ensures login == "a" ==> r == TwoReviews(commit)[0]
    ensures login == "a" || login == "b"
  {
  }

  lemma {:induction false} BothApprove(commit: string, actor: string)
    ensures actor in {"a", "b"} <==> HasApproved(TwoReviews(commit), actor, commit, "w")
  {
    var rs := TwoReviews(commit);
    if actor == "a" {
      assert IsLatest(rs, actor, rs[0]) && Approves(rs[0], actor, commit, "w");
    } else if actor == "b" {
      assert IsLatest(rs, actor, rs[1]) && Approves(rs[1], actor, commit, "w");
    }
    if r :| IsLatest(rs, actor, r) && Approves(r, actor, commit, "w") {
      OnlyReview(commit, actor, r);
    }
  }

  lemma {:induction false} ABeforeB()
    ensures StrLeq("a", "b") && "a" != "b"
  {
    assert "a"[0] == 'a' && "b"[0] == 'b';
  }

  lemma {:induction false} EitherFills(actor: string)
    requires actor in {"a", "b"}
    ensures ONE_ROLE.Normal() && Fills(ONE_ROLE, {"a", "b"}, map["x" := actor])
  {
    var who := map["x" := actor];
    assert who["x"] in who.Values && ONE_ROLE.roles[0] == "x";
    SubsetCount({actor}, who.Values);
  }

  lemma {:induction false} Posed(p: Problem)
    requires ONE_ROLE.Normal() && p == ProblemOf(ONE_ROLE, {"a", "b"})
    ensures p.Valid() && Poses(ONE_ROLE, {"a", "b"}, p) && p.roles == ["x"] && p.order == TryOrder
    ensures "x" in p.candidates && "a" in p.candidates["x"]
  {
    ProblemOfValid(ONE_ROLE, {"a", "b"});
    assert "x" in ONE_ROLE.roles;
    PosedCandidate(ONE_ROLE, {"a", "b"}, p, "x", "a");
  }

  lemma {:induction false} TriedFirst(p: Problem)
    requires p.Valid() && p.roles == ["x"] && p.order == TryOrder && "x" in p.candidates && "a" in p.candidates["x"]
    ensures Before(p.Tried(map[], 0), "a", "b")
  {
    ABeforeB();
    EarlierNameFirst(p.candidates["x"], {}, "a", "b");
    var nobody: Assignment := map[];
    assert nobody.Values == {};
  }

  /** Only `a` makes the best filling. */
  lemma {:induction false} BestTakesA(who: Assignment)
    requires ONE_ROLE.Normal() && BestFilling(ONE_ROLE, {"a", "b"}, who)
    ensures "x" in who && who["x"] == "a"
  {
    var p := ProblemOf(ONE_ROLE, {"a", "b"});
    Posed(p);
    TriedFirst(p);
    EitherFills("a");
    FillingIsLegal(ONE_ROLE, {"a", "b"}, p, map["x" := "a"]);
    LegalIsFilling(ONE_ROLE, {"a", "b"}, p, who);
    FirstRole(p, who, map["x" := "a"]);
    TakenByOne(who);
  }

  lemma {:induction false} TakenByOne(who: Assignment)
    requires ONE_ROLE.Normal() && Fills(ONE_ROLE, {"a", "b"}, who)
    ensures "x" in who && (who["x"] == "a" || who["x"] == "b")
  {
    assert "x" in ONE_ROLE.roles;
  }

  lemma {:induction false} NoAddress(commit: string, who: Assignment)
    requires "x" in who && who["x"] == "a"
    ensures !Recordable(ONE_ROLE.roles, TwoReviews(commit), commit, who)
  {
    assert ONE_ROLE.roles[0] == "x";
    if r :| IsLatest(TwoReviews(commit), "a", r) && ApprovalRecord(r, "a", commit).Some? {
      OnlyReview(commit, "a", r);
    }
  }

  lemma {:induction false} BCouldTakeIt(commit: string)
    ensures ONE_ROLE.Normal()
    ensures LegalApprovers(ONE_ROLE, TwoReviews(commit), commit, "w", map["x" := "b"])
    ensures Recordable(ONE_ROLE.roles, TwoReviews(commit), commit, map["x" := "b"])
  {
    var rs, b := TwoReviews(commit), map["x" := "b"];
    EitherFills("b");
    forall actor
      ensures actor in {"a", "b"} <==> HasApproved(rs, actor, commit, "w")
    {
      BothApprove(commit, actor);
    }
    FillsMeans(ONE_ROLE, {"a", "b"}, rs, commit, "w", b);
    PresentByHead("t");
    assert IsLatest(rs, "b", rs[1]) && ApprovalRecord(rs[1], "b", commit).Some?;
  }

  /** Nothing is selected, although `b` fills the role with a review that could be recorded. */
  lemma {:induction false} IncompleteReviewStops(commit: string)
    ensures ONE_ROLE.Normal() && UniqueIds(TwoReviews(commit))
    ensures SelectRoleApprovals(ONE_ROLE, TwoReviews(commit), commit, "w").None?
    ensures LegalApprovers(ONE_ROLE, TwoReviews(commit), commit, "w", map["x" := "b"])
    ensures Recordable(ONE_ROLE.roles, TwoReviews(commit), commit, map["x" := "b"])
  {
    BCouldTakeIt(commit);
    forall actor
      ensures actor in {"a", "b"} <==> HasApproved(TwoReviews(commit), actor, commit, "w")
    {
      BothApprove(commit, actor);
    }
    SelectionExactly(ONE_ROLE, TwoReviews(commit), commit, "w", {"a", "b"});
    forall who | BestFilling(ONE_ROLE, {"a", "b"}, who)
      ensures !Recordable(ONE_ROLE.roles, TwoReviews(commit), commit, who)
    {
      BestTakesA(who);
      NoAddress(commit, who);
    }
  }
}
