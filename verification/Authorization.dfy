/** Release authorization, version 2 (scripts/capture_release_authorization_v2.py): a policy, a request
    and the reviews of a pull request become a report, and a separately written validator re-checks the
    report against the frozen files. */
module Authorization {
  import opened Schemas
  import opened Text
  import opened FrozenFiles
  import opened Reviews
  import opened ApprovalSearch
  import Ordering

  const REPOSITORY := "zhangjaky71-stack/LUMI-AI-DESIGN-OS"
  const PULL_REQUEST := 135
  const BASE_REF := "node-73-final-acceptance-release"
  const HEAD_REF := "release-closure-p0"
  const PR_URL := "https://github.com/" + REPOSITORY + "/pull/135"
  const EVIDENCE_ROOT := "reports/final-acceptance"
  const ROLES := ["product", "engineering", "security", "operations", "release_owner"]
  const HANDOFF_KEYS := {
    "on_call_owner", "support_owner", "incident_commander_rotation", "first_day_watch_owner",
    "quality_cost_review_owner", "security_dependency_review_owner", "dr_drill_owner",
    "capacity_review_owner"}

  /** The two editions of the documents. */
  datatype Edition = V1 | V2
  {
    function Schema(): int {
      if V1? then 1 else 2
    }

    function PolicyKind(): string {
      if V1? then "LUMI_RELEASE_APPROVAL_POLICY_V1" else "LUMI_RELEASE_APPROVAL_POLICY_V2"
    }

    function RequestKind(): string {
      if V1? then "LUMI_RELEASE_AUTHORIZATION_REQUEST_V1" else "LUMI_RELEASE_AUTHORIZATION_REQUEST_V2"
    }

    function AuthorizationKind(): string {
      if V1? then "LUMI_RELEASE_AUTHORIZATION_V1" else "LUMI_RELEASE_AUTHORIZATION_V2"
    }
  }

  // ----- files -----

  /** The candidate under release: commit, version and migration head. */
  datatype Identity = Identity(gitSha: string, version: string, migrationHead: string)

  datatype File = PolicyFile(policy: RawPolicy) | RequestFile(request: RawRequest) | OtherFile(bytes: string)

  type Files = map<string, File>

  predicate VerifiedRef(files: Files, digest: File -> string, ref: Ref, root: string) {
    RefHolds(files, digest, ref, {root})
  }

  // ----- the policy -----

  datatype RawPolicy = RawPolicy(
    schemaVersion: int, kind: string, repository: string, pullRequest: int, baseRef: string, headRef: string,
    minimum: int, human: bool, exactHead: bool, excludeAuthor: bool, latestDecisive: bool,
    roles: map<string, seq<string>>,
    separation: seq<seq<string>>)

  /** A normalised policy: the roles to fill, how many different people they take, who may take each, and
      the pairs of roles that two people must hold. */
  datatype Policy = Policy(
    roles: seq<string>, minimum: int, allowed: map<string, seq<string>>, separated: set<(string, string)>)
  {
    predicate Normal() {
      && Ordering.AllDifferent(roles)
      && (forall role :: role in roles ==> role in allowed)
      && (forall pair :: pair in separated ==>
            pair.0 in roles && pair.1 in roles && pair.0 != pair.1 && RolePair(pair.0, pair.1) == pair)
    }
  }

  predicate LetterOrDigit(c: char) {
    'a' <= c <= 'z' || 'A' <= c <= 'Z' || '0' <= c <= '9'
  }

  predicate LoginName(s: string) {
    && 1 <= |s| <= 39
    && LetterOrDigit(s[0]) && LetterOrDigit(s[|s| - 1])
    && forall i :: 0 <= i < |s| ==> LetterOrDigit(s[i]) || s[i] == '-'
  }

  predicate Bot(login: string) {
    EndsWith(login, "[bot]")
  }

  /** Two role names as the ordered pair a policy lists. */
  function RolePair(a: string, b: string): (string, string) {
    if Ordering.StrLeq(a, b) then (a, b) else (b, a)
  }

  lemma {:induction false} RolePairSymmetric(a: string, b: string)
    ensures RolePair(a, b) == RolePair(b, a)
  {
    Ordering.StrLeqTotal(a, b);
    if Ordering.StrLeq(a, b) && Ordering.StrLeq(b, a) {
      Ordering.StrLeqAntisymmetric(a, b);
    }
  }

  predicate ValidLogins(logins: seq<string>) {
    && logins != [] && Ordering.AllDifferent(logins)
    && forall i :: 0 <= i < |logins| ==> Upper(logins[i]) != "PENDING" && LoginName(logins[i]) && !Bot(logins[i])
  }

  predicate ValidPair(pair: seq<string>) {
    |pair| == 2 && pair[0] in ROLES && pair[1] in ROLES && pair[0] != pair[1]
  }

  predicate ValidPolicy(e: Edition, raw: RawPolicy) {
    && raw.schemaVersion == e.Schema() && raw.kind == e.PolicyKind()
    && raw.repository == REPOSITORY && raw.pullRequest == PULL_REQUEST
    && raw.baseRef == BASE_REF && raw.headRef == HEAD_REF
    && 3 <= raw.minimum <= |ROLES|
    && raw.human && raw.exactHead && (e.V2? ==> raw.excludeAuthor && raw.latestDecisive)
    && raw.roles.Keys == (set role | role in ROLES)
    && (forall role :: role in ROLES ==> role in raw.roles && ValidLogins(raw.roles[role]))
    && (forall i :: 0 <= i < |raw.separation| ==> ValidPair(raw.separation[i]))
    && RolePair("engineering", "security") in PairsOf(raw.separation)
    && RolePair("security", "release_owner") in PairsOf(raw.separation)
  }

  function PairsOf(separation: seq<seq<string>>): set<(string, string)> {
    set i | 0 <= i < |separation| && |separation[i]| == 2 :: RolePair(separation[i][0], separation[i][1])
  }

  function ValidatePolicy(e: Edition, raw: RawPolicy): Option<Policy> {
    if ValidPolicy(e, raw) then
      Some(Policy(ROLES, raw.minimum,
                  map role | role in raw.roles :: Ordering.Sort(raw.roles[role], Ordering.StrLeq),
                  PairsOf(raw.separation)))
    else
      None
  }

  // ----- the request -----

  datatype RawRequest = RawRequest(
    schemaVersion: int, kind: string, releaseId: string, source: Identity,
    repository: string, pullRequest: int, approvalPolicy: Ref, handoff: map<string, string>)

  datatype Request = Request(releaseId: string, source: Identity, approvalPolicy: Ref, handoff: map<string, string>)

  datatype Checked = Checked(request: Request, policyPath: string, policy: Policy)

  predicate SafeId(s: string) {
    s != "" && forall i :: 0 <= i < |s| ==> LetterOrDigit(s[i]) || s[i] == '.' || s[i] == '_' || s[i] == '-'
  }

  predicate ValidHandoff(handoff: map<string, string>) {
    handoff.Keys == HANDOFF_KEYS && forall k :: k in handoff ==> Present(handoff[k])
  }

  function ValidateRequest(e: Edition, files: Files, digest: File -> string, raw: RawRequest): Option<Checked> {
    var path := raw.approvalPolicy.path;
    if && raw.schemaVersion == e.Schema() && raw.kind == e.RequestKind()
       && Present(raw.releaseId) && SafeId(raw.releaseId)
       && Sha40(Lower(raw.source.gitSha))
       && Present(raw.source.version) && Present(raw.source.migrationHead)
       && raw.repository == REPOSITORY && raw.pullRequest == PULL_REQUEST
       && VerifiedRef(files, digest, raw.approvalPolicy, EVIDENCE_ROOT)
       && files[path].PolicyFile? && ValidatePolicy(e, files[path].policy).Some?
       && ValidHandoff(raw.handoff)
    then
      Some(Checked(
        Request(raw.releaseId, raw.source.(gitSha := Lower(raw.source.gitSha)), Freeze(files, digest, path),
                raw.handoff),
        path,
        ValidatePolicy(e, files[path].policy).value))
    else
      None
  }

  // ----- the pull request and its approvals -----

  datatype PrPayload = PrPayload(
    number: int, state: string, headRef: string, headSha: string, headRepo: string, baseRef: string,
    author: string, url: string)

  datatype Pr = Pr(number: int, url: string, state: string, baseRef: string, headRef: string,
                   headSha: string, author: string)

  function ValidatePr(payload: PrPayload, evidence: string): Option<Pr> {
    if && payload.number == PULL_REQUEST && payload.state == "open"
       && payload.headRef == HEAD_REF && payload.baseRef == BASE_REF
       && payload.headSha == evidence && payload.headRepo == REPOSITORY
       && Present(payload.author) && StartsWith(payload.url, PR_URL)
    then
      Some(Pr(PULL_REQUEST, payload.url, "open", BASE_REF, HEAD_REF, evidence, payload.author))
    else
      None
  }

  datatype Approval = Approval(status: string, actor: string, reviewId: int, url: string, commit: string,
                               submitted: string)

  function ApprovalRecord(review: Review, actor: string, evidence: string): Option<Approval> {
    if && review.id.Some? && review.id.value > 0
       && review.url.Some? && StartsWith(review.url.value, PR_URL)
       && review.submitted.Some? && Present(review.submitted.value)
       && review.commit == Some(evidence)
    then
      Some(Approval("APPROVED", actor, review.id.value, review.url.value, evidence, review.submitted.value))
    else
      None
  }

  /** Whose latest decisive review approves the exact evidence commit. */
  predicate Approves(review: Review, actor: string, evidence: string, author: string) {
    && review.state == "APPROVED" && review.commit == Some(evidence)
    && actor != author && !Bot(actor)
  }

  function Approved(latest: map<string, Review>, evidence: string, author: string): map<string, Review> {
    map actor | actor in latest && Approves(latest[actor], actor, evidence, author) :: latest[actor]
  }

  function Filter(names: seq<string>, among: set<string>): (r: seq<string>)
    ensures forall x :: x in r <==> x in names && x in among
  {
    if names == [] then []
    else if names[0] in among then [names[0]] + Filter(names[1..], among)
    else Filter(names[1..], among)
  }

  function CandidatesFor(allowed: seq<string>, approved: set<string>): seq<string> {
    Ordering.Sort(Filter(allowed, approved), Ordering.StrLeq)
  }

  lemma {:induction false} CandidatesForMembers(allowed: seq<string>, approved: set<string>)
    ensures forall x :: x in CandidatesFor(allowed, approved) <==> x in allowed && x in approved
  {
    Ordering.SortMembers(Filter(allowed, approved), Ordering.StrLeq);
  }

  /** The order in which candidates are tried: actors without a role so far first, then by name. */
  predicate TriedBefore(used: set<string>, x: string, y: string) {
    if (x in used) != (y in used) then y in used else Ordering.StrLeq(x, y)
  }

  function TryOrder(candidates: seq<string>, used: set<string>): seq<string> {
    Ordering.Sort(candidates, (x, y) => TriedBefore(used, x, y))
  }

  /** The search problem a policy and the approvers pose. */
  function ProblemOf(policy: Policy, approved: set<string>): Problem {
    Problem(
      policy.roles,
      map role | role in policy.allowed :: CandidatesFor(policy.allowed[role], approved),
      (a, b) => RolePair(a, b) in policy.separated,
      policy.minimum,
      TryOrder)
  }

  /** `p` asks for what the policy demands of the approvers. */
  ghost predicate Poses(policy: Policy, approved: set<string>, p: Problem) {
    && p.roles == policy.roles && p.minimum == policy.minimum
    && (forall role :: role in policy.roles ==> role in policy.allowed && role in p.candidates)
    && (forall role, x :: role in policy.roles ==>
          (x in p.candidates[role] <==> x in policy.allowed[role] && x in approved))
    && (forall a, b :: p.separated(a, b) <==> RolePair(a, b) in policy.separated)
  }

  lemma {:induction false} ProblemOfValid(policy: Policy, approved: set<string>)
    requires policy.Normal()
    ensures ProblemOf(policy, approved).Valid() && Poses(policy, approved, ProblemOf(policy, approved))
  {
    OrderKeeps(policy, approved);
    SeparatedSymmetric(policy, approved);
    CandidatesPosed(policy, approved);
  }

  lemma {:induction false} OrderKeeps(policy: Policy, approved: set<string>)
    ensures forall cs, used, x :: x in ProblemOf(policy, approved).order(cs, used) <==> x in cs
  {
    forall cs, used, x
      ensures x in ProblemOf(policy, approved).order(cs, used) <==> x in cs
    {
      Ordering.SortMembers(cs, (x, y) => TriedBefore(used, x, y));
    }
  }

  lemma {:induction false} SeparatedSymmetric(policy: Policy, approved: set<string>)
    ensures var p := ProblemOf(policy, approved); forall r, r' :: p.separated(r, r') == p.separated(r', r)
  {
    var p := ProblemOf(policy, approved);
    forall r, r'
      ensures p.separated(r, r') == p.separated(r', r)
    {
      RolePairSymmetric(r, r');
    }
  }

  lemma {:induction false} CandidatesPosed(policy: Policy, approved: set<string>)
    requires policy.Normal()
    ensures var p := ProblemOf(policy, approved);
            forall role, x :: role in policy.roles ==>
              role in p.candidates && (x in p.candidates[role] <==> x in policy.allowed[role] && x in approved)
  {
    var p := ProblemOf(policy, approved);
    forall role, x | role in policy.roles
      ensures role in p.candidates && (x in p.candidates[role] <==> x in policy.allowed[role] && x in approved)
    {
      assert role in policy.allowed && p.candidates[role] == CandidatesFor(policy.allowed[role], approved);
      CandidatesForMembers(policy.allowed[role], approved);
    }
  }

  /** A way to fill every role with approvers that respects the policy. */
  ghost predicate Fills(policy: Policy, approved: set<string>, who: Assignment)
    requires policy.Normal()
  {
    && (forall role :: role in who <==> role in policy.roles)
    && (forall role :: role in policy.roles ==> who[role] in policy.allowed[role] && who[role] in approved)
    && (forall pair :: pair in policy.separated ==> who[pair.0] != who[pair.1])
    && |who.Values| >= policy.minimum
  }

  lemma {:induction false} PosedCandidate(policy: Policy, approved: set<string>, p: Problem, role: string, x: string)
    requires Poses(policy, approved, p) && role in policy.roles
    ensures x in p.candidates[role] <==> x in policy.allowed[role] && x in approved
  {
  }

  lemma {:induction false} LegalIsFilling(policy: Policy, approved: set<string>, p: Problem, who: Assignment)
    requires policy.Normal() && p.Valid() && Poses(policy, approved, p) && Legal(p, who)
    ensures Fills(policy, approved, who)
  {
    assert p.roles[..|p.roles|] == policy.roles;
    forall role | role in policy.roles
      ensures role in who && who[role] in policy.allowed[role] && who[role] in approved
    {
      PosedCandidate(policy, approved, p, role, who[role]);
    }
    forall pair | pair in policy.separated
      ensures who[pair.0] != who[pair.1]
    {
      assert RolePair(pair.0, pair.1) == pair;
      assert p.separated(pair.0, pair.1);
      assert pair.0 in who && pair.1 in who;
    }
  }

  lemma {:induction false} FillingIsLegal(policy: Policy, approved: set<string>, p: Problem, who: Assignment)
    requires policy.Normal() && p.Valid() && Poses(policy, approved, p) && Fills(policy, approved, who)
    ensures Legal(p, who)
  {
    assert p.roles[..|p.roles|] == policy.roles;
    forall role | role in who
      ensures role in p.candidates && who[role] in p.candidates[role]
    {
      PosedCandidate(policy, approved, p, role, who[role]);
    }
    forall r, r' | r in who && r' in who && r != r' && p.separated(r, r')
      ensures who[r] != who[r']
    {
      FilledApart(policy, approved, who, r, r');
    }
  }

  lemma {:induction false} FilledApart(policy: Policy, approved: set<string>, who: Assignment, r: string, r': string)
    requires policy.Normal() && Fills(policy, approved, who)
    requires r in who && r' in who && RolePair(r, r') in policy.separated
    ensures who[r] != who[r']
  {
    var pair := RolePair(r, r');
    assert pair == (r, r') || pair == (r', r);
  }

  predicate SomeRoleOpen(roles: seq<string>, candidates: map<string, seq<string>>) {
    exists i :: 0 <= i < |roles| && roles[i] in candidates && candidates[roles[i]] == []
  }

  /** Who takes which role: nobody at all when some role has no approver. */
  function Choose(policy: Policy, approved: set<string>): Option<Assignment>
    requires policy.Normal()
  {
    var p := ProblemOf(policy, approved);
    ProblemOfValid(policy, approved);
    if SomeRoleOpen(p.roles, p.candidates) then None else First(p, map[], 0)
  }

  /** A choice is made exactly when the approvers can fill the roles at all, and then it does. */
  lemma {:induction false} ChooseDecides(policy: Policy, approved: set<string>)
    requires policy.Normal()
    ensures Choose(policy, approved).Some? <==> exists who :: Fills(policy, approved, who)
    ensures Choose(policy, approved).Some? ==> Fills(policy, approved, Choose(policy, approved).value)
  {
    var p := ProblemOf(policy, approved);
    ProblemOfValid(policy, approved);
    ChooseByProblem(policy, approved, p);
  }

  lemma {:induction false} ChooseByProblem(policy: Policy, approved: set<string>, p: Problem)
    requires policy.Normal() && p.Valid() && Poses(policy, approved, p)
    ensures var r := if SomeRoleOpen(p.roles, p.candidates) then None else First(p, map[], 0);
            && (r.Some? <==> exists who :: Fills(policy, approved, who))
            && (r.Some? ==> Fills(policy, approved, r.value))
  {
    SearchDecides(p);
    if who :| Fills(policy, approved, who) {
      FillingIsLegal(policy, approved, p, who);
      forall i | 0 <= i < |p.roles|
        ensures p.candidates[p.roles[i]] != []
      {
        assert p.roles[i] in p.roles;
        LegalChoice(p, who, p.roles[i]);
      }
    }
    if First(p, map[], 0).Some? {
      LegalIsFilling(policy, approved, p, First(p, map[], 0).value);
    }
  }

  // ----- the choice is the best filling -----

  /** A filling none of whose roles could have gone, after the same earlier choices, to an approver tried earlier. */
  ghost predicate BestFilling(policy: Policy, approved: set<string>, who: Assignment)
    requires policy.Normal()
  {
    ProblemOfValid(policy, approved);
    Best(ProblemOf(policy, approved), who)
  }

  lemma {:induction false} ChosenIsBest(policy: Policy, approved: set<string>, who: Assignment)
    requires policy.Normal()
    ensures Choose(policy, approved) == Some(who) <==> BestFilling(policy, approved, who)
  {
    var p := ProblemOf(policy, approved);
    ProblemOfValid(policy, approved);
    BestByProblem(p, who);
  }

  lemma {:induction false} BestByProblem(p: Problem, who: Assignment)
    requires p.Valid()
    ensures (if SomeRoleOpen(p.roles, p.candidates) then None else First(p, map[], 0)) == Some(who) <==> Best(p, who)
  {
    BestIsFound(p, who);
    if Best(p, who) {
      forall i | 0 <= i < |p.roles|
        ensures p.candidates[p.roles[i]] != []
      {
        LegalChoice(p, who, p.roles[i]);
      }
    }
  }

  // ----- unused people come first -----

  lemma {:induction false} TriedBeforeOrder(used: set<string>)
    ensures Ordering.Preorder((x, y) => TriedBefore(used, x, y))
  {
    var leq := (x, y) => TriedBefore(used, x, y);
    forall x, y
      ensures leq(x, y) || leq(y, x)
    {
      Ordering.StrLeqTotal(x, y);
    }
    forall x, y, z | leq(x, y) && leq(y, z)
      ensures leq(x, z)
    {
      if Ordering.StrLeq(x, y) && Ordering.StrLeq(y, z) {
        Ordering.StrLeqTransitive(x, y, z);
      }
    }
  }

  lemma {:induction false} UnusedFirst(candidates: seq<string>, used: set<string>, x: string, y: string)
    requires x in candidates && x !in used && y in used
    ensures Before(TryOrder(candidates, used), x, y)
  {
    var leq := (s, t) => TriedBefore(used, s, t);
    var actors := Ordering.Sort(candidates, leq);
    TriedBeforeOrder(used);
    Ordering.SortSorted(candidates, leq);
    Ordering.SortMembers(candidates, leq);
    var j :| 0 <= j < |actors| && actors[j] == x;
    forall k | 0 <= k < j
      ensures actors[k] != y
    {
      assert leq(actors[k], actors[j]);
    }
    assert y !in actors[..j];
  }

  /** Among people without a role, and among people with one, names decide. */
  lemma {:induction false} EarlierNameFirst(candidates: seq<string>, used: set<string>, x: string, y: string)
    requires x in candidates && (x in used <==> y in used) && x != y && Ordering.StrLeq(x, y)
    ensures Before(TryOrder(candidates, used), x, y)
  {
    var leq := (s, t) => TriedBefore(used, s, t);
    var actors := Ordering.Sort(candidates, leq);
    TriedBeforeOrder(used);
    Ordering.SortSorted(candidates, leq);
    Ordering.SortMembers(candidates, leq);
    var j :| 0 <= j < |actors| && actors[j] == x;
    forall k | 0 <= k < j
      ensures actors[k] != y
    {
      assert leq(actors[k], actors[j]);
      if actors[k] == y {
        Ordering.StrLeqAntisymmetric(x, y);
        assert false;
      }
    }
    assert y !in actors[..j];
  }

  lemma {:induction false} ForcedShare(p: Problem, i: nat, who: Assignment)
    requires p.Valid() && i < |p.roles| && First(p, map[], 0).Some? && p.order == TryOrder
    requires Legal(p, who)
    requires var b := First(p, map[], 0).value;
             && p.roles[i] in b && b[p.roles[i]] in Prefix(p, b, i).Values
             && Extends(Prefix(p, b, i), who)
    ensures p.roles[i] in who && who[p.roles[i]] in Prefix(p, First(p, map[], 0).value, i).Values
  {
    var b := First(p, map[], 0).value;
    FoundIsPreferred(p, i);
    ForcedBy(p, b, i, who);
  }

  lemma {:induction false} ForcedBy(p: Problem, b: Assignment, i: nat, who: Assignment)
    requires p.Valid() && i < |p.roles| && p.order == TryOrder && Preferred(p, b, i)
    requires Legal(p, who) && Extends(Prefix(p, b, i), who)
    requires b[p.roles[i]] in Prefix(p, b, i).Values
    ensures p.roles[i] in who && who[p.roles[i]] in Prefix(p, b, i).Values
  {
    var a, role := Prefix(p, b, i), p.roles[i];
    LegalChoice(p, who, role);
    if who[role] !in a.Values {
      UnusedFirst(p.candidates[role], a.Values, who[role], b[role]);
    }
  }

  /** The actors who hold one of the first `i` roles. */
  function EarlierActors(policy: Policy, who: Assignment, i: nat): set<string>
    requires i <= |policy.roles|
  {
    set role | role in who && role in policy.roles[..i] :: who[role]
  }

  /** A role goes to somebody who already holds an earlier role only when no filling that keeps the earlier
      choices gives it to anybody else. */
  lemma {:induction false} SharesOnlyWhenForced(policy: Policy, approved: set<string>, i: nat, who: Assignment)
    requires policy.Normal() && i < |policy.roles| && Choose(policy, approved).Some?
    requires Fills(policy, approved, who)
    requires var b := Choose(policy, approved).value;
             && policy.roles[i] in b && b[policy.roles[i]] in EarlierActors(policy, b, i)
             && forall role :: role in b && role in policy.roles[..i] ==> who[role] == b[role]
    ensures who[policy.roles[i]] in EarlierActors(policy, Choose(policy, approved).value, i)
  {
    var p, b := ProblemOf(policy, approved), Choose(policy, approved).value;
    ProblemOfValid(policy, approved);
    FillingIsLegal(policy, approved, p, who);
    PrefixActors(policy, approved, b, i);
    ForcedShare(p, i, who);
  }

  lemma {:induction false} PrefixActors(policy: Policy, approved: set<string>, b: Assignment, i: nat)
    requires i <= |policy.roles|
    ensures Prefix(ProblemOf(policy, approved), b, i).Values == EarlierActors(policy, b, i)
  {
    var a := Prefix(ProblemOf(policy, approved), b, i);
    forall x
      ensures x in a.Values <==> x in EarlierActors(policy, b, i)
    {
      if x in EarlierActors(policy, b, i) {
        var role :| role in b && role in policy.roles[..i] && b[role] == x;
        assert role in a;
      }
    }
  }

  type Approvals = map<string, Approval>

  function RecordsOf(roles: seq<string>, chosen: Assignment, approved: map<string, Review>,
                     evidence: string): Option<Approvals>
    requires forall role :: role in roles ==> role in chosen && chosen[role] in approved
  {
    if forall role :: role in roles ==> ApprovalRecord(approved[chosen[role]], chosen[role], evidence).Some? then
      Some(map role | role in roles :: ApprovalRecord(approved[chosen[role]], chosen[role], evidence).value)
    else
      None
  }

  /** One approval per role, or none at all. */
  function SelectRoleApprovals(policy: Policy, reviews: seq<Review>, evidence: string,
                               author: string): Option<Approvals>
    requires policy.Normal()
  {
    SelectFrom(policy, Approved(Latest(reviews), evidence, author), evidence)
  }

  function SelectFrom(policy: Policy, approved: map<string, Review>, evidence: string): Option<Approvals>
    requires policy.Normal()
  {
    ChooseDecides(policy, approved.Keys);
    match Choose(policy, approved.Keys)
    case None => None
    case Some(chosen) => RecordsOf(policy.roles, chosen, approved, evidence)
  }

  // ----- what a valid authorization hands on -----

  /** The approval statuses and the handoff that a validator returns. */
  datatype Authorized = Authorized(approvals: map<string, string>, handoff: map<string, string>)
  {
    /** Every role is approved and every handoff is filled in. */
    predicate Complete() {
      approvals.Keys == RoleSet(ROLES) && AllApproved() && ValidHandoff(handoff)
    }

    predicate AllApproved() {
      forall role :: role in approvals ==> approvals[role] == "APPROVED"
    }
  }

  function RoleSet(roles: seq<string>): set<string> {
    set role | role in roles
  }
}
