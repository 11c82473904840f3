/** Pull-request reviews, and which of a person's reviews counts. */
module Reviews {
  import opened Schemas
  import opened Ordering

  datatype Review = Review(
    id: Option<int>,
    state: string,
    login: Option<string>,
    url: Option<string>,
    commit: Option<string>,
    submitted: Option<string>)

  const DECISIVE_STATES := {"APPROVED", "CHANGES_REQUESTED", "DISMISSED"}

  predicate Decisive(r: Review) {
    r.state in DECISIVE_STATES && r.login.Some?
  }

  predicate DecisiveOf(r: Review, login: string) {
    Decisive(r) && r.login.value == login
  }

  function SubmittedOf(r: Review): string {
    if r.submitted.Some? then r.submitted.value else ""
  }

  function IdOf(r: Review): int {
    if r.id.Some? then r.id.value else -1
  }

  /** Reviews are ordered by submission time, then by identifier. */
  predicate ReviewLeq(a: Review, b: Review) {
    if SubmittedOf(a) != SubmittedOf(b) then StrLeq(SubmittedOf(a), SubmittedOf(b)) else IdOf(a) <= IdOf(b)
  }

  lemma {:induction false} ReviewOrder()
    ensures Preorder(ReviewLeq)
  {
    forall a, b
      ensures ReviewLeq(a, b) || ReviewLeq(b, a)
    {
      StrLeqTotal(SubmittedOf(a), SubmittedOf(b));
    }
    forall a, b, c | ReviewLeq(a, b) && ReviewLeq(b, c)
      ensures ReviewLeq(a, c)
    {
      var s, t, u := SubmittedOf(a), SubmittedOf(b), SubmittedOf(c);
      if s != t && t != u {
        StrLeqTransitive(s, t, u);
        if s == u {
          StrLeqAntisymmetric(s, t);
        }
      }
    }
  }

  /** Later reviews overwrite earlier ones of the same login; comments and pending reviews are skipped. */
  function Overwrite(rs: seq<Review>): map<string, Review> {
    if rs == [] then
      map[]
    else
      var m, r := Overwrite(rs[..|rs| - 1]), rs[|rs| - 1];
      if Decisive(r) then m[r.login.value := r] else m
  }

  function Latest(rs: seq<Review>): map<string, Review> {
    Overwrite(Sort(rs, ReviewLeq))
  }

  method LatestDecisiveReviews(reviews: seq<Review>) returns (latest: map<string, Review>)
    ensures latest == Latest(reviews)
  {
    latest := map[];
    var sorted := Sort(reviews, ReviewLeq);
    for i := 0 to |sorted|
      invariant latest == Overwrite(sorted[..i])
    {
      var review := sorted[i];
      assert sorted[..i + 1][..i] == sorted[..i] && sorted[..i + 1][i] == review;
      if Decisive(review) {
        latest := latest[review.login.value := review];
      }
    }
    assert sorted[..|sorted|] == sorted;
  }

  /** `r` is the greatest decisive review of `login`. */
  ghost predicate IsLatest(rs: seq<Review>, login: string, r: Review) {
    && r in rs && DecisiveOf(r, login)
    && forall x :: x in rs && DecisiveOf(x, login) ==> ReviewLeq(x, r)
  }

  lemma {:induction false} LastIsGreatest(rs: seq<Review>)
    requires Sorted(rs, ReviewLeq) && rs != []
    ensures forall x :: x in rs ==> ReviewLeq(x, rs[|rs| - 1])
  {
    var r := rs[|rs| - 1];
    forall x | x in rs
      ensures ReviewLeq(x, r)
    {
      var k :| 0 <= k < |rs| && rs[k] == x;
      if k < |rs| - 1 {
        assert ReviewLeq(rs[k], rs[|rs| - 1]);
      }
    }
  }

  lemma {:induction false} LatestAfter(rs: seq<Review>, last: Review, login: string, r: Review)
    requires IsLatest(rs, login, r) && !DecisiveOf(last, login)
    ensures IsLatest(rs + [last], login, r)
  {
    assert forall x :: x in rs + [last] <==> x in rs || x == last;
  }

  lemma {:induction false} OverwriteKeepsLatest(rs: seq<Review>, login: string)
    requires Sorted(rs, ReviewLeq)
    ensures login in Overwrite(rs) <==> exists x :: x in rs && DecisiveOf(x, login)
    ensures login in Overwrite(rs) ==> IsLatest(rs, login, Overwrite(rs)[login])
  {
    if rs != [] {
      var n := |rs| - 1;
      var front, r := rs[..n], rs[n];
      assert rs == front + [r];
      OverwriteKeepsLatest(front, login);
      if DecisiveOf(r, login) {
        LastIsGreatest(rs);
      } else {
        if login in Overwrite(front) {
          LatestAfter(front, r, login, Overwrite(front)[login]);
        }
        assert forall x :: x in rs <==> x in front || x == r;
      }
    }
  }

  /** Every login with a decisive review gets its greatest one, and no other login appears. */
  lemma {:induction false} LatestIsGreatest(rs: seq<Review>, login: string)
    ensures login in Latest(rs) <==> exists x :: x in rs && DecisiveOf(x, login)
    ensures login in Latest(rs) ==> IsLatest(rs, login, Latest(rs)[login])
  {
    var sorted := Sort(rs, ReviewLeq);
    ReviewOrder();
    SortSorted(rs, ReviewLeq);
    SortMembers(rs, ReviewLeq);
    OverwriteKeepsLatest(sorted, login);
    if x :| x in rs && DecisiveOf(x, login) {
      assert x in sorted;
    }
  }

  predicate UniqueIds(rs: seq<Review>) {
    && (forall i :: 0 <= i < |rs| ==> rs[i].id.Some?)
    && (forall i, j :: 0 <= i < j < |rs| ==> rs[i].id != rs[j].id)
  }

  lemma {:induction false} SameReview(rs: seq<Review>, a: Review, b: Review)
    requires UniqueIds(rs) && a in rs && b in rs && a.id == b.id
    ensures a == b
  {
    var i :| 0 <= i < |rs| && rs[i] == a;
    var j :| 0 <= j < |rs| && rs[j] == b;
  }

  lemma {:induction false} LatestIsUnique(rs: seq<Review>, login: string, a: Review, b: Review)
    requires UniqueIds(rs) && IsLatest(rs, login, a) && IsLatest(rs, login, b)
    ensures a == b
  {
    if SubmittedOf(a) != SubmittedOf(b) {
      StrLeqAntisymmetric(SubmittedOf(a), SubmittedOf(b));
    }
    SameReview(rs, a, b);
  }

  lemma {:induction false} LatestIs(rs: seq<Review>, login: string, r: Review)
    requires UniqueIds(rs) && IsLatest(rs, login, r)
    ensures login in Latest(rs) && Latest(rs)[login] == r
  {
    LatestIsGreatest(rs, login);
    LatestIsUnique(rs, login, r, Latest(rs)[login]);
  }

  /** With unique identifiers the order in which the reviews arrive does not matter. */
  lemma {:induction false} LatestOrderIndependent(rs: seq<Review>, rs': seq<Review>)
    requires UniqueIds(rs) && multiset(rs) == multiset(rs')
    ensures Latest(rs) == Latest(rs')
  {
    assert forall x :: x in rs <==> x in multiset(rs);
    assert forall x :: x in rs' <==> x in multiset(rs');
    forall login
      ensures login in Latest(rs) <==> login in Latest(rs')
      ensures login in Latest(rs) ==> Latest(rs)[login] == Latest(rs')[login]
    {
      LatestIsGreatest(rs, login);
      LatestIsGreatest(rs', login);
      if login in Latest(rs) && login in Latest(rs') {
        LatestIsUnique(rs, login, Latest(rs)[login], Latest(rs')[login]);
      }
    }
  }
}
