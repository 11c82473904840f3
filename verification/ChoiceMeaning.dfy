/** Which people are chosen for the roles, in the fields of the policy and the reviews. */
module ChoiceMeaning {
  import opened Schemas
  import opened Reviews
  import opened ApprovalSearch
  import opened Authorization
  import opened AuthorizationMeaning
  import Ordering

  /** Legal, role by role: every role and nothing else is assigned, each to a candidate of its own, no separated two
      to one person, and to enough people. */
  lemma {:induction false} LegalMeans(p: Problem, a: Assignment)
    requires p.Valid()
    ensures Legal(p, a) <==>
            && (forall r :: r in a ==> r in p.roles)
            && (forall i :: 0 <= i < |p.roles| ==> p.roles[i] in a && a[p.roles[i]] in p.candidates[p.roles[i]])
            && (forall i, j :: 0 <= i < j < |p.roles| && p.separated(p.roles[i], p.roles[j]) ==>
                  a[p.roles[i]] != a[p.roles[j]])
            && |set i | 0 <= i < |p.roles| :: a[p.roles[i]]| >= p.minimum
  {
    if (forall r :: r in a ==> r in p.roles) && forall i :: 0 <= i < |p.roles| ==> p.roles[i] in a {
      AllActors(p.roles, a);
      PartialByPosition(p, a);
    } else {
      assert p.roles[..|p.roles|] == p.roles;
    }
  }

  lemma {:induction false} PartialByPosition(p: Problem, a: Assignment)
    requires p.Valid() && (forall r :: r in a ==> r in p.roles)
    requires forall i :: 0 <= i < |p.roles| ==> p.roles[i] in a
    ensures Partial(p, a, |p.roles|) <==>
            && (forall i :: 0 <= i < |p.roles| ==> a[p.roles[i]] in p.candidates[p.roles[i]])
            && (forall i, j :: 0 <= i < j < |p.roles| && p.separated(p.roles[i], p.roles[j]) ==>
                  a[p.roles[i]] != a[p.roles[j]])
  {
    assert p.roles[..|p.roles|] == p.roles;
    assert forall r :: r in a <==> r in p.roles;
    SeparatedByPosition(p, a);
  }

  lemma {:induction false} AllActors(roles: seq<string>, a: Assignment)
    requires (forall r :: r in a ==> r in roles) && forall i :: 0 <= i < |roles| ==> roles[i] in a
    ensures a.Values == set i | 0 <= i < |roles| :: a[roles[i]]
  {
    var actors := set i | 0 <= i < |roles| :: a[roles[i]];
    forall x
      ensures x in a.Values <==> x in actors
    {
      if x in a.Values {
        var r :| r in a && a[r] == x;
        var i :| 0 <= i < |roles| && roles[i] == r;
      }
    }
  }

  lemma {:induction false} SeparatedByPosition(p: Problem, a: Assignment)
    requires p.Valid() && (forall r :: r in a ==> r in p.roles)
    requires forall i :: 0 <= i < |p.roles| ==> p.roles[i] in a
    ensures (forall r, r' :: r in a && r' in a && r != r' && p.separated(r, r') ==> a[r] != a[r']) <==>
            forall i, j :: 0 <= i < j < |p.roles| && p.separated(p.roles[i], p.roles[j]) ==>
              a[p.roles[i]] != a[p.roles[j]]
  {
    if forall i, j :: 0 <= i < j < |p.roles| && p.separated(p.roles[i], p.roles[j]) ==>
         a[p.roles[i]] != a[p.roles[j]]
    {
      forall r, r' | r in a && r' in a && r != r' && p.separated(r, r')
        ensures a[r] != a[r']
      {
        var i :| 0 <= i < |p.roles| && p.roles[i] == r;
        var j :| 0 <= j < |p.roles| && p.roles[j] == r';
        assert i < j || j < i;
      }
    }
  }

  /** The role is taken by one of the people listed for it, who consents. */
  ghost predicate Taken(policy: Policy, reviews: seq<Review>, commit: string, author: string, who: Assignment,
                        role: string)
  {
    && role in who && role in policy.allowed && who[role] in policy.allowed[role]
    && Consents(reviews, who[role], commit, author)
  }

  /** Every role is taken and nothing else; no separated two by one person; and by enough different people. */
  ghost predicate Agrees(policy: Policy, reviews: seq<Review>, commit: string, author: string, who: Assignment)
    requires policy.Normal()
  {
    && (forall role :: role in who ==> role in policy.roles)
    && (forall role :: role in policy.roles ==> Taken(policy, reviews, commit, author, who, role))
    && (forall a, b :: (a, b) in policy.separated ==> who[a] != who[b])
    && |set role | role in who :: who[role]| >= policy.minimum
  }

  lemma {:induction false} FillingMeans(policy: Policy, reviews: seq<Review>, commit: string, author: string,
                                        who: Assignment)
    requires policy.Normal() && UniqueIds(reviews)
    ensures Fills(policy, Approved(Latest(reviews), commit, author).Keys, who) <==>
            Agrees(policy, reviews, commit, author, who)
  {
    forall x
      ensures x in Approved(Latest(reviews), commit, author).Keys <==> Consents(reviews, x, commit, author)
    {
      ApproversConsent(reviews, x, commit, author);
    }
    FillingByConsent(policy, Approved(Latest(reviews), commit, author).Keys, reviews, commit, author, who);
  }

  lemma {:induction false} FillingByConsent(policy: Policy, approved: set<string>, reviews: seq<Review>,
                                            commit: string, author: string, who: Assignment)
    requires policy.Normal() && forall x :: x in approved <==> Consents(reviews, x, commit, author)
    ensures Fills(policy, approved, who) <==> Agrees(policy, reviews, commit, author, who)
  {
    assert who.Values == set role | role in who :: who[role];
    assert forall role :: role in policy.roles ==> role in policy.allowed;
    if forall role :: role in policy.roles ==> role in who {
      PairsByParts(policy, who);
    }
  }

  lemma {:induction false} PairsByParts(policy: Policy, who: Assignment)
    requires policy.Normal() && forall role :: role in policy.roles ==> role in who
    ensures forall pair :: pair in policy.separated ==> pair.0 in who && pair.1 in who
    ensures (forall pair :: pair in policy.separated ==> who[pair.0] != who[pair.1]) <==>
            forall a, b :: (a, b) in policy.separated ==> who[a] != who[b]
  {
    forall pair | pair in policy.separated
      ensures pair.0 in who && pair.1 in who && (pair.0, pair.1) in policy.separated
    {
      assert pair.0 in policy.roles && pair.1 in policy.roles;
    }
  }

  /** People are chosen if and only if those who consent can be given the roles, and the choice does that. */
  lemma {:induction false} ChoiceExists(policy: Policy, reviews: seq<Review>, commit: string, author: string)
    requires policy.Normal() && UniqueIds(reviews)
    ensures var choice := Choose(policy, Approved(Latest(reviews), commit, author).Keys);
            && (choice.Some? <==> exists who :: Agrees(policy, reviews, commit, author, who))
            && (choice.Some? ==> Agrees(policy, reviews, commit, author, choice.value))
  {
    var approved := Approved(Latest(reviews), commit, author).Keys;
    ChooseDecides(policy, approved);
    if Choose(policy, approved).Some? {
      FillingMeans(policy, reviews, commit, author, Choose(policy, approved).value);
    }
    if who :| Agrees(policy, reviews, commit, author, who) {
      FillingMeans(policy, reviews, commit, author, who);
    }
  }

  /** Which people: compared with any other filling, at the first role where they differ, the chosen person holds no
      earlier role while the other does, or both or neither do and the chosen name comes first. */
  lemma {:induction false} ChosenComesFirst(policy: Policy, approved: set<string>, who: Assignment, i: nat)
    requires policy.Normal() && Choose(policy, approved).Some? && Fills(policy, approved, who)
    requires i < |policy.roles| && forall k :: 0 <= k < i ==>
               var b := Choose(policy, approved).value;
               policy.roles[k] in b && policy.roles[k] in who && who[policy.roles[k]] == b[policy.roles[k]]
    ensures var b, role := Choose(policy, approved).value, policy.roles[i];
            && role in b && role in who
            && (b[role] != who[role] ==>
                  var used := EarlierActors(policy, b, i);
                  || (b[role] !in used && who[role] in used)
                  || ((b[role] in used <==> who[role] in used) && Ordering.StrLeq(b[role], who[role])))
  {
    var p, b := ProblemOf(policy, approved), Choose(policy, approved).value;
    ProblemOfValid(policy, approved);
    FillingIsLegal(policy, approved, p, who);
    PrefixActors(policy, approved, b, i);
    FirstComesFirst(p, b, who, i);
  }

  lemma {:induction false} FirstComesFirst(p: Problem, b: Assignment, who: Assignment, i: nat)
    requires p.Valid() && p.order == TryOrder && First(p, map[], 0) == Some(b) && Legal(p, who)
    requires i < |p.roles|
    requires forall k :: 0 <= k < i ==> p.roles[k] in b && p.roles[k] in who && who[p.roles[k]] == b[p.roles[k]]
    ensures p.roles[i] in b && p.roles[i] in who
    ensures var used, x, y := Prefix(p, b, i).Values, b[p.roles[i]], who[p.roles[i]];
            || x == y || (x !in used && y in used)
            || ((x in used <==> y in used) && Ordering.StrLeq(x, y))
  {
    FirstIsLegal(p, map[], 0);
    LegalChoice(p, b, p.roles[i]);
    LegalChoice(p, who, p.roles[i]);
    FoundIsPreferred(p, i);
    PrefixKept(p, b, who, i);
    NotTriedBefore(p, b, who, i);
  }

  lemma {:induction false} PrefixKept(p: Problem, b: Assignment, who: Assignment, i: nat)
    requires i <= |p.roles|
    requires forall k :: 0 <= k < i ==> p.roles[k] in who && p.roles[k] in b && who[p.roles[k]] == b[p.roles[k]]
    ensures Extends(Prefix(p, b, i), who)
  {
    forall r | r in p.roles[..i]
      ensures r in who && r in b && who[r] == b[r]
    {
      var k :| 0 <= k < i && p.roles[..i][k] == r;
      assert p.roles[k] == r;
    }
  }

  lemma {:induction false} NotTriedBefore(p: Problem, b: Assignment, who: Assignment, i: nat)
    requires p.Valid() && i < |p.roles| && p.order == TryOrder && Preferred(p, b, i)
    requires Legal(p, who) && Extends(Prefix(p, b, i), who)
    requires p.roles[i] in b && p.roles[i] in who && p.roles[i] in p.candidates
    requires b[p.roles[i]] in p.candidates[p.roles[i]] && who[p.roles[i]] in p.candidates[p.roles[i]]
    ensures var used, x, y := Prefix(p, b, i).Values, b[p.roles[i]], who[p.roles[i]];
            || x == y || (x !in used && y in used)
            || ((x in used <==> y in used) && Ordering.StrLeq(x, y))
  {
    var used, x, y := Prefix(p, b, i).Values, b[p.roles[i]], who[p.roles[i]];
    var cs := p.candidates[p.roles[i]];
    assert x == y || !Before(TryOrder(cs, used), y, x);
    if x != y {
      if y !in used && x in used {
        UnusedFirst(cs, used, y, x);
        assert false;
      } else if (x in used <==> y in used) && !Ordering.StrLeq(x, y) {
        Ordering.StrLeqTotal(x, y);
        EarlierNameFirst(cs, used, y, x);
        assert false;
      }
    }
  }
}
