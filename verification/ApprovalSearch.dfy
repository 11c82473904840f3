/** The backtracking search that assigns one approver to every role
    (scripts/capture_release_authorization_v2.py, select_role_approvals), for any number of roles. */
module ApprovalSearch {
  import opened Schemas

  type Assignment = map<string, string>

  /** What the search is given: the roles in order, who may take each, which roles two different people
      must hold, how many different people are needed, and the order in which a role's candidates are
      tried given the actors already used. */
  datatype Problem = Problem(
    roles: seq<string>,
    candidates: map<string, seq<string>>,
    separated: (string, string) -> bool,
    minimum: int,
    order: (seq<string>, set<string>) -> seq<string>)
  {
    ghost predicate Valid() {
      && (forall i, j :: 0 <= i < j < |roles| ==> roles[i] != roles[j])
      && (forall i :: 0 <= i < |roles| ==> roles[i] in candidates)
      && (forall r, r' :: separated(r, r') == separated(r', r))
      && (forall cs, used, x :: x in order(cs, used) <==> x in cs)
    }

    function Tried(a: Assignment, i: nat): seq<string>
      requires i < |roles| && roles[i] in candidates
    {
      order(candidates[roles[i]], a.Values)
    }
  }

  // ----- what a legal assignment is -----

  /** Legal as far as it goes: exactly the first `i` roles, each with a candidate of its own, and every
      separated pair of them with two actors. */
  ghost predicate Partial(p: Problem, a: Assignment, i: nat)
    requires i <= |p.roles| && p.Valid()
  {
    && (forall r :: r in a <==> r in p.roles[..i])
    && (forall r :: r in a ==> r in p.candidates && a[r] in p.candidates[r])
    && (forall r, r' :: r in a && r' in a && r != r' && p.separated(r, r') ==> a[r] != a[r'])
  }

  ghost predicate Legal(p: Problem, a: Assignment)
    requires p.Valid()
  {
    Partial(p, a, |p.roles|) && |a.Values| >= p.minimum
  }

  ghost predicate Extends(a: Assignment, b: Assignment) {
    forall r :: r in a ==> r in b && b[r] == a[r]
  }

  // ----- the search as a function of the choices made so far -----

  predicate Compatible(p: Problem, a: Assignment, role: string, actor: string) {
    forall other :: other in a ==> !p.separated(role, other) || actor != a[other]
  }

  function First(p: Problem, a: Assignment, i: nat): Option<Assignment>
    requires i <= |p.roles| && p.Valid()
    decreases |p.roles| - i, 1, 0
  {
    if i == |p.roles| then
      if |a.Values| >= p.minimum then Some(a) else None
    else
      FirstAmong(p, a, i, p.Tried(a, i))
  }

  function FirstAmong(p: Problem, a: Assignment, i: nat, actors: seq<string>): Option<Assignment>
    requires i < |p.roles| && p.Valid()
    decreases |p.roles| - i, 0, |actors|
  {
    if actors == [] then
      None
    else if Compatible(p, a, p.roles[i], actors[0]) && First(p, a[p.roles[i] := actors[0]], i + 1).Some? then
      First(p, a[p.roles[i] := actors[0]], i + 1)
    else
      FirstAmong(p, a, i, actors[1..])
  }

  /** The search itself: one dictionary, filled and emptied in place. */
  class Search {
    const p: Problem
    var assignment: Assignment

    constructor (p: Problem)
      ensures this.p == p && assignment == map[]
    {
      this.p := p;
      assignment := map[];
    }

    /** A failed search leaves the assignment as it found it; a successful one extends it to the first
        legal assignment in the order tried. */
    method Run(index: nat) returns (found: bool)
      requires p.Valid() && index <= |p.roles|
      requires forall k :: index <= k < |p.roles| ==> p.roles[k] !in assignment
      modifies this`assignment
      ensures found == First(p, old(assignment), index).Some?
      ensures assignment == if found then First(p, old(assignment), index).value else old(assignment)
      decreases |p.roles| - index
    {
      if index == |p.roles| {
        return |assignment.Values| >= p.minimum;
      }
      var role := p.roles[index];
      var actors := p.Tried(assignment, index);
      ghost var before := assignment;
      for k := 0 to |actors|
        invariant assignment == before
        invariant First(p, before, index) == FirstAmong(p, before, index, actors[k..])
      {
        var actor := actors[k];
        assert actors[k..][0] == actor && actors[k..][1..] == actors[k + 1..];
        if !Compatible(p, assignment, role, actor) {
          continue;
        }
        assignment := assignment[role := actor];
        found := Run(index + 1);
        if found {
          return;
        }
        assignment := assignment - {role};
        assert assignment == before;
      }
      found := false;
    }
  }

  // ----- what the search finds -----

  lemma {:induction false} RolesStep(p: Problem, i: nat)
    requires p.Valid() && i < |p.roles|
    ensures p.roles[i] !in p.roles[..i]
    ensures p.roles[..i + 1] == p.roles[..i] + [p.roles[i]]
  {
  }

  lemma {:induction false} Place(p: Problem, a: Assignment, i: nat, actor: string)
    requires p.Valid() && i < |p.roles| && Partial(p, a, i)
    requires actor in p.candidates[p.roles[i]] && Compatible(p, a, p.roles[i], actor)
    ensures p.roles[i] !in a
    ensures Partial(p, a[p.roles[i] := actor], i + 1)
  {
    RolesStep(p, i);
  }

  /** What the loop over candidates returns is what one of them leads to. */
  lemma {:induction false} Witness(p: Problem, a: Assignment, i: nat, actors: seq<string>) returns (actor: string)
    requires p.Valid() && i < |p.roles| && FirstAmong(p, a, i, actors).Some?
    ensures actor in actors && Compatible(p, a, p.roles[i], actor)
    ensures First(p, a[p.roles[i] := actor], i + 1) == FirstAmong(p, a, i, actors)
    decreases |actors|
  {
    actor := actors[0];
    if !Compatible(p, a, p.roles[i], actor) || First(p, a[p.roles[i] := actor], i + 1).None? {
      actor := Witness(p, a, i, actors[1..]);
    }
  }

  /** Soundness: what is found is legal and keeps the choices made before. */
  lemma {:induction false} FirstIsLegal(p: Problem, a: Assignment, i: nat)
    requires p.Valid() && i <= |p.roles| && Partial(p, a, i)
    requires First(p, a, i).Some?
    ensures Legal(p, First(p, a, i).value) && Extends(a, First(p, a, i).value)
    decreases |p.roles| - i
  {
    if i == |p.roles| {
      assert First(p, a, i) == Some(a);
    } else {
      var actor := Witness(p, a, i, p.Tried(a, i));
      var placed := a[p.roles[i] := actor];
      Place(p, a, i, actor);
      FirstIsLegal(p, placed, i + 1);
      assert First(p, a, i) == First(p, placed, i + 1);
      ExtendsPlaced(a, p.roles[i], actor, First(p, placed, i + 1).value);
    }
  }

  lemma ExtendsPlaced(a: Assignment, role: string, actor: string, b: Assignment)
    requires role !in a && Extends(a[role := actor], b)
    ensures Extends(a, b) && role in b && b[role] == actor
  {
    var placed := a[role := actor];
    assert role in placed;
    forall r | r in a
      ensures r in b && b[r] == a[r]
    {
      assert r in placed;
    }
  }

  /** Completeness: if the choices made so far can be completed at all, a completion is found. */
  lemma {:induction false} FirstIsComplete(p: Problem, a: Assignment, i: nat, b: Assignment)
    requires p.Valid() && i <= |p.roles| && Partial(p, a, i)
    requires Legal(p, b) && Extends(a, b)
    ensures First(p, a, i).Some?
    decreases |p.roles| - i
  {
    if i == |p.roles| {
      assert a == b;
    } else {
      var actor := NextChoice(p, a, i, b);
      FirstIsComplete(p, a[p.roles[i] := actor], i + 1, b);
      FirstAmongFinds(p, a, i, p.Tried(a, i), actor);
    }
  }

  /** The actor a legal completion gives the next role is one the search may place there. */
  lemma {:induction false} NextChoice(p: Problem, a: Assignment, i: nat, b: Assignment) returns (actor: string)
    requires p.Valid() && i < |p.roles| && Partial(p, a, i)
    requires Legal(p, b) && Extends(a, b)
    ensures p.roles[i] in b && actor == b[p.roles[i]] && actor in p.Tried(a, i)
    ensures Compatible(p, a, p.roles[i], actor)
    ensures Partial(p, a[p.roles[i] := actor], i + 1) && Extends(a[p.roles[i] := actor], b)
  {
    var role := p.roles[i];
    assert p.roles[..|p.roles|] == p.roles;
    assert role in p.roles;
    actor := b[role];
    RolesStep(p, i);
    assert Compatible(p, a, role, actor);
    Place(p, a, i, actor);
  }

  lemma {:induction false} FirstAmongFinds(p: Problem, a: Assignment, i: nat, actors: seq<string>, actor: string)
    requires p.Valid() && i < |p.roles| && actor in actors
    requires Compatible(p, a, p.roles[i], actor) && First(p, a[p.roles[i] := actor], i + 1).Some?
    ensures FirstAmong(p, a, i, actors).Some?
    decreases |actors|
  {
    if actors[0] != actor {
      FirstAmongFinds(p, a, i, actors[1..], actor);
    }
  }

  ghost predicate Solvable(p: Problem)
    requires p.Valid()
  {
    exists b :: Legal(p, b)
  }

  /** From the empty assignment the search succeeds exactly when some legal assignment exists, and then
      returns a legal one. */
  lemma {:induction false} SearchDecides(p: Problem)
    requires p.Valid()
    ensures First(p, map[], 0).Some? <==> Solvable(p)
    ensures First(p, map[], 0).Some? ==> Legal(p, First(p, map[], 0).value)
  {
    if First(p, map[], 0).Some? {
      FirstIsLegal(p, map[], 0);
    }
    if Solvable(p) {
      var b :| Legal(p, b);
      FirstIsComplete(p, map[], 0, b);
    }
  }

  lemma {:induction false} LegalChoice(p: Problem, b: Assignment, role: string)
    requires p.Valid() && Legal(p, b) && role in p.roles
    ensures role in b && role in p.candidates && b[role] in p.candidates[role]
  {
    assert p.roles[..|p.roles|] == p.roles;
  }

  // ----- which legal assignment is found -----

  /** The choices made for the first `i` roles. */
  function Prefix(p: Problem, b: Assignment, i: nat): Assignment
    requires i <= |p.roles|
  {
    map r | r in b && r in p.roles[..i] :: b[r]
  }

  /** `x` comes before `y` in the sequence: no `y` stands before the first `x`. */
  predicate Before(actors: seq<string>, x: string, y: string) {
    exists j :: 0 <= j < |actors| && actors[j] == x && y !in actors[..j]
  }

  /** No candidate tried earlier for role `i`, after the same earlier choices, could be completed. */
  ghost predicate Preferred(p: Problem, b: Assignment, i: nat)
    requires p.Valid() && i < |p.roles|
  {
    var a, role := Prefix(p, b, i), p.roles[i];
    role in b && forall c :: Legal(p, c) && Extends(a, c) && role in c ==>
      c[role] == b[role] || !Before(p.Tried(a, i), c[role], b[role])
  }

  lemma {:induction false} PrefixPartial(p: Problem, b: Assignment, i: nat)
    requires p.Valid() && i <= |p.roles| && Legal(p, b)
    ensures Partial(p, Prefix(p, b, i), i) && Extends(Prefix(p, b, i), b)
  {
    assert p.roles[..|p.roles|] == p.roles;
    forall r | r in p.roles[..i]
      ensures r in b
    {
      assert r in p.roles;
    }
  }

  lemma {:induction false} PrefixStep(p: Problem, b: Assignment, i: nat)
    requires p.Valid() && i < |p.roles| && p.roles[i] in b
    ensures Prefix(p, b, i + 1) == Prefix(p, b, i)[p.roles[i] := b[p.roles[i]]]
  {
    RolesStep(p, i);
    var l, r := Prefix(p, b, i + 1), Prefix(p, b, i)[p.roles[i] := b[p.roles[i]]];
    assert forall x :: x in l <==> x in r;
  }

  lemma {:induction false} FirstFollows(p: Problem, b: Assignment, i: nat)
    requires p.Valid() && i <= |p.roles| && Legal(p, b)
    requires First(p, map[], 0) == Some(b)
    ensures First(p, Prefix(p, b, i), i) == Some(b)
    decreases i
  {
    if i == 0 {
      assert Prefix(p, b, 0) == map[];
    } else {
      FirstFollows(p, b, i - 1);
      FollowStep(p, b, i - 1);
    }
  }

  lemma {:induction false} FollowStep(p: Problem, b: Assignment, i: nat)
    requires p.Valid() && i < |p.roles| && Legal(p, b)
    requires First(p, Prefix(p, b, i), i) == Some(b)
    ensures First(p, Prefix(p, b, i + 1), i + 1) == Some(b)
  {
    var a := Prefix(p, b, i);
    PrefixPartial(p, b, i);
    var actor := Witness(p, a, i, p.Tried(a, i));
    Place(p, a, i, actor);
    FirstIsLegal(p, a[p.roles[i] := actor], i + 1);
    ExtendsPlaced(a, p.roles[i], actor, b);
    PrefixStep(p, b, i);
  }

  /** Every actor tried before the chosen one cannot be placed or leads nowhere. */
  lemma {:induction false} FirstAmongSkips(p: Problem, a: Assignment, i: nat, actors: seq<string>, b: Assignment,
                                           j: nat)
    requires p.Valid() && i < |p.roles| && Partial(p, a, i)
    requires forall x :: x in actors ==> x in p.candidates[p.roles[i]]
    requires FirstAmong(p, a, i, actors) == Some(b)
    requires j < |actors| && p.roles[i] in b && b[p.roles[i]] !in actors[..j] && b[p.roles[i]] != actors[j]
    ensures Compatible(p, a, p.roles[i], actors[j]) ==> First(p, a[p.roles[i] := actors[j]], i + 1).None?
    decreases |actors|
  {
    var role := p.roles[i];
    var c := a[role := actors[0]];
    assert actors[0] in actors;
    if Compatible(p, a, role, actors[0]) && First(p, c, i + 1).Some? {
      Place(p, a, i, actors[0]);
      FirstIsLegal(p, c, i + 1);
      ExtendsPlaced(a, role, actors[0], b);
    } else if j > 0 {
      assert actors[1..][..j - 1] == actors[..j][1..];
      FirstAmongSkips(p, a, i, actors[1..], b, j - 1);
    }
  }

  lemma {:induction false} EarlierFails(p: Problem, a: Assignment, i: nat, b: Assignment, c: Assignment)
    requires p.Valid() && i < |p.roles| && Partial(p, a, i)
    requires First(p, a, i) == Some(b) && p.roles[i] in b
    requires Legal(p, c) && Extends(a, c) && p.roles[i] in c
    ensures c[p.roles[i]] == b[p.roles[i]] || !Before(p.Tried(a, i), c[p.roles[i]], b[p.roles[i]])
  {
    var actor := NextChoice(p, a, i, c);
    var chosen, actors := b[p.roles[i]], p.Tried(a, i);
    FirstIsComplete(p, a[p.roles[i] := actor], i + 1, c);
    if actor != chosen && Before(actors, actor, chosen) {
      var j :| 0 <= j < |actors| && actors[j] == actor && chosen !in actors[..j];
      FirstAmongSkips(p, a, i, actors, b, j);
      assert false;
    }
  }

  /** The assignment found is pinned down, role by role: an actor that is tried before the chosen one fits
      no legal assignment with the same earlier choices. */
  lemma {:induction false} FoundIsPreferred(p: Problem, i: nat)
    requires p.Valid() && i < |p.roles| && First(p, map[], 0).Some?
    ensures Preferred(p, First(p, map[], 0).value, i)
  {
    var b := First(p, map[], 0).value;
    FirstIsLegal(p, map[], 0);
    var a := Prefix(p, b, i);
    FirstFollows(p, b, i);
    PrefixPartial(p, b, i);
    var _ := NextChoice(p, a, i, b);
    forall c | Legal(p, c) && Extends(a, c) && p.roles[i] in c
      ensures c[p.roles[i]] == b[p.roles[i]] || !Before(p.Tried(a, i), c[p.roles[i]], b[p.roles[i]])
    {
      EarlierFails(p, a, i, b, c);
    }
  }

  /** Legal, and preferred at every role. */
  ghost predicate Best(p: Problem, b: Assignment)
    requires p.Valid()
  {
    Legal(p, b) && forall i :: 0 <= i < |p.roles| ==> Preferred(p, b, i)
  }

  lemma {:induction false} OneIsBefore(actors: seq<string>, x: string, y: string)
    requires x in actors && y in actors && x != y
    ensures Before(actors, x, y) || Before(actors, y, x)
  {
    if actors[0] == x {
      assert y !in actors[..0];
    } else if actors[0] == y {
      assert x !in actors[..0];
    } else {
      OneIsBefore(actors[1..], x, y);
      BeforeInTail(actors, x, y);
      BeforeInTail(actors, y, x);
    }
  }

  lemma {:induction false} BeforeInTail(actors: seq<string>, x: string, y: string)
    requires actors != [] && actors[0] != y
    ensures Before(actors[1..], x, y) ==> Before(actors, x, y)
  {
    if j :| 0 <= j < |actors| - 1 && actors[1..][j] == x && y !in actors[1..][..j] {
      assert actors[j + 1] == x;
      forall k | 0 <= k < j + 1
        ensures actors[k] != y
      {
        assert k > 0 ==> actors[k] == actors[1..][..j][k - 1];
      }
    }
  }

  /** Two best assignments with the same earlier choices agree on the next role. */
  lemma {:induction false} SameNext(p: Problem, b: Assignment, c: Assignment, i: nat)
    requires p.Valid() && i < |p.roles| && Best(p, b) && Best(p, c)
    requires Prefix(p, b, i) == Prefix(p, c, i)
    ensures p.roles[i] in b && p.roles[i] in c && b[p.roles[i]] == c[p.roles[i]]
  {
    var a := Prefix(p, b, i);
    PrefixPartial(p, b, i);
    PrefixPartial(p, c, i);
    var x := NextChoice(p, a, i, b);
    var y := NextChoice(p, a, i, c);
    assert Preferred(p, b, i) && Preferred(p, c, i);
    if x != y {
      OneIsBefore(p.Tried(a, i), x, y);
    }
  }

  lemma {:induction false} SamePrefix(p: Problem, b: Assignment, c: Assignment, i: nat)
    requires p.Valid() && i <= |p.roles| && Best(p, b) && Best(p, c)
    ensures Prefix(p, b, i) == Prefix(p, c, i)
    decreases i
  {
    if i == 0 {
      assert Prefix(p, b, 0) == map[] == Prefix(p, c, 0);
    } else {
      SamePrefix(p, b, c, i - 1);
      SameNext(p, b, c, i - 1);
      PrefixStep(p, b, i - 1);
      PrefixStep(p, c, i - 1);
    }
  }

  /** The first role goes to the candidate tried first among those that some legal assignment gives it. */
  lemma {:induction false} FirstRole(p: Problem, b: Assignment, c: Assignment)
    requires p.Valid() && p.roles != [] && Best(p, b) && Legal(p, c)
    ensures p.roles[0] in b && p.roles[0] in c
    ensures b[p.roles[0]] == c[p.roles[0]] || !Before(p.Tried(map[], 0), c[p.roles[0]], b[p.roles[0]])
  {
    assert Prefix(p, b, 0) == map[];
    assert Preferred(p, b, 0);
    LegalChoice(p, c, p.roles[0]);
  }

  lemma {:induction false} WholePrefix(p: Problem, b: Assignment)
    requires p.Valid() && Legal(p, b)
    ensures Prefix(p, b, |p.roles|) == b
  {
    assert p.roles[..|p.roles|] == p.roles;
  }

  /** What the search finds is the one best assignment. */
  lemma {:induction false} BestIsFound(p: Problem, b: Assignment)
    requires p.Valid()
    ensures First(p, map[], 0) == Some(b) <==> Best(p, b)
  {
    if First(p, map[], 0) == Some(b) {
      FirstIsLegal(p, map[], 0);
      forall i | 0 <= i < |p.roles|
        ensures Preferred(p, b, i)
      {
        FoundIsPreferred(p, i);
      }
    }
    if Best(p, b) {
      FirstIsComplete(p, map[], 0, b);
      var c := First(p, map[], 0).value;
      FirstIsLegal(p, map[], 0);
      forall i | 0 <= i < |p.roles|
        ensures Preferred(p, c, i)
      {
        FoundIsPreferred(p, i);
      }
      SamePrefix(p, b, c, |p.roles|);
      WholePrefix(p, b);
      WholePrefix(p, c);
    }
  }
}
