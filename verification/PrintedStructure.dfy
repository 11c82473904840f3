/** When the printed text parses back to the very tree it was printed from.  Nested unions and nested
    intersections are flattened by any reader, so trees are compared after that flattening. */
module PrintedStructure {
  import opened Schemas
  import opened Types
  import opened ClientTypes
  import opened PrintedTypes
  import opened TypeGrammar
  import opened ReadableText
  import opened PrintedMeaning

  // ----- flattening -----

  function MkUnion(ts: seq<Ty>): Ty {
    if |ts| == 1 then ts[0] else TUnion(ts)
  }

  function MkInter(ts: seq<Ty>): Ty {
    if |ts| == 1 then ts[0] else TInter(ts)
  }

  function AltsOf(t: Ty): seq<Ty> {
    if t.TUnion? then t.alts else [t]
  }

  function PartsOf(t: Ty): seq<Ty> {
    if t.TInter? then t.parts else [t]
  }

  function SpliceAlts(ts: seq<Ty>): seq<Ty> {
    if ts == [] then [] else AltsOf(ts[0]) + SpliceAlts(ts[1..])
  }

  function SpliceParts(ts: seq<Ty>): seq<Ty> {
    if ts == [] then [] else PartsOf(ts[0]) + SpliceParts(ts[1..])
  }

  /** The tree with unions inside unions, intersections inside intersections and one-element
      combinators dissolved. */
  function Flat(t: Ty): Ty
    decreases t
  {
    match t
    case TArr(elem) => TArr(Flat(elem))
    case TObj(members) => TObj(FlatMembers(members))
    case TUnion(alts) => MkUnion(SpliceAlts(FlatAll(alts)))
    case TInter(parts) => MkInter(SpliceParts(FlatAll(parts)))
    case _ => t
  }

  function FlatAll(ts: seq<Ty>): (r: seq<Ty>)
    ensures |r| == |ts| && forall i :: 0 <= i < |ts| ==> r[i] == Flat(ts[i])
    decreases ts
  {
    if ts == [] then [] else [Flat(ts[0])] + FlatAll(ts[1..])
  }

  function FlatMember(m: Member<Ty>): Member<Ty>
    decreases m
  {
    match m
    case Field(name, optional, typ) => Field(name, optional, Flat(typ))
    case Index(typ) => Index(Flat(typ))
  }

  function FlatMembers(ms: seq<Member<Ty>>): (r: seq<Member<Ty>>)
    ensures |r| == |ms| && forall i :: 0 <= i < |ms| ==> r[i] == FlatMember(ms[i])
    decreases ms
  {
    if ms == [] then [] else [FlatMember(ms[0])] + FlatMembers(ms[1..])
  }

  // ----- a parsed type as a tree -----

  function Tree(a: Alt): Ty
    decreases a
  {
    MkUnion(GroupTrees(a.groups))
  }

  function GroupTrees(gs: seq<Group>): (r: seq<Ty>)
    ensures |r| == |gs| && forall i :: 0 <= i < |gs| ==> r[i] == GroupTree(gs[i])
    decreases gs
  {
    if gs == [] then [] else [GroupTree(gs[0])] + GroupTrees(gs[1..])
  }

  function GroupTree(g: Group): Ty
    decreases g
  {
    MkInter(PrimTrees(g.prims))
  }

  function PrimTrees(ps: seq<Prim>): (r: seq<Ty>)
    ensures |r| == |ps| && forall i :: 0 <= i < |ps| ==> r[i] == PrimTree(ps[i])
    decreases ps
  {
    if ps == [] then [] else [PrimTree(ps[0])] + PrimTrees(ps[1..])
  }

  function PrimTree(p: Prim): (t: Ty)
    ensures !t.TUnion? && !t.TInter?
    decreases p
  {
    match p
    case PWord(w) => TWord(w)
    case PRef(name) => TRef(name)
    case PLit(c) => TLit(c)
    case PArr(elem) => TArr(Tree(elem))
    case PObj(members) => TObj(MemberTrees(members))
  }

  function MemberTree(m: Member<Alt>): Member<Ty>
    decreases m
  {
    match m
    case Field(name, optional, typ) => Field(name, optional, Tree(typ))
    case Index(typ) => Index(Tree(typ))
  }

  function MemberTrees(ms: seq<Member<Alt>>): (r: seq<Member<Ty>>)
    ensures |r| == |ms| && forall i :: 0 <= i < |ms| ==> r[i] == MemberTree(ms[i])
    decreases ms
  {
    if ms == [] then [] else [MemberTree(ms[0])] + MemberTrees(ms[1..])
  }

  // ----- unambiguous trees come back -----

  lemma {:induction false} GroupTreeShape(g: Group)
    requires g.prims != []
    ensures !GroupTree(g).TUnion?
    ensures PartsOf(GroupTree(g)) == PrimTrees(g.prims)
  {
    if |g.prims| == 1 {
      assert GroupTree(g) == PrimTree(g.prims[0]);
    }
  }

  lemma {:induction false} TreeShape(a: Alt)
    requires WfAlt(a)
    ensures AltsOf(Tree(a)) == GroupTrees(a.groups)
    ensures Tree(a).TUnion? <==> |a.groups| > 1
  {
    assert WfGroup(a.groups[0]);
    GroupTreeShape(a.groups[0]);
    if |a.groups| == 1 {
      assert Tree(a) == GroupTree(a.groups[0]);
    }
  }

  lemma {:induction false} GroupTreesAppend(a: seq<Group>, b: seq<Group>)
    ensures GroupTrees(a + b) == GroupTrees(a) + GroupTrees(b)
  {
    var l, r := GroupTrees(a + b), GroupTrees(a) + GroupTrees(b);
    forall i | 0 <= i < |l|
      ensures l[i] == r[i]
    {
      assert l[i] == GroupTree((a + b)[i]);
    }
  }

  lemma {:induction false} PrimTreesAppend(a: seq<Prim>, b: seq<Prim>)
    ensures PrimTrees(a + b) == PrimTrees(a) + PrimTrees(b)
  {
  }

  lemma {:induction false} SpliceAltsOfTrees(ts: seq<Ty>, xs: seq<Alt>)
    requires |ts| == |xs| && forall i :: 0 <= i < |ts| ==> WfAlt(xs[i]) && ts[i] == Tree(xs[i])
    ensures SpliceAlts(ts) == GroupTrees(Concat(xs))
  {
    if ts != [] {
      SpliceAltsOfTrees(ts[1..], xs[1..]);
      TreeShape(xs[0]);
      GroupTreesAppend(xs[0].groups, Concat(xs[1..]));
    }
  }

  lemma {:induction false} SplicePartsOfTrees(ts: seq<Ty>, xs: seq<Alt>)
    requires |ts| == |xs| > 0
    requires forall i :: 0 <= i < |ts| ==> WfAlt(xs[i]) && |xs[i].groups| == 1 && ts[i] == Tree(xs[i])
    ensures |FuseAll(xs)| == 1 && FuseAll(xs)[0].prims != []
    ensures SpliceParts(ts) == PrimTrees(FuseAll(xs)[0].prims)
  {
    var g := xs[0].groups[0];
    SinglePartOfTree(xs[0]);
    if |ts| == 1 {
      assert SpliceParts(ts[1..]) == [];
    } else {
      SplicePartsOfTrees(ts[1..], xs[1..]);
      var h := FuseAll(xs[1..])[0];
      assert FuseAll(xs) == [Group(g.prims + h.prims)];
      PrimTreesAppend(g.prims, h.prims);
    }
  }

  lemma {:induction false} SinglePartOfTree(a: Alt)
    requires WfAlt(a) && |a.groups| == 1
    ensures a.groups[0].prims != []
    ensures PartsOf(Tree(a)) == PrimTrees(a.groups[0].prims)
  {
    assert WfGroup(a.groups[0]);
    assert Tree(a) == GroupTree(a.groups[0]);
    GroupTreeShape(a.groups[0]);
  }

  lemma {:induction false} UnambiguousReturns(t: Ty)
    requires WfTy(t) && Unambiguous(t)
    ensures Tree(Read(t)) == Flat(t)
    decreases t
  {
    match t {
      case TArr(elem) =>
        UnambiguousReturns(elem);
        TreeOfOne(PArr(Read(elem)));
      case TObj(members) =>
        forall i | 0 <= i < |members|
          ensures MemberTree(ReadMembers(members)[i]) == FlatMember(members[i])
        {
          UnambiguousReturns(members[i].typ);
        }
        assert MemberTrees(ReadMembers(members)) == FlatMembers(members);
        TreeOfOne(PObj(ReadMembers(members)));
      case TUnion(alts) =>
        var xs := ReadAll(alts);
        forall i | 0 <= i < |alts|
          ensures FlatAll(alts)[i] == Tree(xs[i]) && WfAlt(xs[i])
        {
          UnambiguousReturns(alts[i]);
          ReadWf(alts[i]);
        }
        SpliceAltsOfTrees(FlatAll(alts), xs);
      case TInter(parts) =>
        var xs := ReadAll(parts);
        forall i | 0 <= i < |parts|
          ensures FlatAll(parts)[i] == Tree(xs[i]) && WfAlt(xs[i])
          ensures PrintsPipe(parts[i]) <==> |xs[i].groups| > 1
        {
          UnambiguousReturns(parts[i]);
          ReadWf(parts[i]);
          PrintsPipeCounts(parts[i]);
        }
        InterReturns(parts);
      case TWord(w) => TreeOfOne(PWord(w));
      case TRef(name) => TreeOfOne(PRef(name));
      case TLit(c) => TreeOfOne(PLit(c));
    }
  }

  lemma {:induction false} TreeOfOne(p: Prim)
    ensures Tree(One(p)) == PrimTree(p)
  {
    assert GroupTrees([Group([p])])[0] == GroupTree(Group([p]));
    assert PrimTrees([p])[0] == PrimTree(p);
  }

  lemma {:induction false} InterReturns(parts: seq<Ty>)
    requires parts != [] && Unambiguous(TInter(parts))
    requires forall i :: 0 <= i < |parts| ==>
               && FlatAll(parts)[i] == Tree(ReadAll(parts)[i]) && WfAlt(ReadAll(parts)[i])
               && (PrintsPipe(parts[i]) <==> |ReadAll(parts)[i].groups| > 1)
    ensures Tree(Read(TInter(parts))) == Flat(TInter(parts))
  {
    var xs, fs := ReadAll(parts), FlatAll(parts);
    if |parts| == 1 {
      var a := xs[0];
      assert SpliceParts(fs) == PartsOf(fs[0]) + SpliceParts(fs[1..]) == PartsOf(fs[0]);
      assert Read(TInter(parts)).groups == a.groups;
      assert Read(TInter(parts)) == a;
      SinglePart(a);
    } else {
      SplicePartsOfTrees(fs, xs);
      var g := FuseAll(xs)[0];
      assert FuseAll(xs) == [g];
      assert GroupTrees([g]) == [GroupTree(g)];
    }
  }

  lemma {:induction false} SinglePart(a: Alt)
    requires WfAlt(a)
    ensures MkInter(PartsOf(Tree(a))) == Tree(a)
  {
    if |a.groups| == 1 {
      assert WfGroup(a.groups[0]);
      GroupTreeShape(a.groups[0]);
    }
  }

  // ----- ambiguous trees do not -----

  /** No union directly inside an intersection, at any depth: the shape of every parsed type. */
  predicate Parsable(t: Ty)
    decreases t
  {
    match t
    case TArr(elem) => Parsable(elem)
    case TObj(members) => forall i :: 0 <= i < |members| ==> Parsable(members[i].typ)
    case TUnion(alts) => forall i :: 0 <= i < |alts| ==> Parsable(alts[i])
    case TInter(parts) => forall i :: 0 <= i < |parts| ==> !parts[i].TUnion? && Parsable(parts[i])
    case _ => true
  }

  lemma {:induction false} ParsedIsParsable(a: Alt)
    requires WfAlt(a)
    ensures Parsable(Tree(a))
    decreases a
  {
    forall i | 0 <= i < |a.groups|
      ensures Parsable(GroupTrees(a.groups)[i])
    {
      GroupParsable(a.groups[i]);
    }
  }

  lemma {:induction false} GroupParsable(g: Group)
    requires WfGroup(g)
    ensures Parsable(GroupTree(g))
    decreases g
  {
    forall i | 0 <= i < |g.prims|
      ensures Parsable(PrimTrees(g.prims)[i])
    {
      PrimParsable(g.prims[i]);
    }
  }

  lemma {:induction false} PrimParsable(p: Prim)
    requires WfPrim(p)
    ensures Parsable(PrimTree(p))
    decreases p
  {
    match p {
      case PArr(elem) => ParsedIsParsable(elem);
      case PObj(members) =>
        forall i | 0 <= i < |members|
          ensures Parsable(MemberTrees(members)[i].typ)
        {
          ParsedIsParsable(members[i].typ);
        }
      case _ =>
    }
  }

  predicate AllParsable(ts: seq<Ty>) {
    forall i :: 0 <= i < |ts| ==> Parsable(ts[i])
  }

  predicate AllParts(ts: seq<Ty>) {
    forall i :: 0 <= i < |ts| ==> !ts[i].TUnion? && Parsable(ts[i])
  }

  lemma {:induction false} AllParsableAppend(a: seq<Ty>, b: seq<Ty>)
    requires AllParsable(a + b)
    ensures AllParsable(a) && AllParsable(b)
  {
    assert forall i :: 0 <= i < |a| ==> (a + b)[i] == a[i];
    assert forall i :: 0 <= i < |b| ==> (a + b)[|a| + i] == b[i];
  }

  lemma {:induction false} AllPartsAppend(a: seq<Ty>, b: seq<Ty>)
    requires AllParts(a + b)
    ensures AllParts(a) && AllParts(b)
  {
    assert forall i :: 0 <= i < |a| ==> (a + b)[i] == a[i];
    assert forall i :: 0 <= i < |b| ==> (a + b)[|a| + i] == b[i];
  }

  lemma {:induction false} SplicedAltsParsable(ts: seq<Ty>)
    requires AllParsable(SpliceAlts(ts))
    ensures AllParsable(ts)
  {
    if ts != [] {
      AllParsableAppend(AltsOf(ts[0]), SpliceAlts(ts[1..]));
      SplicedAltsParsable(ts[1..]);
      assert Parsable(ts[0]) by {
        if !ts[0].TUnion? {
          assert Parsable(AltsOf(ts[0])[0]);
        }
      }
      assert forall i :: 1 <= i < |ts| ==> ts[i] == ts[1..][i - 1];
    }
  }

  lemma {:induction false} SplicedPartsParsable(ts: seq<Ty>)
    requires AllParts(SpliceParts(ts))
    ensures AllParts(ts)
  {
    if ts != [] {
      AllPartsAppend(PartsOf(ts[0]), SpliceParts(ts[1..]));
      SplicedPartsParsable(ts[1..]);
      assert !ts[0].TUnion? && Parsable(ts[0]) by {
        if !ts[0].TInter? {
          assert Parsable(PartsOf(ts[0])[0]);
        }
      }
      assert forall i :: 1 <= i < |ts| ==> ts[i] == ts[1..][i - 1];
    }
  }

  /** Flattening leaves no one-element combinator. */
  predicate Thick(t: Ty) {
    (t.TUnion? ==> |t.alts| > 1) && (t.TInter? ==> |t.parts| > 1)
  }

  lemma {:induction false} SpliceAltsThick(ts: seq<Ty>)
    requires ts != [] && forall i :: 0 <= i < |ts| ==> Thick(ts[i])
    ensures |SpliceAlts(ts)| >= |ts|
    ensures Thick(MkUnion(SpliceAlts(ts)))
    ensures |ts| == 1 ==> MkUnion(SpliceAlts(ts)) == ts[0]
  {
    assert Thick(ts[0]);
    assert SpliceAlts(ts) == AltsOf(ts[0]) + SpliceAlts(ts[1..]);
    if |ts| == 1 {
      assert SpliceAlts(ts) == AltsOf(ts[0]);
    } else {
      SpliceAltsThick(ts[1..]);
    }
  }

  lemma {:induction false} SplicePartsThick(ts: seq<Ty>)
    requires ts != [] && forall i :: 0 <= i < |ts| ==> Thick(ts[i])
    ensures |SpliceParts(ts)| >= |ts|
    ensures Thick(MkInter(SpliceParts(ts)))
    ensures |ts| == 1 ==> MkInter(SpliceParts(ts)) == ts[0]
  {
    assert Thick(ts[0]);
    assert SpliceParts(ts) == PartsOf(ts[0]) + SpliceParts(ts[1..]);
    if |ts| == 1 {
      assert SpliceParts(ts) == PartsOf(ts[0]);
    } else {
      SplicePartsThick(ts[1..]);
    }
  }

  lemma {:induction false} FlatThick(t: Ty)
    requires WfTy(t)
    ensures Thick(Flat(t))
    decreases t
  {
    match t {
      case TUnion(alts) =>
        forall i | 0 <= i < |alts|
          ensures Thick(FlatAll(alts)[i])
        {
          FlatThick(alts[i]);
        }
        SpliceAltsThick(FlatAll(alts));
      case TInter(parts) =>
        forall i | 0 <= i < |parts|
          ensures Thick(FlatAll(parts)[i])
        {
          FlatThick(parts[i]);
        }
        SplicePartsThick(FlatAll(parts));
      case _ =>
    }
  }

  lemma {:induction false} ParsableUnambiguous(t: Ty)
    requires WfTy(t) && Parsable(Flat(t))
    ensures Unambiguous(t)
    decreases t
  {
    match t {
      case TArr(elem) => ParsableUnambiguous(elem);
      case TObj(members) =>
        forall i | 0 <= i < |members|
          ensures Unambiguous(members[i].typ)
        {
          assert Parsable(FlatMembers(members)[i].typ);
          ParsableUnambiguous(members[i].typ);
        }
      case TUnion(alts) =>
        UnionChildrenParsable(alts);
        forall i | 0 <= i < |alts|
          ensures Unambiguous(alts[i])
        {
          assert Parsable(FlatAll(alts)[i]);
          ParsableUnambiguous(alts[i]);
        }
      case TInter(parts) =>
        InterChildrenParsable(parts);
        forall i | 0 <= i < |parts|
          ensures Unambiguous(parts[i]) && (|parts| > 1 ==> !PrintsPipe(parts[i]))
        {
          assert Parsable(FlatAll(parts)[i]);
          ParsableUnambiguous(parts[i]);
          UnambiguousReturns(parts[i]);
          ReadWf(parts[i]);
          TreeShape(Read(parts[i]));
          PrintsPipeCounts(parts[i]);
        }
      case _ =>
    }
  }

  lemma {:induction false} UnionChildrenParsable(alts: seq<Ty>)
    requires WfTy(TUnion(alts)) && Parsable(Flat(TUnion(alts)))
    ensures forall i :: 0 <= i < |alts| ==> Parsable(FlatAll(alts)[i])
  {
    var fs := FlatAll(alts);
    forall i | 0 <= i < |alts|
      ensures Thick(fs[i])
    {
      assert WfTy(TUnion(alts).alts[i]);
      FlatThick(alts[i]);
    }
    SpliceAltsThick(fs);
    if |fs| > 1 {
      assert Parsable(TUnion(SpliceAlts(fs)));
      assert AllParsable(SpliceAlts(fs));
      SplicedAltsParsable(fs);
    }
  }

  lemma {:induction false} InterChildrenParsable(parts: seq<Ty>)
    requires WfTy(TInter(parts)) && Parsable(Flat(TInter(parts)))
    ensures forall i :: 0 <= i < |parts| ==> Parsable(FlatAll(parts)[i])
    ensures |parts| > 1 ==> forall i :: 0 <= i < |parts| ==> !FlatAll(parts)[i].TUnion?
  {
    var fs := FlatAll(parts);
    forall i | 0 <= i < |parts|
      ensures Thick(fs[i])
    {
      assert WfTy(TInter(parts).parts[i]);
      FlatThick(parts[i]);
    }
    SplicePartsThick(fs);
    if |fs| > 1 {
      assert Parsable(TInter(SpliceParts(fs)));
      assert AllParts(SpliceParts(fs));
      SplicedPartsParsable(fs);
    }
  }

  /** The text printed for a schema parses back to its intended type, up to flattening, exactly when nothing
      joined in it is empty and no part of an intersection prints a top-level `|`. */
  lemma {:induction false} RoundTripExactly(s: Schema)
    ensures var text := ReadText(Emit(s));
            text.Some? && Tree(text.value) == Flat(Intended(s)) <==> NothingEmpty(s) && Unambiguous(Intended(s))
  {
    var t := Intended(s);
    TypeExactly(s);
    if NothingEmpty(s) && Unambiguous(t) {
      UnambiguousReturns(t);
    }
    if NothingEmpty(s) && Tree(Read(t)) == Flat(t) {
      ParsedIsParsable(Read(t));
      ParsableUnambiguous(t);
    }
  }
}
