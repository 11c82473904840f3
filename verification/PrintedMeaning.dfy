/** What the printed text means: it always admits at least the intended values, and no others when no part of
    an intersection prints a top-level `|`.  When a part does, the text means the intersection exactly when every
    alternative of it is contained in the parts it was cut loose from. */
module PrintedMeaning {
  import opened Schemas
  import opened Types
  import opened ClientTypes
  import opened PrintedTypes
  import opened TypeGrammar
  import opened ReadableText
  import opened FusedText

  function ReadTypes(env: map<string, Ty>): map<string, Alt> {
    map name | name in env :: Read(env[name])
  }

  predicate WfEnv(env: map<string, Ty>) {
    forall name :: name in env ==> WfTy(env[name])
  }

  /** No part of an intersection, at any depth, prints a top-level `|`. */
  predicate Unambiguous(t: Ty)
    decreases t
  {
    match t
    case TArr(elem) => Unambiguous(elem)
    case TObj(members) => forall i :: 0 <= i < |members| ==> Unambiguous(members[i].typ)
    case TUnion(alts) => forall i :: 0 <= i < |alts| ==> Unambiguous(alts[i])
    case TInter(parts) =>
      && (forall i :: 0 <= i < |parts| ==> Unambiguous(parts[i]))
      && (|parts| > 1 ==> forall i :: 0 <= i < |parts| ==> !PrintsPipe(parts[i]))
    case _ => true
  }

  /** The text of `t` has a `|` outside all brackets. */
  predicate PrintsPipe(t: Ty)
    decreases t
  {
    match t
    case TUnion(alts) => |alts| > 1 || exists i :: 0 <= i < |alts| && PrintsPipe(alts[i])
    case TInter(parts) => exists i :: 0 <= i < |parts| && PrintsPipe(parts[i])
    case _ => false
  }

  lemma {:induction false} PrintsPipeCounts(t: Ty)
    requires WfTy(t)
    ensures PrintsPipe(t) <==> |Read(t).groups| > 1
    decreases t
  {
    match t {
      case TUnion(alts) =>
        forall i | 0 <= i < |alts|
          ensures PrintsPipe(alts[i]) <==> |ReadAll(alts)[i].groups| > 1
          ensures WfAlt(ReadAll(alts)[i])
        {
          PrintsPipeCounts(alts[i]);
          ReadWf(alts[i]);
        }
        ConcatCounts(ReadAll(alts));
      case TInter(parts) =>
        forall i | 0 <= i < |parts|
          ensures PrintsPipe(parts[i]) <==> |ReadAll(parts)[i].groups| > 1
          ensures WfAlt(ReadAll(parts)[i])
        {
          PrintsPipeCounts(parts[i]);
          ReadWf(parts[i]);
        }
        FuseAllCounts(ReadAll(parts));
      case _ =>
    }
  }

  lemma {:induction false} ConcatCounts(xs: seq<Alt>)
    requires xs != [] && forall i :: 0 <= i < |xs| ==> xs[i].groups != []
    ensures |Concat(xs)| >= |xs|
    ensures |Concat(xs)| > 1 <==> |xs| > 1 || |xs[0].groups| > 1
  {
    if |xs| > 1 {
      ConcatCounts(xs[1..]);
    }
  }

  lemma {:induction false} FuseAllCounts(xs: seq<Alt>)
    requires xs != [] && forall i :: 0 <= i < |xs| ==> xs[i].groups != []
    ensures |FuseAll(xs)| > 0
    ensures |FuseAll(xs)| > 1 <==> exists i :: 0 <= i < |xs| && |xs[i].groups| > 1
  {
    if |xs| > 1 {
      FuseAllCounts(xs[1..]);
      assert forall i :: 1 <= i < |xs| ==> xs[i] == xs[1..][i - 1];
    }
  }

  /** Alternatives cut loose in the text of an intersection never stray. */
  ghost predicate NeverStrays(renv: map<string, Alt>, cut: bool, xs: seq<Alt>) {
    Whole(xs) ==> forall fuel: nat, v :: LooseContained(renv, fuel, cut, xs, v)
  }

  /** At any depth. */
  ghost predicate Tight(renv: map<string, Alt>, cut: bool, t: Ty)
    decreases t
  {
    match t
    case TArr(elem) => Tight(renv, cut, elem)
    case TObj(members) => forall i :: 0 <= i < |members| ==> Tight(renv, cut, members[i].typ)
    case TUnion(alts) => forall i :: 0 <= i < |alts| ==> Tight(renv, cut, alts[i])
    case TInter(parts) =>
      && (forall i :: 0 <= i < |parts| ==> Tight(renv, cut, parts[i]))
      && NeverStrays(renv, cut, ReadAll(parts))
    case _ => true
  }

  ghost predicate TightEnv(env: map<string, Ty>, cut: bool) {
    forall name :: name in env ==> Tight(ReadTypes(env), cut, env[name])
  }

  lemma {:induction false} UnambiguousIsTight(renv: map<string, Alt>, cut: bool, t: Ty)
    requires WfTy(t) && Unambiguous(t)
    ensures Tight(renv, cut, t)
    decreases t
  {
    match t {
      case TArr(elem) => UnambiguousIsTight(renv, cut, elem);
      case TObj(members) =>
        forall i | 0 <= i < |members|
          ensures Tight(renv, cut, members[i].typ)
        {
          UnambiguousIsTight(renv, cut, members[i].typ);
        }
      case TUnion(alts) =>
        forall i | 0 <= i < |alts|
          ensures Tight(renv, cut, alts[i])
        {
          UnambiguousIsTight(renv, cut, alts[i]);
        }
      case TInter(parts) =>
        forall i | 0 <= i < |parts|
          ensures Tight(renv, cut, parts[i])
          ensures |parts| > 1 ==> |ReadAll(parts)[i].groups| <= 1
        {
          UnambiguousIsTight(renv, cut, parts[i]);
          PrintsPipeCounts(parts[i]);
        }
        SingleNeverStrays(renv, cut, ReadAll(parts));
      case _ =>
    }
  }

  lemma {:induction false} SingleNeverStrays(renv: map<string, Alt>, cut: bool, xs: seq<Alt>)
    requires xs != [] && (|xs| > 1 ==> forall i :: 0 <= i < |xs| ==> |xs[i].groups| <= 1)
    ensures NeverStrays(renv, cut, xs)
  {
    if Whole(xs) && |xs| > 1 {
      SingleSpan(xs, 0);
    }
  }

  /** Every inhabitant of the tree inhabits what its text reads as; when `exact`, and only those. */
  ghost predicate Agrees(env: map<string, Ty>, renv: map<string, Alt>, fuel: nat, cut: bool, exact: bool,
                         t: Ty, a: Alt, v: Json)
  {
    && (Inhabits(env, fuel, cut, t, v) ==> InhabitsAlt(renv, fuel, cut, a, v))
    && (exact && InhabitsAlt(renv, fuel, cut, a, v) ==> Inhabits(env, fuel, cut, t, v))
  }

  /** The text of every well-formed type admits what the type does, and means the type when nothing cut loose in
      it, at any depth, ever strays. */
  lemma {:induction false} TextMeaning(env: map<string, Ty>, fuel: nat, cut: bool, exact: bool, t: Ty, v: Json)
    requires WfEnv(env) && WfTy(t)
    requires exact ==> TightEnv(env, cut) && Tight(ReadTypes(env), cut, t)
    ensures Agrees(env, ReadTypes(env), fuel, cut, exact, t, Read(t), v)
    decreases fuel, t
  {
    var renv := ReadTypes(env);
    match t {
      case TWord(w) => InOne(renv, fuel, cut, PWord(w), v);
      case TLit(c) => InOne(renv, fuel, cut, PLit(c), v);
      case TRef(name) =>
        InOne(renv, fuel, cut, PRef(name), v);
        if name in env && fuel > 0 {
          TextMeaning(env, fuel - 1, cut, exact, env[name], v);
        }
      case TArr(elem) =>
        InOne(renv, fuel, cut, PArr(Read(elem)), v);
        if v.JArr? {
          forall i | 0 <= i < |v.items|
            ensures Agrees(env, renv, fuel, cut, exact, elem, Read(elem), v.items[i])
          {
            TextMeaning(env, fuel, cut, exact, elem, v.items[i]);
          }
        }
      case TObj(members) =>
        if v.JObj? {
          forall i, k | 0 <= i < |members| && k in v.members
            ensures Agrees(env, renv, fuel, cut, exact, members[i].typ, ReadMembers(members)[i].typ, v.members[k])
          {
            TextMeaning(env, fuel, cut, exact, members[i].typ, v.members[k]);
          }
        }
        ObjectMeaning(env, renv, fuel, cut, exact, members, ReadMembers(members), v);
      case TUnion(alts) =>
        forall i | 0 <= i < |alts|
          ensures Agrees(env, renv, fuel, cut, exact, alts[i], ReadAll(alts)[i], v)
        {
          TextMeaning(env, fuel, cut, exact, alts[i], v);
        }
        UnionMeaning(env, renv, fuel, cut, exact, alts, ReadAll(alts), v);
      case TInter(parts) =>
        var xs := ReadAll(parts);
        forall i | 0 <= i < |parts|
          ensures Agrees(env, renv, fuel, cut, exact, parts[i], xs[i], v)
          ensures WfAlt(xs[i])
        {
          TextMeaning(env, fuel, cut, exact, parts[i], v);
          ReadWf(parts[i]);
        }
        InterMeaning(env, renv, fuel, cut, exact, parts, xs, v);
    }
  }

  lemma {:induction false} MemberMeaning(env: map<string, Ty>, renv: map<string, Alt>, fuel: nat, cut: bool,
                                         exact: bool,
                      m: Member<Ty>, r: Member<Alt>, o: map<string, Json>)
    requires match m case Field(n, opt, _) => r.Field? && r.name == n && r.optional == opt case Index(_) => r.Index?
    requires forall k :: k in o ==> Agrees(env, renv, fuel, cut, exact, m.typ, r.typ, o[k])
    ensures FitsMember(env, fuel, cut, m, o) ==> FitsAltMember(renv, fuel, cut, r, o)
    ensures exact && FitsAltMember(renv, fuel, cut, r, o) ==> FitsMember(env, fuel, cut, m, o)
  {
    if exact && FitsAltMember(renv, fuel, cut, r, o) && m.Index? {
      forall k | k in o
        ensures Inhabits(env, fuel, cut, m.typ, o[k])
      {
      }
    }
  }

  lemma {:induction false} ObjectMeaning(env: map<string, Ty>, renv: map<string, Alt>, fuel: nat, cut: bool,
                                         exact: bool,
                      members: seq<Member<Ty>>, rs: seq<Member<Alt>>, v: Json)
    requires rs == ReadMembers(members)
    requires v.JObj? ==> forall i, k :: 0 <= i < |members| && k in v.members ==>
               Agrees(env, renv, fuel, cut, exact, members[i].typ, rs[i].typ, v.members[k])
    ensures Agrees(env, renv, fuel, cut, exact, TObj(members), One(PObj(rs)), v)
  {
    InOne(renv, fuel, cut, PObj(rs), v);
    if v.JObj? {
      forall i | 0 <= i < |members|
        ensures FitsMember(env, fuel, cut, members[i], v.members) ==>
                  FitsAltMember(renv, fuel, cut, rs[i], v.members)
        ensures exact && FitsAltMember(renv, fuel, cut, rs[i], v.members) ==>
                  FitsMember(env, fuel, cut, members[i], v.members)
      {
        assert rs[i] == ReadMember(members[i]);
        MemberMeaning(env, renv, fuel, cut, exact, members[i], rs[i], v.members);
      }
    }
  }

  lemma {:induction false} UnionMeaning(env: map<string, Ty>, renv: map<string, Alt>, fuel: nat, cut: bool, exact: bool,
                     alts: seq<Ty>, xs: seq<Alt>, v: Json)
    requires |xs| == |alts|
    requires forall i :: 0 <= i < |alts| ==> Agrees(env, renv, fuel, cut, exact, alts[i], xs[i], v)
    ensures Agrees(env, renv, fuel, cut, exact, TUnion(alts), Alt(Concat(xs)), v)
  {
    InConcat(renv, fuel, cut, xs, v);
    if Inhabits(env, fuel, cut, TUnion(alts), v) {
      var i :| 0 <= i < |alts| && Inhabits(env, fuel, cut, TUnion(alts).alts[i], v);
      assert InhabitsAlt(renv, fuel, cut, xs[i], v);
    }
    if exact && InhabitsAlt(renv, fuel, cut, Alt(Concat(xs)), v) {
      var i :| 0 <= i < |xs| && InhabitsAlt(renv, fuel, cut, xs[i], v);
      assert Inhabits(env, fuel, cut, TUnion(alts).alts[i], v);
    }
  }

  lemma {:induction false} InterMeaning(env: map<string, Ty>, renv: map<string, Alt>, fuel: nat, cut: bool, exact: bool,
                                        parts: seq<Ty>, xs: seq<Alt>, v: Json)
    requires |xs| == |parts| > 0 && forall i :: 0 <= i < |xs| ==> WfAlt(xs[i])
    requires exact ==> NeverStrays(renv, cut, xs)
    requires forall i :: 0 <= i < |parts| ==> Agrees(env, renv, fuel, cut, exact, parts[i], xs[i], v)
    ensures Agrees(env, renv, fuel, cut, exact, TInter(parts), Alt(FuseAll(xs)), v)
  {
    if Inhabits(env, fuel, cut, TInter(parts), v) {
      forall i | 0 <= i < |xs|
        ensures InhabitsAlt(renv, fuel, cut, xs[i], v)
      {
        assert Inhabits(env, fuel, cut, TInter(parts).parts[i], v);
      }
      InFuseAll(renv, fuel, cut, xs, v);
    }
    if exact {
      assert Whole(xs);
      FusedAllExactly(renv, fuel, cut, xs, v);
    }
  }

  // ----- the generated file, read back -----

  /** The aliases of the generated file, each read from its printed text. */
  function ReadFile(env: Components): map<string, Alt> {
    map name | name in env ::
      match ReadText(Emit(env[name])) case Some(a) => a case None => Alt([])
  }

  lemma {:induction false} ReadFileTypes(env: Components)
    requires ReadableFile(env)
    ensures ReadFile(env) == ReadTypes(TypeEnv(env))
    ensures WfEnv(TypeEnv(env))
  {
    forall name | name in env
      ensures ReadText(Emit(env[name])) == Some(Read(Intended(env[name])))
      ensures WfTy(Intended(env[name]))
    {
      TypeExactly(env[name]);
    }
  }

  /** `v` inhabits the type that the text of `s` reads as, in the generated file as it reads. */
  ghost predicate TextAdmits(env: Components, fuel: nat, cut: bool, s: Schema, v: Json) {
    var text := ReadText(Emit(s));
    text.Some? && InhabitsAlt(ReadFile(env), fuel, cut, text.value, v)
  }

  lemma {:induction false} TextRead(env: Components, fuel: nat, cut: bool, s: Schema, v: Json)
    requires NothingEmpty(s)
    ensures TextAdmits(env, fuel, cut, s, v) <==> InhabitsAlt(ReadFile(env), fuel, cut, Read(Intended(s)), v)
  {
    TypeExactly(s);
  }

  /** The text printed for a supported schema is a type that admits every value the schema admits,
      although it is read with `&` tighter than `|` and no parentheses are printed. */
  lemma {:induction false} PrintedTypeSound(env: Components, fuel: nat, cut: bool, s: Schema, v: Json)
    requires SupportedEnv(env) && Supported(s)
    requires Valid(env, fuel, cut, s, v)
    ensures TextAdmits(env, fuel, cut, s, v)
  {
    SupportedFile(env);
    SupportedReadable(s);
    TypeExactly(s);
    ReadFileTypes(env);
    CompilerSound(env, fuel, cut, s, v);
    TextMeaning(TypeEnv(env), fuel, cut, false, Intended(s), v);
    TextRead(env, fuel, cut, s, v);
  }

  /** For `v`, the text of `s` says what was intended. */
  ghost predicate MeansTree(env: Components, fuel: nat, cut: bool, s: Schema, v: Json) {
    TextAdmits(env, fuel, cut, s, v) <==> Inhabits(TypeEnv(env), fuel, cut, Intended(s), v)
  }

  /** When nothing cut loose strays, in the schema or in a component, the text admits the values of the intended
      tree and no others. */
  lemma {:induction false} PrintedTypeTight(env: Components, fuel: nat, cut: bool, s: Schema, v: Json)
    requires ReadableFile(env) && NothingEmpty(s)
    requires TightEnv(TypeEnv(env), cut) && Tight(ReadFile(env), cut, Intended(s))
    ensures MeansTree(env, fuel, cut, s, v)
  {
    TypeExactly(s);
    ReadFileTypes(env);
    TextMeaning(TypeEnv(env), fuel, cut, true, Intended(s), v);
    TextRead(env, fuel, cut, s, v);
  }

  predicate UnambiguousFile(env: Components) {
    forall name :: name in env ==> Unambiguous(Intended(env[name]))
  }

  lemma {:induction false} UnambiguousFileIsTight(env: Components, cut: bool)
    requires ReadableFile(env) && UnambiguousFile(env)
    ensures TightEnv(TypeEnv(env), cut)
  {
    forall name | name in env
      ensures Tight(ReadTypes(TypeEnv(env)), cut, TypeEnv(env)[name])
    {
      TypeExactly(env[name]);
      UnambiguousIsTight(ReadTypes(TypeEnv(env)), cut, Intended(env[name]));
    }
  }

  /** Without ambiguity the text admits the values of the intended tree and no others. */
  lemma {:induction false} PrintedTypeFaithful(env: Components, fuel: nat, cut: bool, s: Schema, v: Json)
    requires ReadableFile(env) && NothingEmpty(s)
    requires Unambiguous(Intended(s)) && UnambiguousFile(env)
    ensures MeansTree(env, fuel, cut, s, v)
  {
    TypeExactly(s);
    UnambiguousIsTight(ReadFile(env), cut, Intended(s));
    UnambiguousFileIsTight(env, cut);
    PrintedTypeTight(env, fuel, cut, s, v);
  }

  // ----- exactly when the text of an `allOf` means the intersection -----

  /** The generator takes the `allOf` branch. */
  predicate TakesAllOf(s: Schema) {
    && s.ref.None? && s.constant.None? && s.enumeration.None? && s.anyOf.Missing? && s.oneOf.Missing?
    && s.allOf.Given?
  }

  /** The tree of an intersection and its text admit the same values, for branches whose own texts mean their
      trees, exactly when every alternative is contained in the branches it was cut loose from. */
  lemma {:induction false} InterExactly(env: map<string, Ty>, renv: map<string, Alt>, fuel: nat, cut: bool,
                                        parts: seq<Ty>, v: Json)
    requires parts != [] && Whole(ReadAll(parts)) && forall i :: 0 <= i < |parts| ==> WfAlt(ReadAll(parts)[i])
    requires forall i :: 0 <= i < |parts| ==> Agrees(env, renv, fuel, cut, true, parts[i], ReadAll(parts)[i], v)
    ensures (InhabitsAlt(renv, fuel, cut, Read(TInter(parts)), v) <==> Inhabits(env, fuel, cut, TInter(parts), v))
            <==> LooseContained(renv, fuel, cut, ReadAll(parts), v)
  {
    FusedAllExactly(renv, fuel, cut, ReadAll(parts), v);
    assert Inhabits(env, fuel, cut, TInter(parts), v) <==> InEvery(renv, fuel, cut, ReadAll(parts), v);
  }

  lemma {:induction false} BranchesMean(env: Components, fuel: nat, cut: bool, ss: seq<Schema>, v: Json)
    requires NoneEmpty(ss)
    requires forall i :: 0 <= i < |ss| ==> MeansTree(env, fuel, cut, ss[i], v)
    ensures var parts := IntendedAll(ss);
            && Whole(ReadAll(parts))
            && forall i :: 0 <= i < |parts| ==>
                 && WfAlt(ReadAll(parts)[i])
                 && Agrees(TypeEnv(env), ReadFile(env), fuel, cut, true, parts[i], ReadAll(parts)[i], v)
  {
    forall i | 0 <= i < |ss|
      ensures WfAlt(Read(Intended(ss[i])))
      ensures Agrees(TypeEnv(env), ReadFile(env), fuel, cut, true, Intended(ss[i]), Read(Intended(ss[i])), v)
    {
      TypeExactly(ss[i]);
      TextRead(env, fuel, cut, ss[i], v);
      assert MeansTree(env, fuel, cut, ss[i], v);
    }
  }

  /** The text printed for an `allOf`, whose branches say what was intended, says what was intended if and only if
      every alternative of it is contained in the branches it was cut loose from. */
  lemma {:induction false} AllOfExactly(env: Components, fuel: nat, cut: bool, s: Schema, v: Json)
    requires TakesAllOf(s) && NothingEmpty(s)
    requires forall i :: 0 <= i < |s.allOf.schemas| ==> MeansTree(env, fuel, cut, s.allOf.schemas[i], v)
    ensures var xs := ReadAll(IntendedAll(s.allOf.schemas));
            Whole(xs) && (MeansTree(env, fuel, cut, s, v) <==> LooseContained(ReadFile(env), fuel, cut, xs, v))
  {
    var parts := IntendedAll(s.allOf.schemas);
    assert Intended(s) == TInter(parts);
    TextRead(env, fuel, cut, s, v);
    BranchesMean(env, fuel, cut, s.allOf.schemas, v);
    InterExactly(TypeEnv(env), ReadFile(env), fuel, cut, parts, v);
  }

  // ----- an ambiguous text -----

  const STRING_OR_NUMBER := EMPTY.(anyOf := Given([Bare(StringType), Bare(NumberType)]))
  const ZERO := EMPTY.(constant := Some(SNum(0.0)))

  /** Prints `string | number & 0`. */
  const AMBIGUOUS := EMPTY.(allOf := Given([STRING_OR_NUMBER, ZERO]))

  lemma {:induction false} AmbiguousRejects(v: Json)
    requires v.JScalar? && v.scalar.SStr?
    ensures !Valid(map[], 0, false, AMBIGUOUS, v)
    ensures !Inhabits(map[], 0, false, Intended(AMBIGUOUS), v)
  {
    var branches := AMBIGUOUS.allOf.schemas;
    assert branches[1] == ZERO && !Valid(map[], 0, false, branches[1], v);
    var parts := Intended(AMBIGUOUS).parts;
    assert parts[1] == Intended(ZERO) == TLit(SNum(0.0));
    assert !Inhabits(map[], 0, false, parts[1], v);
  }

  lemma {:induction false} ReadStringOrNumber()
    ensures Read(Intended(STRING_OR_NUMBER)).groups
            == [Group([PWord(StringWord)]), Group([PWord(NumberWord)])]
  {
    var alts := Intended(STRING_OR_NUMBER).alts;
    assert alts[0] == TWord(StringWord) && alts[1] == TWord(NumberWord);
    var xs := ReadAll(alts);
    assert xs[0] == One(PWord(StringWord)) && xs[1] == One(PWord(NumberWord));
    assert Concat(xs[1..]) == xs[1].groups + Concat(xs[1..][1..]) == xs[1].groups;
  }

  lemma {:induction false} ReadAmbiguous()
    ensures var groups := Read(Intended(AMBIGUOUS)).groups;
            groups != [] && groups[0] == Group([PWord(StringWord)])
    ensures !Unambiguous(Intended(AMBIGUOUS))
  {
    var parts := Intended(AMBIGUOUS).parts;
    assert parts[0] == Intended(STRING_OR_NUMBER) && |parts[0].alts| == 2 && PrintsPipe(parts[0]);
    ReadStringOrNumber();
    var xs := ReadAll(parts);
    assert xs[0] == Read(parts[0]) && xs[1] == One(PLit(SNum(0.0)));
    assert FuseAll(xs)[0] == Group([PWord(StringWord)]);
  }

  lemma {:induction false} AmbiguousSupported()
    ensures Supported(AMBIGUOUS)
  {
    assert SupportedAll(STRING_OR_NUMBER.anyOf.schemas);
    assert SupportedAll(AMBIGUOUS.allOf.schemas);
  }

  /** The text admits every string, the schema and the intended type none. */
  lemma {:induction false} AmbiguousTextAdmitsMore(v: Json)
    requires v.JScalar? && v.scalar.SStr?
    ensures Supported(AMBIGUOUS) && !Unambiguous(Intended(AMBIGUOUS))
    ensures !Valid(map[], 0, false, AMBIGUOUS, v)
    ensures !Inhabits(map[], 0, false, Intended(AMBIGUOUS), v)
    ensures TextAdmits(map[], 0, false, AMBIGUOUS, v)
  {
    AmbiguousRejects(v);
    AmbiguousSupported();
    SupportedReadable(AMBIGUOUS);
    ReadAmbiguous();
    assert ReadFile(map[]) == map[];
    StringInAlt(Read(Intended(AMBIGUOUS)), v);
    TextRead(map[], 0, false, AMBIGUOUS, v);
  }

  lemma {:induction false} StringInAlt(a: Alt, v: Json)
    requires v.JScalar? && v.scalar.SStr?
    requires a.groups != [] && a.groups[0] == Group([PWord(StringWord)])
    ensures InhabitsAlt(map[], 0, false, a, v)
  {
    assert InhabitsGroup(map[], 0, false, a.groups[0], v);
  }

  const STRING_TWICE := EMPTY.(anyOf := Given([Bare(StringType), Bare(StringType)]))

  /** Prints `string | string & string`. */
  const HARMLESS := EMPTY.(allOf := Given([STRING_TWICE, Bare(StringType)]))

  lemma {:induction false} TwoStrings(xs: seq<Alt>)
    requires |xs| == 2 && xs[0] == One(PWord(StringWord)) && xs[1] == One(PWord(StringWord))
    ensures Concat(xs) == [Group([PWord(StringWord)]), Group([PWord(StringWord)])]
  {
    assert Concat(xs[1..]) == xs[1].groups + Concat(xs[1..][1..]) == xs[1].groups;
  }

  lemma {:induction false} ReadTwice()
    ensures var twice := Intended(STRING_TWICE);
            && twice.TUnion? && Unambiguous(twice) && WfTy(twice) && PrintsPipe(twice)
            && Read(twice).groups == [Group([PWord(StringWord)]), Group([PWord(StringWord)])]
  {
    var alts := Intended(STRING_TWICE).alts;
    assert alts[0] == TWord(StringWord) && alts[1] == TWord(StringWord);
    TwoStrings(ReadAll(alts));
  }

  lemma {:induction false} ReadHarmless()
    ensures var parts := IntendedAll(HARMLESS.allOf.schemas);
            && |parts| == 2 && !Unambiguous(Intended(HARMLESS))
            && ReadAll(parts)[0].groups == [Group([PWord(StringWord)]), Group([PWord(StringWord)])]
            && ReadAll(parts)[1] == One(PWord(StringWord))
            && forall i :: 0 <= i < |parts| ==> Unambiguous(parts[i]) && WfTy(parts[i])
  {
    var parts := IntendedAll(HARMLESS.allOf.schemas);
    assert parts[0] == Intended(STRING_TWICE) && parts[1] == TWord(StringWord);
    ReadTwice();
  }

  lemma {:induction false} HarmlessSupported()
    ensures Supported(HARMLESS)
  {
    assert SupportedAll(STRING_TWICE.anyOf.schemas);
    assert SupportedAll(HARMLESS.allOf.schemas);
  }

  lemma {:induction false} StringsContained(fuel: nat, xs: seq<Alt>, v: Json)
    requires |xs| == 2 && xs[1] == One(PWord(StringWord))
    requires xs[0].groups == [Group([PWord(StringWord)]), Group([PWord(StringWord)])]
    ensures Whole(xs) && LooseContained(map[], fuel, false, xs, v)
  {
    forall i | 0 <= i < 2
      ensures InhabitsAlt(map[], fuel, false, xs[i], v) <==> v.JScalar? && v.scalar.SStr?
    {
      if k :| 0 <= k < |xs[i].groups| && InhabitsGroup(map[], fuel, false, xs[i].groups[k], v) {
        assert InhabitsPrim(map[], fuel, false, xs[i].groups[k].prims[0], v);
      }
      if v.JScalar? && v.scalar.SStr? {
        assert InhabitsGroup(map[], fuel, false, xs[i].groups[0], v);
      }
    }
    assert xs[1..] == [xs[1]] && FuseAll(xs) == Fuse(xs[0].groups, xs[1].groups);
    assert FuseAll(xs)[0].prims[0] == PWord(StringWord) && FuseAll(xs)[1].prims[0] == PWord(StringWord);
    forall p | 0 <= p < |FuseAll(xs)| && InhabitsGroup(map[], fuel, false, FuseAll(xs)[p], v)
      ensures v.JScalar? && v.scalar.SStr?
    {
      assert InhabitsPrim(map[], fuel, false, FuseAll(xs)[p].prims[0], v);
    }
  }

  /** A union inside an intersection need not do harm: this text reads back as another tree, and still admits
      exactly the intended values. */
  lemma {:induction false} AmbiguousButExact(fuel: nat, v: Json)
    ensures Supported(HARMLESS) && !Unambiguous(Intended(HARMLESS))
    ensures MeansTree(map[], fuel, false, HARMLESS, v)
  {
    var ss := HARMLESS.allOf.schemas;
    HarmlessSupported();
    SupportedReadable(HARMLESS);
    ReadHarmless();
    assert ReadFile(map[]) == map[];
    forall i | 0 <= i < |ss|
      ensures MeansTree(map[], fuel, false, ss[i], v)
    {
      assert IntendedAll(ss)[i] == Intended(ss[i]);
      PrintedTypeFaithful(map[], fuel, false, ss[i], v);
    }
    StringsContained(fuel, ReadAll(IntendedAll(ss)), v);
    AllOfExactly(map[], fuel, false, HARMLESS, v);
  }
}
