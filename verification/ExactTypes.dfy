/** When the printed type says no more than the schema: schemas whose type admits exactly their values, and for the
    keywords that a type cannot express, exactly which values the type admits beyond them. */
module ExactTypes {
  import opened Schemas
  import opened Types
  import opened ClientTypes
  import opened ReadableText
  import opened PrintedMeaning

  /** No keyword besides the type and the combinators demands anything. */
  predicate Undemanding(s: Schema) {
    && s.items.None? && s.properties.NoProperties? && s.required == {}
    && (s.additional.NotGiven? || s.additional.Allowed?)
  }

  /** A type name that the printed word says in full: not `integer`, which is printed as `number`. */
  predicate Expressible(name: TypeName) {
    !name.IntegerType? && !name.OtherType?
  }

  /** Every member that must be there is declared, and members that are not declared are not forbidden. */
  predicate Open(s: Schema) {
    && (forall name :: name in s.required ==> Declares(s.properties, name))
    && !s.additional.Forbidden?
  }

  predicate ExactAll(env: Components, ss: seq<Schema>)
    decreases ss
  {
    forall i :: 0 <= i < |ss| ==> Exact(env, ss[i])
  }

  predicate ExactParts(env: Components, s: Schema)
    decreases s, 0
  {
    && (s.properties.Declared? ==>
          forall i :: 0 <= i < |s.properties.list| ==> Exact(env, s.properties.list[i].schema))
    && (s.additional.Constrained? ==> Exact(env, s.additional.schema))
  }

  /** Schemas that say nothing which a TypeScript type cannot say, along the branch that the generator takes. */
  predicate Exact(env: Components, s: Schema)
    decreases s, 1
  {
    if s.ref.Some? then s == EMPTY.(ref := s.ref) && Resolve(env, s.ref.value).Some?
    else if s.constant.Some? then s == EMPTY.(constant := s.constant)
    else if s.enumeration.Some? then s == EMPTY.(enumeration := s.enumeration)
    else if s.anyOf.Given? then s == EMPTY.(anyOf := s.anyOf) && ExactAll(env, s.anyOf.schemas)
    else if s.oneOf.Given? then false
    else if s.allOf.Given? then s == EMPTY.(allOf := s.allOf) && ExactAll(env, s.allOf.schemas)
    else
      match s.typ
      case ManyTypes(names) => Undemanding(s) && forall i :: 0 <= i < |names| ==> Expressible(names[i])
      case OneType(ArrayType) => s.items.Some? ==> Exact(env, s.items.value)
      case OneType(ObjectType) => Open(s) && ExactParts(env, s)
      case OneType(name) => Expressible(name)
      case NoType => if PrintsObject(s) then Open(s) && ExactParts(env, s) else Undemanding(s)
  }

  predicate ExactFile(env: Components) {
    forall name :: name in env ==> '/' !in name && Exact(env, env[name])
  }

  // ----- a keyword that stands alone -----

  lemma {:induction false} LoneAnyOf(env: Components, fuel: nat, cut: bool, s: Schema, v: Json)
    requires s.anyOf.Given? && s == EMPTY.(anyOf := s.anyOf)
    ensures Valid(env, fuel, cut, s, v) <==>
            exists i :: 0 <= i < |s.anyOf.schemas| && Valid(env, fuel, cut, s.anyOf.schemas[i], v)
  {
  }

  lemma {:induction false} LoneOneOf(env: Components, fuel: nat, cut: bool, s: Schema, v: Json, i: nat)
    requires s.oneOf.Given? && s == EMPTY.(oneOf := s.oneOf)
    requires i < |s.oneOf.schemas| && Valid(env, fuel, cut, s.oneOf.schemas[i], v)
    requires forall j :: 0 <= j < |s.oneOf.schemas| && j != i ==> !Valid(env, fuel, cut, s.oneOf.schemas[j], v)
    ensures Valid(env, fuel, cut, s, v)
  {
  }

  lemma {:induction false} OneOfBoth(env: Components, fuel: nat, cut: bool, s: Schema, v: Json, i: nat, j: nat)
    requires s.oneOf.Given? && Valid(env, fuel, cut, s, v)
    requires i < j < |s.oneOf.schemas| && Valid(env, fuel, cut, s.oneOf.schemas[i], v)
    ensures !Valid(env, fuel, cut, s.oneOf.schemas[j], v)
  {
    var ss := s.oneOf.schemas;
    var k :| 0 <= k < |ss| && Valid(env, fuel, cut, ss[k], v)
             && forall j :: 0 <= j < |ss| && j != k ==> !Valid(env, fuel, cut, ss[j], v);
    assert i == k;
  }

  lemma {:induction false} LoneAllOf(env: Components, fuel: nat, cut: bool, s: Schema, v: Json)
    requires s.allOf.Given? && s == EMPTY.(allOf := s.allOf)
    ensures Valid(env, fuel, cut, s, v) <==>
            forall i :: 0 <= i < |s.allOf.schemas| ==> Valid(env, fuel, cut, s.allOf.schemas[i], v)
  {
  }

  lemma {:induction false} LoneRef(env: Components, fuel: nat, cut: bool, s: Schema, v: Json)
    requires s.ref.Some? && s == EMPTY.(ref := s.ref) && Resolve(env, s.ref.value).Some?
    ensures Valid(env, fuel, cut, s, v) <==>
            if fuel == 0 then cut else Valid(env, fuel - 1, cut, Resolve(env, s.ref.value).value, v)
  {
  }

  lemma {:induction false} LoneScalars(env: Components, fuel: nat, cut: bool, s: Schema, v: Json)
    ensures s.constant.Some? && s == EMPTY.(constant := s.constant) ==>
              (Valid(env, fuel, cut, s, v) <==> v == JScalar(s.constant.value))
    ensures s.enumeration.Some? && s == EMPTY.(enumeration := s.enumeration) ==>
              (Valid(env, fuel, cut, s, v) <==> v.JScalar? && v.scalar in s.enumeration.value)
  {
  }

  // ----- what the tree admits, the schema admits -----

  /** The converse of soundness: every value that inhabits the intended type of an exact schema is valid. */
  lemma {:induction false} ExactTree(env: Components, fuel: nat, cut: bool, s: Schema, v: Json)
    requires ExactFile(env) && Exact(env, s)
    requires Inhabits(TypeEnv(env), fuel, cut, Intended(s), v)
    ensures Valid(env, fuel, cut, s, v)
    decreases fuel, s, 2
  {
    LoneScalars(env, fuel, cut, s, v);
    if s.ref.Some? {
      ExactReference(env, fuel, cut, s, v);
    } else if s.constant.Some? {
      ConstantExact(env, fuel, cut, s, v);
    } else if s.enumeration.Some? {
      EnumerationExact(env, fuel, cut, s, v);
    } else if s.anyOf.Given? || s.allOf.Given? {
      ExactCombinator(env, fuel, cut, s, v);
    } else {
      ExactType(env, fuel, cut, s, v);
    }
  }

  lemma {:induction false} ExactReference(env: Components, fuel: nat, cut: bool, s: Schema, v: Json)
    requires ExactFile(env) && Exact(env, s) && s.ref.Some?
    requires Inhabits(TypeEnv(env), fuel, cut, TRef(RefName(s.ref.value)), v)
    ensures Valid(env, fuel, cut, s, v)
    decreases fuel, s, 1
  {
    RefNameResolves(env, s.ref.value);
    LoneRef(env, fuel, cut, s, v);
    Alias(env, fuel, cut, RefName(s.ref.value), v);
    if fuel > 0 {
      ExactTree(env, fuel - 1, cut, env[RefName(s.ref.value)], v);
    }
  }

  lemma {:induction false} Alias(env: Components, fuel: nat, cut: bool, name: string, v: Json)
    requires name in env && Inhabits(TypeEnv(env), fuel, cut, TRef(name), v)
    ensures if fuel == 0 then cut else Inhabits(TypeEnv(env), fuel - 1, cut, Intended(env[name]), v)
  {
  }

  lemma {:induction false} ExactCombinator(env: Components, fuel: nat, cut: bool, s: Schema, v: Json)
    requires ExactFile(env) && Exact(env, s)
    requires s.ref.None? && s.constant.None? && s.enumeration.None? && (s.anyOf.Given? || s.allOf.Given?)
    requires Inhabits(TypeEnv(env), fuel, cut, Intended(s), v)
    ensures Valid(env, fuel, cut, s, v)
    decreases fuel, s, 1
  {
    if s.anyOf.Given? {
      var i := ExactBranch(env, fuel, cut, s.anyOf.schemas, v);
      LoneAnyOf(env, fuel, cut, s, v);
    } else {
      ExactBranches(env, fuel, cut, s.allOf.schemas, v);
      LoneAllOf(env, fuel, cut, s, v);
    }
  }

  lemma {:induction false} ConstantExact(env: Components, fuel: nat, cut: bool, s: Schema, v: Json)
    requires s.ref.None? && s.constant.Some?
    requires Inhabits(TypeEnv(env), fuel, cut, Intended(s), v)
    ensures v == JScalar(s.constant.value)
  {
  }

  lemma {:induction false} EnumerationExact(env: Components, fuel: nat, cut: bool, s: Schema, v: Json)
    requires s.ref.None? && s.constant.None? && s.enumeration.Some?
    requires Inhabits(TypeEnv(env), fuel, cut, Intended(s), v)
    ensures v.JScalar? && v.scalar in s.enumeration.value
  {
    var cs := s.enumeration.value;
    var alts := Intended(s).alts;
    var i :| 0 <= i < |alts| && Inhabits(TypeEnv(env), fuel, cut, alts[i], v);
    assert alts[i] == TypeOfScalar(cs[i]) && cs[i] in cs;
  }

  lemma {:induction false} ExactBranch(env: Components, fuel: nat, cut: bool, ss: seq<Schema>, v: Json)
    returns (i: nat)
    requires ExactFile(env) && ExactAll(env, ss)
    requires Inhabits(TypeEnv(env), fuel, cut, TUnion(IntendedAll(ss)), v)
    ensures i < |ss| && Valid(env, fuel, cut, ss[i], v)
    decreases fuel, ss
  {
    i :| 0 <= i < |ss| && Inhabits(TypeEnv(env), fuel, cut, TUnion(IntendedAll(ss)).alts[i], v);
    ExactTree(env, fuel, cut, ss[i], v);
  }

  lemma {:induction false} ExactBranches(env: Components, fuel: nat, cut: bool, ss: seq<Schema>, v: Json)
    requires ExactFile(env) && ExactAll(env, ss)
    requires Inhabits(TypeEnv(env), fuel, cut, TInter(IntendedAll(ss)), v)
    ensures forall i :: 0 <= i < |ss| ==> Valid(env, fuel, cut, ss[i], v)
    decreases fuel, ss
  {
    forall i | 0 <= i < |ss|
      ensures Valid(env, fuel, cut, ss[i], v)
    {
      assert Inhabits(TypeEnv(env), fuel, cut, TInter(IntendedAll(ss)).parts[i], v);
      ExactTree(env, fuel, cut, ss[i], v);
    }
  }

  lemma {:induction false} ExactType(env: Components, fuel: nat, cut: bool, s: Schema, v: Json)
    requires ExactFile(env) && Exact(env, s) && ReachesType(s)
    requires Inhabits(TypeEnv(env), fuel, cut, Intended(s), v)
    ensures Valid(env, fuel, cut, s, v)
    decreases fuel, s, 1
  {
    if s.typ.ManyTypes? {
      ExactTypeList(env, fuel, cut, s, v);
    } else if s.typ == OneType(ArrayType) {
      if s.items.Some? {
        forall i | 0 <= i < |v.items|
          ensures Valid(env, fuel, cut, s.items.value, v.items[i])
        {
          ExactTree(env, fuel, cut, s.items.value, v.items[i]);
        }
      }
    } else if (s.typ == NoType || s.typ == OneType(ObjectType)) && PrintsObject(s) {
      ExactMembers(env, fuel, cut, s, v);
      RequiredThere(env, fuel, cut, s, v);
      ObjectFits(env, fuel, cut, s, v);
    } else {
      ExactWord(env, fuel, cut, s, v);
    }
  }

  lemma {:induction false} ExactTypeList(env: Components, fuel: nat, cut: bool, s: Schema, v: Json)
    requires Exact(env, s) && ReachesType(s) && s.typ.ManyTypes?
    requires Inhabits(TypeEnv(env), fuel, cut, Intended(s), v)
    ensures Valid(env, fuel, cut, s, v)
  {
    var names, alts := s.typ.names, Intended(s).alts;
    var i :| 0 <= i < |alts| && Inhabits(TypeEnv(env), fuel, cut, alts[i], v);
    assert alts[i] == TypeOfName(names[i]) && Expressible(names[i]);
    assert HasType(names[i], v);
  }

  lemma {:induction false} ExactWord(env: Components, fuel: nat, cut: bool, s: Schema, v: Json)
    requires Exact(env, s) && ReachesType(s) && !TakesObject(s) && !s.typ.ManyTypes? && s.typ != OneType(ArrayType)
    requires Inhabits(TypeEnv(env), fuel, cut, Intended(s), v)
    ensures Valid(env, fuel, cut, s, v)
  {
  }

  /** Every property, and every member that is not declared, fits its schema. */
  ghost predicate MembersValid(env: Components, fuel: nat, cut: bool, s: Schema, o: map<string, Json>) {
    && (s.properties.Declared? ==>
          forall i :: 0 <= i < |s.properties.list| && s.properties.list[i].name in o ==>
            Valid(env, fuel, cut, s.properties.list[i].schema, o[s.properties.list[i].name]))
    && (s.additional.Constrained? ==>
          forall k :: k in o && !Declares(s.properties, k) ==> Valid(env, fuel, cut, s.additional.schema, o[k]))
  }

  lemma {:induction false} ObjectFits(env: Components, fuel: nat, cut: bool, s: Schema, v: Json)
    requires ReachesType(s) && v.JObj? && (s.typ == NoType || s.typ == OneType(ObjectType))
    requires MembersValid(env, fuel, cut, s, v.members)
    ensures Valid(env, fuel, cut, s, v) <==>
            && s.required <= v.members.Keys
            && (s.additional.Forbidden? ==> forall k :: k in v.members ==> Declares(s.properties, k))
  {
  }

  lemma {:induction false} MembersInhabit(env: map<string, Ty>, fuel: nat, cut: bool, a: seq<Member<Ty>>,
                                          b: seq<Member<Ty>>, v: Json)
    requires Inhabits(env, fuel, cut, TObj(a + b), v)
    ensures v.JObj?
    ensures forall i :: 0 <= i < |a| ==> FitsMember(env, fuel, cut, a[i], v.members)
    ensures forall i :: 0 <= i < |b| ==> FitsMember(env, fuel, cut, b[i], v.members)
  {
    var all := TObj(a + b).members;
    forall i | 0 <= i < |a| ensures FitsMember(env, fuel, cut, a[i], v.members) {
      assert all[i] == a[i];
    }
    forall i | 0 <= i < |b| ensures FitsMember(env, fuel, cut, b[i], v.members) {
      assert all[|a| + i] == b[i];
    }
  }

  lemma {:induction false} ExactMembers(env: Components, fuel: nat, cut: bool, s: Schema, v: Json)
    requires ExactFile(env) && TakesObject(s) && ExactParts(env, s)
    requires Inhabits(TypeEnv(env), fuel, cut, Intended(s), v)
    ensures v.JObj? && MembersValid(env, fuel, cut, s, v.members)
    decreases fuel, s, 0
  {
    var ps := ListOf(s.properties);
    var fields, index := IntendedFields(ps, s.required), IntendedAdditional(s.additional);
    ObjectParts(s);
    MembersInhabit(TypeEnv(env), fuel, cut, fields, index, v);
    if s.properties.Declared? {
      forall i | 0 <= i < |s.properties.list| && s.properties.list[i].name in v.members
        ensures Valid(env, fuel, cut, s.properties.list[i].schema, v.members[s.properties.list[i].name])
      {
        assert FitsMember(TypeEnv(env), fuel, cut, fields[i], v.members);
        ExactTree(env, fuel, cut, s.properties.list[i].schema, v.members[s.properties.list[i].name]);
      }
    }
    if s.additional.Constrained? {
      assert FitsMember(TypeEnv(env), fuel, cut, index[0], v.members);
      forall k | k in v.members
        ensures Valid(env, fuel, cut, s.additional.schema, v.members[k])
      {
        ExactTree(env, fuel, cut, s.additional.schema, v.members[k]);
      }
    }
  }

  /** Members that are declared and required are there. */
  lemma {:induction false} RequiredThere(env: Components, fuel: nat, cut: bool, s: Schema, v: Json)
    requires TakesObject(s) && Inhabits(TypeEnv(env), fuel, cut, Intended(s), v)
    ensures v.JObj? && forall name :: name in s.required && Declares(s.properties, name) ==> name in v.members
  {
    var ps := ListOf(s.properties);
    var fields := IntendedFields(ps, s.required);
    ObjectParts(s);
    MembersInhabit(TypeEnv(env), fuel, cut, fields, IntendedAdditional(s.additional), v);
    forall name | name in s.required && Declares(s.properties, name)
      ensures name in v.members
    {
      var i :| 0 <= i < |ps| && ps[i].name == name;
      assert FitsMember(TypeEnv(env), fuel, cut, fields[i], v.members);
    }
  }

  // ----- what a type cannot say -----

  /** Objects: of the values that inhabit the tree, the schema admits exactly those with every required member, and
      with no undeclared one when these are forbidden. */
  lemma {:induction false} ObjectExactly(env: Components, fuel: nat, cut: bool, s: Schema, v: Json)
    requires ExactFile(env) && TakesObject(s) && ExactParts(env, s)
    requires s.typ == NoType || s.typ == OneType(ObjectType)
    requires Inhabits(TypeEnv(env), fuel, cut, Intended(s), v)
    ensures v.JObj?
    ensures Valid(env, fuel, cut, s, v) <==>
            && s.required <= v.members.Keys
            && (s.additional.Forbidden? ==> forall k :: k in v.members ==> Declares(s.properties, k))
  {
    ExactMembers(env, fuel, cut, s, v);
    ObjectFits(env, fuel, cut, s, v);
  }

  /** `oneOf`: of the values that inhabit the union, the schema admits exactly those valid for one branch only. */
  lemma {:induction false} OneOfExactly(env: Components, fuel: nat, cut: bool, s: Schema, v: Json)
    requires ExactFile(env) && s.oneOf.Given? && s == EMPTY.(oneOf := s.oneOf) && ExactAll(env, s.oneOf.schemas)
    requires Inhabits(TypeEnv(env), fuel, cut, Intended(s), v)
    ensures Valid(env, fuel, cut, s, v) <==> OneAtMost(env, fuel, cut, s.oneOf.schemas, v)
  {
    OneOfValid(env, fuel, cut, s, v);
    OneOfAdmits(env, fuel, cut, s, v);
  }

  lemma {:induction false} OneOfValid(env: Components, fuel: nat, cut: bool, s: Schema, v: Json)
    requires s.oneOf.Given?
    ensures Valid(env, fuel, cut, s, v) ==> OneAtMost(env, fuel, cut, s.oneOf.schemas, v)
  {
    var ss := s.oneOf.schemas;
    forall i, j | Valid(env, fuel, cut, s, v) && 0 <= i < j < |ss| && Valid(env, fuel, cut, ss[i], v)
      ensures !Valid(env, fuel, cut, ss[j], v)
    {
      OneOfBoth(env, fuel, cut, s, v, i, j);
    }
  }

  lemma {:induction false} OneOfAdmits(env: Components, fuel: nat, cut: bool, s: Schema, v: Json)
    requires ExactFile(env) && s.oneOf.Given? && s == EMPTY.(oneOf := s.oneOf) && ExactAll(env, s.oneOf.schemas)
    requires Inhabits(TypeEnv(env), fuel, cut, Intended(s), v)
    ensures OneAtMost(env, fuel, cut, s.oneOf.schemas, v) ==> Valid(env, fuel, cut, s, v)
  {
    var i := ExactBranch(env, fuel, cut, s.oneOf.schemas, v);
    if OneAtMost(env, fuel, cut, s.oneOf.schemas, v) {
      OthersInvalid(env, fuel, cut, s.oneOf.schemas, v, i);
      LoneOneOf(env, fuel, cut, s, v, i);
    }
  }

  /** No two branches admit `v`. */
  ghost predicate OneAtMost(env: Components, fuel: nat, cut: bool, ss: seq<Schema>, v: Json) {
    forall i, j :: 0 <= i < j < |ss| && Valid(env, fuel, cut, ss[i], v) ==> !Valid(env, fuel, cut, ss[j], v)
  }

  lemma {:induction false} OthersInvalid(env: Components, fuel: nat, cut: bool, ss: seq<Schema>, v: Json, i: nat)
    requires i < |ss| && Valid(env, fuel, cut, ss[i], v) && OneAtMost(env, fuel, cut, ss, v)
    ensures forall j :: 0 <= j < |ss| && j != i ==> !Valid(env, fuel, cut, ss[j], v)
  {
  }

  /** `integer` is printed as `number`: of the numbers, the schema admits exactly the whole ones. */
  lemma {:induction false} IntegerExactly(env: Components, fuel: nat, cut: bool, v: Json)
    ensures Inhabits(TypeEnv(env), fuel, cut, Intended(Bare(IntegerType)), v) <==> v.JScalar? && v.scalar.SNum?
    ensures Valid(env, fuel, cut, Bare(IntegerType), v) <==>
            v.JScalar? && v.scalar.SNum? && v.scalar.x == v.scalar.x.Floor as real
  {
  }

  // ----- the printed text -----

  /** The text of an exact schema, in a file where nothing is ambiguous, admits no value that the schema rejects;
      when the schema is supported too, it admits exactly the schema's values. */
  lemma {:induction false} ExactText(env: Components, fuel: nat, cut: bool, s: Schema, v: Json)
    requires ExactFile(env) && ReadableFile(env) && UnambiguousFile(env)
    requires Exact(env, s) && NothingEmpty(s) && Unambiguous(Intended(s))
    ensures TextAdmits(env, fuel, cut, s, v) ==> Valid(env, fuel, cut, s, v)
    ensures SupportedEnv(env) && Supported(s) ==> (TextAdmits(env, fuel, cut, s, v) <==> Valid(env, fuel, cut, s, v))
  {
    PrintedTypeFaithful(env, fuel, cut, s, v);
    if TextAdmits(env, fuel, cut, s, v) {
      ExactTree(env, fuel, cut, s, v);
    }
    if SupportedEnv(env) && Supported(s) && Valid(env, fuel, cut, s, v) {
      PrintedTypeSound(env, fuel, cut, s, v);
    }
  }

  /** The text of a constant admits that value alone. */
  lemma {:induction false} ConstantText(fuel: nat, cut: bool, c: Scalar, v: Json)
    ensures TextAdmits(map[], fuel, cut, EMPTY.(constant := Some(c)), v) <==> v == JScalar(c)
  {
    ExactText(map[], fuel, cut, EMPTY.(constant := Some(c)), v);
  }

  /** The text of an enumeration admits its members and nothing else. */
  lemma {:induction false} EnumerationText(fuel: nat, cut: bool, cs: seq<Scalar>, v: Json)
    requires cs != []
    ensures TextAdmits(map[], fuel, cut, EMPTY.(enumeration := Some(cs)), v) <==> v.JScalar? && v.scalar in cs
  {
    ExactText(map[], fuel, cut, EMPTY.(enumeration := Some(cs)), v);
  }

  /** The text of a scalar type other than `integer` admits exactly the values of that type. */
  lemma {:induction false} ScalarText(fuel: nat, cut: bool, name: TypeName, v: Json)
    requires name in SCALAR_TYPES && !name.IntegerType?
    ensures TextAdmits(map[], fuel, cut, Bare(name), v) <==> HasType(name, v)
  {
    ExactText(map[], fuel, cut, Bare(name), v);
  }
}
