/** The schema-to-TypeScript compiler of the API client generator (scripts/generate_api_v1_client.py):
    the text it prints for a schema, the type tree that text is meant to be, and the proof that the
    tree admits every value the schema admits. */
module ClientTypes {
  import opened Schemas
  import opened Types
  import Text
  import Ordering

  // ----- what the generator prints -----

  /** A reference is printed as its last segment. */
  function RefName(reference: string): string {
    Text.LastSegment(reference)
  }

  function Join(parts: seq<seq<Token>>, separator: Token): seq<Token> {
    if |parts| == 0 then []
    else if |parts| == 1 then parts[0]
    else parts[0] + [separator] + Join(parts[1..], separator)
  }

  function Flatten(parts: seq<seq<Token>>): seq<Token> {
    if parts == [] then [] else parts[0] + Flatten(parts[1..])
  }

  /** A literal as JSON text; the literal null is the keyword. */
  function Literal(c: Scalar): Token {
    if c.SNull? then TkWord(NullWord) else TkLit(c)
  }

  function Literals(cs: seq<Scalar>): seq<seq<Token>> {
    seq(|cs|, i requires 0 <= i < |cs| => [Literal(cs[i])])
  }

  /** One entry of a type list: the type of `{"type": name}`. */
  function EmitName(name: TypeName): seq<Token> {
    match name
    case StringType => [TkWord(StringWord)]
    case IntegerType => [TkWord(NumberWord)]
    case NumberType => [TkWord(NumberWord)]
    case BooleanType => [TkWord(BooleanWord)]
    case NullType => [TkWord(NullWord)]
    case ArrayType => [TkArrayOpen, TkWord(UnknownWord), TkArrayClose]
    case ObjectType => [TkLBrace, TkRBrace]
    case OtherType(_) => [TkWord(UnknownWord)]
  }

  function EmitNames(names: seq<TypeName>): seq<seq<Token>> {
    seq(|names|, i requires 0 <= i < |names| => EmitName(names[i]))
  }

  function FieldText(name: string, optional: bool, typ: seq<Token>): seq<Token> {
    [TkLit(SStr(name))] + (if optional then [TkQuestion] else []) + [TkColon] + typ + [TkSemi]
  }

  function IndexText(typ: seq<Token>): seq<Token> {
    [TkIndexKey, TkColon] + typ + [TkSemi]
  }

  /** The object branch is taken for `type: object` and for any other schema with `properties`. */
  predicate PrintsObject(s: Schema) {
    s.typ == OneType(ObjectType) || s.properties.Declared?
  }

  function Emit(s: Schema): seq<Token>
    decreases s
  {
    if s.ref.Some? then [TkName(RefName(s.ref.value))]
    else if s.constant.Some? then [Literal(s.constant.value)]
    else if s.enumeration.Some? then Join(Literals(s.enumeration.value), TkPipe)
    else if s.anyOf.Given? then Join(EmitAll(s.anyOf.schemas), TkPipe)
    else if s.oneOf.Given? then Join(EmitAll(s.oneOf.schemas), TkPipe)
    else if s.allOf.Given? then Join(EmitAll(s.allOf.schemas), TkAmp)
    else
      match s.typ
      case ManyTypes(names) => Join(EmitNames(names), TkPipe)
      case OneType(StringType) => [TkWord(StringWord)]
      case OneType(IntegerType) => [TkWord(NumberWord)]
      case OneType(NumberType) => [TkWord(NumberWord)]
      case OneType(BooleanType) => [TkWord(BooleanWord)]
      case OneType(NullType) => [TkWord(NullWord)]
      case OneType(ArrayType) =>
        [TkArrayOpen] + (if s.items.Some? then Emit(s.items.value) else [TkWord(UnknownWord)]) + [TkArrayClose]
      case _ =>
        if PrintsObject(s) then
          [TkLBrace]
          + Flatten((if s.properties.Declared? then EmitFields(s.properties.list, s.required) else [])
                    + EmitAdditional(s.additional))
          + [TkRBrace]
        else
          [TkWord(UnknownWord)]
  }

  function EmitAll(ss: seq<Schema>): (r: seq<seq<Token>>)
    ensures |r| == |ss| && forall i :: 0 <= i < |ss| ==> r[i] == Emit(ss[i])
    decreases ss
  {
    if ss == [] then [] else [Emit(ss[0])] + EmitAll(ss[1..])
  }

  function EmitFields(ps: seq<Property>, required: set<string>): (r: seq<seq<Token>>)
    ensures |r| == |ps|
    ensures forall i :: 0 <= i < |ps| ==>
              r[i] == FieldText(ps[i].name, ps[i].name !in required, Emit(ps[i].schema))
    decreases ps
  {
    if ps == [] then [] else
    [FieldText(ps[0].name, ps[0].name !in required, Emit(ps[0].schema))] + EmitFields(ps[1..], required)
  }

  function EmitAdditional(a: Additional): seq<seq<Token>>
    decreases a
  {
    match a
    case Constrained(schema) => [IndexText(Emit(schema))]
    case Allowed => [IndexText([TkWord(UnknownWord)])]
    case _ => []
  }

  /** An entry of a type list prints as the schema that holds nothing but that type. */
  lemma EmitNameIsBare(name: TypeName)
    ensures Emit(Bare(name)) == EmitName(name)
  {
    if name == ObjectType {
      assert Flatten([]) == [];
    }
  }

  method TsType(s: Schema) returns (r: seq<Token>)
    ensures r == Emit(s)
    decreases s
  {
    if s.ref.Some? {
      return [TkName(RefName(s.ref.value))];
    } else if s.constant.Some? {
      return [Literal(s.constant.value)];
    } else if s.enumeration.Some? {
      return Join(Literals(s.enumeration.value), TkPipe);
    } else if s.anyOf.Given? {
      var parts := TsTypes(s.anyOf.schemas);
      return Join(parts, TkPipe);
    } else if s.oneOf.Given? {
      var parts := TsTypes(s.oneOf.schemas);
      return Join(parts, TkPipe);
    } else if s.allOf.Given? {
      var parts := TsTypes(s.allOf.schemas);
      return Join(parts, TkAmp);
    }
    match s.typ {
      case ManyTypes(names) => r := Join(EmitNames(names), TkPipe);
      case OneType(StringType) => r := [TkWord(StringWord)];
      case OneType(IntegerType) => r := [TkWord(NumberWord)];
      case OneType(NumberType) => r := [TkWord(NumberWord)];
      case OneType(BooleanType) => r := [TkWord(BooleanWord)];
      case OneType(NullType) => r := [TkWord(NullWord)];
      case OneType(ArrayType) =>
        var elem := [TkWord(UnknownWord)];
        if s.items.Some? {
          elem := TsType(s.items.value);
        }
        r := [TkArrayOpen] + elem + [TkArrayClose];
      case _ =>
        if !PrintsObject(s) {
          return [TkWord(UnknownWord)];
        }
        var fields: seq<seq<Token>> := [];
        if s.properties.Declared? {
          fields := TsFields(s.properties.list, s.required);
        }
        if s.additional.Constrained? {
          var typ := TsType(s.additional.schema);
          fields := fields + [IndexText(typ)];
        } else if s.additional.Allowed? {
          fields := fields + [IndexText([TkWord(UnknownWord)])];
        } else {
          assert fields == fields + EmitAdditional(s.additional);
        }
        r := [TkLBrace] + Flatten(fields) + [TkRBrace];
    }
  }

  method TsTypes(ss: seq<Schema>) returns (parts: seq<seq<Token>>)
    ensures parts == EmitAll(ss)
    decreases ss
  {
    parts := [];
    for i := 0 to |ss|
      invariant |parts| == i
      invariant forall j :: 0 <= j < i ==> parts[j] == Emit(ss[j])
    {
      var part := TsType(ss[i]);
      parts := parts + [part];
    }
  }

  method TsFields(ps: seq<Property>, required: set<string>) returns (fields: seq<seq<Token>>)
    ensures fields == EmitFields(ps, required)
    decreases ps
  {
    fields := [];
    for i := 0 to |ps|
      invariant |fields| == i
      invariant forall j :: 0 <= j < i ==>
                  fields[j] == FieldText(ps[j].name, ps[j].name !in required, Emit(ps[j].schema))
    {
      var typ := TsType(ps[i].schema);
      fields := fields + [FieldText(ps[i].name, ps[i].name !in required, typ)];
    }
  }

  // ----- `export type Name = ...;` for every component, in name order -----

  datatype Export = Export(name: string, typ: seq<Token>)

  method ComponentTypes(schemas: Components) returns (output: seq<Export>)
    ensures var names := Ordering.SortedSet(schemas.Keys);
            && |output| == |names|
            && forall i :: 0 <= i < |names| ==>
                 names[i] in schemas && output[i] == Export(names[i], Emit(schemas[names[i]]))
  {
    var names := Ordering.SortedSet(schemas.Keys);
    forall i | 0 <= i < |names|
      ensures names[i] in schemas
    {
      assert names[i] in names;
    }
    output := ExportAll(schemas, names);
  }

  method ExportAll(schemas: Components, names: seq<string>) returns (output: seq<Export>)
    requires forall i :: 0 <= i < |names| ==> names[i] in schemas
    ensures |output| == |names|
    ensures forall i :: 0 <= i < |names| ==> output[i] == Export(names[i], Emit(schemas[names[i]]))
  {
    output := [];
    for i := 0 to |names|
      invariant |output| == i
      invariant forall j :: 0 <= j < i ==> output[j] == Export(names[j], Emit(schemas[names[j]]))
    {
      var typ := TsType(schemas[names[i]]);
      output := output + [Export(names[i], typ)];
    }
  }

  // ----- the type the text stands for -----

  function TypeOfScalar(c: Scalar): Ty {
    if c.SNull? then TWord(NullWord) else TLit(c)
  }

  function TypeOfName(name: TypeName): Ty {
    match name
    case StringType => TWord(StringWord)
    case IntegerType => TWord(NumberWord)
    case NumberType => TWord(NumberWord)
    case BooleanType => TWord(BooleanWord)
    case NullType => TWord(NullWord)
    case ArrayType => TArr(TWord(UnknownWord))
    case ObjectType => TObj([])
    case OtherType(_) => TWord(UnknownWord)
  }

  function Intended(s: Schema): Ty
    decreases s
  {
    if s.ref.Some? then TRef(RefName(s.ref.value))
    else if s.constant.Some? then TypeOfScalar(s.constant.value)
    else if s.enumeration.Some? then
      TUnion(seq(|s.enumeration.value|, i requires 0 <= i < |s.enumeration.value| =>
        TypeOfScalar(s.enumeration.value[i])))
    else if s.anyOf.Given? then TUnion(IntendedAll(s.anyOf.schemas))
    else if s.oneOf.Given? then TUnion(IntendedAll(s.oneOf.schemas))
    else if s.allOf.Given? then TInter(IntendedAll(s.allOf.schemas))
    else
      match s.typ
      case ManyTypes(names) =>
        TUnion(seq(|names|, i requires 0 <= i < |names| => TypeOfName(names[i])))
      case OneType(StringType) => TWord(StringWord)
      case OneType(IntegerType) => TWord(NumberWord)
      case OneType(NumberType) => TWord(NumberWord)
      case OneType(BooleanType) => TWord(BooleanWord)
      case OneType(NullType) => TWord(NullWord)
      case OneType(ArrayType) =>
        TArr(if s.items.Some? then Intended(s.items.value) else TWord(UnknownWord))
      case _ =>
        if PrintsObject(s) then
          TObj((if s.properties.Declared? then IntendedFields(s.properties.list, s.required) else [])
               + IntendedAdditional(s.additional))
        else
          TWord(UnknownWord)
  }

  function IntendedAll(ss: seq<Schema>): (r: seq<Ty>)
    ensures |r| == |ss| && forall i :: 0 <= i < |ss| ==> r[i] == Intended(ss[i])
    decreases ss
  {
    if ss == [] then [] else [Intended(ss[0])] + IntendedAll(ss[1..])
  }

  function IntendedFields(ps: seq<Property>, required: set<string>): (r: seq<Member<Ty>>)
    ensures |r| == |ps|
    ensures forall i :: 0 <= i < |ps| ==>
              r[i] == Field(ps[i].name, ps[i].name !in required, Intended(ps[i].schema))
    decreases ps
  {
    if ps == [] then [] else
    [Field(ps[0].name, ps[0].name !in required, Intended(ps[0].schema))] + IntendedFields(ps[1..], required)
  }

  function IntendedAdditional(a: Additional): seq<Member<Ty>>
    decreases a
  {
    match a
    case Constrained(schema) => [Index(Intended(schema))]
    case Allowed => [Index(TWord(UnknownWord))]
    case _ => []
  }

  function TypeEnv(env: Components): map<string, Ty> {
    map name | name in env :: Intended(env[name])
  }

  // ----- soundness of the tree -----

  const SCALAR_TYPES := {StringType, IntegerType, NumberType, BooleanType, NullType}

  /** Schemas whose type is wide enough, checked keyword by keyword along the branch the
      generator takes: no combinator is empty, `properties` comes with a `type`, and a schema for
      additional members stands alone. */
  predicate Supported(s: Schema)
    decreases s
  {
    if s.ref.Some? || s.constant.Some? then true
    else if s.enumeration.Some? then s.enumeration.value != []
    else if s.anyOf.Given? then SupportedAll(s.anyOf.schemas)
    else if s.oneOf.Given? then SupportedAll(s.oneOf.schemas)
    else if s.allOf.Given? then SupportedAll(s.allOf.schemas)
    else if s.typ.ManyTypes? then s.typ.names != []
    else if s.typ == OneType(ArrayType) then s.items.Some? ==> Supported(s.items.value)
    else if s.typ.OneType? && s.typ.name in SCALAR_TYPES then true
    else if PrintsObject(s) then
      && s.typ != NoType
      && (s.properties.Declared? ==>
            forall i :: 0 <= i < |s.properties.list| ==> Supported(s.properties.list[i].schema))
      && (s.additional.Constrained? ==>
            && Supported(s.additional.schema)
            && (s.properties.Declared? ==> s.properties.list == []))
    else true
  }

  predicate SupportedAll(ss: seq<Schema>)
    decreases ss
  {
    ss != [] && forall i :: 0 <= i < |ss| ==> Supported(ss[i])
  }

  predicate SupportedEnv(env: Components) {
    forall name :: name in env ==> '/' !in name && Supported(env[name])
  }

  /** A resolved reference is printed as the name of the component it resolves to. */
  /** What a reference names: a component of the same document, under its address. */
  lemma {:induction false} ResolveMeans(env: Components, reference: string, name: string)
    requires name in env
    ensures Resolve(env, "#/components/schemas/" + name) == Some(env[name])
    ensures Resolve(env, reference).Some? <==> exists n :: n in env && reference == "#/components/schemas/" + n
  {
    assert SCHEMA_ROOT + "/" == "#/components/schemas/";
    var k := |SCHEMA_ROOT| + 1;
    assert ("#/components/schemas/" + name)[k..] == name;
    if Resolve(env, reference).Some? {
      assert reference == "#/components/schemas/" + reference[k..];
    }
    if n :| n in env && reference == "#/components/schemas/" + n {
      assert reference[k..] == n;
    }
  }

  lemma RefNameResolves(env: Components, reference: string)
    requires forall name :: name in env ==> '/' !in name
    requires Resolve(env, reference).Some?
    ensures RefName(reference) in env
    ensures env[RefName(reference)] == Resolve(env, reference).value
  {
    var n := |SCHEMA_ROOT| + 1;
    Text.LastSegmentAfterSlash(SCHEMA_ROOT, reference[n..]);
    assert reference == SCHEMA_ROOT + "/" + reference[n..];
  }

  /** Every value valid for a schema inhabits the type its text stands for, however deep the
      references between components are followed. */
  lemma {:induction false} CompilerSound(env: Components, fuel: nat, cut: bool, s: Schema, v: Json)
    requires SupportedEnv(env) && Supported(s)
    requires Valid(env, fuel, cut, s, v)
    ensures Inhabits(TypeEnv(env), fuel, cut, Intended(s), v)
    decreases fuel, s
  {
    if s.ref.Some? {
      RefNameResolves(env, s.ref.value);
      if fuel > 0 {
        CompilerSound(env, fuel - 1, cut, env[RefName(s.ref.value)], v);
      }
    } else if s.constant.Some? {
    } else if s.enumeration.Some? {
      EnumerationSound(env, fuel, cut, s, v);
    } else if s.anyOf.Given? {
      var i :| 0 <= i < |s.anyOf.schemas| && Valid(env, fuel, cut, s.anyOf.schemas[i], v);
      BranchSound(env, fuel, cut, s.anyOf.schemas, i, v);
    } else if s.oneOf.Given? {
      var i :| 0 <= i < |s.oneOf.schemas| && Valid(env, fuel, cut, s.oneOf.schemas[i], v);
      BranchSound(env, fuel, cut, s.oneOf.schemas, i, v);
    } else if s.allOf.Given? {
      BranchesSound(env, fuel, cut, s.allOf.schemas, v);
    } else {
      TypeKeywordSound(env, fuel, cut, s, v);
    }
  }

  lemma {:induction false} EnumerationSound(env: Components, fuel: nat, cut: bool, s: Schema, v: Json)
    requires s.ref.None? && s.constant.None? && s.enumeration.Some?
    requires v.JScalar? && v.scalar in s.enumeration.value
    ensures Inhabits(TypeEnv(env), fuel, cut, Intended(s), v)
  {
    var cs := s.enumeration.value;
    var i :| 0 <= i < |cs| && cs[i] == v.scalar;
    assert Inhabits(TypeEnv(env), fuel, cut, Intended(s).alts[i], v);
  }

  lemma {:induction false} BranchSound(env: Components, fuel: nat, cut: bool, ss: seq<Schema>, i: nat, v: Json)
    requires SupportedEnv(env) && SupportedAll(ss)
    requires i < |ss| && Valid(env, fuel, cut, ss[i], v)
    ensures Inhabits(TypeEnv(env), fuel, cut, TUnion(IntendedAll(ss)), v)
    decreases fuel, ss
  {
    CompilerSound(env, fuel, cut, ss[i], v);
    assert Inhabits(TypeEnv(env), fuel, cut, TUnion(IntendedAll(ss)).alts[i], v);
  }

  lemma {:induction false} BranchesSound(env: Components, fuel: nat, cut: bool, ss: seq<Schema>, v: Json)
    requires SupportedEnv(env) && SupportedAll(ss)
    requires forall i :: 0 <= i < |ss| ==> Valid(env, fuel, cut, ss[i], v)
    ensures Inhabits(TypeEnv(env), fuel, cut, TInter(IntendedAll(ss)), v)
    decreases fuel, ss
  {
    forall i | 0 <= i < |ss|
      ensures Inhabits(TypeEnv(env), fuel, cut, TInter(IntendedAll(ss)).parts[i], v)
    {
      CompilerSound(env, fuel, cut, ss[i], v);
    }
  }

  predicate ReachesType(s: Schema) {
    && s.ref.None? && s.constant.None? && s.enumeration.None?
    && s.anyOf.Missing? && s.oneOf.Missing? && s.allOf.Missing?
  }

  function ListOf(properties: Properties): seq<Property> {
    if properties.Declared? then properties.list else []
  }

  /** The generator takes the object branch. */
  predicate TakesObject(s: Schema) {
    && ReachesType(s) && PrintsObject(s)
    && (s.typ == NoType || (s.typ.OneType? && s.typ.name !in SCALAR_TYPES + {ArrayType}))
  }

  lemma {:induction false} TypeKeywordSound(env: Components, fuel: nat, cut: bool, s: Schema, v: Json)
    requires SupportedEnv(env) && Supported(s) && ReachesType(s)
    requires Valid(env, fuel, cut, s, v)
    ensures Inhabits(TypeEnv(env), fuel, cut, Intended(s), v)
    decreases fuel, s, 1
  {
    match s.typ {
      case ManyTypes(names) =>
        var i :| 0 <= i < |names| && HasType(names[i], v);
        assert Inhabits(TypeEnv(env), fuel, cut, Intended(s).alts[i], v);
      case OneType(ArrayType) =>
        if s.items.Some? {
          forall i | 0 <= i < |v.items|
            ensures Inhabits(TypeEnv(env), fuel, cut, Intended(s.items.value), v.items[i])
          {
            CompilerSound(env, fuel, cut, s.items.value, v.items[i]);
          }
        }
      case OneType(ObjectType) => ObjectSound(env, fuel, cut, s, v);
      case _ =>
    }
  }

  lemma {:induction false} ObjectSound(env: Components, fuel: nat, cut: bool, s: Schema, v: Json)
    requires SupportedEnv(env) && Supported(s) && ReachesType(s) && s.typ == OneType(ObjectType)
    requires Valid(env, fuel, cut, s, v)
    ensures Inhabits(TypeEnv(env), fuel, cut, Intended(s), v)
    decreases fuel, s, 0
  {
    if s.properties.Declared? {
      var ps := s.properties.list;
      forall i | 0 <= i < |ps| && ps[i].name in v.members
        ensures Inhabits(TypeEnv(env), fuel, cut, Intended(ps[i].schema), v.members[ps[i].name])
      {
        CompilerSound(env, fuel, cut, ps[i].schema, v.members[ps[i].name]);
      }
    }
    if s.additional.Constrained? {
      forall k | k in v.members
        ensures Inhabits(TypeEnv(env), fuel, cut, Intended(s.additional.schema), v.members[k])
      {
        assert !Declares(s.properties, k);
        CompilerSound(env, fuel, cut, s.additional.schema, v.members[k]);
      }
    }
  }

  // ----- exactly when the two object restrictions are needed -----

  predicate PartsSupported(s: Schema) {
    && (s.properties.Declared? ==>
          forall i :: 0 <= i < |s.properties.list| ==> Supported(s.properties.list[i].schema))
    && (s.additional.Constrained? ==> Supported(s.additional.schema))
  }

  /** `properties` without `type`: the intended tree says "an object", the schema does not.  The tree is wide
      enough exactly when the schema names the type. */
  lemma UntypedProperties(env: Components, fuel: nat, cut: bool, s: Schema)
    requires SupportedEnv(env) && ReachesType(s) && PartsSupported(s)
    requires s.properties.Declared? && (s.properties.list == [] || !s.additional.Constrained?)
    requires s.typ == NoType || s.typ == OneType(ObjectType)
    ensures (forall v :: Valid(env, fuel, cut, s, v) ==>
               Inhabits(TypeEnv(env), fuel, cut, Intended(s), v))
            <==> s.typ != NoType
  {
    if s.typ == NoType {
      assert Valid(env, fuel, cut, s, JScalar(SNull));
      assert !Inhabits(TypeEnv(env), fuel, cut, Intended(s), JScalar(SNull));
    } else {
      forall v | Valid(env, fuel, cut, s, v)
        ensures Inhabits(TypeEnv(env), fuel, cut, Intended(s), v)
      {
        CompilerSound(env, fuel, cut, s, v);
      }
    }
  }

  /** Declared members beside a schema for the additional ones: the schema checks the additional
      members only, the index signature checks all.  A valid object inhabits the intended tree exactly when its
      declared members also inhabit the tree of the index signature. */
  lemma MixedAdditional(env: Components, fuel: nat, cut: bool, s: Schema, v: Json)
    requires SupportedEnv(env) && ReachesType(s) && PartsSupported(s)
    requires s.typ == OneType(ObjectType) && s.properties.Declared? && s.additional.Constrained?
    requires Valid(env, fuel, cut, s, v)
    ensures Inhabits(TypeEnv(env), fuel, cut, Intended(s), v) <==>
            forall k :: k in v.members && Declares(s.properties, k) ==>
              Inhabits(TypeEnv(env), fuel, cut, Intended(s.additional.schema), v.members[k])
  {
    var ps, index := s.properties.list, Intended(s.additional.schema);
    var t := Intended(s);
    assert IntendedAdditional(s.additional) == [Index(index)];
    assert |t.members| == |ps| + 1;
    forall i | 0 <= i < |ps| && ps[i].name in v.members
      ensures Inhabits(TypeEnv(env), fuel, cut, t.members[i].typ, v.members[ps[i].name])
    {
      CompilerSound(env, fuel, cut, ps[i].schema, v.members[ps[i].name]);
    }
    forall k | k in v.members && !Declares(s.properties, k)
      ensures Inhabits(TypeEnv(env), fuel, cut, index, v.members[k])
    {
      CompilerSound(env, fuel, cut, s.additional.schema, v.members[k]);
    }
    assert t.members[|ps|] == Index(index);
    assert forall i :: 0 <= i < |t.members| && t.members[i].Index? ==> i == |ps|;
  }

  /** Every schema that a property of this name must meet. */
  ghost predicate PropertyAdmits(env: Components, fuel: nat, cut: bool, properties: Properties, name: string, v: Json) {
    properties.Declared? && forall i :: 0 <= i < |properties.list| && properties.list[i].name == name ==>
      Valid(env, fuel, cut, properties.list[i].schema, v)
  }

  lemma {:induction false} OtherMember(env: Components, fuel: nat, cut: bool, s: Schema, v: Json, k: string, w: Json)
    requires ReachesType(s) && s.typ == OneType(ObjectType) && s.properties.Declared? && s.additional.Constrained?
    requires Valid(env, fuel, cut, s, v) && Declares(s.properties, k)
    requires PropertyAdmits(env, fuel, cut, s.properties, k, w)
    ensures Valid(env, fuel, cut, s, JObj(v.members[k := w]))
  {
  }

  /** Every value of the schema inhabits its intended tree. */
  ghost predicate TreeSound(env: Components, fuel: nat, cut: bool, s: Schema) {
    forall v :: Valid(env, fuel, cut, s, v) ==> Inhabits(TypeEnv(env), fuel, cut, Intended(s), v)
  }

  /** Every value that a declared property admits inhabits the tree of the index signature. */
  ghost predicate PropertiesFitIndex(env: Components, fuel: nat, cut: bool, s: Schema)
    requires s.additional.Constrained?
  {
    forall k, w :: Declares(s.properties, k) && PropertyAdmits(env, fuel, cut, s.properties, k, w) ==>
      Inhabits(TypeEnv(env), fuel, cut, Intended(s.additional.schema), w)
  }

  lemma {:induction false} SoundFits(env: Components, fuel: nat, cut: bool, s: Schema, base: Json, k: string, w: Json)
    requires SupportedEnv(env) && ReachesType(s) && PartsSupported(s)
    requires s.typ == OneType(ObjectType) && s.properties.Declared? && s.additional.Constrained?
    requires Valid(env, fuel, cut, s, base) && TreeSound(env, fuel, cut, s)
    requires Declares(s.properties, k) && PropertyAdmits(env, fuel, cut, s.properties, k, w)
    ensures Inhabits(TypeEnv(env), fuel, cut, Intended(s.additional.schema), w)
  {
    var v := JObj(base.members[k := w]);
    OtherMember(env, fuel, cut, s, base, k, w);
    MixedAdditional(env, fuel, cut, s, v);
    assert k in v.members && v.members[k] == w;
  }

  lemma {:induction false} ValidMember(env: Components, fuel: nat, cut: bool, s: Schema, v: Json, k: string)
    requires s.typ == OneType(ObjectType) && s.properties.Declared? && Valid(env, fuel, cut, s, v) && k in v.members
    ensures PropertyAdmits(env, fuel, cut, s.properties, k, v.members[k])
  {
  }

  lemma {:induction false} FitsSound(env: Components, fuel: nat, cut: bool, s: Schema, v: Json)
    requires SupportedEnv(env) && ReachesType(s) && PartsSupported(s)
    requires s.typ == OneType(ObjectType) && s.properties.Declared? && s.additional.Constrained?
    requires PropertiesFitIndex(env, fuel, cut, s) && Valid(env, fuel, cut, s, v)
    ensures Inhabits(TypeEnv(env), fuel, cut, Intended(s), v)
  {
    forall k | k in v.members && Declares(s.properties, k)
      ensures Inhabits(TypeEnv(env), fuel, cut, Intended(s.additional.schema), v.members[k])
    {
      ValidMember(env, fuel, cut, s, v, k);
    }
    MixedAdditional(env, fuel, cut, s, v);
  }

  /** The same as one condition on the schema: if any value is valid at all, the intended tree is wide enough
      exactly when every value a declared property admits also inhabits the tree of the index signature. */
  lemma {:induction false} MixedAdditionalSchema(env: Components, fuel: nat, cut: bool, s: Schema, base: Json)
    requires SupportedEnv(env) && ReachesType(s) && PartsSupported(s)
    requires s.typ == OneType(ObjectType) && s.properties.Declared? && s.additional.Constrained?
    requires Valid(env, fuel, cut, s, base)
    ensures TreeSound(env, fuel, cut, s) <==> PropertiesFitIndex(env, fuel, cut, s)
  {
    if TreeSound(env, fuel, cut, s) {
      forall k, w | Declares(s.properties, k) && PropertyAdmits(env, fuel, cut, s.properties, k, w)
        ensures Inhabits(TypeEnv(env), fuel, cut, Intended(s.additional.schema), w)
      {
        SoundFits(env, fuel, cut, s, base, k, w);
      }
    }
    if PropertiesFitIndex(env, fuel, cut, s) {
      forall v | Valid(env, fuel, cut, s, v)
        ensures Inhabits(TypeEnv(env), fuel, cut, Intended(s), v)
      {
        FitsSound(env, fuel, cut, s, v);
      }
    }
  }

  /** `{"type": "object", "properties": {"a": {"type": "number"}},
      "additionalProperties": {"type": "string"}}` admits `{"a": 0}`; its intended tree does not. */
  lemma MixedAdditionalFails()
    ensures var s := Bare(ObjectType).(
                       properties := Declared([Property("a", Bare(NumberType))]),
                       additional := Constrained(Bare(StringType)));
            var v := JObj(map["a" := JScalar(SNum(0.0))]);
            && Valid(map[], 0, false, s, v)
            && !Inhabits(map[], 0, false, Intended(s), v)
  {
    var ps := [Property("a", Bare(NumberType))];
    var s := Bare(ObjectType).(properties := Declared(ps), additional := Constrained(Bare(StringType)));
    var v := JObj(map["a" := JScalar(SNum(0.0))]);
    assert ps[0].name == "a" && Declares(s.properties, "a");
    assert Valid(map[], 0, false, ps[0].schema, v.members["a"]);
    var t := Intended(s);
    assert t.members == IntendedFields(ps, {}) + [Index(TWord(StringWord))];
    assert t.members[1] == Index(TWord(StringWord));
    assert "a" in v.members && !Inhabits(map[], 0, false, t.members[1].typ, v.members["a"]);
  }
}
