/** When the text printed for an object schema is too narrow: exactly when a value that the schema admits does not
    inhabit the type that the text reads as. */
module NarrowText {
  import opened Schemas
  import opened Types
  import opened ClientTypes
  import opened PrintedTypes
  import opened FusedText
  import opened PrintedMeaning
  import opened ReadableText

  /** The text of `s` admits every value that `s` does. */
  ghost predicate TextSound(env: Components, fuel: nat, cut: bool, s: Schema) {
    forall v :: Valid(env, fuel, cut, s, v) ==> TextAdmits(env, fuel, cut, s, v)
  }

  /** The schemas inside an object schema print types that are not too narrow. */
  ghost predicate PartsTextSound(env: Components, fuel: nat, cut: bool, s: Schema) {
    && (s.properties.Declared? ==> forall i :: 0 <= i < |s.properties.list| ==>
          NothingEmpty(s.properties.list[i].schema) && TextSound(env, fuel, cut, s.properties.list[i].schema))
    && (s.additional.Constrained? ==>
          NothingEmpty(s.additional.schema) && TextSound(env, fuel, cut, s.additional.schema))
  }

  lemma {:induction false} SupportedTextSound(env: Components, fuel: nat, cut: bool, s: Schema)
    requires SupportedEnv(env) && Supported(s)
    ensures NothingEmpty(s) && TextSound(env, fuel, cut, s)
  {
    SupportedReadable(s);
    forall v | Valid(env, fuel, cut, s, v)
      ensures TextAdmits(env, fuel, cut, s, v)
    {
      PrintedTypeSound(env, fuel, cut, s, v);
    }
  }

  /** Supported parts will do, in a file of supported components. */
  lemma {:induction false} SupportedParts(env: Components, fuel: nat, cut: bool, s: Schema)
    requires SupportedEnv(env) && PartsSupported(s)
    ensures PartsTextSound(env, fuel, cut, s)
  {
    if s.properties.Declared? {
      forall i | 0 <= i < |s.properties.list|
        ensures NothingEmpty(s.properties.list[i].schema)
        ensures TextSound(env, fuel, cut, s.properties.list[i].schema)
      {
        SupportedTextSound(env, fuel, cut, s.properties.list[i].schema);
      }
    }
    if s.additional.Constrained? {
      SupportedTextSound(env, fuel, cut, s.additional.schema);
    }
  }

  // ----- what the text of an object schema admits -----

  ghost predicate FieldFits(env: Components, fuel: nat, cut: bool, p: Property, required: set<string>,
                            o: map<string, Json>) {
    if p.name in o then TextAdmits(env, fuel, cut, p.schema, o[p.name]) else p.name !in required
  }

  /** Every declared member fits the text of its property, and those that are required are there. */
  ghost predicate FieldsFit(env: Components, fuel: nat, cut: bool, ps: seq<Property>, required: set<string>,
                            o: map<string, Json>) {
    forall i :: 0 <= i < |ps| ==> FieldFits(env, fuel, cut, ps[i], required, o)
  }

  /** Every member, declared or not, fits the text of the schema for additional members. */
  ghost predicate IndexFits(env: Components, fuel: nat, cut: bool, additional: Additional, o: map<string, Json>) {
    additional.Constrained? ==> forall k :: k in o ==> TextAdmits(env, fuel, cut, additional.schema, o[k])
  }

  ghost predicate AllFit(renv: map<string, Alt>, fuel: nat, cut: bool, ms: seq<Member<Alt>>, o: map<string, Json>) {
    forall i :: 0 <= i < |ms| ==> FitsAltMember(renv, fuel, cut, ms[i], o)
  }

  lemma {:induction false} MembersFit(renv: map<string, Alt>, fuel: nat, cut: bool, a: seq<Member<Alt>>,
                                      b: seq<Member<Alt>>, v: Json)
    ensures InhabitsAlt(renv, fuel, cut, One(PObj(a + b)), v) <==>
            && v.JObj?
            && AllFit(renv, fuel, cut, a, v.members) && AllFit(renv, fuel, cut, b, v.members)
  {
    InOne(renv, fuel, cut, PObj(a + b), v);
    if InhabitsPrim(renv, fuel, cut, PObj(a + b), v) {
      var all := PObj(a + b).members;
      forall i | 0 <= i < |a| ensures FitsAltMember(renv, fuel, cut, a[i], v.members) {
        assert all[i] == a[i];
      }
      forall i | 0 <= i < |b| ensures FitsAltMember(renv, fuel, cut, b[i], v.members) {
        assert all[|a| + i] == b[i];
      }
    }
  }

  lemma {:induction false} ReadMembersAppend(a: seq<Member<Ty>>, b: seq<Member<Ty>>)
    ensures ReadMembers(a + b) == ReadMembers(a) + ReadMembers(b)
  {
    var l, r := ReadMembers(a + b), ReadMembers(a) + ReadMembers(b);
    forall i | 0 <= i < |l|
      ensures l[i] == r[i]
    {
      assert l[i] == ReadMember((a + b)[i]);
    }
  }

  lemma {:induction false} FieldRead(env: Components, fuel: nat, cut: bool, p: Property, required: set<string>,
                                     o: map<string, Json>)
    requires NothingEmpty(p.schema)
    ensures FieldFits(env, fuel, cut, p, required, o) <==>
            FitsAltMember(ReadFile(env), fuel, cut, Field(p.name, p.name !in required, Read(Intended(p.schema))), o)
  {
    TypeExactly(p.schema);
  }

  lemma {:induction false} FieldsRead(env: Components, fuel: nat, cut: bool, ps: seq<Property>, required: set<string>,
                                      o: map<string, Json>)
    requires forall i :: 0 <= i < |ps| ==> NothingEmpty(ps[i].schema)
    ensures var fields := ReadMembers(IntendedFields(ps, required));
            FieldsFit(env, fuel, cut, ps, required, o) <==> AllFit(ReadFile(env), fuel, cut, fields, o)
  {
    var fields := ReadMembers(IntendedFields(ps, required));
    forall i | 0 <= i < |ps|
      ensures FieldFits(env, fuel, cut, ps[i], required, o) <==>
              FitsAltMember(ReadFile(env), fuel, cut, fields[i], o)
    {
      FieldRead(env, fuel, cut, ps[i], required, o);
      assert fields[i] == Field(ps[i].name, ps[i].name !in required, Read(Intended(ps[i].schema)));
    }
  }

  lemma {:induction false} IndexRead(env: Components, fuel: nat, cut: bool, additional: Additional,
                                     o: map<string, Json>)
    requires additional.Constrained? ==> NothingEmpty(additional.schema)
    ensures var index := ReadMembers(IntendedAdditional(additional));
            IndexFits(env, fuel, cut, additional, o) <==> AllFit(ReadFile(env), fuel, cut, index, o)
  {
    var index := ReadMembers(IntendedAdditional(additional));
    match additional {
      case Constrained(schema) =>
        TypeExactly(schema);
        assert index[0] == Index(Read(Intended(schema)));
      case Allowed =>
        assert index[0] == Index(One(PWord(UnknownWord)));
        forall k | k in o ensures InhabitsAlt(ReadFile(env), fuel, cut, One(PWord(UnknownWord)), o[k]) {
          InOne(ReadFile(env), fuel, cut, PWord(UnknownWord), o[k]);
        }
      case _ =>
    }
  }

  /** What the text of an object schema admits, from what the texts inside it admit. */
  lemma {:induction false} ObjectText(env: Components, fuel: nat, cut: bool, s: Schema, v: Json)
    requires TakesObject(s) && NothingEmpty(s)
    ensures TextAdmits(env, fuel, cut, s, v) <==>
            && v.JObj?
            && FieldsFit(env, fuel, cut, ListOf(s.properties), s.required, v.members)
            && IndexFits(env, fuel, cut, s.additional, v.members)
  {
    var ps := ListOf(s.properties);
    var fields, index := IntendedFields(ps, s.required), IntendedAdditional(s.additional);
    TextRead(env, fuel, cut, s, v);
    ObjectParts(s);
    ReadMembersAppend(fields, index);
    assert Read(Intended(s)) == One(PObj(ReadMembers(fields) + ReadMembers(index)));
    MembersFit(ReadFile(env), fuel, cut, ReadMembers(fields), ReadMembers(index), v);
    if v.JObj? {
      FieldsRead(env, fuel, cut, ps, s.required, v.members);
      IndexRead(env, fuel, cut, s.additional, v.members);
    }
  }

  // ----- declared members beside a schema for the additional ones -----

  lemma {:induction false} PartsReadable(env: Components, fuel: nat, cut: bool, s: Schema)
    requires TakesObject(s) && PartsTextSound(env, fuel, cut, s)
    ensures NothingEmpty(s)
  {
  }

  lemma {:induction false} DeclaredFit(env: Components, fuel: nat, cut: bool, s: Schema, v: Json)
    requires TakesObject(s) && PartsTextSound(env, fuel, cut, s)
    requires Valid(env, fuel, cut, s, v) && v.JObj?
    ensures FieldsFit(env, fuel, cut, ListOf(s.properties), s.required, v.members)
  {
  }

  lemma {:induction false} UndeclaredFit(env: Components, fuel: nat, cut: bool, s: Schema, v: Json, k: string)
    requires PartsTextSound(env, fuel, cut, s) && s.additional.Constrained?
    requires Valid(env, fuel, cut, s, v) && v.JObj? && k in v.members && !Declares(s.properties, k)
    ensures TextAdmits(env, fuel, cut, s.additional.schema, v.members[k])
  {
    assert Valid(env, fuel, cut, s.additional.schema, v.members[k]);
  }

  /** A valid object inhabits what the text reads as exactly when its declared members also fit the index
      signature as it reads. */
  lemma {:induction false} MixedText(env: Components, fuel: nat, cut: bool, s: Schema, v: Json)
    requires TakesObject(s) && PartsTextSound(env, fuel, cut, s) && s.additional.Constrained?
    requires Valid(env, fuel, cut, s, v) && v.JObj?
    ensures TextAdmits(env, fuel, cut, s, v) <==>
            forall k :: k in v.members && Declares(s.properties, k) ==>
              TextAdmits(env, fuel, cut, s.additional.schema, v.members[k])
  {
    PartsReadable(env, fuel, cut, s);
    ObjectText(env, fuel, cut, s, v);
    DeclaredFit(env, fuel, cut, s, v);
    forall k | k in v.members && !Declares(s.properties, k)
      ensures TextAdmits(env, fuel, cut, s.additional.schema, v.members[k])
    {
      UndeclaredFit(env, fuel, cut, s, v, k);
    }
  }

  /** Every value that a declared property admits fits the index signature as it reads. */
  ghost predicate TextFitsIndex(env: Components, fuel: nat, cut: bool, s: Schema)
    requires s.additional.Constrained?
  {
    forall k, w :: Declares(s.properties, k) && PropertyAdmits(env, fuel, cut, s.properties, k, w) ==>
      TextAdmits(env, fuel, cut, s.additional.schema, w)
  }

  ghost predicate AdmitsNothing(env: Components, fuel: nat, cut: bool, s: Schema) {
    forall v :: !Valid(env, fuel, cut, s, v)
  }

  lemma {:induction false} SoundTextFits(env: Components, fuel: nat, cut: bool, s: Schema, base: Json, k: string,
                                         w: Json)
    requires TakesObject(s) && PartsTextSound(env, fuel, cut, s) && TextSound(env, fuel, cut, s)
    requires s.typ == OneType(ObjectType) && s.properties.Declared? && s.additional.Constrained?
    requires Valid(env, fuel, cut, s, base)
    requires Declares(s.properties, k) && PropertyAdmits(env, fuel, cut, s.properties, k, w)
    ensures TextAdmits(env, fuel, cut, s.additional.schema, w)
  {
    var v := JObj(base.members[k := w]);
    OtherMember(env, fuel, cut, s, base, k, w);
    MixedText(env, fuel, cut, s, v);
    assert k in v.members && v.members[k] == w;
  }

  lemma {:induction false} FitsTextSound(env: Components, fuel: nat, cut: bool, s: Schema, v: Json)
    requires TakesObject(s) && PartsTextSound(env, fuel, cut, s)
    requires s.typ == OneType(ObjectType) && s.properties.Declared? && s.additional.Constrained?
    requires TextFitsIndex(env, fuel, cut, s) && Valid(env, fuel, cut, s, v)
    ensures TextAdmits(env, fuel, cut, s, v)
  {
    forall k | k in v.members && Declares(s.properties, k)
      ensures TextAdmits(env, fuel, cut, s.additional.schema, v.members[k])
    {
      ValidMember(env, fuel, cut, s, v, k);
    }
    MixedText(env, fuel, cut, s, v);
  }

  /** As one condition on the schema: unless it admits no value, the text is sound exactly when every value that a
      declared property admits fits the index signature as it reads. */
  lemma {:induction false} MixedTextExactly(env: Components, fuel: nat, cut: bool, s: Schema)
    requires TakesObject(s) && PartsTextSound(env, fuel, cut, s)
    requires s.typ == OneType(ObjectType) && s.properties.Declared? && s.additional.Constrained?
    ensures TextSound(env, fuel, cut, s) <==>
            AdmitsNothing(env, fuel, cut, s) || TextFitsIndex(env, fuel, cut, s)
  {
    if TextSound(env, fuel, cut, s) && !AdmitsNothing(env, fuel, cut, s) {
      var base :| Valid(env, fuel, cut, s, base);
      forall k, w | Declares(s.properties, k) && PropertyAdmits(env, fuel, cut, s.properties, k, w)
        ensures TextAdmits(env, fuel, cut, s.additional.schema, w)
      {
        SoundTextFits(env, fuel, cut, s, base, k, w);
      }
    }
    if TextFitsIndex(env, fuel, cut, s) {
      forall v | Valid(env, fuel, cut, s, v)
        ensures TextAdmits(env, fuel, cut, s, v)
      {
        FitsTextSound(env, fuel, cut, s, v);
      }
    }
  }

  // ----- properties without a type, and all object schemas -----

  /** `properties` without `type`: the text says "an object", the schema does not. */
  lemma {:induction false} UntypedText(env: Components, fuel: nat, cut: bool, s: Schema)
    requires TakesObject(s) && NothingEmpty(s) && s.typ == NoType
    ensures !TextSound(env, fuel, cut, s)
  {
    var nothing := JScalar(SNull);
    ObjectText(env, fuel, cut, s, nothing);
    assert Valid(env, fuel, cut, s, nothing);
  }

  /** One kind of member only: an object schema that names its type prints a type that is wide enough. */
  lemma {:induction false} UnmixedText(env: Components, fuel: nat, cut: bool, s: Schema)
    requires TakesObject(s) && PartsTextSound(env, fuel, cut, s) && s.typ == OneType(ObjectType)
    requires !(s.properties.Declared? && s.additional.Constrained?)
    ensures TextSound(env, fuel, cut, s)
  {
    forall v | Valid(env, fuel, cut, s, v)
      ensures TextAdmits(env, fuel, cut, s, v)
    {
      PartsReadable(env, fuel, cut, s);
      ObjectText(env, fuel, cut, s, v);
      DeclaredFit(env, fuel, cut, s, v);
      if s.additional.Constrained? {
        forall k | k in v.members
          ensures TextAdmits(env, fuel, cut, s.additional.schema, v.members[k])
        {
          UndeclaredFit(env, fuel, cut, s, v, k);
        }
      }
    }
  }

  /** Every object schema whose parts print sound texts: its own text is sound exactly when the schema admits
      nothing, or names the object type and keeps its declared properties within the index signature. */
  lemma {:induction false} ObjectTextExactly(env: Components, fuel: nat, cut: bool, s: Schema)
    requires TakesObject(s) && PartsTextSound(env, fuel, cut, s)
    ensures TextSound(env, fuel, cut, s) <==>
            || AdmitsNothing(env, fuel, cut, s)
            || (&& s.typ == OneType(ObjectType)
                && (s.properties.Declared? && s.additional.Constrained? ==> TextFitsIndex(env, fuel, cut, s)))
  {
    PartsReadable(env, fuel, cut, s);
    if s.typ == NoType {
      UntypedText(env, fuel, cut, s);
      assert Valid(env, fuel, cut, s, JScalar(SNull));
    } else if s.typ == OneType(ObjectType) {
      if s.properties.Declared? && s.additional.Constrained? {
        MixedTextExactly(env, fuel, cut, s);
      } else {
        UnmixedText(env, fuel, cut, s);
      }
    } else {
      assert AdmitsNothing(env, fuel, cut, s);
    }
  }

  // ----- one member `a`, and a schema for the additional ones -----

  function OneMember(member: Schema, additional: Schema): Schema {
    Bare(ObjectType).(properties := Declared([Property("a", member)]), additional := Constrained(additional))
  }

  lemma {:induction false} OneMemberParts(fuel: nat, member: Schema, additional: Schema)
    requires Supported(member) && Supported(additional)
    ensures var s := OneMember(member, additional);
            TakesObject(s) && PartsSupported(s) && PartsTextSound(map[], fuel, false, s)
  {
    SupportedParts(map[], fuel, false, OneMember(member, additional));
  }

  /** `{"a": w}` is valid when `w` is valid for the member. */
  lemma {:induction false} OneMemberValid(fuel: nat, member: Schema, additional: Schema, w: Json)
    requires Valid(map[], fuel, false, member, w)
    ensures Declares(OneMember(member, additional).properties, "a")
    ensures Valid(map[], fuel, false, OneMember(member, additional), JObj(map["a" := w]))
  {
    var ps := OneMember(member, additional).properties.list;
    assert ps[0].name == "a";
  }

  /** `{"type": "object", "properties": {"a": {"type": "number"}}, "additionalProperties": {"type": "string"}}`
      admits `{"a": 0}`; what its text reads as does not. */
  lemma {:induction false} MixedTextFails(fuel: nat)
    ensures var s, v := OneMember(Bare(NumberType), Bare(StringType)), JObj(map["a" := JScalar(SNum(0.0))]);
            && Valid(map[], fuel, false, s, v)
            && NothingEmpty(s) && !TextAdmits(map[], fuel, false, s, v)
  {
    var member, additional, w := Bare(NumberType), Bare(StringType), JScalar(SNum(0.0));
    var s, v := OneMember(member, additional), JObj(map["a" := w]);
    OneMemberParts(fuel, member, additional);
    OneMemberValid(fuel, member, additional, w);
    TextRead(map[], fuel, false, additional, w);
    InOne(ReadFile(map[]), fuel, false, PWord(StringWord), w);
    MixedText(map[], fuel, false, s, v);
    assert "a" in v.members && v.members["a"] == w;
  }

  lemma {:induction false} StringsFit(w: Json)
    requires Valid(map[], 0, false, Bare(StringType), w)
    ensures Supported(AMBIGUOUS) && TextAdmits(map[], 0, false, AMBIGUOUS, w)
    ensures !Inhabits(TypeEnv(map[]), 0, false, Intended(AMBIGUOUS), w)
  {
    AmbiguousTextAdmitsMore(w);
    assert ReadFile(map[]) == map[] && TypeEnv(map[]) == map[];
  }

  lemma {:induction false} TreeIsNarrow(s: Schema)
    requires s == OneMember(Bare(StringType), AMBIGUOUS)
    ensures !TreeSound(map[], 0, false, s)
  {
    var member, w := Bare(StringType), JScalar(SStr("x"));
    var v := JObj(map["a" := w]);
    StringsFit(w);
    OneMemberParts(0, member, AMBIGUOUS);
    OneMemberValid(0, member, AMBIGUOUS, w);
    assert "a" in v.members && v.members["a"] == w;
    MixedAdditional(map[], 0, false, s, v);
  }

  lemma {:induction false} TextIsWide(s: Schema)
    requires s == OneMember(Bare(StringType), AMBIGUOUS) && Supported(AMBIGUOUS)
    ensures TextSound(map[], 0, false, s)
  {
    OneMemberParts(0, Bare(StringType), AMBIGUOUS);
    forall k, u | Declares(s.properties, k) && PropertyAdmits(map[], 0, false, s.properties, k, u)
      ensures TextAdmits(map[], 0, false, AMBIGUOUS, u)
    {
      assert s.properties.list[0].name == k;
      StringsFit(u);
    }
    MixedTextExactly(map[], 0, false, s);
  }

  /** A union inside the intersection for additional members (`string | number & 0`): the intended tree is too
      narrow, and the text is not. */
  lemma {:induction false} OnlyTheTreeIsNarrow()
    ensures var s := OneMember(Bare(StringType), AMBIGUOUS);
            TextSound(map[], 0, false, s) && !TreeSound(map[], 0, false, s)
  {
    AmbiguousSupported();
    TextIsWide(OneMember(Bare(StringType), AMBIGUOUS));
    TreeIsNarrow(OneMember(Bare(StringType), AMBIGUOUS));
  }
}
