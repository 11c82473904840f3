/** Which texts are types.  The parser accepts exactly what the printer of grammatical types prints, and the text
    of a schema is a type exactly when no list that the generator joins is empty. */
module ReadableText {
  import opened Schemas
  import opened Types
  import opened ClientTypes
  import opened PrintedTypes
  import opened TypeGrammar

  // ----- the parser accepts nothing but printed types -----

  /** What was parsed is well formed, and its text was there. */
  predicate Accepts(ts: seq<Token>, a: Alt, rest: seq<Token>) {
    WfAlt(a) && ts == PrintAlt(a) + rest
  }

  lemma {:induction false} AltAccepted(ts: seq<Token>)
    requires ParseAlt(ts).Done?
    ensures Accepts(ts, ParseAlt(ts).value, ParseAlt(ts).rest)
    decreases |ts|, 2
  {
    var g, rest := ParseGroup(ts).value, ParseGroup(ts).rest;
    GroupAccepted(ts);
    PrintOne(g);
    if rest != [] && rest[0] == TkPipe {
      var a := ParseAlt(rest[1..]).value;
      AltAccepted(rest[1..]);
      HeadTail(rest);
      PrintAltAppend([g], a.groups);
      Regroup(PrintGroup(g), TkPipe, PrintAlt(a), ParseAlt(rest[1..]).rest);
    }
  }

  lemma {:induction false} Regroup(head: seq<Token>, separator: Token, tail: seq<Token>, rest: seq<Token>)
    ensures head + ([separator] + (tail + rest)) == (head + [separator] + tail) + rest
  {
  }

  lemma {:induction false} GroupAccepted(ts: seq<Token>)
    requires ParseGroup(ts).Done?
    ensures WfGroup(ParseGroup(ts).value) && ts == PrintGroup(ParseGroup(ts).value) + ParseGroup(ts).rest
    decreases |ts|, 1
  {
    var p, rest := ParsePrim(ts).value, ParsePrim(ts).rest;
    PrimAccepted(ts);
    PrintOnePrim(p);
    PrintOne(Group([p]));
    if rest != [] && rest[0] == TkAmp {
      var g := ParseGroup(rest[1..]).value;
      GroupAccepted(rest[1..]);
      HeadTail(rest);
      PrintGroupAppend(Group([p]), g);
      Regroup(PrintPrim(p), TkAmp, PrintGroup(g), ParseGroup(rest[1..]).rest);
    }
  }

  lemma {:induction false} PrimAccepted(ts: seq<Token>)
    requires ParsePrim(ts).Done?
    ensures WfPrim(ParsePrim(ts).value) && ts == PrintPrim(ParsePrim(ts).value) + ParsePrim(ts).rest
    decreases |ts|, 0
  {
    HeadTail(ts);
    match ts[0] {
      case TkArrayOpen =>
        AltAccepted(ts[1..]);
        var elem, rest := ParseAlt(ts[1..]).value, ParseAlt(ts[1..]).rest;
        HeadTail(rest);
        Enclosed(TkArrayOpen, PrintAlt(elem), TkArrayClose, rest[1..]);
      case TkLBrace =>
        MembersAccepted(ts[1..]);
        var ms, rest := ParseMembers(ts[1..]).value, ParseMembers(ts[1..]).rest;
        Enclosed(TkLBrace, Flatten(PrintAltMembers(ms)), TkRBrace, rest);
      case _ =>
    }
  }

  lemma {:induction false} Enclosed(open: Token, text: seq<Token>, close: Token, rest: seq<Token>)
    ensures [open] + (text + ([close] + rest)) == [open] + text + [close] + rest
  {
  }

  lemma {:induction false} MembersAccepted(ts: seq<Token>)
    requires ParseMembers(ts).Done?
    ensures var ms := ParseMembers(ts).value;
            && (forall i :: 0 <= i < |ms| ==> WfAlt(ms[i].typ))
            && ts == Flatten(PrintAltMembers(ms)) + ([TkRBrace] + ParseMembers(ts).rest)
    decreases |ts|, 3
  {
    HeadTail(ts);
    if ts[0] != TkRBrace {
      var m, rest := ParseMember(ts).value, ParseMember(ts).rest;
      var ms := ParseMembers(rest).value;
      MemberAccepted(ts);
      MembersAccepted(rest);
      assert PrintAltMembers([m] + ms) == [AltMemberText(m)] + PrintAltMembers(ms) by {
        assert ([m] + ms)[1..] == ms;
      }
      FlattenHead([AltMemberText(m)] + PrintAltMembers(ms), [TkRBrace] + ParseMembers(rest).rest);
    }
  }

  lemma {:induction false} MemberAccepted(ts: seq<Token>)
    requires ParseMember(ts).Done?
    ensures WfAlt(ParseMember(ts).value.typ) && ts == AltMemberText(ParseMember(ts).value) + ParseMember(ts).rest
    decreases |ts|, 0
  {
    var m := ParseMember(ts).value;
    match m {
      case Index(typ) =>
        TerminatedAccepted(ts[2..]);
        assert ts == [TkIndexKey, TkColon] + ts[2..];
        IndexTextSplit(PrintAlt(typ), ParseMember(ts).rest);
      case Field(name, optional, typ) =>
        var k := if optional then 2 else 1;
        TerminatedAccepted(ts[k + 1..]);
        assert ts == FieldHead(name, optional) + ts[k + 1..];
        FieldTextSplit(name, optional, PrintAlt(typ), ParseMember(ts).rest);
    }
  }

  lemma {:induction false} TerminatedAccepted(ts: seq<Token>)
    requires ParseTerminated(ts).Done?
    ensures WfAlt(ParseTerminated(ts).value)
    ensures ts == PrintAlt(ParseTerminated(ts).value) + ([TkSemi] + ParseTerminated(ts).rest)
    decreases |ts|, 3
  {
    AltAccepted(ts);
    HeadTail(ParseAlt(ts).rest);
  }

  /** The parser is the exact inverse of the printer: a text reads as a type exactly when it is that type's text. */
  lemma {:induction false} ReadsExactly(text: seq<Token>, a: Alt)
    ensures ReadText(text) == Some(a) <==> WfAlt(a) && text == PrintAlt(a)
  {
    if ReadText(text) == Some(a) {
      AltAccepted(text);
      assert PrintAlt(a) + [] == PrintAlt(a);
    }
    if WfAlt(a) {
      ParsesAlt(a, []);
      assert PrintAlt(a) + [] == PrintAlt(a);
    }
  }

  // ----- nothing missing in a text -----

  /** A type must follow. */
  predicate Opens(t: Token) {
    t == TkPipe || t == TkAmp || t == TkArrayOpen || t == TkColon
  }

  /** A type must come before. */
  predicate Closes(t: Token) {
    t == TkPipe || t == TkAmp || t == TkArrayClose || t == TkSemi
  }

  predicate Meet(a: seq<Token>, b: seq<Token>) {
    a != [] && b != [] ==> !(Opens(a[|a| - 1]) && Closes(b[0]))
  }

  predicate NoGap(ts: seq<Token>) {
    forall i :: 1 <= i < |ts| ==> !(Opens(ts[i - 1]) && Closes(ts[i]))
  }

  /** Nothing is missing, at the ends or between. */
  predicate Gapless(ts: seq<Token>) {
    ts != [] && !Closes(ts[0]) && !Opens(ts[|ts| - 1]) && NoGap(ts)
  }

  lemma {:induction false} NoGapAppend(a: seq<Token>, b: seq<Token>)
    ensures NoGap(a + b) <==> NoGap(a) && NoGap(b) && Meet(a, b)
  {
    var ts := a + b;
    if NoGap(ts) {
      forall i | 1 <= i < |b| ensures !(Opens(b[i - 1]) && Closes(b[i])) {
        assert ts[|a| + i - 1] == b[i - 1] && ts[|a| + i] == b[i];
      }
      forall i | 1 <= i < |a| ensures !(Opens(a[i - 1]) && Closes(a[i])) {
        assert ts[i - 1] == a[i - 1] && ts[i] == a[i];
      }
      assert a != [] && b != [] ==> ts[|a| - 1] == a[|a| - 1] && ts[|a|] == b[0];
    }
  }

  lemma {:induction false} SeparatorWhole(a: seq<Token>, separator: Token, b: seq<Token>)
    requires separator == TkPipe || separator == TkAmp
    ensures Gapless(a + [separator] + b) <==> Gapless(a) && Gapless(b)
  {
    var front := a + [separator];
    NoGapAppend(front, b);
    NoGapAppend(a, [separator]);
    assert front[|front| - 1] == separator;
    assert a != [] ==> front[0] == a[0];
    assert (front + b)[0] == front[0];
    assert b != [] ==> (front + b)[|front + b| - 1] == b[|b| - 1];
    assert b == [] ==> front + b == front;
  }

  lemma {:induction false} JoinWhole(parts: seq<seq<Token>>, separator: Token)
    requires separator == TkPipe || separator == TkAmp
    ensures Gapless(Join(parts, separator)) <==> parts != [] && forall i :: 0 <= i < |parts| ==> Gapless(parts[i])
  {
    if |parts| > 1 {
      JoinWhole(parts[1..], separator);
      SeparatorWhole(parts[0], separator, Join(parts[1..], separator));
      assert forall i :: 1 <= i < |parts| ==> parts[i] == parts[1..][i - 1];
    }
  }

  lemma {:induction false} ArrayWhole(text: seq<Token>)
    ensures Gapless([TkArrayOpen] + text + [TkArrayClose]) <==> Gapless(text)
  {
    var front := [TkArrayOpen] + text;
    NoGapAppend(front, [TkArrayClose]);
    NoGapAppend([TkArrayOpen], text);
    assert text != [] ==> front[|front| - 1] == text[|text| - 1];
    assert (front + [TkArrayClose])[0] == TkArrayOpen;
  }

  /** Starts and ends with tokens that ask for nothing outside. */
  predicate Sealed(text: seq<Token>) {
    text != [] && !Closes(text[0]) && !Opens(text[|text| - 1])
  }

  lemma {:induction false} TypedWhole(head: seq<Token>, text: seq<Token>)
    requires head != [] && head[|head| - 1] == TkColon && !Closes(head[0]) && NoGap(head)
    ensures Sealed(head + text + [TkSemi])
    ensures NoGap(head + text + [TkSemi]) <==> Gapless(text)
  {
    var front := head + text;
    NoGapAppend(front, [TkSemi]);
    NoGapAppend(head, text);
    assert text != [] ==> front[|front| - 1] == text[|text| - 1];
    assert text == [] ==> front == head;
    assert (front + [TkSemi])[0] == head[0];
  }

  lemma {:induction false} IndexWhole(text: seq<Token>)
    ensures Sealed(IndexText(text)) && (NoGap(IndexText(text)) <==> Gapless(text))
  {
    TypedWhole([TkIndexKey, TkColon], text);
  }

  lemma {:induction false} FieldWhole(name: string, optional: bool, text: seq<Token>)
    ensures Sealed(FieldText(name, optional, text)) && (NoGap(FieldText(name, optional, text)) <==> Gapless(text))
  {
    var head := [TkLit(SStr(name))] + (if optional then [TkQuestion] else []) + [TkColon];
    TypedWhole(head, text);
  }

  lemma {:induction false} FlattenWhole(parts: seq<seq<Token>>)
    requires forall i :: 0 <= i < |parts| ==> Sealed(parts[i])
    ensures parts != [] ==> Sealed(Flatten(parts))
    ensures NoGap(Flatten(parts)) <==> forall i :: 0 <= i < |parts| ==> NoGap(parts[i])
  {
    if parts != [] {
      FlattenWhole(parts[1..]);
      NoGapAppend(parts[0], Flatten(parts[1..]));
      assert forall i :: 1 <= i < |parts| ==> parts[i] == parts[1..][i - 1];
      assert parts[1..] == [] ==> Flatten(parts) == parts[0] + [] == parts[0];
    }
  }

  lemma {:induction false} ObjectWhole(parts: seq<seq<Token>>)
    requires forall i :: 0 <= i < |parts| ==> Sealed(parts[i])
    ensures Gapless([TkLBrace] + Flatten(parts) + [TkRBrace]) <==> forall i :: 0 <= i < |parts| ==> NoGap(parts[i])
  {
    var text := Flatten(parts);
    var front := [TkLBrace] + text;
    FlattenWhole(parts);
    NoGapAppend(front, [TkRBrace]);
    NoGapAppend([TkLBrace], text);
    assert (front + [TkRBrace])[0] == TkLBrace;
  }

  /** The text of a tree has a gap exactly where the tree has an empty union or intersection. */
  lemma {:induction false} PrintWhole(t: Ty)
    ensures Gapless(Print(t)) <==> WfTy(t)
    decreases t
  {
    match t {
      case TArr(elem) =>
        PrintWhole(elem);
        ArrayWhole(Print(elem));
      case TObj(members) =>
        forall i | 0 <= i < |members|
          ensures Sealed(PrintMembers(members)[i])
          ensures NoGap(PrintMembers(members)[i]) <==> WfTy(members[i].typ)
        {
          MemberWhole(members[i]);
        }
        ObjectWhole(PrintMembers(members));
      case TUnion(alts) =>
        forall i | 0 <= i < |alts| ensures Gapless(PrintAll(alts)[i]) <==> WfTy(alts[i]) {
          PrintWhole(alts[i]);
        }
        JoinWhole(PrintAll(alts), TkPipe);
      case TInter(parts) =>
        forall i | 0 <= i < |parts| ensures Gapless(PrintAll(parts)[i]) <==> WfTy(parts[i]) {
          PrintWhole(parts[i]);
        }
        JoinWhole(PrintAll(parts), TkAmp);
      case _ =>
    }
  }

  lemma {:induction false} MemberWhole(m: Member<Ty>)
    ensures Sealed(MemberText(m)) && (NoGap(MemberText(m)) <==> WfTy(m.typ))
    decreases m
  {
    PrintWhole(m.typ);
    match m {
      case Field(name, optional, typ) => FieldWhole(name, optional, Print(typ));
      case Index(typ) => IndexWhole(Print(typ));
    }
  }

  lemma {:induction false} AltWhole(a: Alt)
    requires WfAlt(a)
    ensures Gapless(PrintAlt(a))
    decreases a
  {
    forall i | 0 <= i < |a.groups| ensures Gapless(PrintGroups(a.groups)[i]) {
      GroupWhole(a.groups[i]);
    }
    JoinWhole(PrintGroups(a.groups), TkPipe);
  }

  lemma {:induction false} GroupWhole(g: Group)
    requires WfGroup(g)
    ensures Gapless(PrintGroup(g))
    decreases g
  {
    forall i | 0 <= i < |g.prims| ensures Gapless(PrintPrims(g.prims)[i]) {
      PrimWhole(g.prims[i]);
    }
    JoinWhole(PrintPrims(g.prims), TkAmp);
  }

  lemma {:induction false} PrimWhole(p: Prim)
    requires WfPrim(p)
    ensures Gapless(PrintPrim(p))
    decreases p
  {
    match p {
      case PArr(elem) =>
        AltWhole(elem);
        ArrayWhole(PrintAlt(elem));
      case PObj(members) =>
        forall i | 0 <= i < |members|
          ensures Sealed(PrintAltMembers(members)[i]) && NoGap(PrintAltMembers(members)[i])
        {
          AltMemberWhole(members[i]);
        }
        ObjectWhole(PrintAltMembers(members));
      case _ =>
    }
  }

  lemma {:induction false} AltMemberWhole(m: Member<Alt>)
    requires WfAlt(m.typ)
    ensures Sealed(AltMemberText(m)) && NoGap(AltMemberText(m))
    decreases m
  {
    AltWhole(m.typ);
    match m {
      case Field(name, optional, typ) => FieldWhole(name, optional, PrintAlt(typ));
      case Index(typ) => IndexWhole(PrintAlt(typ));
    }
  }

  // ----- when the generator prints a type at all -----

  /** Along the branch the generator takes, no list that it joins is empty. */
  predicate NothingEmpty(s: Schema)
    decreases s
  {
    if s.ref.Some? || s.constant.Some? then true
    else if s.enumeration.Some? then s.enumeration.value != []
    else if s.anyOf.Given? then NoneEmpty(s.anyOf.schemas)
    else if s.oneOf.Given? then NoneEmpty(s.oneOf.schemas)
    else if s.allOf.Given? then NoneEmpty(s.allOf.schemas)
    else if s.typ.ManyTypes? then s.typ.names != []
    else if s.typ == OneType(ArrayType) then s.items.Some? ==> NothingEmpty(s.items.value)
    else if s.typ.OneType? && s.typ.name in SCALAR_TYPES then true
    else if PrintsObject(s) then
      && (s.properties.Declared? ==>
            forall i :: 0 <= i < |s.properties.list| ==> NothingEmpty(s.properties.list[i].schema))
      && (s.additional.Constrained? ==> NothingEmpty(s.additional.schema))
    else true
  }

  predicate NoneEmpty(ss: seq<Schema>)
    decreases ss
  {
    ss != [] && forall i :: 0 <= i < |ss| ==> NothingEmpty(ss[i])
  }

  lemma {:induction false} EmptyUnion(s: Schema)
    ensures NothingEmpty(s) <==> WfTy(Intended(s))
    decreases s
  {
    if s.ref.Some? || s.constant.Some? || s.enumeration.Some? {
    } else if s.anyOf.Given? {
      EmptyBranch(s.anyOf.schemas);
    } else if s.oneOf.Given? {
      EmptyBranch(s.oneOf.schemas);
    } else if s.allOf.Given? {
      EmptyBranch(s.allOf.schemas);
    } else if s.typ.ManyTypes? {
    } else if s.typ == OneType(ArrayType) {
      if s.items.Some? {
        EmptyUnion(s.items.value);
      }
    } else if s.typ.OneType? && s.typ.name in SCALAR_TYPES {
    } else if PrintsObject(s) {
      EmptyMember(s);
    }
  }

  lemma {:induction false} EmptyBranch(ss: seq<Schema>)
    ensures NoneEmpty(ss) <==> IntendedAll(ss) != [] && forall i :: 0 <= i < |ss| ==> WfTy(IntendedAll(ss)[i])
    decreases ss
  {
    forall i | 0 <= i < |ss| ensures NothingEmpty(ss[i]) <==> WfTy(IntendedAll(ss)[i]) {
      EmptyUnion(ss[i]);
    }
  }

  predicate FieldsReadable(ps: seq<Property>) {
    forall i :: 0 <= i < |ps| ==> NothingEmpty(ps[i].schema)
  }

  predicate MembersWf(ms: seq<Member<Ty>>) {
    forall i :: 0 <= i < |ms| ==> WfTy(ms[i].typ)
  }

  lemma {:induction false} ObjectParts(s: Schema)
    requires TakesObject(s)
    ensures Intended(s) == TObj(IntendedFields(ListOf(s.properties), s.required) + IntendedAdditional(s.additional))
    ensures NothingEmpty(s) <==>
            && FieldsReadable(ListOf(s.properties))
            && (s.additional.Constrained? ==> NothingEmpty(s.additional.schema))
  {
  }

  lemma {:induction false} EmptyMember(s: Schema)
    requires TakesObject(s)
    ensures NothingEmpty(s) <==> WfTy(Intended(s))
    decreases s, 0
  {
    ObjectParts(s);
    if s.properties.Declared? {
      EmptyFields(s.properties.list, s.required);
    }
    EmptyIndex(s.additional);
    AllMembers(IntendedFields(ListOf(s.properties), s.required), IntendedAdditional(s.additional));
  }

  lemma {:induction false} EmptyFields(ps: seq<Property>, required: set<string>)
    ensures FieldsReadable(ps) <==> MembersWf(IntendedFields(ps, required))
    decreases ps
  {
    forall i | 0 <= i < |ps| ensures NothingEmpty(ps[i].schema) <==> WfTy(IntendedFields(ps, required)[i].typ) {
      EmptyUnion(ps[i].schema);
    }
  }

  lemma {:induction false} EmptyIndex(additional: Additional)
    ensures (additional.Constrained? ==> NothingEmpty(additional.schema)) <==>
            MembersWf(IntendedAdditional(additional))
    decreases additional
  {
    if additional.Constrained? {
      EmptyUnion(additional.schema);
      assert IntendedAdditional(additional)[0].typ == Intended(additional.schema);
    }
  }

  lemma {:induction false} AllMembers(a: seq<Member<Ty>>, b: seq<Member<Ty>>)
    ensures WfTy(TObj(a + b)) <==> MembersWf(a) && MembersWf(b)
  {
    var all := a + b;
    if WfTy(TObj(all)) {
      forall i | 0 <= i < |a| ensures WfTy(a[i].typ) {
        assert all[i] == a[i];
      }
      forall i | 0 <= i < |b| ensures WfTy(b[i].typ) {
        assert all[|a| + i] == b[i];
      }
    }
  }

  /** The text of a schema is a type exactly when nothing joined in it is empty; it then reads as what the
      intended tree reads as. */
  lemma {:induction false} TypeExactly(s: Schema)
    ensures ReadText(Emit(s)).Some? <==> NothingEmpty(s)
    ensures NothingEmpty(s) ==>
              WfTy(Intended(s)) && ReadText(Emit(s)) == Some(Read(Intended(s))) && WfAlt(Read(Intended(s)))
  {
    var t := Intended(s);
    EmitPrintsIntended(s);
    EmptyUnion(s);
    PrintWhole(t);
    if NothingEmpty(s) {
      PrintReads(t);
      ReadWf(t);
      ReadsExactly(Emit(s), Read(t));
    } else if ReadText(Emit(s)).Some? {
      var a := ReadText(Emit(s)).value;
      ReadsExactly(Emit(s), a);
      AltWhole(a);
    }
  }

  /** Nothing is empty in a supported schema. */
  lemma {:induction false} SupportedReadable(s: Schema)
    requires Supported(s)
    ensures NothingEmpty(s)
    decreases s
  {
    if s.ref.Some? || s.constant.Some? || s.enumeration.Some? {
    } else if s.anyOf.Given? {
      BranchesReadable(s.anyOf.schemas);
    } else if s.oneOf.Given? {
      BranchesReadable(s.oneOf.schemas);
    } else if s.allOf.Given? {
      BranchesReadable(s.allOf.schemas);
    } else if s.typ == OneType(ArrayType) {
      if s.items.Some? {
        SupportedReadable(s.items.value);
      }
    } else if s.typ.ManyTypes? || (s.typ.OneType? && s.typ.name in SCALAR_TYPES) {
    } else if PrintsObject(s) {
      if s.properties.Declared? {
        forall i | 0 <= i < |s.properties.list| ensures NothingEmpty(s.properties.list[i].schema) {
          SupportedReadable(s.properties.list[i].schema);
        }
      }
      if s.additional.Constrained? {
        SupportedReadable(s.additional.schema);
      }
    }
  }

  lemma {:induction false} BranchesReadable(ss: seq<Schema>)
    requires SupportedAll(ss)
    ensures NoneEmpty(ss)
    decreases ss
  {
    forall i | 0 <= i < |ss| ensures NothingEmpty(ss[i]) {
      SupportedReadable(ss[i]);
    }
  }

  predicate ReadableFile(env: Components) {
    forall name :: name in env ==> NothingEmpty(env[name])
  }

  lemma {:induction false} SupportedFile(env: Components)
    requires SupportedEnv(env)
    ensures ReadableFile(env)
  {
    forall name | name in env ensures NothingEmpty(env[name]) {
      SupportedReadable(env[name]);
    }
  }
}
