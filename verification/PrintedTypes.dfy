/** The printed type text read back.  The generator joins unions with `|` and intersections with `&`
    and never prints parentheses, while TypeScript binds `&` tighter than `|`; so the text of a union
    inside an intersection reads as another type.  This module says which type the text reads as, and
    that both have the same text. */
module PrintedTypes {
  import opened Schemas
  import opened Types
  import opened ClientTypes

  // ----- the text of a type tree -----

  function Print(t: Ty): seq<Token>
    decreases t
  {
    match t
    case TWord(w) => [TkWord(w)]
    case TRef(name) => [TkName(name)]
    case TLit(c) => [TkLit(c)]
    case TArr(elem) => [TkArrayOpen] + Print(elem) + [TkArrayClose]
    case TObj(members) => [TkLBrace] + Flatten(PrintMembers(members)) + [TkRBrace]
    case TUnion(alts) => Join(PrintAll(alts), TkPipe)
    case TInter(parts) => Join(PrintAll(parts), TkAmp)
  }

  function PrintAll(ts: seq<Ty>): (r: seq<seq<Token>>)
    ensures |r| == |ts| && forall i :: 0 <= i < |ts| ==> r[i] == Print(ts[i])
    decreases ts
  {
    if ts == [] then [] else [Print(ts[0])] + PrintAll(ts[1..])
  }

  function MemberText(m: Member<Ty>): seq<Token>
    decreases m
  {
    match m
    case Field(name, optional, typ) => FieldText(name, optional, Print(typ))
    case Index(typ) => IndexText(Print(typ))
  }

  function PrintMembers(ms: seq<Member<Ty>>): (r: seq<seq<Token>>)
    ensures |r| == |ms| && forall i :: 0 <= i < |ms| ==> r[i] == MemberText(ms[i])
    decreases ms
  {
    if ms == [] then [] else [MemberText(ms[0])] + PrintMembers(ms[1..])
  }

  /** The generator prints exactly the text of the intended tree. */
  lemma {:induction false} EmitPrintsIntended(s: Schema)
    ensures Emit(s) == Print(Intended(s))
    decreases s
  {
    if s.ref.Some? || s.constant.Some? {
    } else if s.enumeration.Some? {
      assert Literals(s.enumeration.value) == PrintAll(Intended(s).alts);
    } else if s.anyOf.Given? {
      EmitAllPrints(s.anyOf.schemas);
    } else if s.oneOf.Given? {
      EmitAllPrints(s.oneOf.schemas);
    } else if s.allOf.Given? {
      EmitAllPrints(s.allOf.schemas);
    } else if s.typ.ManyTypes? {
      NamesPrint(s.typ.names);
    } else if s.typ == OneType(ArrayType) {
      if s.items.Some? {
        EmitPrintsIntended(s.items.value);
      }
    } else if s.typ.OneType? && s.typ.name in SCALAR_TYPES {
    } else if PrintsObject(s) {
      ObjectPrints(s);
    }
  }

  lemma {:induction false} NamesPrint(names: seq<TypeName>)
    ensures EmitNames(names) ==
            PrintAll(seq(|names|, i requires 0 <= i < |names| => TypeOfName(names[i])))
  {
    forall i | 0 <= i < |names|
      ensures EmitName(names[i]) == Print(TypeOfName(names[i]))
    {
      assert Flatten([]) == [];
      assert PrintMembers([]) == [];
    }
  }

  lemma {:induction false} EmitAllPrints(ss: seq<Schema>)
    ensures EmitAll(ss) == PrintAll(IntendedAll(ss))
    decreases ss
  {
    forall i | 0 <= i < |ss|
      ensures Emit(ss[i]) == Print(IntendedAll(ss)[i])
    {
      EmitPrintsIntended(ss[i]);
    }
  }

  lemma {:induction false} ObjectPrints(s: Schema)
    requires TakesObject(s)
    ensures Emit(s) == Print(Intended(s))
    decreases s, 0
  {
    var fields := if s.properties.Declared? then EmitFields(s.properties.list, s.required) else [];
    var members := if s.properties.Declared? then IntendedFields(s.properties.list, s.required) else [];
    var texts := fields + EmitAdditional(s.additional);
    var all := members + IntendedAdditional(s.additional);
    if s.properties.Declared? {
      forall i | 0 <= i < |members|
        ensures fields[i] == MemberText(members[i])
      {
        EmitPrintsIntended(s.properties.list[i].schema);
      }
    }
    if s.additional.Constrained? {
      EmitPrintsIntended(s.additional.schema);
    }
    assert |texts| == |all|;
    forall i | 0 <= i < |all|
      ensures texts[i] == MemberText(all[i])
    {
    }
    assert texts == PrintMembers(all);
  }

  // ----- the text of a grammatical type, and the type a tree's text reads as -----

  function PrintAlt(a: Alt): seq<Token>
    decreases a
  {
    Join(PrintGroups(a.groups), TkPipe)
  }

  function PrintGroups(gs: seq<Group>): (r: seq<seq<Token>>)
    ensures |r| == |gs| && forall i :: 0 <= i < |gs| ==> r[i] == PrintGroup(gs[i])
    decreases gs
  {
    if gs == [] then [] else [PrintGroup(gs[0])] + PrintGroups(gs[1..])
  }

  function PrintGroup(g: Group): seq<Token>
    decreases g
  {
    Join(PrintPrims(g.prims), TkAmp)
  }

  function PrintPrims(ps: seq<Prim>): (r: seq<seq<Token>>)
    ensures |r| == |ps| && forall i :: 0 <= i < |ps| ==> r[i] == PrintPrim(ps[i])
    decreases ps
  {
    if ps == [] then [] else [PrintPrim(ps[0])] + PrintPrims(ps[1..])
  }

  function PrintPrim(p: Prim): seq<Token>
    decreases p
  {
    match p
    case PWord(w) => [TkWord(w)]
    case PRef(name) => [TkName(name)]
    case PLit(c) => [TkLit(c)]
    case PArr(elem) => [TkArrayOpen] + PrintAlt(elem) + [TkArrayClose]
    case PObj(members) => [TkLBrace] + Flatten(PrintAltMembers(members)) + [TkRBrace]
  }

  function AltMemberText(m: Member<Alt>): seq<Token>
    decreases m
  {
    match m
    case Field(name, optional, typ) => FieldText(name, optional, PrintAlt(typ))
    case Index(typ) => IndexText(PrintAlt(typ))
  }

  function PrintAltMembers(ms: seq<Member<Alt>>): (r: seq<seq<Token>>)
    ensures |r| == |ms| && forall i :: 0 <= i < |ms| ==> r[i] == AltMemberText(ms[i])
    decreases ms
  {
    if ms == [] then [] else [AltMemberText(ms[0])] + PrintAltMembers(ms[1..])
  }

  /** No union or intersection is empty, so that every part leaves some text. */
  predicate WfTy(t: Ty)
    decreases t
  {
    match t
    case TArr(elem) => WfTy(elem)
    case TObj(members) => forall i :: 0 <= i < |members| ==> WfTy(members[i].typ)
    case TUnion(alts) => alts != [] && forall i :: 0 <= i < |alts| ==> WfTy(alts[i])
    case TInter(parts) => parts != [] && forall i :: 0 <= i < |parts| ==> WfTy(parts[i])
    case _ => true
  }

  predicate WfAlt(a: Alt)
    decreases a
  {
    a.groups != [] && forall i :: 0 <= i < |a.groups| ==> WfGroup(a.groups[i])
  }

  predicate WfGroup(g: Group)
    decreases g
  {
    g.prims != [] && forall i :: 0 <= i < |g.prims| ==> WfPrim(g.prims[i])
  }

  predicate WfPrim(p: Prim)
    decreases p
  {
    match p
    case PArr(elem) => WfAlt(elem)
    case PObj(members) => forall i :: 0 <= i < |members| ==> WfAlt(members[i].typ)
    case _ => true
  }

  function One(p: Prim): Alt {
    Alt([Group([p])])
  }

  /** `a & b` without parentheses: the last alternative of `a` meets the first of `b`. */
  function Fuse(a: seq<Group>, b: seq<Group>): seq<Group> {
    if a == [] then b
    else if b == [] then a
    else a[..|a| - 1] + [Group(a[|a| - 1].prims + b[0].prims)] + b[1..]
  }

  function FuseAll(xs: seq<Alt>): seq<Group> {
    if |xs| == 0 then []
    else if |xs| == 1 then xs[0].groups
    else Fuse(xs[0].groups, FuseAll(xs[1..]))
  }

  function Concat(xs: seq<Alt>): seq<Group> {
    if xs == [] then [] else xs[0].groups + Concat(xs[1..])
  }

  /** The type that the text of `t` reads as. */
  function Read(t: Ty): Alt
    decreases t
  {
    match t
    case TWord(w) => One(PWord(w))
    case TRef(name) => One(PRef(name))
    case TLit(c) => One(PLit(c))
    case TArr(elem) => One(PArr(Read(elem)))
    case TObj(members) => One(PObj(ReadMembers(members)))
    case TUnion(alts) => Alt(Concat(ReadAll(alts)))
    case TInter(parts) => Alt(FuseAll(ReadAll(parts)))
  }

  function ReadAll(ts: seq<Ty>): (r: seq<Alt>)
    ensures |r| == |ts| && forall i :: 0 <= i < |ts| ==> r[i] == Read(ts[i])
    decreases ts
  {
    if ts == [] then [] else [Read(ts[0])] + ReadAll(ts[1..])
  }

  function ReadMember(m: Member<Ty>): Member<Alt>
    decreases m
  {
    match m
    case Field(name, optional, typ) => Field(name, optional, Read(typ))
    case Index(typ) => Index(Read(typ))
  }

  function ReadMembers(ms: seq<Member<Ty>>): (r: seq<Member<Alt>>)
    ensures |r| == |ms| && forall i :: 0 <= i < |ms| ==> r[i] == ReadMember(ms[i])
    decreases ms
  {
    if ms == [] then [] else [ReadMember(ms[0])] + ReadMembers(ms[1..])
  }

  lemma {:induction false} JoinAppend(xs: seq<seq<Token>>, ys: seq<seq<Token>>, separator: Token)
    requires xs != [] && ys != []
    ensures Join(xs + ys, separator) == Join(xs, separator) + [separator] + Join(ys, separator)
  {
    if |xs| == 1 {
      assert (xs + ys)[1..] == ys;
    } else {
      assert (xs + ys)[1..] == xs[1..] + ys;
      JoinAppend(xs[1..], ys, separator);
    }
  }

  lemma {:induction false} PrintGroupsAppend(a: seq<Group>, b: seq<Group>)
    ensures PrintGroups(a + b) == PrintGroups(a) + PrintGroups(b)
  {
    var l, r := PrintGroups(a + b), PrintGroups(a) + PrintGroups(b);
    forall i | 0 <= i < |l|
      ensures l[i] == r[i]
    {
      assert l[i] == PrintGroup((a + b)[i]);
    }
  }

  lemma {:induction false} PrintPrimsAppend(a: seq<Prim>, b: seq<Prim>)
    ensures PrintPrims(a + b) == PrintPrims(a) + PrintPrims(b)
  {
    var l, r := PrintPrims(a + b), PrintPrims(a) + PrintPrims(b);
    forall i | 0 <= i < |l|
      ensures l[i] == r[i]
    {
      assert l[i] == PrintPrim((a + b)[i]);
    }
  }

  lemma {:induction false} PrintAltAppend(a: seq<Group>, b: seq<Group>)
    requires a != [] && b != []
    ensures PrintAlt(Alt(a + b)) == PrintAlt(Alt(a)) + [TkPipe] + PrintAlt(Alt(b))
  {
    PrintGroupsAppend(a, b);
    JoinAppend(PrintGroups(a), PrintGroups(b), TkPipe);
  }

  lemma {:induction false} PrintGroupAppend(g: Group, h: Group)
    requires g.prims != [] && h.prims != []
    ensures PrintGroup(Group(g.prims + h.prims)) == PrintGroup(g) + [TkAmp] + PrintGroup(h)
  {
    PrintPrimsAppend(g.prims, h.prims);
    JoinAppend(PrintPrims(g.prims), PrintPrims(h.prims), TkAmp);
  }

  lemma {:induction false} PrintOne(g: Group)
    ensures PrintAlt(Alt([g])) == PrintGroup(g)
  {
  }

  lemma {:induction false} PrintAfter(front: seq<Group>, g: Group)
    ensures PrintAlt(Alt(front + [g]))
            == (if front == [] then [] else PrintAlt(Alt(front)) + [TkPipe]) + PrintGroup(g)
  {
    PrintOne(g);
    if front == [] {
      assert front + [g] == [g];
    } else {
      PrintAltAppend(front, [g]);
    }
  }

  lemma {:induction false} PrintFuseLast(front: seq<Group>, g: Group, h: Group)
    requires g.prims != [] && h.prims != []
    ensures PrintAlt(Alt(front + [Group(g.prims + h.prims)]))
            == PrintAlt(Alt(front + [g])) + [TkAmp] + PrintGroup(h)
  {
    PrintGroupAppend(g, h);
    PrintAfter(front, g);
    PrintAfter(front, Group(g.prims + h.prims));
  }

  /** Joining two texts with `&` fuses what they read as. */
  lemma {:induction false} PrintFuse(a: seq<Group>, b: seq<Group>)
    requires a != [] && b != []
    requires a[|a| - 1].prims != [] && b[0].prims != []
    ensures PrintAlt(Alt(Fuse(a, b))) == PrintAlt(Alt(a)) + [TkAmp] + PrintAlt(Alt(b))
  {
    var n := |a| - 1;
    var front, back := a[..n], b[1..];
    var middle := front + [Group(a[n].prims + b[0].prims)];
    assert a == front + [a[n]] && b == [b[0]] + back && Fuse(a, b) == middle + back;
    PrintFuseLast(front, a[n], b[0]);
    PrintOne(b[0]);
    if back == [] {
      assert Fuse(a, b) == middle && b == [b[0]];
    } else {
      PrintAltAppend(middle, back);
      PrintAltAppend([b[0]], back);
    }
  }

  lemma {:induction false} ReadWf(t: Ty)
    requires WfTy(t)
    ensures WfAlt(Read(t))
    decreases t
  {
    match t {
      case TArr(elem) => ReadWf(elem);
      case TObj(members) =>
        forall i | 0 <= i < |members|
          ensures WfAlt(ReadMembers(members)[i].typ)
        {
          ReadWf(members[i].typ);
        }
        assert WfPrim(PObj(ReadMembers(members)));
      case TUnion(alts) =>
        forall i | 0 <= i < |alts|
          ensures WfAlt(ReadAll(alts)[i])
        {
          ReadWf(alts[i]);
        }
        ConcatWf(ReadAll(alts));
      case TInter(parts) =>
        forall i | 0 <= i < |parts|
          ensures WfAlt(ReadAll(parts)[i])
        {
          ReadWf(parts[i]);
        }
        FuseAllWf(ReadAll(parts));
      case _ =>
    }
  }

  lemma {:induction false} ConcatWf(xs: seq<Alt>)
    requires xs != [] && forall i :: 0 <= i < |xs| ==> WfAlt(xs[i])
    ensures WfAlt(Alt(Concat(xs)))
  {
    assert WfAlt(xs[0]);
    if |xs| > 1 {
      ConcatWf(xs[1..]);
    }
  }

  lemma {:induction false} FuseAllWf(xs: seq<Alt>)
    requires xs != [] && forall i :: 0 <= i < |xs| ==> WfAlt(xs[i])
    ensures WfAlt(Alt(FuseAll(xs)))
  {
    assert WfAlt(xs[0]);
    if |xs| > 1 {
      FuseAllWf(xs[1..]);
      var a, b := xs[0].groups, FuseAll(xs[1..]);
      assert WfGroup(a[|a| - 1]) && WfGroup(b[0]);
      assert WfGroup(Group(a[|a| - 1].prims + b[0].prims));
    }
  }

  /** The text of a tree is the text of what it reads as. */
  lemma {:induction false} PrintReads(t: Ty)
    requires WfTy(t)
    ensures Print(t) == PrintAlt(Read(t))
    decreases t
  {
    match t {
      case TArr(elem) =>
        PrintReads(elem);
        PrintOnePrim(PArr(Read(elem)));
      case TObj(members) =>
        forall i | 0 <= i < |members|
          ensures MemberText(members[i]) == AltMemberText(ReadMembers(members)[i])
        {
          PrintReads(members[i].typ);
        }
        assert PrintMembers(members) == PrintAltMembers(ReadMembers(members));
        PrintOnePrim(PObj(ReadMembers(members)));
      case TUnion(alts) =>
        forall i | 0 <= i < |alts|
          ensures Print(alts[i]) == PrintAlt(Read(alts[i])) && WfAlt(Read(alts[i]))
        {
          PrintReads(alts[i]);
          ReadWf(alts[i]);
        }
        PrintConcat(alts);
      case TInter(parts) =>
        forall i | 0 <= i < |parts|
          ensures Print(parts[i]) == PrintAlt(Read(parts[i])) && WfAlt(Read(parts[i]))
        {
          PrintReads(parts[i]);
          ReadWf(parts[i]);
        }
        PrintFuseAll(parts);
      case TWord(w) => PrintOnePrim(PWord(w));
      case TRef(name) => PrintOnePrim(PRef(name));
      case TLit(c) => PrintOnePrim(PLit(c));
    }
  }

  lemma {:induction false} PrintOnePrim(p: Prim)
    ensures PrintAlt(One(p)) == PrintPrim(p)
  {
    PrintOne(Group([p]));
    assert PrintPrims([p]) == [PrintPrim(p)];
  }

  lemma {:induction false} PrintConcat(ts: seq<Ty>)
    requires ts != []
    requires forall i :: 0 <= i < |ts| ==> Print(ts[i]) == PrintAlt(Read(ts[i])) && WfAlt(Read(ts[i]))
    ensures Join(PrintAll(ts), TkPipe) == PrintAlt(Alt(Concat(ReadAll(ts))))
  {
    var xs := ReadAll(ts);
    if |ts| == 1 {
      assert Concat(xs) == xs[0].groups;
    } else {
      PrintConcat(ts[1..]);
      ConcatWf(xs[1..]);
      assert PrintAll(ts)[1..] == PrintAll(ts[1..]) && xs[1..] == ReadAll(ts[1..]);
      PrintAltAppend(xs[0].groups, Concat(xs[1..]));
    }
  }

  lemma {:induction false} PrintFuseAll(ts: seq<Ty>)
    requires ts != []
    requires forall i :: 0 <= i < |ts| ==> Print(ts[i]) == PrintAlt(Read(ts[i])) && WfAlt(Read(ts[i]))
    ensures Join(PrintAll(ts), TkAmp) == PrintAlt(Alt(FuseAll(ReadAll(ts))))
  {
    var xs := ReadAll(ts);
    if |ts| > 1 {
      PrintFuseAll(ts[1..]);
      FuseAllWf(xs[1..]);
      assert PrintAll(ts)[1..] == PrintAll(ts[1..]) && xs[1..] == ReadAll(ts[1..]);
      var a, b := xs[0].groups, FuseAll(xs[1..]);
      assert WfAlt(xs[0]) && WfGroup(a[|a| - 1]) && WfGroup(b[0]);
      PrintFuse(a, b);
    }
  }
}
