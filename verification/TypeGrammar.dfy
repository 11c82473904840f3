/** The TypeScript grammar of the types the generator prints: a union of intersections of primaries,
    `&` binding tighter than `|`.  The parser inverts the printer on every grammatical type. */
module TypeGrammar {
  import opened Schemas
  import opened Types
  import opened ClientTypes
  import opened PrintedTypes

  datatype Parsed<+T> = Fail | Done(value: T, rest: seq<Token>)

  function ParseAlt(ts: seq<Token>): (r: Parsed<Alt>)
    ensures r.Done? ==> |r.rest| < |ts|
    decreases |ts|, 2
  {
    match ParseGroup(ts)
    case Fail => Fail
    case Done(g, rest) =>
      if rest != [] && rest[0] == TkPipe then
        match ParseAlt(rest[1..])
        case Fail => Fail
        case Done(a, rest') => Done(Alt([g] + a.groups), rest')
      else
        Done(Alt([g]), rest)
  }

  function ParseGroup(ts: seq<Token>): (r: Parsed<Group>)
    ensures r.Done? ==> |r.rest| < |ts|
    decreases |ts|, 1
  {
    match ParsePrim(ts)
    case Fail => Fail
    case Done(p, rest) =>
      if rest != [] && rest[0] == TkAmp then
        match ParseGroup(rest[1..])
        case Fail => Fail
        case Done(g, rest') => Done(Group([p] + g.prims), rest')
      else
        Done(Group([p]), rest)
  }

  function ParsePrim(ts: seq<Token>): (r: Parsed<Prim>)
    ensures r.Done? ==> |r.rest| < |ts|
    decreases |ts|, 0
  {
    if ts == [] then
      Fail
    else
      match ts[0]
      case TkWord(w) => Done(PWord(w), ts[1..])
      case TkName(name) => Done(PRef(name), ts[1..])
      case TkLit(c) => Done(PLit(c), ts[1..])
      case TkArrayOpen =>
        (match ParseAlt(ts[1..])
         case Fail => Fail
         case Done(elem, rest) =>
           if rest != [] && rest[0] == TkArrayClose then Done(PArr(elem), rest[1..]) else Fail)
      case TkLBrace =>
        (match ParseMembers(ts[1..])
         case Fail => Fail
         case Done(members, rest) => Done(PObj(members), rest))
      case _ => Fail
  }

  /** Members up to and including the closing brace. */
  function ParseMembers(ts: seq<Token>): (r: Parsed<seq<Member<Alt>>>)
    ensures r.Done? ==> |r.rest| < |ts|
    decreases |ts|, 3
  {
    if ts == [] then
      Fail
    else if ts[0] == TkRBrace then
      Done([], ts[1..])
    else
      match ParseMember(ts)
      case Fail => Fail
      case Done(m, rest) =>
        match ParseMembers(rest)
        case Fail => Fail
        case Done(ms, rest') => Done([m] + ms, rest')
  }

  function ParseMember(ts: seq<Token>): (r: Parsed<Member<Alt>>)
    ensures r.Done? ==> |r.rest| < |ts|
    decreases |ts|, 0
  {
    if |ts| > 1 && ts[0] == TkIndexKey && ts[1] == TkColon then
      match ParseTerminated(ts[2..])
      case Fail => Fail
      case Done(typ, rest) => Done(Index(typ), rest)
    else if |ts| > 1 && ts[0].TkLit? && ts[0].literal.SStr? then
      var optional := ts[1] == TkQuestion;
      var k := if optional then 2 else 1;
      if |ts| > k && ts[k] == TkColon then
        match ParseTerminated(ts[k + 1..])
        case Fail => Fail
        case Done(typ, rest) => Done(Field(ts[0].literal.s, optional, typ), rest)
      else
        Fail
    else
      Fail
  }

  function ParseTerminated(ts: seq<Token>): (r: Parsed<Alt>)
    ensures r.Done? ==> |r.rest| < |ts|
    decreases |ts|, 3
  {
    match ParseAlt(ts)
    case Fail => Fail
    case Done(typ, rest) => if rest != [] && rest[0] == TkSemi then Done(typ, rest[1..]) else Fail
  }

  // ----- the parser inverts the printer -----

  predicate Ends(rest: seq<Token>, token: Token) {
    rest == [] || rest[0] != token
  }

  lemma {:induction false} ParsesAlt(a: Alt, rest: seq<Token>)
    requires WfAlt(a) && Ends(rest, TkPipe) && Ends(rest, TkAmp)
    ensures ParseAlt(PrintAlt(a) + rest) == Done(a, rest)
    decreases a
  {
    ParsesGroups(a.groups, rest);
  }

  lemma JoinHead(parts: seq<seq<Token>>, separator: Token, rest: seq<Token>)
    requires |parts| > 1
    ensures Join(parts, separator) + rest == parts[0] + ([separator] + (Join(parts[1..], separator) + rest))
  {
  }

  lemma FlattenHead(parts: seq<seq<Token>>, rest: seq<Token>)
    requires parts != []
    ensures Flatten(parts) + rest == parts[0] + (Flatten(parts[1..]) + rest)
  {
  }

  lemma DropHead(token: Token, rest: seq<Token>)
    ensures ([token] + rest)[0] == token && ([token] + rest)[1..] == rest
  {
  }

  lemma HeadTail<T>(s: seq<T>)
    requires s != []
    ensures [s[0]] + s[1..] == s
  {
  }

  lemma Bracketed(open: Token, text: seq<Token>, close: Token, rest: seq<Token>)
    ensures ([open] + text + [close] + rest)[0] == open
    ensures ([open] + text + [close] + rest)[1..] == text + ([close] + rest)
  {
  }

  /** A union's text: the first group, then the rest after a pipe. */
  lemma {:induction false} UnionText(gs: seq<Group>, rest: seq<Token>)
    requires gs != []
    ensures var text := Join(PrintGroups(gs), TkPipe) + rest;
            var head := Join(PrintPrims(gs[0].prims), TkAmp);
            if |gs| == 1 then text == head + rest
            else text == head + ([TkPipe] + (Join(PrintGroups(gs[1..]), TkPipe) + rest))
  {
    var texts := PrintGroups(gs);
    assert texts[0] == Join(PrintPrims(gs[0].prims), TkAmp);
    if |gs| > 1 {
      assert texts[1..] == PrintGroups(gs[1..]);
      JoinHead(texts, TkPipe, rest);
    }
  }

  /** An intersection's text: the first primary, then the rest after an ampersand. */
  lemma {:induction false} IntersectionText(ps: seq<Prim>, rest: seq<Token>)
    requires ps != []
    ensures var text := Join(PrintPrims(ps), TkAmp) + rest;
            if |ps| == 1 then text == PrintPrim(ps[0]) + rest
            else text == PrintPrim(ps[0]) + ([TkAmp] + (Join(PrintPrims(ps[1..]), TkAmp) + rest))
  {
    var texts := PrintPrims(ps);
    assert texts[0] == PrintPrim(ps[0]);
    if |ps| > 1 {
      assert texts[1..] == PrintPrims(ps[1..]);
      JoinHead(texts, TkAmp, rest);
    }
  }

  lemma {:induction false} ParsesGroups(gs: seq<Group>, rest: seq<Token>)
    requires gs != [] && (forall i :: 0 <= i < |gs| ==> WfGroup(gs[i]))
    requires Ends(rest, TkPipe) && Ends(rest, TkAmp)
    ensures ParseAlt(Join(PrintGroups(gs), TkPipe) + rest) == Done(Alt(gs), rest)
    decreases gs
  {
    var head := Join(PrintPrims(gs[0].prims), TkAmp);
    UnionText(gs, rest);
    HeadTail(gs);
    assert WfGroup(gs[0]);
    if |gs| == 1 {
      ParsesPrims(gs[0].prims, rest);
      AltLast(head + rest, gs[0], rest);
      assert [gs[0]] == gs;
    } else {
      var tail := Join(PrintGroups(gs[1..]), TkPipe) + rest;
      ParsesPrims(gs[0].prims, [TkPipe] + tail);
      ParsesGroups(gs[1..], rest);
      AltStep(head + ([TkPipe] + tail), gs[0], tail, gs[1..], rest);
    }
  }

  lemma {:induction false} AltLast(ts: seq<Token>, g: Group, rest: seq<Token>)
    requires ParseGroup(ts) == Done(g, rest) && Ends(rest, TkPipe)
    ensures ParseAlt(ts) == Done(Alt([g]), rest)
  {
  }

  lemma {:induction false} AltStep(ts: seq<Token>, g: Group, tail: seq<Token>, gs: seq<Group>, rest: seq<Token>)
    requires ParseGroup(ts) == Done(g, [TkPipe] + tail)
    requires ParseAlt(tail) == Done(Alt(gs), rest)
    ensures ParseAlt(ts) == Done(Alt([g] + gs), rest)
  {
    DropHead(TkPipe, tail);
  }

  lemma {:induction false} ParsesPrims(ps: seq<Prim>, rest: seq<Token>)
    requires ps != [] && (forall i :: 0 <= i < |ps| ==> WfPrim(ps[i]))
    requires Ends(rest, TkAmp)
    ensures ParseGroup(Join(PrintPrims(ps), TkAmp) + rest) == Done(Group(ps), rest)
    decreases ps
  {
    IntersectionText(ps, rest);
    HeadTail(ps);
    if |ps| == 1 {
      ParsesPrim(ps[0], rest);
      GroupLast(PrintPrim(ps[0]) + rest, ps[0], rest);
      assert [ps[0]] == ps;
    } else {
      var tail := Join(PrintPrims(ps[1..]), TkAmp) + rest;
      ParsesPrim(ps[0], [TkAmp] + tail);
      ParsesPrims(ps[1..], rest);
      GroupStep(PrintPrim(ps[0]) + ([TkAmp] + tail), ps[0], tail, ps[1..], rest);
    }
  }

  lemma {:induction false} GroupLast(ts: seq<Token>, p: Prim, rest: seq<Token>)
    requires ParsePrim(ts) == Done(p, rest) && Ends(rest, TkAmp)
    ensures ParseGroup(ts) == Done(Group([p]), rest)
  {
  }

  lemma {:induction false} GroupStep(ts: seq<Token>, p: Prim, tail: seq<Token>, ps: seq<Prim>, rest: seq<Token>)
    requires ParsePrim(ts) == Done(p, [TkAmp] + tail)
    requires ParseGroup(tail) == Done(Group(ps), rest)
    ensures ParseGroup(ts) == Done(Group([p] + ps), rest)
  {
    DropHead(TkAmp, tail);
  }

  lemma {:induction false} ArrayStep(text: seq<Token>, elem: Alt, rest: seq<Token>)
    requires ParseAlt(text + ([TkArrayClose] + rest)) == Done(elem, [TkArrayClose] + rest)
    ensures ParsePrim([TkArrayOpen] + text + [TkArrayClose] + rest) == Done(PArr(elem), rest)
  {
    Bracketed(TkArrayOpen, text, TkArrayClose, rest);
    DropHead(TkArrayClose, rest);
  }

  lemma {:induction false} ObjectStep(text: seq<Token>, members: seq<Member<Alt>>, rest: seq<Token>)
    requires ParseMembers(text + ([TkRBrace] + rest)) == Done(members, rest)
    ensures ParsePrim([TkLBrace] + text + [TkRBrace] + rest) == Done(PObj(members), rest)
  {
    Bracketed(TkLBrace, text, TkRBrace, rest);
  }

  lemma {:induction false} ParsesPrim(p: Prim, rest: seq<Token>)
    requires WfPrim(p)
    ensures ParsePrim(PrintPrim(p) + rest) == Done(p, rest)
    decreases p
  {
    match p {
      case PArr(elem) =>
        ParsesAlt(elem, [TkArrayClose] + rest);
        ArrayStep(PrintAlt(elem), elem, rest);
      case PObj(members) =>
        ParsesMembers(members, rest);
        ObjectStep(Flatten(PrintAltMembers(members)), members, rest);
      case PWord(w) => DropHead(TkWord(w), rest);
      case PRef(name) => DropHead(TkName(name), rest);
      case PLit(c) => DropHead(TkLit(c), rest);
    }
  }

  lemma {:induction false} ParsesMembers(ms: seq<Member<Alt>>, rest: seq<Token>)
    requires forall i :: 0 <= i < |ms| ==> WfAlt(ms[i].typ)
    ensures ParseMembers(Flatten(PrintAltMembers(ms)) + ([TkRBrace] + rest)) == Done(ms, rest)
    decreases ms
  {
    var texts, close := PrintAltMembers(ms), [TkRBrace] + rest;
    DropHead(TkRBrace, rest);
    if ms == [] {
      assert Flatten(texts) + close == close;
    } else {
      var tail := Flatten(PrintAltMembers(ms[1..])) + close;
      assert texts[0] == AltMemberText(ms[0]) && texts[1..] == PrintAltMembers(ms[1..]);
      FlattenHead(texts, close);
      ParsesMember(ms[0], tail);
      ParsesMembers(ms[1..], rest);
      MembersStep(texts[0] + tail, ms[0], tail, ms[1..], rest);
      HeadTail(ms);
    }
  }

  lemma {:induction false} MembersStep(ts: seq<Token>, m: Member<Alt>, tail: seq<Token>, ms: seq<Member<Alt>>,
                                       rest: seq<Token>)
    requires ParseMember(ts) == Done(m, tail)
    requires ParseMembers(tail) == Done(ms, rest)
    ensures ParseMembers(ts) == Done([m] + ms, rest)
  {
  }

  lemma {:induction false} ParsesMember(m: Member<Alt>, rest: seq<Token>)
    requires WfAlt(m.typ)
    ensures ParseMember(AltMemberText(m) + rest) == Done(m, rest)
    decreases m
  {
    var text := PrintAlt(m.typ);
    var tail := text + ([TkSemi] + rest);
    ParsesAlt(m.typ, [TkSemi] + rest);
    DropHead(TkSemi, rest);
    assert ParseTerminated(tail) == Done(m.typ, rest);
    match m {
      case Index(typ) =>
        IndexTextSplit(text, rest);
        ParsesIndex(typ, tail, rest);
      case Field(name, optional, typ) =>
        FieldTextSplit(name, optional, text, rest);
        ParsesField(name, optional, typ, tail, rest);
    }
  }

  lemma IndexTextSplit(text: seq<Token>, rest: seq<Token>)
    ensures IndexText(text) + rest == [TkIndexKey, TkColon] + (text + ([TkSemi] + rest))
  {
  }

  lemma FieldTextSplit(name: string, optional: bool, text: seq<Token>, rest: seq<Token>)
    ensures FieldText(name, optional, text) + rest == FieldHead(name, optional) + (text + ([TkSemi] + rest))
  {
    if optional {
      assert FieldHead(name, optional) == [TkLit(SStr(name))] + [TkQuestion] + [TkColon];
    } else {
      assert FieldHead(name, optional) == [TkLit(SStr(name))] + [] + [TkColon];
    }
  }

  lemma {:induction false} ParsesIndex(typ: Alt, tail: seq<Token>, rest: seq<Token>)
    requires ParseTerminated(tail) == Done(typ, rest)
    ensures ParseMember([TkIndexKey, TkColon] + tail) == Done(Index(typ), rest)
  {
    assert ([TkIndexKey, TkColon] + tail)[2..] == tail;
  }

  function FieldHead(name: string, optional: bool): seq<Token> {
    if optional then [TkLit(SStr(name)), TkQuestion, TkColon] else [TkLit(SStr(name)), TkColon]
  }

  lemma {:induction false} ParsesField(name: string, optional: bool, typ: Alt, tail: seq<Token>, rest: seq<Token>)
    requires ParseTerminated(tail) == Done(typ, rest)
    ensures ParseMember(FieldHead(name, optional) + tail) == Done(Field(name, optional, typ), rest)
  {
    var head := FieldHead(name, optional);
    var text := head + tail;
    assert text[|head|..] == tail;
    assert text[0] == TkLit(SStr(name)) && text[1] == head[1] && text[|head| - 1] == TkColon;
  }

  // ----- reading the text the generator prints -----

  /** What a whole text reads as, if it is a type at all. */
  function ReadText(text: seq<Token>): Option<Alt> {
    match ParseAlt(text)
    case Fail => None
    case Done(a, rest) => if rest == [] then Some(a) else None
  }
}
