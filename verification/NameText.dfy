/** The characters of a component name, read back.  Types are modelled as tokens; a name is the one token whose
    characters come from the document, so this is where the characters can go wrong. */
module NameText {
  import opened Schemas
  import opened Types
  import opened ClientTypes

  predicate NameStart(c: char) {
    'a' <= c <= 'z' || 'A' <= c <= 'Z' || c == '_' || c == '$'
  }

  predicate NamePart(c: char) {
    NameStart(c) || '0' <= c <= '9'
  }

  predicate Identifier(s: string) {
    s != "" && NameStart(s[0]) && forall i :: 0 <= i < |s| ==> NamePart(s[i])
  }

  function WordText(w: Word): string {
    match w
    case UnknownWord => "unknown"
    case StringWord => "string"
    case NumberWord => "number"
    case BooleanWord => "boolean"
    case NullWord => "null"
  }

  /** The words that the generator writes itself. */
  predicate Reserved(s: string) {
    s == "Array" || exists w :: WordText(w) == s
  }

  datatype Lexed = NotAName | Lexed(token: Token, rest: string)

  /** The length of the longest run of name characters at the start of a text. */
  function NameLength(text: string): (n: nat)
    ensures n <= |text| && forall i :: 0 <= i < n ==> NamePart(text[i])
    ensures n < |text| ==> !NamePart(text[n])
  {
    if text == "" || !NamePart(text[0]) then 0 else 1 + NameLength(text[1..])
  }

  /** The word or name at the start of a text: as long as it can be, and the generator's own words first. */
  ghost function LexName(text: string): Lexed {
    if text == "" || !NameStart(text[0]) then NotAName
    else
      var n := NameLength(text);
      var name, rest := text[..n], text[n..];
      if Reserved(name) then
        if name != "Array" then var w :| WordText(w) == name; Lexed(TkWord(w), rest)
        else if rest != "" && rest[0] == '<' then Lexed(TkArrayOpen, rest[1..])
        else NotAName
      else Lexed(TkName(name), rest)
  }

  lemma {:induction false} LengthOf(name: string, rest: string)
    requires (forall i :: 0 <= i < |name| ==> NamePart(name[i])) && (rest == "" || !NamePart(rest[0]))
    ensures NameLength(name + rest) == |name|
  {
    var text := name + rest;
    assert forall i :: 0 <= i < |name| ==> text[i] == name[i];
    assert rest != "" ==> text[|name|] == rest[0];
    assert NameLength(text) == |name|;
  }

  /** A component name, written before anything that is not part of a name, reads back as that name exactly when
      it is an identifier and not one of the generator's own words. */
  lemma {:induction false} NameReadsBack(name: string, rest: string)
    requires rest == "" || !NamePart(rest[0])
    ensures LexName(name + rest) == Lexed(TkName(name), rest) <==> Identifier(name) && !Reserved(name)
  {
    var text := name + rest;
    if Identifier(name) {
      LengthOf(name, rest);
      assert text[..|name|] == name && text[|name|..] == rest && text[0] == name[0];
    }
  }

  /** The characters of a reference that resolves read back as the component it names, exactly for such names. */
  lemma {:induction false} ReferenceReadsBack(env: Components, reference: string, rest: string)
    requires (forall name :: name in env ==> '/' !in name) && Resolve(env, reference).Some?
    requires rest == "" || !NamePart(rest[0])
    ensures RefName(reference) in env
    ensures LexName(RefName(reference) + rest) == Lexed(TkName(RefName(reference)), rest) <==>
            Identifier(RefName(reference)) && !Reserved(RefName(reference))
  {
    RefNameResolves(env, reference);
    NameReadsBack(RefName(reference), rest);
  }

  lemma {:induction false} WordIsIdentifier(w: Word)
    ensures Identifier(WordText(w)) && WordText(w)[0] != 'A'
  {
    match w
    case UnknownWord => assert "unknown"[0] == 'u';
    case StringWord => assert "string"[0] == 's';
    case NumberWord => assert "number"[0] == 'n';
    case BooleanWord => assert "boolean"[0] == 'b';
    case NullWord => assert "null"[0] == 'n';
  }

  lemma {:induction false} WordsDiffer(v: Word, w: Word)
    requires WordText(v) == WordText(w)
    ensures v == w
  {
    assert |"unknown"| == 7 && |"string"| == 6 && |"number"| == 6 && |"boolean"| == 7 && |"null"| == 4;
    assert "unknown"[0] == 'u' && "boolean"[0] == 'b' && "string"[0] == 's' && "number"[0] == 'n';
  }

  /** The generator's own words read back as themselves, so a component of such a name is not read as a component. */
  lemma {:induction false} WordReadsBack(w: Word, rest: string)
    requires rest == "" || !NamePart(rest[0])
    ensures LexName(WordText(w) + rest) == Lexed(TkWord(w), rest)
  {
    var name := WordText(w);
    var text := name + rest;
    WordIsIdentifier(w);
    LengthOf(name, rest);
    assert text[..|name|] == name && text[|name|..] == rest && text[0] == name[0];
    assert Reserved(name) && name != "Array" by {
      assert "Array"[0] == 'A';
    }
    forall v | WordText(v) == name ensures v == w {
      WordsDiffer(v, w);
    }
  }

  /** A name that OpenAPI allows and the generated file cannot hold. */
  lemma {:induction false} HyphenIsNoIdentifier()
    ensures LexName("Item-Input" + "") != Lexed(TkName("Item-Input"), "")
  {
    var name := "Item-Input";
    assert name[4] == '-' && !NamePart(name[4]);
    NameReadsBack(name, "");
  }
}
