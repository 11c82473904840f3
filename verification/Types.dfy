/** TypeScript types, as trees and as the flat text the generator prints, and which JSON values
    inhabit them. */
module Types {
  import opened Schemas

  datatype Word = UnknownWord | StringWord | NumberWord | BooleanWord | NullWord

  /** A member of an object type: `"name"?: T;` or `[key: string]: T;`. */
  datatype Member<T> = Field(name: string, optional: bool, typ: T) | Index(typ: T)

  /** The type a schema calls for, with its nesting explicit. */
  datatype Ty =
    | TWord(word: Word)
    | TRef(name: string)
    | TLit(literal: Scalar)
    | TArr(elem: Ty)
    | TObj(members: seq<Member<Ty>>)
    | TUnion(alts: seq<Ty>)
    | TInter(parts: seq<Ty>)

  datatype Token =
    | TkWord(word: Word)
    | TkName(name: string)
    | TkLit(literal: Scalar)
    | TkPipe | TkAmp
    | TkArrayOpen | TkArrayClose
    | TkLBrace | TkRBrace
    | TkQuestion | TkColon | TkSemi
    | TkIndexKey

  /** What `a | b & c` can be without parentheses: a union of intersections of primaries. */
  datatype Prim =
    | PWord(word: Word)
    | PRef(name: string)
    | PLit(literal: Scalar)
    | PArr(elem: Alt)
    | PObj(members: seq<Member<Alt>>)

  datatype Group = Group(prims: seq<Prim>)

  datatype Alt = Alt(groups: seq<Group>)

  ghost predicate WordAdmits(w: Word, v: Json) {
    match w
    case UnknownWord => true
    case StringWord => v.JScalar? && v.scalar.SStr?
    case NumberWord => v.JScalar? && v.scalar.SNum?
    case BooleanWord => v.JScalar? && v.scalar.SBool?
    case NullWord => v == JScalar(SNull)
  }

  /** `v` inhabits `t`.  Aliases are unfolded `fuel` deep, and count as `cut` below that. */
  ghost predicate Inhabits(env: map<string, Ty>, fuel: nat, cut: bool, t: Ty, v: Json)
    decreases fuel, t
  {
    match t
    case TWord(w) => WordAdmits(w, v)
    case TRef(name) =>
      name in env && if fuel == 0 then cut else Inhabits(env, fuel - 1, cut, env[name], v)
    case TLit(c) => v == JScalar(c)
    case TArr(elem) =>
      v.JArr? && forall i :: 0 <= i < |v.items| ==> Inhabits(env, fuel, cut, elem, v.items[i])
    case TObj(members) =>
      v.JObj? && forall i :: 0 <= i < |members| ==> FitsMember(env, fuel, cut, members[i], v.members)
    case TUnion(alts) => exists i :: 0 <= i < |alts| && Inhabits(env, fuel, cut, alts[i], v)
    case TInter(parts) => forall i :: 0 <= i < |parts| ==> Inhabits(env, fuel, cut, parts[i], v)
  }

  /** An object fits a field when the field's value does, and an index signature when all values do. */
  ghost predicate FitsMember(env: map<string, Ty>, fuel: nat, cut: bool, m: Member<Ty>, o: map<string, Json>)
    decreases fuel, m
  {
    match m
    case Field(name, optional, typ) =>
      if name in o then Inhabits(env, fuel, cut, typ, o[name]) else optional
    case Index(typ) => forall k :: k in o ==> Inhabits(env, fuel, cut, typ, o[k])
  }

  ghost predicate InhabitsAlt(env: map<string, Alt>, fuel: nat, cut: bool, a: Alt, v: Json)
    decreases fuel, a
  {
    exists i :: 0 <= i < |a.groups| && InhabitsGroup(env, fuel, cut, a.groups[i], v)
  }

  ghost predicate InhabitsGroup(env: map<string, Alt>, fuel: nat, cut: bool, g: Group, v: Json)
    decreases fuel, g
  {
    forall j :: 0 <= j < |g.prims| ==> InhabitsPrim(env, fuel, cut, g.prims[j], v)
  }

  ghost predicate InhabitsPrim(env: map<string, Alt>, fuel: nat, cut: bool, p: Prim, v: Json)
    decreases fuel, p
  {
    match p
    case PWord(w) => WordAdmits(w, v)
    case PRef(name) =>
      name in env && if fuel == 0 then cut else InhabitsAlt(env, fuel - 1, cut, env[name], v)
    case PLit(c) => v == JScalar(c)
    case PArr(elem) =>
      v.JArr? && forall i :: 0 <= i < |v.items| ==> InhabitsAlt(env, fuel, cut, elem, v.items[i])
    case PObj(members) =>
      v.JObj? && forall i :: 0 <= i < |members| ==> FitsAltMember(env, fuel, cut, members[i], v.members)
  }

  ghost predicate FitsAltMember(env: map<string, Alt>, fuel: nat, cut: bool, m: Member<Alt>, o: map<string, Json>)
    decreases fuel, m
  {
    match m
    case Field(name, optional, typ) =>
      if name in o then InhabitsAlt(env, fuel, cut, typ, o[name]) else optional
    case Index(typ) => forall k :: k in o ==> InhabitsAlt(env, fuel, cut, typ, o[k])
  }
}
