/** JSON values, JSON Schema (2020-12) as the client generator meets it in an OpenAPI document, and
    what it means for a value to be valid against a schema. */
module Schemas {

  datatype Option<+T> = None | Some(value: T)

  datatype Scalar = SNull | SBool(b: bool) | SNum(x: real) | SStr(s: string)

  datatype Json =
    | JScalar(scalar: Scalar)
    | JArr(items: seq<Json>)
    | JObj(members: map<string, Json>)

  datatype TypeName =
    | StringType | IntegerType | NumberType | BooleanType | NullType | ArrayType | ObjectType
    | OtherType(name: string)

  datatype TypeKeyword = NoType | OneType(name: TypeName) | ManyTypes(names: seq<TypeName>)

  datatype Additional = NotGiven | Allowed | Forbidden | Constrained(schema: Schema)

  datatype Property = Property(name: string, schema: Schema)

  datatype Properties = NoProperties | Declared(list: seq<Property>)

  /** The schemas of a combinator keyword, when the keyword is there. */
  datatype Branches = Missing | Given(schemas: seq<Schema>)

  /** A schema object: the keywords the generator looks at, each present or not.  Several may occur
      in one object. */
  datatype Schema = Schema(
    ref: Option<string>,
    constant: Option<Scalar>,
    enumeration: Option<seq<Scalar>>,
    anyOf: Branches,
    oneOf: Branches,
    allOf: Branches,
    typ: TypeKeyword,
    items: Option<Schema>,
    properties: Properties,
    required: set<string>,
    additional: Additional)

  const EMPTY := Schema(None, None, None, Missing, Missing, Missing, NoType, None, NoProperties, {}, NotGiven)

  /** `{"type": name}`, with no other keyword. */
  function Bare(name: TypeName): Schema {
    EMPTY.(typ := OneType(name))
  }

  type Components = map<string, Schema>

  const SCHEMA_ROOT := "#/components/schemas"

  /** Where a reference points: only the component schemas of the same document can be named. */
  function Resolve(env: Components, reference: string): Option<Schema> {
    var n := |SCHEMA_ROOT| + 1;
    if |reference| >= n && reference[..n] == SCHEMA_ROOT + "/" && reference[n..] in env then
      Some(env[reference[n..]])
    else
      None
  }

  ghost predicate HasType(name: TypeName, v: Json) {
    match name
    case StringType => v.JScalar? && v.scalar.SStr?
    case IntegerType => v.JScalar? && v.scalar.SNum? && v.scalar.x == v.scalar.x.Floor as real
    case NumberType => v.JScalar? && v.scalar.SNum?
    case BooleanType => v.JScalar? && v.scalar.SBool?
    case NullType => v == JScalar(SNull)
    case ArrayType => v.JArr?
    case ObjectType => v.JObj?
    case OtherType(_) => false
  }

  predicate Declares(properties: Properties, name: string) {
    properties.Declared? && exists i :: 0 <= i < |properties.list| && properties.list[i].name == name
  }

  /** `v` is valid against `s`: every keyword present must be met.  References are followed `fuel`
      deep; below that the verdict is `cut`.  A reference to nothing admits no value. */
  ghost predicate Valid(env: Components, fuel: nat, cut: bool, s: Schema, v: Json)
    decreases fuel, s
  {
    && (s.ref.Some? ==>
          match Resolve(env, s.ref.value)
          case None => false
          case Some(target) => if fuel == 0 then cut else Valid(env, fuel - 1, cut, target, v))
    && (s.constant.Some? ==> v == JScalar(s.constant.value))
    && (s.enumeration.Some? ==> v.JScalar? && v.scalar in s.enumeration.value)
    && (s.anyOf.Given? ==>
          exists i :: 0 <= i < |s.anyOf.schemas| && Valid(env, fuel, cut, s.anyOf.schemas[i], v))
    && (s.oneOf.Given? ==>
          exists i :: && 0 <= i < |s.oneOf.schemas| && Valid(env, fuel, cut, s.oneOf.schemas[i], v)
                      && forall j :: 0 <= j < |s.oneOf.schemas| && j != i ==>
                           !Valid(env, fuel, cut, s.oneOf.schemas[j], v))
    && (s.allOf.Given? ==>
          forall i :: 0 <= i < |s.allOf.schemas| ==> Valid(env, fuel, cut, s.allOf.schemas[i], v))
    && (match s.typ
        case NoType => true
        case OneType(name) => HasType(name, v)
        case ManyTypes(names) => exists i :: 0 <= i < |names| && HasType(names[i], v))
    && (v.JArr? && s.items.Some? ==>
          forall i :: 0 <= i < |v.items| ==> Valid(env, fuel, cut, s.items.value, v.items[i]))
    && (v.JObj? ==>
          && s.required <= v.members.Keys
          && (s.properties.Declared? ==>
                forall i :: 0 <= i < |s.properties.list| && s.properties.list[i].name in v.members ==>
                  Valid(env, fuel, cut, s.properties.list[i].schema, v.members[s.properties.list[i].name]))
          && (s.additional.Forbidden? ==>
                forall k :: k in v.members ==> Declares(s.properties, k))
          && (s.additional.Constrained? ==>
                forall k :: k in v.members && !Declares(s.properties, k) ==>
                  Valid(env, fuel, cut, s.additional.schema, v.members[k])))
  }
}
