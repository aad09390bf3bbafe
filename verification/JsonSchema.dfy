/**
 * JSON values, the schema dialect of the chart core, and the validator that
 * gives a schema its meaning (web/module_forms.js, validateSchemaValue).
 */
module JsonSchema {
  import opened Options

  /** `order` is the key order of an object: JSON text, and so jsonEqual, depends on it. */
  datatype Json =
    | JNull
    | JBool(flag: bool)
    | JNumber(num: real)
    | JString(text: string)
    | JArray(elems: seq<Json>)
    | JObject(order: seq<string>, members: map<string, Json>)

  datatype TypeName = TNull | TBoolean | TObject | TArray | TNumber | TInteger | TString

  const ALL_TYPES: set<TypeName> := {TNull, TBoolean, TObject, TArray, TNumber, TInteger, TString}

  datatype Properties = NoProperties | Properties(table: map<string, Schema>)

  datatype Items = NoItems | Items(schema: Schema)

  /** The additionalProperties keyword: missing, false, true, or a schema. */
  datatype Extra = Unset | Forbidden | Anything | Each(schema: Schema)

  /**
   * A normalized schema, one field per supported keyword. normalizeSchema refuses
   * an empty type list and an empty combinator, so {} and [] stand for a missing
   * `type`, `anyOf`, `oneOf` or `allOf`. title, description and default share
   * `annotated`.
   */
  datatype Schema = Schema(
    types: set<TypeName>,
    properties: Properties,
    required: Option<set<string>>,
    additional: Extra,
    items: Items,
    enumeration: Option<seq<Json>>,
    constant: Option<Json>,
    anyOf: seq<Schema>,
    oneOf: seq<Schema>,
    allOf: seq<Schema>,
    annotated: bool)

  const EMPTY: Schema := Schema({}, NoProperties, None, Unset, NoItems, None, None, [], [], [], false)

  function Constant(v: Json): Schema {
    EMPTY.(constant := Some(v))
  }

  function AnyOf(branches: seq<Schema>): Schema {
    EMPTY.(anyOf := branches)
  }

  function AllOf(branches: seq<Schema>): Schema {
    EMPTY.(allOf := branches)
  }

  function Declared(s: Schema): map<string, Schema> {
    if s.properties.Properties? then s.properties.table else map[]
  }

  function ValueType(v: Json): TypeName {
    match v
    case JNull => TNull
    case JBool(_) => TBoolean
    case JNumber(n) => if n == n.Floor as real then TInteger else TNumber
    case JString(_) => TString
    case JArray(_) => TArray
    case JObject(_, _) => TObject
  }

  predicate AcceptsType(v: Json, declared: TypeName) {
    if declared == TNumber then ValueType(v) == TNumber || ValueType(v) == TInteger
    else ValueType(v) == declared
  }

  /** Names that `properties[name]` finds on Object.prototype when they are not declared. */
  predicate Inherited(name: string) {
    name in {"constructor", "toString", "toLocaleString", "valueOf", "hasOwnProperty", "isPrototypeOf",
             "propertyIsEnumerable", "__proto__", "__defineGetter__", "__defineSetter__",
             "__lookupGetter__", "__lookupSetter__"}
  }

  /** validateSchemaValue: true when it returns, false when it throws. */
  predicate Accepts(v: Json, s: Schema)
    decreases s, 2
  {
    AcceptsLiteral(v, s) && AcceptsCombined(v, s) && AcceptsShape(v, s)
  }

  /** The const and enum keywords. */
  predicate AcceptsLiteral(v: Json, s: Schema) {
    && (s.constant.Some? ==> v == s.constant.value)
    && (s.enumeration.Some? ==> v in s.enumeration.value)
  }

  /** The allOf, anyOf and oneOf keywords. */
  predicate AcceptsCombined(v: Json, s: Schema)
    decreases s, 1
  {
    && (forall i | 0 <= i < |s.allOf| :: Accepts(v, s.allOf[i]))
    && (s.anyOf != [] ==> exists i | 0 <= i < |s.anyOf| :: Accepts(v, s.anyOf[i]))
    && (s.oneOf != [] ==>
          exists i | 0 <= i < |s.oneOf| :: OnlyAccepts(v, s.oneOf, i))
  }

  /** Branch i accepts the value and no other branch does. */
  predicate OnlyAccepts(v: Json, branches: seq<Schema>, i: nat)
    requires i < |branches|
    decreases branches
  {
    Accepts(v, branches[i]) && forall j | 0 <= j < |branches| && j != i :: !Accepts(v, branches[j])
  }

  /** The type keyword, then the checks of array elements and object members. */
  predicate AcceptsShape(v: Json, s: Schema)
    decreases s, 1
  {
    && (s.types != {} ==> exists t | t in s.types :: AcceptsType(v, t))
    && (v.JArray? && s.items.Items? ==> forall i | 0 <= i < |v.elems| :: Accepts(v.elems[i], s.items.schema))
    && (v.JObject? ==>
          && (s.required.Some? ==> s.required.value <= v.members.Keys)
          && forall n | n in v.members :: AcceptsMember(n, v.members[n], s))
  }

  /** The per-member part of the object check. */
  predicate AcceptsMember(name: string, child: Json, s: Schema)
    decreases s, 0
  {
    if s.properties.Properties? && name in s.properties.table then Accepts(child, s.properties.table[name])
    else if Inherited(name) then true
    else match s.additional
      case Forbidden => false
      case Each(extra) => Accepts(child, extra)
      case _ => true
  }
}
