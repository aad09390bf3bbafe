/**
 * When schemasCompatible (web/chart_core.js) must answer yes: on schemas that spell
 * out their types it decides exactly whether every value of the one is a value of the
 * other, and where it refuses more than that, the input is named.
 */
module Completeness {
  import opened Options
  import opened JsonSchema
  import opened Compatibility

  /** Every value of the source is a value of the target. */
  ghost predicate Contains(s: Schema, t: Schema) {
    forall v: Json | Accepts(v, s) :: Accepts(v, t)
  }

  // ----- the definite schemas

  /** The types leave some JSON value out. */
  predicate LeavesOut(types: set<TypeName>) {
    !({TNull, TBoolean, TObject, TArray, TNumber, TString} <= types)
  }

  /** A plain shape with explicit types, no inherited names, and no required name that is forbidden. */
  predicate SpelledOut(s: Schema) {
    && PlainShape(s) && s.types != {}
    && (forall n | n in Declared(s) :: !Inherited(n))
    && (forall n | n in RequiredNames(s) :: !Inherited(n) && !MemberRule(s, n).Forbidden?)
  }

  /** Spelled out at every level; {} may stand for anything inside. */
  predicate DefiniteSource(s: Schema)
    decreases s
  {
    s == EMPTY ||
    (&& SpelledOut(s)
     && (s.properties.Properties? ==> forall n | n in s.properties.table :: DefiniteSource(s.properties.table[n]))
     && (s.additional.Each? ==> DefiniteSource(s.additional.schema))
     && (s.items.Items? ==> DefiniteSource(s.items.schema)))
  }

  /** Spelled out at every level, and at every level some value is left out. */
  predicate DefiniteTarget(t: Schema)
    decreases t
  {
    && SpelledOut(t) && LeavesOut(t.types)
    && (t.properties.Properties? ==> forall n | n in t.properties.table :: DefiniteTarget(t.properties.table[n]))
    && (t.additional.Each? ==> DefiniteTarget(t.additional.schema))
    && (t.items.Items? ==> DefiniteTarget(t.items.schema))
  }

  lemma {:induction false} DefiniteIsTyped(s: Schema)
    requires DefiniteSource(s)
    ensures TypedSource(s)
    decreases s
  {
    if s.properties.Properties? {
      var table := s.properties.table;
      forall n | n in table ensures TypedSource(table[n]) { DefiniteIsTyped(table[n]); }
    }
    if s.additional.Each? { DefiniteIsTyped(s.additional.schema); }
    if s.items.Items? { DefiniteIsTyped(s.items.schema); }
  }

  lemma {:induction false} DefiniteIsSafe(t: Schema)
    requires DefiniteTarget(t)
    ensures TargetSafe(t)
    decreases t
  {
    if t.properties.Properties? {
      var table := t.properties.table;
      forall n | n in table ensures TargetSafe(table[n]) && !Inherited(n) {
        DefiniteIsSafe(table[n]);
        assert n in Declared(t);
      }
    }
    if t.additional.Each? { DefiniteIsSafe(t.additional.schema); }
    if t.items.Items? { DefiniteIsSafe(t.items.schema); }
  }

  // ----- values that are accepted, and values that are not

  function Example(kind: TypeName): Json {
    match kind
    case TNull => JNull
    case TBoolean => JBool(true)
    case TObject => JObject([], map[])
    case TArray => JArray([])
    case TNumber => JNumber(0.5)
    case TInteger => JNumber(1.0)
    case TString => JString("")
  }

  /** The object with exactly the required members, each as simple as its schema allows. */
  function Minimal(s: Schema): Json
    decreases s, 0
  {
    JObject([], map r | r in RequiredNames(s) :: if MemberRule(s, r).Each? then Sample(MemberRule(s, r).schema) else JNull)
  }

  function Sample(s: Schema): Json
    decreases s, 1
  {
    if TObject in s.types then Minimal(s)
    else if TNull in s.types || s.types == {} then JNull
    else if TBoolean in s.types then JBool(true)
    else if TArray in s.types then JArray([])
    else if TNumber in s.types then JNumber(0.5)
    else if TInteger in s.types then JNumber(1.0)
    else JString("")
  }

  /** A value of a type that asks nothing more of it. */
  lemma SimpleAccepts(v: Json, kind: TypeName, s: Schema)
    requires SpelledOut(s) && kind in s.types && AcceptsType(v, kind)
    requires !v.JObject? && (v.JArray? ==> v.elems == [])
    ensures Accepts(v, s)
  {
    assert AcceptsShape(v, s) && AcceptsCombined(v, s);
  }

  lemma {:induction false} SampleAccepts(s: Schema)
    requires DefiniteSource(s)
    ensures Accepts(Sample(s), s)
    ensures s != EMPTY && TObject in s.types ==> Accepts(Minimal(s), s)
    decreases s, 1
  {
    if s == EMPTY {
      EmptyAccepts(Sample(s));
    } else if TObject in s.types {
      MinimalAccepts(s);
    } else {
      assert exists k :: k in s.types;
      assert AcceptsType(Sample(s), TNull) || AcceptsType(Sample(s), TBoolean) || AcceptsType(Sample(s), TArray)
          || AcceptsType(Sample(s), TNumber) || AcceptsType(Sample(s), TInteger) || AcceptsType(Sample(s), TString);
      var k: TypeName :| k in s.types && AcceptsType(Sample(s), k);
      SimpleAccepts(Sample(s), k, s);
    }
  }

  lemma {:induction false} MinimalAccepts(s: Schema)
    requires DefiniteSource(s) && s != EMPTY && TObject in s.types
    ensures Accepts(Minimal(s), s)
    decreases s, 0
  {
    var o := Minimal(s);
    forall r | r in o.members ensures AcceptsMember(r, o.members[r], s) {
      if r in Declared(s) {
        SampleAccepts(Declared(s)[r]);
      } else if s.additional.Each? {
        SampleAccepts(s.additional.schema);
      }
    }
    assert AcceptsType(o, TObject);
    assert AcceptsShape(o, s) && AcceptsCombined(o, s);
  }

  /** A value that a definite target rejects. */
  lemma LeftOut(t: Schema) returns (v: Json)
    requires DefiniteTarget(t)
    ensures !Accepts(v, t)
  {
    var k :| k in {TNull, TBoolean, TObject, TArray, TNumber, TString} && k !in t.types;
    v := Example(k);
    assert !AcceptsShape(v, t);
  }

  // ----- changing one member of an object

  /** What a definite schema asks of an ordinary member, whatever the others are. */
  predicate MemberFits(s: Schema, name: string, x: Json) {
    match MemberRule(s, name)
    case Forbidden => false
    case Each(rule) => Accepts(x, rule)
    case _ => true
  }

  lemma MemberFitsIs(s: Schema, name: string, x: Json)
    requires !Inherited(name)
    ensures AcceptsMember(name, x, s) <==> MemberFits(s, name, x)
  {
  }

  lemma WithMember(s: Schema, name: string, x: Json)
    requires DefiniteSource(s) && s != EMPTY && TObject in s.types && !Inherited(name)
    requires MemberFits(s, name, x)
    ensures Accepts(JObject([], Minimal(s).members[name := x]), s)
  {
    SampleAccepts(s);
    var o, v := Minimal(s), JObject([], Minimal(s).members[name := x]);
    assert AcceptsShape(o, s);
    forall n | n in v.members ensures AcceptsMember(n, v.members[n], s) {
      if n == name {
        MemberFitsIs(s, name, x);
      } else {
        assert AcceptsMember(n, o.members[n], s);
      }
    }
    assert AcceptsType(v, TObject);
    assert AcceptsShape(v, s) && AcceptsCombined(v, s);
  }

  /** A member the source allows and the target does not separates the two. */
  lemma MemberSeparates(s: Schema, t: Schema, name: string, x: Json) returns (v: Json)
    requires DefiniteSource(s) && s != EMPTY && TObject in s.types && !Inherited(name)
    requires MemberFits(s, name, x) && !MemberFits(t, name, x)
    ensures Accepts(v, s) && !Accepts(v, t)
  {
    v := JObject([], Minimal(s).members[name := x]);
    WithMember(s, name, x);
    MemberFitsIs(t, name, x);
    assert !AcceptsMember(name, v.members[name], t) && !AcceptsShape(v, t);
  }

  // ----- a separating value for every refusal

  /** Schemas that are refused have a value of the source that is not one of the target. */
  lemma {:induction false} Separates(s: Schema, t: Schema) returns (v: Json)
    requires DefiniteSource(s) && DefiniteTarget(t) && !Compatible(s, t)
    ensures Accepts(v, s) && !Accepts(v, t)
    decreases s, t, 3
  {
    if s == EMPTY {
      v := LeftOut(t);
      EmptyAccepts(v);
    } else if !TypesCompatible(s.types, t.types) {
      v := TypesSeparate(s, t);
    } else if TObject in s.types && TObject in t.types && !ObjectsCompatible(s, t) {
      v := ObjectsSeparate(s, t);
    } else {
      v := ItemsSeparate(s, t);
    }
  }

  lemma TypesSeparate(s: Schema, t: Schema) returns (v: Json)
    requires DefiniteSource(s) && s != EMPTY && t.types != {} && !TypesCompatible(s.types, t.types)
    ensures Accepts(v, s) && !Accepts(v, t)
  {
    var k :| k in s.types && !((k == TInteger && TNumber in t.types) || k in t.types);
    if k == TObject {
      v := Minimal(s);
      SampleAccepts(s);
    } else {
      v := Example(k);
      SimpleAccepts(v, k, s);
    }
    assert !AcceptsShape(v, t);
  }

  lemma {:induction false} ItemsSeparate(s: Schema, t: Schema) returns (v: Json)
    requires DefiniteSource(s) && s != EMPTY && DefiniteTarget(t)
    requires TArray in s.types && TArray in t.types && t.items.Items?
    requires !(s.items.Items? && Compatible(s.items.schema, t.items.schema))
    ensures Accepts(v, s) && !Accepts(v, t)
    decreases s, t, 2
  {
    var x: Json;
    if s.items.Items? {
      x := Separates(s.items.schema, t.items.schema);
    } else {
      x := LeftOut(t.items.schema);
    }
    v := JArray([x]);
    assert AcceptsType(v, TArray);
    assert AcceptsShape(v, s) && AcceptsCombined(v, s);
    assert v.elems[0] == x;
    assert !AcceptsShape(v, t);
  }

  /** A value one rule allows and the other does not. */
  lemma {:induction false} RulesSeparate(s: Schema, t: Schema, name: string) returns (x: Json)
    requires DefiniteSource(s) && s != EMPTY && DefiniteTarget(t) && !MemberRule(s, name).Forbidden?
    requires MemberRule(t, name).Forbidden?
             || (MemberRule(t, name).Each? && MemberRule(s, name).Each?
                 && !Compatible(MemberRule(s, name).schema, MemberRule(t, name).schema))
             || (MemberRule(t, name).Each? && !MemberRule(s, name).Each?)
    ensures MemberFits(s, name, x) && !MemberFits(t, name, x)
    decreases s, t, 1
  {
    if MemberRule(t, name).Forbidden? {
      x := if MemberRule(s, name).Each? then Sample(MemberRule(s, name).schema) else JNull;
      if MemberRule(s, name).Each? {
        RuleIsDefinite(s, name);
        SampleAccepts(MemberRule(s, name).schema);
      }
    } else if MemberRule(s, name).Each? {
      RuleIsDefinite(s, name);
      TargetRuleIsDefinite(t, name);
      x := Separates(MemberRule(s, name).schema, MemberRule(t, name).schema);
    } else {
      TargetRuleIsDefinite(t, name);
      x := LeftOut(MemberRule(t, name).schema);
    }
  }

  lemma RuleIsDefinite(s: Schema, name: string)
    requires DefiniteSource(s) && s != EMPTY && MemberRule(s, name).Each?
    ensures DefiniteSource(MemberRule(s, name).schema)
  {
  }

  lemma TargetRuleIsDefinite(t: Schema, name: string)
    requires DefiniteTarget(t) && MemberRule(t, name).Each?
    ensures DefiniteTarget(MemberRule(t, name).schema)
  {
  }

  /** The two rules for a name are compared, as far as a refusal goes. */
  predicate RulesAgree(s: Schema, t: Schema, name: string)
  {
    || MemberRule(s, name).Forbidden?
    || match MemberRule(t, name)
       case Forbidden => false
       case Each(target) => MemberRule(s, name).Each? && Compatible(MemberRule(s, name).schema, target)
       case _ => true
  }

  /** A name neither schema mentions and no object inherits. */
  lemma FreshName(used: set<string>) returns (name: string)
    ensures name !in used && !Inherited(name)
  {
    name := LongerThanAll(used + INHERITED);
  }

  const INHERITED: set<string> := {
    "constructor", "toString", "toLocaleString", "valueOf", "hasOwnProperty", "isPrototypeOf",
    "propertyIsEnumerable", "__proto__", "__defineGetter__", "__defineSetter__", "__lookupGetter__", "__lookupSetter__"}

  lemma {:induction false} LongerThanAll(used: set<string>) returns (name: string)
    ensures name !in used && forall u | u in used :: |u| < |name|
  {
    if used == {} {
      name := "x";
    } else {
      var u :| u in used;
      var n := LongerThanAll(used - {u});
      name := n + u + "x";
      forall w | w in used ensures |w| < |name| {
        assert w == u || w in used - {u};
      }
      assert name in used ==> |name| < |name|;
    }
  }

  /** Where the rules agree on a required name, the check of that name passes. */
  lemma RequiredAgrees(s: Schema, t: Schema, name: string)
    requires DefiniteSource(s) && s != EMPTY && name in RequiredNames(s) && RulesAgree(s, t, name)
    ensures RequiredCompatible(s, t, name)
  {
    hide Compatible;
    AnythingGoes();
  }

  lemma AnythingGoes()
    ensures forall s :: Compatible(s, EMPTY)
  {
  }

  /** Where the rules agree on every ordinary name, they agree on the remaining names too. */
  lemma RestAgrees(s: Schema, t: Schema)
    requires forall n | !Inherited(n) :: RulesAgree(s, t, n)
    ensures Rest(s).Forbidden? || match Rest(t)
                                  case Forbidden => false
                                  case Each(target) => Rest(s).Each? && Compatible(Rest(s).schema, target)
                                  case _ => true
  {
    hide Compatible, Inherited;
    var name := FreshName(Declared(s).Keys + Declared(t).Keys);
    assert RulesAgree(s, t, name);
  }

  lemma AgreementSuffices(s: Schema, t: Schema)
    requires DefiniteSource(s) && s != EMPTY && DefiniteTarget(t)
    requires RequiredNames(t) <= RequiredNames(s) && forall n | !Inherited(n) :: RulesAgree(s, t, n)
    ensures ObjectsCompatible(s, t)
  {
    assert forall n | n in RequiredNames(t) :: !Inherited(n);
    assert forall n | n in Declared(s) :: !Inherited(n) && RulesAgree(s, t, n);
    assert forall n | n in Declared(t) :: !Inherited(n) && RulesAgree(s, t, n);
    forall n | n in RequiredNames(t) ensures n in RequiredNames(s) && RequiredCompatible(s, t, n) {
      RequiredAgrees(s, t, n);
    }
    RestAgrees(s, t);
    hide Compatible, RulesAgree, DefiniteSource, DefiniteTarget, RequiredCompatible;
    DeclaredAgree(s, t);
  }

  /** What agreement on the declared names means for the two loops over them. */
  lemma DeclaredAgree(s: Schema, t: Schema)
    requires forall n | n in Declared(s) || n in Declared(t) :: RulesAgree(s, t, n)
    ensures forall n | n in Declared(s) ::
              match MemberRule(t, n)
              case Forbidden => false
              case Each(target) => Compatible(Declared(s)[n], target)
              case _ => true
    ensures forall n | n in Declared(t) && n !in Declared(s) ::
              Rest(s).Forbidden? || (Rest(s).Each? && Compatible(Rest(s).schema, Declared(t)[n]))
  {
    hide Compatible;
  }

  /** Objects are refused because of a required name the source leaves optional, or a name whose rules disagree. */
  lemma RefusalHasName(s: Schema, t: Schema) returns (name: string)
    requires DefiniteSource(s) && s != EMPTY && DefiniteTarget(t) && !ObjectsCompatible(s, t)
    ensures !Inherited(name)
    ensures (name in RequiredNames(t) && name !in RequiredNames(s)) || !RulesAgree(s, t, name)
  {
    hide Compatible, ObjectsCompatible, RulesAgree;
    if RequiredNames(t) <= RequiredNames(s) && forall n | !Inherited(n) :: RulesAgree(s, t, n) {
      AgreementSuffices(s, t);
      assert false;
    }
    name :| !Inherited(name) && ((name in RequiredNames(t) && name !in RequiredNames(s)) || !RulesAgree(s, t, name));
  }

  lemma {:induction false} ObjectsSeparate(s: Schema, t: Schema) returns (v: Json)
    requires DefiniteSource(s) && s != EMPTY && DefiniteTarget(t)
    requires TObject in s.types && TObject in t.types && !ObjectsCompatible(s, t)
    ensures Accepts(v, s) && !Accepts(v, t)
    decreases s, t, 2
  {
    var name := RefusalHasName(s, t);
    if name in RequiredNames(t) && name !in RequiredNames(s) {
      v := Minimal(s);
      SampleAccepts(s);
      assert name !in v.members && !AcceptsShape(v, t);
    } else {
      var x := RulesSeparate(s, t, name);
      v := MemberSeparates(s, t, name, x);
    }
  }

  /** On definite schemas of any nesting the comparison is exactly containment. */
  lemma CompatibleExact(s: Schema, t: Schema)
    requires DefiniteSource(s) && DefiniteTarget(t)
    ensures Compatible(s, t) <==> Contains(s, t)
  {
    if Compatible(s, t) {
      DefiniteIsTyped(s);
      DefiniteIsSafe(t);
      forall v: Json | Accepts(v, s) ensures Accepts(v, t) {
        CompatibleIsSound(v, s, t);
      }
    } else {
      var v := Separates(s, t);
    }
  }

  // ----- types alone, and combinators

  function OfTypes(types: set<TypeName>): Schema {
    EMPTY.(types := types)
  }

  /** Schemas that only list types: an integer is a number, and everything else must be listed. */
  lemma TypesOnlyExact(source: set<TypeName>, target: set<TypeName>)
    requires source != {}
    ensures Compatible(OfTypes(source), OfTypes(target)) <==> Contains(OfTypes(source), OfTypes(target))
  {
    var s, t := OfTypes(source), OfTypes(target);
    if target == {} {
      forall v: Json ensures Accepts(v, t) { EmptyAccepts(v); }
    } else {
      assert SchemaTypes(s) == source && SchemaTypes(t) == target;
      assert ObjectsCompatible(s, t);
      if Compatible(s, t) {
        forall v: Json | Accepts(v, s) ensures Accepts(v, t) { CompatibleIsSound(v, s, t); }
      } else {
        var v := TypesSeparate(s, t);
      }
    }
  }

  /** A bare anyOf source is compatible exactly when all its values fit. */
  lemma AnyOfSourceExact(branches: seq<Schema>, t: Schema)
    requires branches != [] && DefiniteTarget(t) && forall i | 0 <= i < |branches| :: DefiniteSource(branches[i])
    ensures Compatible(AnyOf(branches), t) <==> Contains(AnyOf(branches), t)
  {
    var s := AnyOf(branches);
    assert Compatible(s, t) <==> forall i | 0 <= i < |branches| :: Compatible(branches[i], t);
    forall i | 0 <= i < |branches| ensures Compatible(branches[i], t) <==> Contains(branches[i], t) {
      CompatibleExact(branches[i], t);
    }
    forall v: Json ensures Accepts(v, s) <==> exists i | 0 <= i < |branches| :: Accepts(v, branches[i]) {
      BareDecides(v, s);
    }
    UnionContained(branches, s, t);
  }

  lemma UnionContained(branches: seq<Schema>, s: Schema, t: Schema)
    requires forall v: Json :: Accepts(v, s) <==> exists i | 0 <= i < |branches| :: Accepts(v, branches[i])
    ensures Contains(s, t) <==> forall i | 0 <= i < |branches| :: Contains(branches[i], t)
  {
    hide Accepts;
    if Contains(s, t) {
      forall i, v: Json | 0 <= i < |branches| && Accepts(v, branches[i]) ensures Accepts(v, t) {
        assert Accepts(v, s);
      }
    }
    if forall i | 0 <= i < |branches| :: Contains(branches[i], t) {
      forall v: Json | Accepts(v, s) ensures Accepts(v, t) {
        var i :| 0 <= i < |branches| && Accepts(v, branches[i]);
        assert Contains(branches[i], t);
      }
    }
  }

  function OneOf(branches: seq<Schema>): Schema {
    EMPTY.(oneOf := branches)
  }

  /** So is a bare oneOf source whose branches exclude each other. */
  lemma OneOfSourceExact(branches: seq<Schema>, t: Schema)
    requires branches != [] && DefiniteTarget(t) && Disjoint(branches) && forall i | 0 <= i < |branches| :: DefiniteSource(branches[i])
    ensures Compatible(OneOf(branches), t) <==> Contains(OneOf(branches), t)
  {
    var s := OneOf(branches);
    assert Compatible(s, t) <==> forall i | 0 <= i < |branches| :: Compatible(branches[i], t);
    forall i | 0 <= i < |branches| ensures Compatible(branches[i], t) <==> Contains(branches[i], t) {
      CompatibleExact(branches[i], t);
    }
    BareOneOf(s);
    forall v: Json ensures Accepts(v, s) <==> exists i | 0 <= i < |branches| :: Accepts(v, branches[i]) {
      BareDecides(v, s);
      if Accepts(v, s) {
        var i :| 0 <= i < |branches| && OnlyAccepts(v, branches, i);
      }
    }
    UnionContained(branches, s, t);
  }

  /** A bare allOf target is compatible with a plain source exactly when all values of the source fit. */
  lemma AllOfTargetDecides(s: Schema, branches: seq<Schema>)
    requires branches != [] && DefiniteSource(s) && s != EMPTY && forall i | 0 <= i < |branches| :: DefiniteTarget(branches[i])
    ensures Compatible(s, AllOf(branches)) <==> Contains(s, AllOf(branches))
  {
    var t := AllOf(branches);
    assert Compatible(s, t) <==> forall i | 0 <= i < |branches| :: Compatible(s, branches[i]);
    forall i | 0 <= i < |branches| ensures Compatible(s, branches[i]) <==> Contains(s, branches[i]) {
      CompatibleExact(s, branches[i]);
    }
    forall v: Json ensures Accepts(v, t) <==> forall i | 0 <= i < |branches| :: Accepts(v, branches[i]) {
      BareDecides(v, t);
    }
    IntersectionContains(s, branches, t);
  }

  lemma IntersectionContains(s: Schema, branches: seq<Schema>, t: Schema)
    requires forall v: Json :: Accepts(v, t) <==> forall i | 0 <= i < |branches| :: Accepts(v, branches[i])
    ensures Contains(s, t) <==> forall i | 0 <= i < |branches| :: Contains(s, branches[i])
  {
    hide Accepts;
    if Contains(s, t) {
      forall i, v: Json | 0 <= i < |branches| && Accepts(v, s) ensures Accepts(v, branches[i]) {
        assert Accepts(v, t);
      }
    }
    if forall i | 0 <= i < |branches| :: Contains(s, branches[i]) {
      forall v: Json | Accepts(v, s) ensures Accepts(v, t) {
        assert forall i | 0 <= i < |branches| :: Contains(s, branches[i]);
      }
    }
  }

  /** A source without {} in its combinators is compatible with a whole anyOf or oneOf once it is with one branch. */
  lemma {:induction false} BranchSuffices(s: Schema, branches: seq<Schema>, i: nat)
    requires i < |branches| && Compatible(s, branches[i]) && NeverEmpty(s)
    requires branches[i] != EMPTY && branches[i].constant.None? && branches[i].enumeration.None?
    ensures Compatible(s, AnyOf(branches)) && Compatible(s, OneOf(branches))
    decreases s
  {
    if s.allOf != [] {
      forall k | 0 <= k < |s.allOf| ensures Compatible(s.allOf[k], AnyOf(branches)) && Compatible(s.allOf[k], OneOf(branches)) {
        BranchSuffices(s.allOf[k], branches, i);
      }
    } else if s.anyOf != [] {
      forall k | 0 <= k < |s.anyOf| ensures Compatible(s.anyOf[k], AnyOf(branches)) && Compatible(s.anyOf[k], OneOf(branches)) {
        BranchSuffices(s.anyOf[k], branches, i);
      }
    } else if s.oneOf != [] {
      forall k | 0 <= k < |s.oneOf| ensures Compatible(s.oneOf[k], AnyOf(branches)) && Compatible(s.oneOf[k], OneOf(branches)) {
        BranchSuffices(s.oneOf[k], branches, i);
      }
    }
  }

  /** {} is not among the branches a comparison of the source looks at. */
  predicate NeverEmpty(s: Schema)
    decreases s
  {
    && s != EMPTY
    && (forall i | 0 <= i < |s.allOf| :: NeverEmpty(s.allOf[i]))
    && (forall i | 0 <= i < |s.anyOf| :: NeverEmpty(s.anyOf[i]))
    && (forall i | 0 <= i < |s.oneOf| :: NeverEmpty(s.oneOf[i]))
  }

  /** For a plain source, one branch is also necessary. */
  lemma BranchExact(s: Schema, branches: seq<Schema>)
    requires branches != [] && s != EMPTY && s.allOf == [] && s.anyOf == [] && s.oneOf == []
    ensures Compatible(s, AnyOf(branches)) <==> exists i | 0 <= i < |branches| :: Compatible(s, branches[i])
    ensures Compatible(s, OneOf(branches)) <==> exists i | 0 <= i < |branches| :: Compatible(s, branches[i])
  {
  }

  // ----- literals

  function Enumeration(values: seq<Json>): Schema {
    EMPTY.(enumeration := Some(values))
  }

  lemma LiteralsAccept(v: Json, c: Json, values: seq<Json>)
    ensures Accepts(v, Constant(c)) <==> v == c
    ensures Accepts(v, Enumeration(values)) <==> v in values
  {
    assert AcceptsShape(v, Constant(c)) && AcceptsCombined(v, Constant(c));
    assert AcceptsShape(v, Enumeration(values)) && AcceptsCombined(v, Enumeration(values));
  }

  /** A primitive const is compatible exactly with the const and the enum that list it. */
  lemma ConstSourceExact(c: Json, d: Json, values: seq<Json>)
    requires Primitive(c)
    ensures Compatible(Constant(c), Constant(d)) <==> Contains(Constant(c), Constant(d))
    ensures Compatible(Constant(c), Enumeration(values)) <==> Contains(Constant(c), Enumeration(values))
  {
    forall v: Json ensures (Accepts(v, Constant(c)) <==> v == c) && (Accepts(v, Constant(d)) <==> v == d)
                           && (Accepts(v, Enumeration(values)) <==> v in values) {
      LiteralsAccept(v, c, values);
      LiteralsAccept(v, d, values);
    }
    assert Includes(values, c) <==> c in values;
    assert Contains(Constant(c), Constant(d)) ==> Accepts(c, Constant(d));
    assert Contains(Constant(c), Enumeration(values)) ==> Accepts(c, Enumeration(values));
  }

  /** An enum of primitives is compatible exactly with the const and the enum that cover it. */
  lemma EnumSourceExact(source: seq<Json>, d: Json, target: seq<Json>)
    requires forall i | 0 <= i < |source| :: Primitive(source[i])
    ensures Compatible(Enumeration(source), Constant(d)) <==> Contains(Enumeration(source), Constant(d))
    ensures Compatible(Enumeration(source), Enumeration(target)) <==> Contains(Enumeration(source), Enumeration(target))
  {
    forall v: Json ensures (Accepts(v, Enumeration(source)) <==> v in source) && (Accepts(v, Constant(d)) <==> v == d)
                           && (Accepts(v, Enumeration(target)) <==> v in target) {
      LiteralsAccept(v, d, source);
      LiteralsAccept(v, d, target);
    }
    forall i | 0 <= i < |source| ensures Includes(target, source[i]) <==> source[i] in target {
    }
    assert Contains(Enumeration(source), Constant(d)) ==> forall i | 0 <= i < |source| :: Accepts(source[i], Constant(d));
    assert Contains(Enumeration(source), Enumeration(target)) ==> forall i | 0 <= i < |source| :: Accepts(source[i], Enumeration(target));
  }

  // ----- refusals of what would fit

  /** An object or array literal is compatible with no literal, not even with itself. */
  lemma CompoundLiteralsAreRefused(c: Json, d: Json, values: seq<Json>)
    requires !Primitive(c)
    ensures !Compatible(Constant(c), Constant(d)) && !Compatible(Constant(c), Enumeration(values))
    ensures Contains(Constant(c), Constant(c))
  {
  }

  /** A const without a type is refused by a type it has. */
  lemma UntypedConstIsRefused()
    ensures !Compatible(Constant(JNull), Typed(TNull)) && Contains(Constant(JNull), Typed(TNull))
  {
    assert TString in SchemaTypes(Constant(JNull)) && TString !in SchemaTypes(Typed(TNull));
    forall v: Json | Accepts(v, Constant(JNull)) ensures Accepts(v, Typed(TNull)) {
      LiteralsAccept(v, JNull, []);
      TypedAccepts(v, TNull);
    }
  }

  /** A source that forbids a name it requires accepts no object, and yet is refused by a target that requires it. */
  lemma ForbiddenRequiredIsRefused(s: Schema, t: Schema, name: string)
    requires PlainShape(s) && PlainShape(t) && s != EMPTY && t != EMPTY && TObject in SchemaTypes(s) && TObject in SchemaTypes(t)
    requires name in RequiredNames(s) && name in RequiredNames(t) && MemberRule(s, name).Forbidden? && !Inherited(name)
    ensures !Compatible(s, t)
    ensures forall v: Json | v.JObject? :: !Accepts(v, s)
  {
    assert !RequiredCompatible(s, t, name);
    assert !ObjectsCompatible(s, t);
    forall v: Json | v.JObject? ensures !Accepts(v, s) {
      if name in v.members {
        assert !AcceptsMember(name, v.members[name], s);
      }
      assert !AcceptsShape(v, s);
    }
  }

  /** A declared property that asks for nothing is refused to a source that does not declare it. */
  lemma EmptyPropertyIsRefused()
    ensures var t := Typed(TObject).(properties := Properties(map["x" := EMPTY]));
            !Compatible(Typed(TObject), t) && Contains(Typed(TObject), t)
  {
    var t := Typed(TObject).(properties := Properties(map["x" := EMPTY]));
    assert "x" in Declared(t) && "x" !in Declared(Typed(TObject)) && !ObjectsCompatible(Typed(TObject), t);
    forall v: Json | Accepts(v, Typed(TObject)) ensures Accepts(v, t) {
      TypedAccepts(v, TObject);
      forall n | n in v.members ensures AcceptsMember(n, v.members[n], t) {
        EmptyAccepts(v.members[n]);
      }
      assert AcceptsShape(v, t) && AcceptsCombined(v, t);
    }
  }

  /** A source of two types is refused by an anyOf that has a branch for each. */
  lemma SplitTargetIsRefused()
    ensures var s, t := OfTypes({TNull, TString}), AnyOf([Typed(TNull), Typed(TString)]);
            !Compatible(s, t) && Contains(s, t)
  {
    var s, branches := OfTypes({TNull, TString}), [Typed(TNull), Typed(TString)];
    var t := AnyOf(branches);
    BranchExact(s, branches);
    forall i | 0 <= i < |branches| ensures !Compatible(s, branches[i]) {
      assert branches[i] == Typed(TNull) || branches[i] == Typed(TString);
      TwoTypesInOne(TNull);
      TwoTypesInOne(TString);
    }
    forall v: Json | Accepts(v, s) ensures Accepts(v, t) {
      OneOfTwo(v, branches);
    }
  }

  lemma TwoTypesInOne(kind: TypeName)
    ensures !Compatible(OfTypes({TNull, TString}), Typed(kind))
  {
    var s := OfTypes({TNull, TString});
    assert SchemaTypes(s) == {TNull, TString} && TNull in SchemaTypes(s) && TString in SchemaTypes(s);
    assert SchemaTypes(Typed(kind)) == {kind};
  }

  lemma OneOfTwo(v: Json, branches: seq<Schema>)
    requires branches == [Typed(TNull), Typed(TString)] && Accepts(v, OfTypes({TNull, TString}))
    ensures Accepts(v, AnyOf(branches))
  {
    AcceptedKind(v, OfTypes({TNull, TString}));
    TypedAccepts(v, TNull);
    TypedAccepts(v, TString);
    assert branches[0] == Typed(TNull) && branches[1] == Typed(TString);
    BareDecides(v, AnyOf(branches));
    assert AcceptsCombined(v, AnyOf(branches));
  }

  /** An allOf source is refused where only its branches together would fit. */
  lemma NarrowedSourceIsRefused()
    ensures var s := AllOf([Typed(TInteger), Typed(TNumber)]);
            !Compatible(s, Typed(TInteger)) && Contains(s, Typed(TInteger))
  {
    var s := AllOf([Typed(TInteger), Typed(TNumber)]);
    assert s.allOf[1] == Typed(TNumber) && TNumber in SchemaTypes(Typed(TNumber));
    assert !Compatible(s.allOf[1], Typed(TInteger));
    forall v: Json | Accepts(v, s) ensures Accepts(v, Typed(TInteger)) {
      BareDecides(v, s);
      assert s.allOf[0] == Typed(TInteger);
    }
  }
}
