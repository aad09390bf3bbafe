/**
 * schemasCompatible (web/chart_core.js): whether every value of one schema is a
 * value of another, proved sound against the validator.
 */
module Compatibility {
  import opened Options
  import opened JsonSchema

  predicate Primitive(v: Json) {
    !v.JArray? && !v.JObject?
  }

  /** JavaScript === on cloned values: objects and arrays are never identical to their clones. */
  predicate Identical(a: Json, b: Json) {
    Primitive(a) && a == b
  }

  predicate Includes(values: seq<Json>, v: Json) {
    exists i | 0 <= i < |values| :: Identical(values[i], v)
  }

  function SchemaTypes(s: Schema): set<TypeName> {
    if s.types != {} then s.types
    else if s.properties.Properties? || s.required.Some? then {TObject}
    else if s.items.Items? then {TArray}
    else ALL_TYPES
  }

  function Rest(s: Schema): Extra {
    if s.additional.Unset? then Anything else s.additional
  }

  /** The rule a member name falls under: its own property, or additionalProperties. */
  function MemberRule(s: Schema, name: string): (rule: Extra)
    ensures rule.Each? ==> rule.schema < s
  {
    if s.properties.Properties? && name in s.properties.table then Each(s.properties.table[name]) else Rest(s)
  }

  predicate Compatible(s: Schema, t: Schema)
    decreases s, t, 2
  {
    if t == EMPTY then true
    else if s == EMPTY then false
    else if t.constant.Some? then
      if s.constant.Some? then Identical(s.constant.value, t.constant.value)
      else
        && s.enumeration.Some?
        && forall i | 0 <= i < |s.enumeration.value| :: Identical(s.enumeration.value[i], t.constant.value)
    else if t.enumeration.Some? then
      if s.constant.Some? then Includes(t.enumeration.value, s.constant.value)
      else
        && s.enumeration.Some?
        && forall i | 0 <= i < |s.enumeration.value| :: Includes(t.enumeration.value, s.enumeration.value[i])
    else if s.allOf != [] then forall i | 0 <= i < |s.allOf| :: Compatible(s.allOf[i], t)
    else if s.anyOf != [] then forall i | 0 <= i < |s.anyOf| :: Compatible(s.anyOf[i], t)
    else if s.oneOf != [] then forall i | 0 <= i < |s.oneOf| :: Compatible(s.oneOf[i], t)
    else if t.allOf != [] then forall i | 0 <= i < |t.allOf| :: Compatible(s, t.allOf[i])
    else if t.anyOf != [] then exists i | 0 <= i < |t.anyOf| :: Compatible(s, t.anyOf[i])
    else if t.oneOf != [] then exists i | 0 <= i < |t.oneOf| :: Compatible(s, t.oneOf[i])
    else
      && TypesCompatible(SchemaTypes(s), SchemaTypes(t))
      && (TObject in SchemaTypes(s) && TObject in SchemaTypes(t) ==> ObjectsCompatible(s, t))
      && (TArray in SchemaTypes(s) && TArray in SchemaTypes(t) && t.items.Items? ==>
            s.items.Items? && Compatible(s.items.schema, t.items.schema))
  }

  predicate TypesCompatible(source: set<TypeName>, target: set<TypeName>) {
    forall k | k in source :: (k == TInteger && TNumber in target) || k in target
  }

  /** The object clauses: required names, declared properties, and the rest. */
  predicate ObjectsCompatible(s: Schema, t: Schema)
    decreases s, t, 1
  {
    && (t.required.Some? ==>
          forall n | n in t.required.value ::
            && s.required.Some? && n in s.required.value
            && RequiredCompatible(s, t, n))
    && (s.properties.Properties? ==>
          forall n | n in s.properties.table ::
            match MemberRule(t, n)
            case Forbidden => false
            case Each(target) => Compatible(s.properties.table[n], target)
            case _ => true)
    && (match s.additional
        case Forbidden => true
        case Each(extra) =>
          && (forall n | n in Declared(t) && n !in Declared(s) :: Compatible(extra, Declared(t)[n]))
          && (match Rest(t)
              case Forbidden => false
              case Each(target) => Compatible(extra, target)
              case _ => true)
        case _ =>
          && (forall n | n in Declared(t) :: n in Declared(s))
          && Rest(t).Anything?)
  }

  /**
   * The check of one required name. A missing schema on either side stands for {}:
   * {} as a source is compatible only with {}, and everything is compatible with {}.
   */
  predicate RequiredCompatible(s: Schema, t: Schema, name: string)
    decreases s, t, 0
  {
    match (MemberRule(s, name), MemberRule(t, name))
    case (Forbidden, _) => false
    case (_, Forbidden) => false
    case (Each(source), Each(target)) => Compatible(source, target)
    case (_, Each(target)) => target == EMPTY
    case _ => true
  }

  // ----- when the answer can be trusted

  predicate Structural(s: Schema) {
    s.properties.Properties? || s.required.Some? || s.items.Items?
  }

  /** Structural keywords come with an explicit type wherever the source is compared by shape. */
  predicate TypedSource(s: Schema)
    decreases s
  {
    if s.allOf != [] then exists i | 0 <= i < |s.allOf| :: TypedSource(s.allOf[i])
    else if s.anyOf != [] then forall i | 0 <= i < |s.anyOf| :: TypedSource(s.anyOf[i])
    else if s.oneOf != [] then forall i | 0 <= i < |s.oneOf| :: TypedSource(s.oneOf[i])
    else
      && (Structural(s) ==> s.types != {})
      && (s.properties.Properties? ==> forall n | n in s.properties.table :: TypedSource(s.properties.table[n]))
      && (s.additional.Each? ==> TypedSource(s.additional.schema))
      && (s.items.Items? ==> TypedSource(s.items.schema))
  }

  /** What the branches of a combinator guarantee, the whole schema guarantees: the skipped siblings reject nothing. */
  ghost predicate EachImplies(branches: seq<Schema>, t: Schema) {
    forall v: Json, i | 0 <= i < |branches| && Accepts(v, branches[i]) :: Accepts(v, t)
  }

  ghost predicate AllImply(branches: seq<Schema>, t: Schema) {
    forall v: Json | (forall i | 0 <= i < |branches| :: Accepts(v, branches[i])) :: Accepts(v, t)
  }

  ghost predicate AcceptsEverything(s: Schema) {
    forall v: Json :: Accepts(v, s)
  }

  /** The early returns of the comparison skip nothing that could reject a value. */
  ghost predicate TargetSafe(t: Schema)
    decreases t
  {
    if t.constant.Some? then Primitive(t.constant.value) ==> Accepts(t.constant.value, t)
    else if t.enumeration.Some? then
      forall i | 0 <= i < |t.enumeration.value| ::
        Primitive(t.enumeration.value[i]) ==> Accepts(t.enumeration.value[i], t)
    else if t.allOf != [] then AllImply(t.allOf, t) && forall i | 0 <= i < |t.allOf| :: TargetSafe(t.allOf[i])
    else if t.anyOf != [] then EachImplies(t.anyOf, t) && forall i | 0 <= i < |t.anyOf| :: TargetSafe(t.anyOf[i])
    else if t.oneOf != [] then EachImplies(t.oneOf, t) && forall i | 0 <= i < |t.oneOf| :: TargetSafe(t.oneOf[i])
    else
      && (t.properties.Properties? ==>
            forall n | n in t.properties.table ::
              TargetSafe(t.properties.table[n]) && (Inherited(n) ==> AcceptsEverything(t.properties.table[n])))
      && (t.additional.Each? ==> TargetSafe(t.additional.schema))
      && (t.items.Items? ==> TargetSafe(t.items.schema))
  }

  // ----- soundness

  /** Schema subtyping is sound, at every nesting depth. */
  lemma {:induction false} CompatibleIsSound(v: Json, s: Schema, t: Schema)
    requires TypedSource(s) && TargetSafe(t)
    requires Compatible(s, t) && Accepts(v, s)
    ensures Accepts(v, t)
    decreases s, t, 3
  {
    if t == EMPTY || t.constant.Some? {
    } else if t.enumeration.Some? {
      EnumeratedIsSound(v, s, t);
    } else if s.allOf != [] || s.anyOf != [] || s.oneOf != [] {
      SourceBranchIsSound(v, s, t);
    } else if t.allOf != [] || t.anyOf != [] || t.oneOf != [] {
      TargetBranchIsSound(v, s, t);
    } else {
      ShapeIsSound(v, s, t);
    }
  }

  /** A source combinator: one typed branch that accepts the value carries the proof. */
  lemma {:induction false} SourceBranchIsSound(v: Json, s: Schema, t: Schema)
    requires TypedSource(s) && TargetSafe(t)
    requires Compatible(s, t) && Accepts(v, s)
    requires t != EMPTY && t.constant.None? && t.enumeration.None?
    requires s.allOf != [] || s.anyOf != [] || s.oneOf != []
    ensures Accepts(v, t)
    decreases s, t, 2
  {
    if s.allOf != [] {
      var i :| 0 <= i < |s.allOf| && TypedSource(s.allOf[i]);
      CompatibleIsSound(v, s.allOf[i], t);
    } else if s.anyOf != [] {
      var i :| 0 <= i < |s.anyOf| && Accepts(v, s.anyOf[i]);
      CompatibleIsSound(v, s.anyOf[i], t);
    } else {
      assert AcceptsCombined(v, s);
      var i :| 0 <= i < |s.oneOf| && OnlyAccepts(v, s.oneOf, i);
      CompatibleIsSound(v, s.oneOf[i], t);
    }
  }

  /** A target combinator: the branches the source is compatible with guarantee the whole target. */
  lemma {:induction false} TargetBranchIsSound(v: Json, s: Schema, t: Schema)
    requires TypedSource(s) && TargetSafe(t) && s != EMPTY
    requires Compatible(s, t) && Accepts(v, s)
    requires t.constant.None? && t.enumeration.None?
    requires s.allOf == [] && s.anyOf == [] && s.oneOf == []
    requires t.allOf != [] || t.anyOf != [] || t.oneOf != []
    ensures Accepts(v, t)
    decreases s, t, 2
  {
    if t.allOf != [] {
      forall i | 0 <= i < |t.allOf| ensures Accepts(v, t.allOf[i]) {
        CompatibleIsSound(v, s, t.allOf[i]);
      }
    } else if t.anyOf != [] {
      var i :| 0 <= i < |t.anyOf| && Compatible(s, t.anyOf[i]);
      CompatibleIsSound(v, s, t.anyOf[i]);
    } else {
      var i :| 0 <= i < |t.oneOf| && Compatible(s, t.oneOf[i]);
      CompatibleIsSound(v, s, t.oneOf[i]);
    }
  }

  lemma EnumeratedIsSound(v: Json, s: Schema, t: Schema)
    requires TargetSafe(t) && t != EMPTY && t.constant.None? && t.enumeration.Some?
    requires Compatible(s, t) && Accepts(v, s)
    ensures Accepts(v, t)
  {
    assert Includes(t.enumeration.value, v);
    var i :| 0 <= i < |t.enumeration.value| && Identical(t.enumeration.value[i], v);
    assert Primitive(t.enumeration.value[i]);
  }

  /** Neither side has a combinator and the target has no const or enum. */
  predicate ByShape(s: Schema, t: Schema) {
    && s != EMPTY && t != EMPTY
    && t.constant.None? && t.enumeration.None?
    && s.allOf == [] && s.anyOf == [] && s.oneOf == []
    && t.allOf == [] && t.anyOf == [] && t.oneOf == []
  }

  lemma {:induction false} ShapeIsSound(v: Json, s: Schema, t: Schema)
    requires TypedSource(s) && TargetSafe(t) && ByShape(s, t)
    requires Compatible(s, t) && Accepts(v, s)
    ensures Accepts(v, t)
    decreases s, t, 2
  {
    TypesAreSound(v, s, t);
    if v.JArray? && t.items.Items? {
      forall i | 0 <= i < |v.elems| ensures Accepts(v.elems[i], t.items.schema) {
        CompatibleIsSound(v.elems[i], s.items.schema, t.items.schema);
      }
    }
    if v.JObject? {
      forall n | n in v.members ensures AcceptsMember(n, v.members[n], t) {
        MemberIsSound(n, v.members[n], s, t);
      }
    }
  }

  lemma {:induction false} MemberIsSound(name: string, child: Json, s: Schema, t: Schema)
    requires TypedSource(s) && TargetSafe(t) && ByShape(s, t)
    requires ObjectsCompatible(s, t) && AcceptsMember(name, child, s)
    ensures AcceptsMember(name, child, t)
    decreases s, t, 1
  {
    if name in Declared(s) {
      if MemberRule(t, name).Each? {
        CompatibleIsSound(child, Declared(s)[name], MemberRule(t, name).schema);
      }
    } else if s.additional.Each? && MemberRule(t, name).Each? && !Inherited(name) {
      CompatibleIsSound(child, s.additional.schema, MemberRule(t, name).schema);
    }
  }

  /** The type sets line up, and the clauses for the value's own kind were really compared. */
  lemma TypesAreSound(v: Json, s: Schema, t: Schema)
    requires TypedSource(s) && ByShape(s, t)
    requires Compatible(s, t) && Accepts(v, s)
    ensures t.types != {} ==> exists k | k in t.types :: AcceptsType(v, k)
    ensures v.JArray? && t.items.Items? ==> s.items.Items? && Compatible(s.items.schema, t.items.schema)
    ensures v.JObject? ==> ObjectsCompatible(s, t) && (t.required.Some? ==> t.required.value <= v.members.Keys)
  {
    assert TypesCompatible(SchemaTypes(s), SchemaTypes(t));
    assert AcceptsType(v, ValueType(v)) && ValueType(v) in ALL_TYPES;
    var kind: TypeName :| kind in SchemaTypes(s) && AcceptsType(v, kind);
    assert (kind == TInteger && TNumber in SchemaTypes(t)) || kind in SchemaTypes(t);
    if kind !in SchemaTypes(t) {
      assert kind == TInteger;
      assert AcceptsType(v, TInteger);
      assert ValueType(v) == TInteger;
    }
  }

  // ----- the conditions are needed

  /** What soundness promises of one target, over every source and value. */
  ghost predicate SoundTarget(t: Schema) {
    forall s: Schema, v: Json | Compatible(s, t) && Accepts(v, s) :: Accepts(v, t)
  }

  /** A const target is sound exactly when its constant, if it can be matched at all, passes its siblings. */
  lemma ConstTargetExact(t: Schema)
    requires t.constant.Some?
    ensures SoundTarget(t) <==> TargetSafe(t)
  {
    var c := t.constant.value;
    if SoundTarget(t) && Primitive(c) {
      ConstantAccepts(c);
      assert Compatible(Constant(c), t);
    }
    if TargetSafe(t) {
      forall s: Schema, v: Json | Compatible(s, t) && Accepts(v, s) ensures Accepts(v, t) {
        assert v == c;
      }
    }
  }

  lemma ConstantAccepts(v: Json)
    ensures Accepts(v, Constant(v))
  {
    assert AcceptsLiteral(v, Constant(v)) && AcceptsCombined(v, Constant(v)) && AcceptsShape(v, Constant(v));
  }

  /** The same for an enum target, value by value. */
  lemma EnumTargetExact(t: Schema)
    requires t.constant.None? && t.enumeration.Some?
    ensures SoundTarget(t) <==> TargetSafe(t)
  {
    var values := t.enumeration.value;
    if SoundTarget(t) {
      forall i | 0 <= i < |values| && Primitive(values[i]) ensures Accepts(values[i], t) {
        assert Identical(values[i], values[i]);
        ConstantAccepts(values[i]);
        assert Compatible(Constant(values[i]), t);
      }
    }
    if TargetSafe(t) {
      forall s: Schema, v: Json | Compatible(s, t) && Accepts(v, s) ensures Accepts(v, t) {
        EnumeratedIsSound(v, s, t);
      }
    }
  }

  /** What soundness promises of one source, over every safe target and value. */
  ghost predicate SoundSource(s: Schema) {
    forall t: Schema, v: Json | TargetSafe(t) && Compatible(s, t) && Accepts(v, s) :: Accepts(v, t)
  }

  /** No literal and no combinator at the top, and every nested schema is typed. */
  predicate TypedBelow(s: Schema) {
    && s.constant.None? && s.enumeration.None? && s.allOf == [] && s.anyOf == [] && s.oneOf == []
    && (s.properties.Properties? ==> forall n | n in s.properties.table :: TypedSource(s.properties.table[n]))
    && (s.additional.Each? ==> TypedSource(s.additional.schema))
    && (s.items.Items? ==> TypedSource(s.items.schema))
  }

  /** A shape without a type is read as an object or an array by the comparison, but accepts null. */
  lemma TypedSourceExact(s: Schema)
    requires TypedBelow(s)
    ensures SoundSource(s) <==> TypedSource(s)
  {
    if TypedSource(s) {
      forall t: Schema, v: Json | TargetSafe(t) && Compatible(s, t) && Accepts(v, s) ensures Accepts(v, t) {
        CompatibleIsSound(v, s, t);
      }
    } else {
      var kind := if s.properties.Properties? || s.required.Some? then TObject else TArray;
      var t := EMPTY.(types := {kind});
      assert SchemaTypes(s) == {kind} == SchemaTypes(t);
      assert kind == TObject ==> ObjectsCompatible(s, t);
      assert Compatible(s, t) && TargetSafe(t);
      assert AcceptsShape(JNull, s) && AcceptsCombined(JNull, s);
      assert !AcceptsType(JNull, kind);
      assert !AcceptsShape(JNull, t);
      assert Accepts(JNull, s) && !Accepts(JNull, t);
    }
  }

  /** What soundness promises of one target over the sources that are handled soundly by themselves. */
  ghost predicate SoundForTyped(t: Schema) {
    forall s: Schema, v: Json | TypedSource(s) && Compatible(s, t) && Accepts(v, s) :: Accepts(v, t)
  }

  lemma SafeIsSoundForTyped(t: Schema)
    requires TargetSafe(t)
    ensures SoundForTyped(t)
  {
    forall s: Schema, v: Json | TypedSource(s) && Compatible(s, t) && Accepts(v, s) ensures Accepts(v, t) {
      CompatibleIsSound(v, s, t);
    }
  }

  /** The branches are fine by themselves, and each may be bound to the whole target. */
  ghost predicate UsableBranches(branches: seq<Schema>, t: Schema) {
    && t.constant.None? && t.enumeration.None? && branches != []
    && forall i | 0 <= i < |branches| ::
         TargetSafe(branches[i]) && TypedSource(branches[i]) && Compatible(branches[i], t)
  }

  /** A typed source that may be bound to the target and allows whatever the allOf branches allow together. */
  ghost predicate CoversBranches(s: Schema, t: Schema) {
    && TypedSource(s) && Compatible(s, t)
    && forall v: Json | (forall i | 0 <= i < |t.allOf| :: Accepts(v, t.allOf[i])) :: Accepts(v, s)
  }

  /** An allOf target is sound exactly when its branches together imply whatever stands beside them. */
  lemma AllOfTargetExact(t: Schema, s: Schema)
    requires t.constant.None? && t.enumeration.None? && t.allOf != []
    requires (forall i | 0 <= i < |t.allOf| :: TargetSafe(t.allOf[i])) && CoversBranches(s, t)
    ensures SoundForTyped(t) <==> AllImply(t.allOf, t)
  {
    if AllImply(t.allOf, t) {
      SafeIsSoundForTyped(t);
    }
  }

  /** A typed branch that is compatible with the others covers them all. */
  lemma StrongestBranchCovers(t: Schema, i: nat)
    requires i < |t.allOf| && TypedSource(t.allOf[i]) && Compatible(t.allOf[i], t)
    ensures CoversBranches(t.allOf[i], t)
  {
  }

  /** Without a strongest one, mutually compatible branches are covered by their own allOf. */
  lemma BranchesCoverThemselves(t: Schema)
    requires UsableBranches(t.allOf, t)
    ensures CoversBranches(AllOf(t.allOf), t)
  {
    var s := AllOf(t.allOf);
    assert TypedSource(t.allOf[0]) && TypedSource(s) && Compatible(s, t);
    forall v: Json | forall i | 0 <= i < |t.allOf| :: Accepts(v, t.allOf[i]) ensures Accepts(v, s) {
      assert AcceptsCombined(v, s) && AcceptsShape(v, s);
    }
  }

  /** An anyOf target is sound exactly when each branch implies whatever stands beside the branches. */
  lemma AnyOfTargetExact(t: Schema)
    requires t.allOf == [] && UsableBranches(t.anyOf, t)
    ensures SoundForTyped(t) <==> EachImplies(t.anyOf, t)
  {
    if EachImplies(t.anyOf, t) {
      SafeIsSoundForTyped(t);
    }
  }

  /** A oneOf target is sound exactly when each branch implies the rest, the exclusion of the others included. */
  lemma OneOfTargetExact(t: Schema)
    requires t.allOf == [] && t.anyOf == [] && UsableBranches(t.oneOf, t)
    ensures SoundForTyped(t) <==> EachImplies(t.oneOf, t)
    ensures Bare(t) ==> (SoundForTyped(t) <==> Disjoint(t.oneOf))
  {
    if EachImplies(t.oneOf, t) {
      SafeIsSoundForTyped(t);
    }
    if Bare(t) {
      BareOneOf(t);
    }
  }

  /** No other assertion stands beside the combinators. */
  predicate Bare(t: Schema) {
    && t.constant.None? && t.enumeration.None? && t.types == {} && !Structural(t)
    && !t.additional.Forbidden? && !t.additional.Each?
  }

  ghost predicate Disjoint(branches: seq<Schema>) {
    forall v: Json, i, j | 0 <= i < |branches| && 0 <= j < |branches| && i != j ::
      !(Accepts(v, branches[i]) && Accepts(v, branches[j]))
  }

  /** With nothing beside them, the combinators alone decide. */
  lemma BareDecides(v: Json, t: Schema)
    requires Bare(t)
    ensures Accepts(v, t) <==> AcceptsCombined(v, t)
  {
    assert AcceptsShape(v, t);
  }

  lemma BareOneOf(t: Schema)
    requires Bare(t) && t.allOf == [] && t.anyOf == [] && t.oneOf != []
    ensures EachImplies(t.oneOf, t) <==> Disjoint(t.oneOf)
  {
    hide Accepts;
    if Disjoint(t.oneOf) {
      forall v: Json, i | 0 <= i < |t.oneOf| && Accepts(v, t.oneOf[i]) ensures Accepts(v, t) {
        OnlyBranch(v, t, i);
      }
    }
    if EachImplies(t.oneOf, t) {
      forall v: Json, i, j | 0 <= i < |t.oneOf| && 0 <= j < |t.oneOf| && i != j
        ensures !(Accepts(v, t.oneOf[i]) && Accepts(v, t.oneOf[j]))
      {
        if Accepts(v, t.oneOf[i]) {
          OnlyBranch(v, t, i);
        }
      }
    }
  }

  /** A value of branch i is a value of a bare oneOf exactly when no other branch accepts it. */
  lemma OnlyBranch(v: Json, t: Schema, i: nat)
    requires Bare(t) && t.allOf == [] && t.anyOf == [] && i < |t.oneOf| && Accepts(v, t.oneOf[i])
    ensures Accepts(v, t) <==> OnlyAccepts(v, t.oneOf, i)
  {
    hide Accepts;
    BareDecides(v, t);
    if AcceptsCombined(v, t) {
      var k :| 0 <= k < |t.oneOf| && OnlyAccepts(v, t.oneOf, k);
      assert k == i;
    }
  }

  /** Conditions a caller can read off the schema: nothing beside allOf or anyOf. */
  lemma BareIsSafe(t: Schema)
    requires Bare(t) && t.oneOf == []
    ensures t.anyOf == [] ==> AllImply(t.allOf, t)
    ensures t.allOf == [] ==> EachImplies(t.anyOf, t)
  {
    forall v: Json ensures Accepts(v, t) <==> AcceptsCombined(v, t) {
      BareDecides(v, t);
    }
  }

  /** An object target whose nested schemas are fine by themselves. */
  ghost predicate ObjectTarget(t: Schema) {
    && t != EMPTY && PlainShape(t) && TObject in SchemaTypes(t)
    && (forall n | n in Declared(t) :: TargetSafe(Declared(t)[n]))
    && (t.additional.Each? ==> TargetSafe(t.additional.schema))
    && (t.items.Items? ==> TargetSafe(t.items.schema))
  }

  /** A schema with neither literals nor combinators. */
  predicate PlainShape(s: Schema) {
    s.constant.None? && s.enumeration.None? && s.anyOf == [] && s.oneOf == [] && s.allOf == []
  }

  /** An object with one more member, or another value for it, under a name the validator does not check. */
  lemma UncheckedMember(o: Json, s: Schema, name: string, x: Json)
    requires o.JObject? && Accepts(o, s) && PlainShape(s) && Inherited(name) && name !in Declared(s)
    ensures Accepts(JObject(o.order, o.members[name := x]), s)
  {
    var v := JObject(o.order, o.members[name := x]);
    assert AcceptsShape(o, s);
    assert ValueType(v) == ValueType(o);
    forall n | n in v.members ensures AcceptsMember(n, v.members[n], s) {
      if n != name {
        assert AcceptsMember(n, o.members[n], s);
      }
    }
    assert AcceptsShape(v, s) && AcceptsCombined(v, s);
  }

  /** Some typed source that may be bound to the target accepts an object and does not declare the name. */
  ghost predicate Passable(t: Schema, name: string) {
    exists s: Schema, o: Json :: Passes(s, o, t, name)
  }

  ghost predicate Passes(s: Schema, o: Json, t: Schema, name: string) {
    TypedSource(s) && PlainShape(s) && Compatible(s, t) && name !in Declared(s) && o.JObject? && Accepts(o, s)
  }

  /** A sound target accepts everything at an inherited name that can pass unchecked. */
  lemma PassableMustAcceptAll(t: Schema, name: string)
    requires SoundForTyped(t) && name in Declared(t) && Inherited(name) && Passable(t, name)
    ensures AcceptsEverything(Declared(t)[name])
  {
    var s: Schema, o: Json :| Passes(s, o, t, name);
    forall x: Json ensures Accepts(x, Declared(t)[name]) {
      var v := JObject(o.order, o.members[name := x]);
      UncheckedMember(o, s, name, x);
      assert Accepts(v, t) && AcceptsShape(v, t);
      assert AcceptsMember(name, v.members[name], t);
    }
  }

  /** An object target is sound exactly when its properties with inherited names accept everything. */
  lemma ObjectTargetExact(t: Schema)
    requires ObjectTarget(t) && forall n | n in Declared(t) && Inherited(n) :: Passable(t, n)
    ensures SoundForTyped(t) <==> forall n | n in Declared(t) && Inherited(n) :: AcceptsEverything(Declared(t)[n])
  {
    if SoundForTyped(t) {
      forall n | n in Declared(t) && Inherited(n) ensures AcceptsEverything(Declared(t)[n]) {
        PassableMustAcceptAll(t, n);
      }
    }
    if forall n | n in Declared(t) && Inherited(n) :: AcceptsEverything(Declared(t)[n]) {
      assert t.properties.Properties? ==> forall n | n in t.properties.table :: n in Declared(t);
      assert TargetSafe(t);
      SafeIsSoundForTyped(t);
    }
  }

  function RequiredNames(t: Schema): set<string> {
    if t.required.Some? then t.required.value else {}
  }

  /** What the target asks of a member. */
  function RuleSchema(t: Schema, name: string): Schema {
    var rule := MemberRule(t, name); if rule.Each? then rule.schema else EMPTY
  }

  /** The required members of the target and no others. */
  function JustRequired(t: Schema): Schema {
    EMPTY.(types := {TObject}, required := Some(RequiredNames(t)), additional := Forbidden,
           properties := Properties(map r | r in RequiredNames(t) :: RuleSchema(t, r)))
  }

  /** The required members are checked by the validator, and their schemas may be bound to themselves. */
  predicate RequiredUsable(t: Schema) {
    forall r | r in RequiredNames(t) ::
      && !MemberRule(t, r).Forbidden? && (r in Declared(t) || !Inherited(r))
      && TypedSource(RuleSchema(t, r)) && Compatible(RuleSchema(t, r), RuleSchema(t, r))
  }

  lemma JustRequiredIsCompatible(t: Schema)
    requires ObjectTarget(t) && RequiredUsable(t)
    ensures TypedSource(JustRequired(t)) && Compatible(JustRequired(t), t)
  {
    hide TargetSafe;
    var s := JustRequired(t);
    forall r | r in RequiredNames(t) ensures RequiredCompatible(s, t, r) {
      assert s.properties.table[r] == RuleSchema(t, r);
    }
    assert ObjectsCompatible(s, t);
    assert SchemaTypes(s) == {TObject};
  }

  /** An accepted object keeps its required members and loses the rest. */
  lemma JustRequiredAccepts(t: Schema, o: Json)
    requires ObjectTarget(t) && RequiredUsable(t) && o.JObject? && Accepts(o, t)
    ensures var kept := JObject(o.order, map r | r in o.members && r in RequiredNames(t) :: o.members[r]);
            Accepts(kept, JustRequired(t))
  {
    hide TargetSafe, Compatible;
    var s, kept := JustRequired(t), JObject(o.order, map r | r in o.members && r in RequiredNames(t) :: o.members[r]);
    assert AcceptsShape(o, t);
    forall r | r in kept.members ensures AcceptsMember(r, kept.members[r], s) {
      assert AcceptsMember(r, o.members[r], t);
      EmptyAccepts(o.members[r]);
    }
    assert AcceptsType(kept, TObject) && TObject in s.types;
    assert AcceptsShape(kept, s) && AcceptsCombined(kept, s);
  }

  lemma EmptyAccepts(v: Json)
    ensures Accepts(v, EMPTY)
  {
    assert AcceptsCombined(v, EMPTY) && AcceptsShape(v, EMPTY);
  }

  /** Where the required members cause no trouble, every other name is passable once the target accepts an object. */
  lemma OptionalIsPassable(t: Schema, name: string, o: Json)
    requires ObjectTarget(t) && RequiredUsable(t) && name !in RequiredNames(t) && o.JObject? && Accepts(o, t)
    ensures Passable(t, name)
  {
    hide TargetSafe, Compatible, Accepts;
    JustRequiredIsCompatible(t);
    JustRequiredAccepts(t, o);
    var kept := JObject(o.order, map r | r in o.members && r in RequiredNames(t) :: o.members[r]);
    assert Passes(JustRequired(t), kept, t, name);
  }

  // ----- a condition that can be read off a schema

  /** Bare combinators, oneOf branches of separate types, nothing asked of inherited names, at every level. */
  predicate PlainlySafe(t: Schema)
    decreases t
  {
    if t.constant.Some? then Primitive(t.constant.value) ==> Accepts(t.constant.value, t)
    else if t.enumeration.Some? then
      forall i | 0 <= i < |t.enumeration.value| ::
        Primitive(t.enumeration.value[i]) ==> Accepts(t.enumeration.value[i], t)
    else if t.allOf != [] then
      Bare(t) && t.anyOf == [] && t.oneOf == [] && forall i | 0 <= i < |t.allOf| :: PlainlySafe(t.allOf[i])
    else if t.anyOf != [] then
      Bare(t) && t.oneOf == [] && forall i | 0 <= i < |t.anyOf| :: PlainlySafe(t.anyOf[i])
    else if t.oneOf != [] then
      Bare(t) && AllApart(t.oneOf) && forall i | 0 <= i < |t.oneOf| :: PlainlySafe(t.oneOf[i])
    else
      && (t.properties.Properties? ==>
            forall n | n in t.properties.table ::
              PlainlySafe(t.properties.table[n]) && (Inherited(n) ==> t.properties.table[n] == EMPTY))
      && (t.additional.Each? ==> PlainlySafe(t.additional.schema))
      && (t.items.Items? ==> PlainlySafe(t.items.schema))
  }

  lemma {:induction false} PlainlySafeIsSafe(t: Schema)
    requires PlainlySafe(t)
    ensures TargetSafe(t)
    decreases t, 1
  {
    if t.constant.Some? || t.enumeration.Some? {
    } else if t.allOf != [] {
      BareIsSafe(t);
      forall i | 0 <= i < |t.allOf| ensures TargetSafe(t.allOf[i]) { PlainlySafeIsSafe(t.allOf[i]); }
    } else if t.anyOf != [] {
      BareIsSafe(t);
      forall i | 0 <= i < |t.anyOf| ensures TargetSafe(t.anyOf[i]) { PlainlySafeIsSafe(t.anyOf[i]); }
    } else if t.oneOf != [] {
      ApartTypesAreDisjoint(t.oneOf);
      BareOneOf(t);
      forall i | 0 <= i < |t.oneOf| ensures TargetSafe(t.oneOf[i]) { PlainlySafeIsSafe(t.oneOf[i]); }
    } else {
      PlainShapeIsSafe(t);
    }
  }

  lemma {:induction false} PlainShapeIsSafe(t: Schema)
    requires PlainlySafe(t) && PlainShape(t)
    ensures TargetSafe(t)
    decreases t, 0
  {
    forall v: Json ensures Accepts(v, EMPTY) { EmptyAccepts(v); }
    if t.properties.Properties? {
      var table := t.properties.table;
      forall n | n in table ensures TargetSafe(table[n]) { PlainlySafeIsSafe(table[n]); }
    }
    if t.additional.Each? { PlainlySafeIsSafe(t.additional.schema); }
    if t.items.Items? { PlainlySafeIsSafe(t.items.schema); }
  }

  // ----- inputs that fail the conditions

  /** A schema that asks for one type and nothing else. */
  function Typed(kind: TypeName): Schema {
    EMPTY.(types := {kind})
  }

  lemma TypedAccepts(v: Json, kind: TypeName)
    ensures Accepts(v, Typed(kind)) <==> AcceptsType(v, kind)
  {
    assert AcceptsCombined(v, Typed(kind));
    assert kind in Typed(kind).types;
  }

  lemma TypedIsUsable(kind: TypeName)
    ensures TargetSafe(Typed(kind)) && TypedSource(Typed(kind)) && Compatible(Typed(kind), Typed(kind))
  {
    assert ObjectsCompatible(Typed(kind), Typed(kind));
  }

  /** A keyword beside allOf is skipped by the comparison. */
  lemma MixedAllOfIsUnsound()
    ensures !SoundForTyped(AllOf([Typed(TObject)]).(required := Some({"x"})))
  {
    var mixed := AllOf([Typed(TObject)]).(required := Some({"x"}));
    var bare := JObject([], map[]);
    TypedIsUsable(TObject);
    assert Compatible(Typed(TObject), mixed.allOf[0]) && Compatible(Typed(TObject), mixed);
    TypedAccepts(bare, TObject);
    assert "x" in mixed.required.value && !AcceptsShape(bare, mixed);
  }

  /** The same with several branches: the source that names the strongest of them is compatible and fails the sibling. */
  lemma SeveralBranchesAreUnsound()
    ensures var need := Typed(TObject).(required := Some({"x"}));
            !SoundForTyped(AllOf([Typed(TObject), need]).(properties := Properties(map["x" := Typed(TString)])))
  {
    hide Compatible, TargetSafe, TypedSource, Accepts, SoundForTyped, CoversBranches;
    var need := Typed(TObject).(required := Some({"x"}));
    var t := AllOf([Typed(TObject), need]).(properties := Properties(map["x" := Typed(TString)]));
    var v := JObject(["x"], map["x" := JNull]);
    TypedIsUsable(TObject);
    NeedIsStrongest(need, t);
    StrongestBranchCovers(t, 1);
    AllOfTargetExact(t, need);
    NeedAccepts(need, v);
    TypedAccepts(v, TObject);
    assert forall i | 0 <= i < |t.allOf| :: t.allOf[i] == Typed(TObject) || t.allOf[i] == need;
    TypedAccepts(JNull, TString);
    PropertyFails(t, v, "x");
  }

  lemma NeedAccepts(need: Schema, v: Json)
    requires need == Typed(TObject).(required := Some({"x"})) && v.JObject? && "x" in v.members
    ensures Accepts(v, need)
  {
    assert AcceptsType(v, TObject) && TObject in need.types;
    assert AcceptsShape(v, need) && AcceptsCombined(v, need);
  }

  lemma PropertyFails(t: Schema, v: Json, name: string)
    requires v.JObject? && name in v.members && name in Declared(t) && !Accepts(v.members[name], Declared(t)[name])
    ensures !Accepts(v, t)
  {
    assert !AcceptsMember(name, v.members[name], t) && !AcceptsShape(v, t);
  }

  lemma NeedIsStrongest(need: Schema, t: Schema)
    requires need == Typed(TObject).(required := Some({"x"})) && t.constant.None? && t.enumeration.None?
    requires t.allOf == [Typed(TObject), need]
    ensures TargetSafe(need) && TypedSource(need) && Compatible(need, t)
  {
    assert RequiredCompatible(need, need, "x");
    assert ObjectsCompatible(need, need) && ObjectsCompatible(need, Typed(TObject));
    assert Compatible(need, need) && Compatible(need, Typed(TObject));
    forall i | 0 <= i < |t.allOf| ensures Compatible(need, t.allOf[i]) {
      assert i == 0 || i == 1;
    }
  }

  /** One compatible oneOf branch is not exactly one. */
  lemma OverlappingOneOfIsUnsound()
    ensures !SoundForTyped(EMPTY.(oneOf := [Typed(TNumber), Typed(TInteger)]))
  {
    var overlap := EMPTY.(oneOf := [Typed(TNumber), Typed(TInteger)]);
    TypedIsUsable(TInteger);
    assert Compatible(Typed(TInteger), overlap.oneOf[1]) && Compatible(Typed(TInteger), overlap);
    TypedAccepts(JNumber(1.0), TNumber);
    TypedAccepts(JNumber(1.0), TInteger);
    NotExactlyOne(JNumber(1.0), overlap, 0, 1);
  }

  lemma NotExactlyOne(v: Json, t: Schema, i: nat, j: nat)
    requires i < j < |t.oneOf| && Accepts(v, t.oneOf[i]) && Accepts(v, t.oneOf[j])
    ensures !Accepts(v, t)
  {
    assert !AcceptsCombined(v, t);
  }

  /** A property with an inherited name is checked in the target and not in a closed source. */
  lemma InheritedNameIsUnsound()
    ensures !SoundForTyped(Typed(TObject).(properties := Properties(map["toString" := Typed(TString)])))
  {
    var named := Typed(TObject).(properties := Properties(map["toString" := Typed(TString)]));
    TypedIsUsable(TString);
    var bare := JObject([], map[]);
    assert AcceptsType(bare, TObject) && AcceptsShape(bare, named) && Accepts(bare, named);
    OptionalIsPassable(named, "toString", bare);
    ObjectTargetExact(named);
    TypedAccepts(JNull, TString);
    assert "toString" in Declared(named) && !AcceptsEverything(Declared(named)["toString"]);
  }

  /** Two type lists no value can satisfy together. */
  predicate Apart(a: set<TypeName>, b: set<TypeName>) {
    a != {} && b != {} && a !! b && !(TNumber in a && TInteger in b) && !(TInteger in a && TNumber in b)
  }

  predicate AllApart(branches: seq<Schema>) {
    forall i, j | 0 <= i < |branches| && 0 <= j < |branches| && i != j :: Apart(branches[i].types, branches[j].types)
  }

  lemma AcceptedKind(v: Json, s: Schema)
    requires s.types != {}
    ensures Accepts(v, s) ==> ValueType(v) in s.types || (ValueType(v) == TInteger && TNumber in s.types)
  {
    if Accepts(v, s) {
      assert AcceptsShape(v, s);
    }
  }

  /** A checkable way to meet Disjoint: branches with explicit, separate types. */
  lemma ApartTypesAreDisjoint(branches: seq<Schema>)
    requires AllApart(branches)
    ensures Disjoint(branches)
  {
    forall v: Json, i, j | 0 <= i < |branches| && 0 <= j < |branches| && i != j
      ensures !(Accepts(v, branches[i]) && Accepts(v, branches[j]))
    {
      assert Apart(branches[i].types, branches[j].types);
      AcceptedKind(v, branches[i]);
      AcceptedKind(v, branches[j]);
    }
  }
}
