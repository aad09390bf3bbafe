/**
 * Member and path resolution (web/chart_core.js: schemaChild, literalSchema,
 * resolveDataKeyDeclaration) lose nothing: what the resolved schema allows is what
 * the schema allows at that place, so that right bindings are accepted too.
 */
module KeyTightness {
  import opened Options
  import opened JsonSchema
  import opened Compatibility
  import opened Completeness
  import opened DataKeys

  // ----- literals

  /** The value the literal describes, up to the key order of objects, and with inherited names the validator skips. */
  predicate Matches(x: Json, v: Json)
    decreases v
  {
    if v.JObject? then
      && x.JObject? && v.members.Keys <= x.members.Keys
      && (forall n | n in x.members && n !in v.members :: Inherited(n))
      && (forall n | n in v.members :: n in x.members && Matches(x.members[n], v.members[n]))
    else x == v
  }

  lemma {:induction false} LiteralExact(x: Json, v: Json)
    ensures Accepts(x, LiteralSchema(v)) <==> Matches(x, v)
    decreases v
  {
    var s := LiteralSchema(v);
    if v.JObject? {
      LiteralShape(x, v);
      forall n | n in v.members && x.JObject? && n in x.members
        ensures Accepts(x.members[n], LiteralSchema(v.members[n])) <==> Matches(x.members[n], v.members[n])
      {
        LiteralExact(x.members[n], v.members[n]);
      }
    } else {
      assert AcceptsShape(x, s) && AcceptsCombined(x, s);
    }
  }

  lemma LiteralShape(x: Json, v: Json)
    requires v.JObject?
    ensures Accepts(x, LiteralSchema(v)) <==>
              && x.JObject? && v.members.Keys <= x.members.Keys
              && forall n | n in x.members ::
                   if n in v.members then Accepts(x.members[n], LiteralSchema(v.members[n])) else Inherited(n)
  {
    var s := LiteralSchema(v);
    assert AcceptsCombined(x, s) && AcceptsLiteral(x, s);
    assert (exists k | k in s.types :: AcceptsType(x, k)) <==> x.JObject? by {
      assert TObject in s.types;
    }
    if x.JObject? {
      forall n | n in x.members
        ensures AcceptsMember(n, x.members[n], s)
                <==> if n in v.members then Accepts(x.members[n], LiteralSchema(v.members[n])) else Inherited(n)
      {
      }
    }
    assert Accepts(x, s) <==> AcceptsShape(x, s);
  }

  /** The same value up to the key order of objects outside arrays. */
  predicate SameUpToOrder(x: Json, v: Json)
    decreases v
  {
    if v.JObject? then
      && x.JObject? && x.members.Keys == v.members.Keys
      && (forall n | n in v.members :: n in x.members && SameUpToOrder(x.members[n], v.members[n]))
    else x == v
  }

  predicate OrdinaryNames(x: Json) {
    x.JObject? ==> forall n | n in x.members :: !Inherited(n) && OrdinaryNames(x.members[n])
  }

  /** Without inherited names, a literal's schema accepts exactly the literal. */
  lemma {:induction false} LiteralIsExact(x: Json, v: Json)
    requires OrdinaryNames(x)
    ensures Accepts(x, LiteralSchema(v)) <==> SameUpToOrder(x, v)
    decreases v
  {
    LiteralExact(x, v);
    if v.JObject? && x.JObject? {
      forall n | n in v.members && n in x.members
        ensures Matches(x.members[n], v.members[n]) <==> SameUpToOrder(x.members[n], v.members[n])
      {
        LiteralExact(x.members[n], v.members[n]);
        LiteralIsExact(x.members[n], v.members[n]);
      }
      assert v.members.Keys <= x.members.Keys && (forall n | n in x.members && n !in v.members :: Inherited(n))
        <==> x.members.Keys == v.members.Keys;
    }
  }

  // ----- one step

  /** What the shape keywords leave open for a member. */
  predicate ShapeLeaves(s: Schema, name: string, x: Json) {
    if s.types == {} && s.properties.NoProperties? && s.required.None? && s.additional.Unset? then true
    else
      && TObject in SchemaTypes(s)
      && (if name in Declared(s) then Accepts(x, Declared(s)[name])
          else if s.additional.Forbidden? then false
          else if s.additional.Each? then Accepts(x, s.additional.schema)
          else true)
  }

  /** What all keywords of a schema together leave open for a member. */
  predicate Leaves(s: Schema, name: string, x: Json)
    decreases s
  {
    && ShapeLeaves(s, name, x)
    && (s.constant.Some? ==> LiteralLeaves(s.constant.value, name, x))
    && (s.enumeration.Some? ==> exists i | 0 <= i < |s.enumeration.value| :: LiteralLeaves(s.enumeration.value[i], name, x))
    && (s.anyOf != [] ==> exists i | 0 <= i < |s.anyOf| :: Leaves(s.anyOf[i], name, x))
    && (s.oneOf != [] ==> exists i | 0 <= i < |s.oneOf| :: Leaves(s.oneOf[i], name, x))
    && (forall i | 0 <= i < |s.allOf| :: Leaves(s.allOf[i], name, x))
  }

  predicate LiteralLeaves(v: Json, name: string, x: Json) {
    v.JObject? && name in v.members && Matches(x, v.members[name])
  }

  /** For every schema, name and value: the resolved schema accepts exactly what the keywords leave open. */
  lemma {:induction false} ChildMeans(s: Schema, name: string, x: Json)
    ensures Resolves(s, name, x) <==> Leaves(s, name, x)
    decreases s
  {
    hide Accepts, SchemaChild, Resolves, ShapeLeaves, ShapeConstraint, SomeOf, EveryOf, LiteralConstraint;
    ResolvesByParts(s, name, x);
    ShapeMeans(s, name, x);
    LiteralPartsMean(s, name, x);
    forall i | 0 <= i < |s.anyOf| ensures Resolves(s.anyOf[i], name, x) <==> Leaves(s.anyOf[i], name, x) {
      ChildMeans(s.anyOf[i], name, x);
    }
    forall i | 0 <= i < |s.oneOf| ensures Resolves(s.oneOf[i], name, x) <==> Leaves(s.oneOf[i], name, x) {
      ChildMeans(s.oneOf[i], name, x);
    }
    forall i | 0 <= i < |s.allOf| ensures Resolves(s.allOf[i], name, x) <==> Leaves(s.allOf[i], name, x) {
      ChildMeans(s.allOf[i], name, x);
    }
    SomeBranchExact(s.anyOf, name, x);
    SomeBranchExact(s.oneOf, name, x);
    EveryBranchExact(s.allOf, name, x);
  }

  lemma ShapeMeans(s: Schema, name: string, x: Json)
    ensures Admits(ShapeConstraint(s, name), x) <==> ShapeLeaves(s, name, x)
  {
    EmptyAccepts(x);
  }

  lemma LiteralMeans(v: Json, name: string, x: Json)
    ensures Admits(LiteralConstraint(v, name), x) <==> LiteralLeaves(v, name, x)
  {
    if v.JObject? && name in v.members {
      LiteralExact(x, v.members[name]);
    }
  }

  lemma LiteralPartsMean(s: Schema, name: string, x: Json)
    ensures Admits(LiteralParts(s, name)[1], x) <==> (s.constant.Some? ==> LiteralLeaves(s.constant.value, name, x))
    ensures Admits(LiteralParts(s, name)[2], x) <==>
              (s.enumeration.Some? ==> exists i | 0 <= i < |s.enumeration.value| :: LiteralLeaves(s.enumeration.value[i], name, x))
  {
    hide LiteralLeaves, SomeOf, LiteralChildren;
    if s.constant.Some? {
      LiteralMeans(s.constant.value, name, x);
    }
    if s.enumeration.Some? {
      EnumMeans(s.enumeration.value, name, x);
    }
  }

  lemma EnumMeans(values: seq<Json>, name: string, x: Json)
    ensures Admits(SomeOf(LiteralChildren(values, name)), x)
            <==> exists i | 0 <= i < |values| :: LiteralLeaves(values[i], name, x)
  {
    hide Accepts, LiteralLeaves, SomeOf;
    var parts := seq(|values|, i requires 0 <= i < |values| => LiteralConstraint(values[i], name));
    SomeOfExact(LiteralChildren(values, name), x);
    if i :| 0 <= i < |values| && LiteralLeaves(values[i], name, x) {
      LiteralMeans(values[i], name, x);
      NoSilence(values[i], name);
      assert parts[i].Demand? && parts[i] in parts;
      DemandsAre(parts, parts[i].schema);
    }
    if c :| c in LiteralChildren(values, name) && Accepts(x, c) {
      DemandsAre(parts, c);
      var i :| 0 <= i < |parts| && parts[i] == Demand(c);
      LiteralMeans(values[i], name, x);
    }
  }

  lemma NoSilence(v: Json, name: string)
    ensures !LiteralConstraint(v, name).Silent?
  {
  }

  // ----- the object behind the step

  function Put(o: Json, name: string, x: Json): Json
    requires o.JObject?
  {
    JObject(o.order, o.members[name := x])
  }

  /** Shapes and allOf only, none mistaken for an array, and the name checked by the validator. */
  predicate Conjunctive(s: Schema, name: string)
    decreases s
  {
    && s.constant.None? && s.enumeration.None? && s.anyOf == [] && s.oneOf == []
    && !MistakenForArray(s) && (!Inherited(name) || name in Declared(s))
    && forall i | 0 <= i < |s.allOf| :: Conjunctive(s.allOf[i], name)
  }

  /** The resolved schema accepts a value exactly when the object may hold it there. */
  lemma {:induction false} StepIsTight(o: Json, s: Schema, name: string, x: Json)
    requires Conjunctive(s, name) && HasMember(o, name) && Accepts(o, s)
    ensures Resolves(s, name, x) <==> Accepts(Put(o, name, x), s)
    decreases s
  {
    hide SchemaChild, Resolves, ShapeLeaves;
    ChildMeans(s, name, x);
    ShapeIsTight(o, s, name, x);
    forall i | 0 <= i < |s.allOf| ensures Leaves(s.allOf[i], name, x) <==> Accepts(Put(o, name, x), s.allOf[i]) {
      assert AcceptsCombined(o, s);
      StepIsTight(o, s.allOf[i], name, x);
      ChildMeans(s.allOf[i], name, x);
    }
    assert AcceptsCombined(Put(o, name, x), s) <==> forall i | 0 <= i < |s.allOf| :: Accepts(Put(o, name, x), s.allOf[i]);
  }

  lemma ShapeIsTight(o: Json, s: Schema, name: string, x: Json)
    requires HasMember(o, name) && Accepts(o, s) && !MistakenForArray(s) && (!Inherited(name) || name in Declared(s))
    ensures ShapeLeaves(s, name, x) <==> AcceptsShape(Put(o, name, x), s)
  {
    var v := Put(o, name, x);
    assert AcceptsShape(o, s) && ValueType(v) == ValueType(o);
    if s.types != {} {
      AcceptedKind(o, s);
    }
    assert ShapeLeaves(s, name, x) <==> AcceptsMember(name, x, s);
    forall n | n in v.members && n != name ensures AcceptsMember(n, v.members[n], s) {
      assert AcceptsMember(n, o.members[n], s);
    }
    assert v.members[name] == x;
  }

  // ----- paths

  function PutAt(v: Json, path: Path, x: Json): Json
    requires ValueAt(v, path).Some?
  {
    if path == [] then x else Put(v, path[0], PutAt(v.members[path[0]], path[1..], x))
  }

  /** Conjunctive schemas at every step of the path. */
  predicate ConjunctiveAlong(s: Schema, path: Path)
    decreases |path|
  {
    path == [] ||
    (Conjunctive(s, path[0])
     && (SchemaChild(s, path[0]).Some? ==> ConjunctiveAlong(SchemaChild(s, path[0]).value, path[1..])))
  }

  /** The schema resolved along a path accepts a value exactly when the root may hold it at that path. */
  lemma {:induction false} PathIsTight(v: Json, s: Schema, path: Path, x: Json)
    requires Accepts(v, s) && ValueAt(v, path).Some? && ConjunctiveAlong(s, path)
    ensures ChildAlong(s, path).Some?
    ensures Accepts(x, ChildAlong(s, path).value) <==> Accepts(PutAt(v, path, x), s)
    decreases |path|
  {
    if path != [] {
      var name, member := path[0], v.members[path[0]];
      StepIsTight(v, s, name, member);
      assert Put(v, name, member) == v;
      PathIsTight(member, SchemaChild(s, name).value, path[1..], x);
      StepIsTight(v, s, name, PutAt(member, path[1..], x));
    }
  }

  /** A declared property resolves to the same schema whether it is expanded or followed. */
  lemma RoutesAgree(declared: map<Path, Schema>, path: Path, name: string)
    requires Lookup(declared, path).Some? && path + [name] !in declared
    requires var parent := Lookup(declared, path).value;
             PlainShape(parent) && TObject in SchemaTypes(parent) && name in Declared(parent)
    ensures Lookup(declared, path + [name]) == SchemaChild(Lookup(declared, path).value, name)
            == Some(Declared(Lookup(declared, path).value)[name])
  {
    var full := path + [name];
    assert full[..|full| - 1] == path && full[|full| - 1] == name;
    PlainChild(Lookup(declared, path).value, name);
  }

  /** A declared path keeps its own declaration, and nothing resolves outside the declared roots. */
  lemma DeclarationsDecide(declared: map<Path, Schema>, path: Path)
    requires path != []
    ensures path in declared ==> Resolve(declared, path) == Some(declared[path])
    ensures Lookup(declared, path).None? && Lookup(declared, path[..1]).None? ==> Resolve(declared, path).None?
    ensures Lookup(declared, path).None? && Lookup(declared, path[..1]).Some? ==>
              Resolve(declared, path) == ChildAlong(Lookup(declared, path[..1]).value, path[1..])
  {
  }

  /** Whatever the root may hold at the path, the port accepts. */
  ghost predicate PortTakesAll(v: Json, root: Schema, path: Path, port: Schema)
    requires ValueAt(v, path).Some?
  {
    forall x: Json | Accepts(PutAt(v, path, x), root) :: Accepts(x, port)
  }

  lemma FollowedExact(v: Json, root: Schema, path: Path, port: Schema)
    requires Accepts(v, root) && ValueAt(v, path).Some? && ConjunctiveAlong(root, path)
    requires ChildAlong(root, path).Some? ==> DefiniteSource(ChildAlong(root, path).value)
    requires DefiniteTarget(port)
    ensures ChildAlong(root, path).Some?
    ensures Compatible(ChildAlong(root, path).value, port) <==> PortTakesAll(v, root, path, port)
  {
    hide Compatible, DefiniteSource, DefiniteTarget, Accepts, ConjunctiveAlong, ChildAlong, PutAt;
    PathIsTight(v, root, path, JNull);
    var found := ChildAlong(root, path).value;
    CompatibleExact(found, port);
    if Contains(found, port) {
      forall x: Json | Accepts(PutAt(v, path, x), root) ensures Accepts(x, port) {
        PathIsTight(v, root, path, x);
      }
    }
    if PortTakesAll(v, root, path, port) {
      forall x: Json | Accepts(x, found) ensures Accepts(x, port) {
        PathIsTight(v, root, path, x);
      }
    }
  }

  /** A binding below a declared root is accepted exactly when the port takes whatever the root may hold there. */
  lemma BindingExact(declared: map<Path, Schema>, path: Path, port: Schema, v: Json)
    requires path != [] && Lookup(declared, path).None? && Lookup(declared, path[..1]).Some?
    requires var root := Lookup(declared, path[..1]).value;
             Accepts(v, root) && ValueAt(v, path[1..]).Some? && ConjunctiveAlong(root, path[1..])
    requires Resolve(declared, path).Some? ==> DefiniteSource(Resolve(declared, path).value)
    requires DefiniteTarget(port)
    ensures Resolve(declared, path).Some?
    ensures Compatible(Resolve(declared, path).value, port)
            <==> PortTakesAll(v, Lookup(declared, path[..1]).value, path[1..], port)
  {
    FollowedExact(v, Lookup(declared, path[..1]).value, path[1..], port);
  }

  // ----- alternatives

  /** Some valid object holds the value at that name. */
  ghost predicate MayHold(s: Schema, name: string, x: Json) {
    exists o: Json :: Holds(o, s, name, x)
  }

  predicate Holds(o: Json, s: Schema, name: string, x: Json) {
    HasMember(o, name) && o.members[name] == x && Accepts(o, s)
  }

  ghost predicate ResolvesExactly(s: Schema, name: string) {
    forall x: Json :: Resolves(s, name, x) <==> MayHold(s, name, x)
  }

  /** A conjunctive schema that some object with the member meets resolves to exactly the values the member may have. */
  lemma ConjunctiveResolvesExactly(s: Schema, name: string, o: Json)
    requires Conjunctive(s, name) && HasMember(o, name) && Accepts(o, s)
    ensures ResolvesExactly(s, name)
  {
    hide Accepts, Resolves, Conjunctive;
    forall x: Json ensures Resolves(s, name, x) <==> MayHold(s, name, x) {
      StepIsTight(o, s, name, x);
      if Resolves(s, name, x) {
        assert Holds(Put(o, name, x), s, name, x);
      }
      if MayHold(s, name, x) {
        var p: Json :| Holds(p, s, name, x);
        StepIsTight(p, s, name, x);
        assert Put(p, name, x) == p;
      }
    }
  }

  /** Bare alternatives do so if each branch does; those of oneOf must exclude each other. */
  lemma AlternativesResolveExactly(branches: seq<Schema>, name: string)
    requires branches != [] && forall i | 0 <= i < |branches| :: ResolvesExactly(branches[i], name)
    ensures ResolvesExactly(AnyOf(branches), name)
    ensures Disjoint(branches) ==> ResolvesExactly(OneOf(branches), name)
  {
    forall x: Json
      ensures Resolves(AnyOf(branches), name, x) <==> MayHold(AnyOf(branches), name, x)
      ensures Disjoint(branches) ==> (Resolves(OneOf(branches), name, x) <==> MayHold(OneOf(branches), name, x))
    {
      AlternativesResolve(branches, name, x);
      AlternativesHold(branches, name, x);
    }
  }

  lemma AlternativesResolve(branches: seq<Schema>, name: string, x: Json)
    requires branches != []
    ensures Resolves(AnyOf(branches), name, x) <==> exists i | 0 <= i < |branches| :: Resolves(branches[i], name, x)
    ensures Resolves(OneOf(branches), name, x) <==> exists i | 0 <= i < |branches| :: Resolves(branches[i], name, x)
  {
    hide Accepts, SchemaChild, SomeOf, Present;
    SomeBranchExact(branches, name, x);
    ResolvesByParts(AnyOf(branches), name, x);
    ResolvesByParts(OneOf(branches), name, x);
  }

  lemma AlternativesHold(branches: seq<Schema>, name: string, x: Json)
    requires branches != [] && forall i | 0 <= i < |branches| :: ResolvesExactly(branches[i], name)
    ensures MayHold(AnyOf(branches), name, x) <==> exists i | 0 <= i < |branches| :: Resolves(branches[i], name, x)
    ensures Disjoint(branches) ==>
              (MayHold(OneOf(branches), name, x) <==> exists i | 0 <= i < |branches| :: Resolves(branches[i], name, x))
  {
    hide Accepts, Resolves;
    forall o: Json ensures Accepts(o, AnyOf(branches)) <==> exists i | 0 <= i < |branches| :: Accepts(o, branches[i]) {
      BareDecides(o, AnyOf(branches));
    }
    forall o: Json
      ensures Disjoint(branches) ==> (Accepts(o, OneOf(branches)) <==> exists i | 0 <= i < |branches| :: Accepts(o, branches[i]))
    {
      OneOfAccepts(o, branches);
    }
    if i :| 0 <= i < |branches| && Resolves(branches[i], name, x) {
      assert MayHold(branches[i], name, x);
      var o: Json :| Holds(o, branches[i], name, x);
      assert Holds(o, AnyOf(branches), name, x);
      assert Disjoint(branches) ==> Holds(o, OneOf(branches), name, x);
    }
    if o: Json :| HasMember(o, name) && o.members[name] == x && exists i | 0 <= i < |branches| :: Accepts(o, branches[i]) {
      var i :| 0 <= i < |branches| && Accepts(o, branches[i]);
      assert Holds(o, branches[i], name, x);
      assert ResolvesExactly(branches[i], name) && MayHold(branches[i], name, x);
    }
  }

  lemma OneOfAccepts(o: Json, branches: seq<Schema>)
    requires branches != []
    ensures Disjoint(branches) ==> (Accepts(o, OneOf(branches)) <==> exists i | 0 <= i < |branches| :: Accepts(o, branches[i]))
  {
    hide Accepts;
    BareOneOf(OneOf(branches));
    BareDecides(o, OneOf(branches));
    if Accepts(o, OneOf(branches)) {
      var i :| 0 <= i < |branches| && OnlyAccepts(o, branches, i);
    }
  }
}
