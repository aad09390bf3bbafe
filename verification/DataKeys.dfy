/**
 * Data-key resolution in the chart core (web/chart_core.js): the schema of a
 * member, the schema of a dotted path, and what a checked binding delivers.
 */
module DataKeys {
  import opened Options
  import opened JsonSchema
  import opened Compatibility

  /** The schema that pins one value down; objects are pinned member by member. */
  function LiteralSchema(v: Json): Schema
    decreases v
  {
    if v.JObject? then
      EMPTY.(types := {TObject},
             properties := Properties(map n | n in v.members :: LiteralSchema(v.members[n])),
             required := Some(v.members.Keys),
             additional := Forbidden)
    else Constant(v)
  }

  /** What one keyword says about a member: it cannot be there, nothing, or a schema. */
  datatype Constraint = Reject | Silent | Demand(schema: Schema)

  function Demands(parts: seq<Constraint>): seq<Schema> {
    if parts == [] then []
    else (if parts[0].Demand? then [parts[0].schema] else []) + Demands(parts[1..])
  }

  function Present(children: seq<Option<Schema>>): seq<Schema> {
    if children == [] then []
    else (if children[0].Some? then [children[0].value] else []) + Present(children[1..])
  }

  predicate ObjectShaped(s: Schema) {
    s.types != {} || s.properties.Properties? || s.required.Some? || !s.additional.Unset?
  }

  function ShapeConstraint(s: Schema, name: string): Constraint {
    if !ObjectShaped(s) then Silent
    else if TObject !in SchemaTypes(s) then Reject
    else match MemberRule(s, name)
      case Forbidden => Reject
      case Each(child) => Demand(child)
      case _ => Demand(EMPTY)
  }

  function LiteralConstraint(v: Json, name: string): Constraint {
    if v.JObject? && name in v.members then Demand(LiteralSchema(v.members[name])) else Reject
  }

  function LiteralChildren(values: seq<Json>, name: string): seq<Schema> {
    Demands(seq(|values|, i requires 0 <= i < |values| => LiteralConstraint(values[i], name)))
  }

  /** anyOf and oneOf: at least one branch must allow the member. */
  function SomeOf(children: seq<Schema>): Constraint {
    if children == [] then Reject
    else if |children| == 1 then Demand(children[0])
    else Demand(AnyOf(children))
  }

  /** allOf: every branch must allow the member. */
  function EveryOf(children: seq<Option<Schema>>): Constraint {
    if None in children then Reject
    else if |Present(children)| == 1 then Demand(Present(children)[0])
    else Demand(AllOf(Present(children)))
  }

  /** All keywords of a schema together, in the order the code visits them. */
  function Conjoin(parts: seq<Constraint>): Option<Schema> {
    if Reject in parts then None
    else if Demands(parts) == [] then Some(EMPTY)
    else if |Demands(parts)| == 1 then Some(Demands(parts)[0])
    else Some(AllOf(Demands(parts)))
  }

  /** schemaChild: the schema of one member, or None when no valid object has that member. */
  function SchemaChild(s: Schema, name: string): Option<Schema>
    decreases s, 2
  {
    Conjoin(LiteralParts(s, name) + BranchParts(s, name))
  }

  function LiteralParts(s: Schema, name: string): (parts: seq<Constraint>)
    ensures |parts| == 3
  {
    [ShapeConstraint(s, name),
     if s.constant.Some? then LiteralConstraint(s.constant.value, name) else Silent,
     if s.enumeration.Some? then SomeOf(LiteralChildren(s.enumeration.value, name)) else Silent]
  }

  function BranchParts(s: Schema, name: string): (parts: seq<Constraint>)
    ensures |parts| == 3
    decreases s, 1
  {
    [if s.anyOf != [] then SomeOf(Present(BranchChildren(s.anyOf, name))) else Silent,
     if s.oneOf != [] then SomeOf(Present(BranchChildren(s.oneOf, name))) else Silent,
     if s.allOf != [] then EveryOf(BranchChildren(s.allOf, name)) else Silent]
  }

  function BranchChildren(branches: seq<Schema>, name: string): (children: seq<Option<Schema>>)
    ensures |children| == |branches|
    ensures forall i | 0 <= i < |branches| :: children[i] == SchemaChild(branches[i], name)
    decreases branches, 0
  {
    if branches == [] then []
    else [SchemaChild(branches[0], name)] + BranchChildren(branches[1..], name)
  }

  // ----- soundness of one step

  /**
   * `items` next to a lone additionalProperties makes the code read the schema as
   * an array; with a type the question does not arise.
   */
  predicate MistakenForArray(s: Schema) {
    && s.types == {} && s.properties.NoProperties? && s.required.None?
    && !s.additional.Unset? && s.items.Items?
  }

  /**
   * A condition on the schema and on every schema inside it. Resolution needs the
   * weak form; a binding that is also compared needs every structural keyword typed.
   */
  predicate Tidy(s: Schema, typed: bool)
    decreases s
  {
    && (if typed then Structural(s) ==> s.types != {} else !MistakenForArray(s))
    && (s.properties.Properties? ==> forall n | n in s.properties.table :: Tidy(s.properties.table[n], typed))
    && (s.additional.Each? ==> Tidy(s.additional.schema, typed))
    && (s.items.Items? ==> Tidy(s.items.schema, typed))
    && (forall i | 0 <= i < |s.anyOf| :: Tidy(s.anyOf[i], typed))
    && (forall i | 0 <= i < |s.oneOf| :: Tidy(s.oneOf[i], typed))
    && (forall i | 0 <= i < |s.allOf| :: Tidy(s.allOf[i], typed))
  }

  lemma {:induction false} LiteralAcceptsItself(v: Json)
    ensures Accepts(v, LiteralSchema(v))
    decreases v
  {
    if v.JObject? {
      forall n | n in v.members ensures AcceptsMember(n, v.members[n], LiteralSchema(v)) {
        LiteralAcceptsItself(v.members[n]);
      }
      assert AcceptsType(v, TObject);
      assert AcceptsShape(v, LiteralSchema(v));
    } else {
      ConstantAccepts(v);
    }
  }

  lemma {:induction false} DemandsAre(parts: seq<Constraint>, c: Schema)
    ensures c in Demands(parts) <==> Demand(c) in parts
  {
    if parts != [] {
      assert parts == [parts[0]] + parts[1..];
      DemandsAre(parts[1..], c);
    }
  }

  lemma {:induction false} PresentAre(children: seq<Option<Schema>>, c: Schema)
    ensures c in Present(children) <==> Some(c) in children
  {
    if children != [] {
      assert children == [children[0]] + children[1..];
      PresentAre(children[1..], c);
    }
  }

  /** A keyword that lets `child` through. */
  predicate Admits(part: Constraint, child: Json) {
    match part
    case Reject => false
    case Silent => true
    case Demand(c) => Accepts(child, c)
  }

  lemma AllOfAccepts(child: Json, branches: seq<Schema>)
    requires forall c | c in branches :: Accepts(child, c)
    ensures Accepts(child, AllOf(branches))
  {
    assert AcceptsCombined(child, AllOf(branches)) && AcceptsShape(child, AllOf(branches));
  }

  lemma ConjoinAdmits(parts: seq<Constraint>, child: Json)
    requires forall i | 0 <= i < |parts| :: Admits(parts[i], child)
    ensures Conjoin(parts).Some? && Accepts(child, Conjoin(parts).value)
  {
    forall c | c in Demands(parts) ensures Accepts(child, c) {
      DemandsAre(parts, c);
    }
    EmptyAccepts(child);
    AllOfAccepts(child, Demands(parts));
  }

  lemma SomeOfAdmits(children: seq<Schema>, c: Schema, child: Json)
    requires c in children && Accepts(child, c)
    ensures Admits(SomeOf(children), child)
  {
    var i :| 0 <= i < |children| && children[i] == c;
    if |children| > 1 {
      assert AcceptsCombined(child, AnyOf(children)) && AcceptsShape(child, AnyOf(children));
    }
  }

  lemma EveryOfAdmits(children: seq<Option<Schema>>, child: Json)
    requires forall i | 0 <= i < |children| :: children[i].Some? && Accepts(child, children[i].value)
    ensures Admits(EveryOf(children), child)
  {
    forall c | c in Present(children) ensures Accepts(child, c) {
      PresentAre(children, c);
    }
    AllOfAccepts(child, Present(children));
  }

  predicate HasMember(v: Json, name: string) {
    v.JObject? && name in v.members
  }

  /**
   * The validator passes an undeclared member with an inherited name unchecked, while
   * resolution gives it the schema of the additional properties, or none.
   */
  ghost predicate Overlooked(s: Schema, name: string) {
    && Inherited(name) && name !in Declared(s)
    && (s.additional.Forbidden? || (s.additional.Each? && !AcceptsEverything(s.additional.schema)))
  }

  /** Neither the schema nor any branch of it overlooks the name. */
  ghost predicate Clear(s: Schema, name: string)
    decreases s
  {
    && !Overlooked(s, name)
    && (forall i | 0 <= i < |s.anyOf| :: Clear(s.anyOf[i], name))
    && (forall i | 0 <= i < |s.oneOf| :: Clear(s.oneOf[i], name))
    && (forall i | 0 <= i < |s.allOf| :: Clear(s.allOf[i], name))
  }

  /** A name that no object inherits is never overlooked. */
  lemma {:induction false} OrdinaryNamesAreClear(s: Schema, name: string)
    requires !Inherited(name)
    ensures Clear(s, name)
    decreases s
  {
    forall i | 0 <= i < |s.anyOf| ensures Clear(s.anyOf[i], name) { OrdinaryNamesAreClear(s.anyOf[i], name); }
    forall i | 0 <= i < |s.oneOf| ensures Clear(s.oneOf[i], name) { OrdinaryNamesAreClear(s.oneOf[i], name); }
    forall i | 0 <= i < |s.allOf| ensures Clear(s.allOf[i], name) { OrdinaryNamesAreClear(s.allOf[i], name); }
  }

  lemma ShapeAdmits(v: Json, s: Schema, name: string)
    requires HasMember(v, name) && Accepts(v, s) && !MistakenForArray(s) && !Overlooked(s, name)
    ensures Admits(ShapeConstraint(s, name), v.members[name])
  {
    assert AcceptsShape(v, s) && AcceptsMember(name, v.members[name], s);
    EmptyAccepts(v.members[name]);
    if s.types != {} {
      AcceptedKind(v, s);
    }
  }

  lemma EnumAdmits(v: Json, values: seq<Json>, name: string)
    requires HasMember(v, name) && v in values
    ensures Admits(SomeOf(LiteralChildren(values, name)), v.members[name])
  {
    var parts := seq(|values|, i requires 0 <= i < |values| => LiteralConstraint(values[i], name));
    var i :| 0 <= i < |values| && values[i] == v;
    assert parts[i] == Demand(LiteralSchema(v.members[name]));
    DemandsAre(parts, LiteralSchema(v.members[name]));
    LiteralAcceptsItself(v.members[name]);
    SomeOfAdmits(LiteralChildren(values, name), LiteralSchema(v.members[name]), v.members[name]);
  }

  lemma LiteralPartsAdmit(v: Json, s: Schema, name: string)
    requires HasMember(v, name) && Accepts(v, s) && Tidy(s, false) && !Overlooked(s, name)
    ensures forall i | 0 <= i < 3 :: Admits(LiteralParts(s, name)[i], v.members[name])
  {
    assert AcceptsLiteral(v, s);
    ShapeAdmits(v, s, name);
    if s.constant.Some? {
      LiteralAcceptsItself(v.members[name]);
    }
    if s.enumeration.Some? {
      EnumAdmits(v, s.enumeration.value, name);
    }
  }

  /** Member resolution is sound: the child schema exists and accepts the member. */
  lemma {:induction false} ChildIsSound(v: Json, s: Schema, name: string)
    requires HasMember(v, name) && Accepts(v, s) && Tidy(s, false) && Clear(s, name)
    ensures SchemaChild(s, name).Some? && Accepts(v.members[name], SchemaChild(s, name).value)
    decreases s, 1
  {
    hide Accepts, Tidy;
    LiteralPartsAdmit(v, s, name);
    SomeBranchIsSound(v, s, name);
    EveryBranchIsSound(v, s, name);
    var parts := LiteralParts(s, name) + BranchParts(s, name);
    forall i | 0 <= i < |parts| ensures Admits(parts[i], v.members[name]) {
      if i < 3 {
        assert parts[i] == LiteralParts(s, name)[i];
      } else {
        assert parts[i] == BranchParts(s, name)[i - 3];
      }
    }
    ConjoinAdmits(parts, v.members[name]);
  }

  lemma {:induction false} SomeBranchIsSound(v: Json, s: Schema, name: string)
    requires HasMember(v, name) && Accepts(v, s) && Tidy(s, false) && Clear(s, name)
    ensures s.anyOf != [] ==> Admits(SomeOf(Present(BranchChildren(s.anyOf, name))), v.members[name])
    ensures s.oneOf != [] ==> Admits(SomeOf(Present(BranchChildren(s.oneOf, name))), v.members[name])
    decreases s, 0
  {
    assert AcceptsCombined(v, s);
    if s.anyOf != [] {
      var i :| 0 <= i < |s.anyOf| && Accepts(v, s.anyOf[i]);
      BranchIsSound(v, s.anyOf, i, name);
    }
    if s.oneOf != [] {
      var i :| 0 <= i < |s.oneOf| && OnlyAccepts(v, s.oneOf, i);
      BranchIsSound(v, s.oneOf, i, name);
    }
  }

  lemma {:induction false} BranchIsSound(v: Json, branches: seq<Schema>, i: nat, name: string)
    requires i < |branches| && HasMember(v, name) && Accepts(v, branches[i])
    requires Tidy(branches[i], false) && Clear(branches[i], name)
    ensures Admits(SomeOf(Present(BranchChildren(branches, name))), v.members[name])
    decreases branches, 0
  {
    hide Accepts, Tidy, Clear, SchemaChild;
    ChildIsSound(v, branches[i], name);
    BranchAdmits(branches, i, name, v.members[name]);
  }

  lemma BranchAdmits(branches: seq<Schema>, i: nat, name: string, child: Json)
    requires i < |branches| && SchemaChild(branches[i], name).Some?
    requires Accepts(child, SchemaChild(branches[i], name).value)
    ensures Admits(SomeOf(Present(BranchChildren(branches, name))), child)
  {
    var children := BranchChildren(branches, name);
    assert children[i] == SchemaChild(branches[i], name);
    PresentAre(children, children[i].value);
    SomeOfAdmits(Present(children), children[i].value, child);
  }

  lemma {:induction false} EveryBranchIsSound(v: Json, s: Schema, name: string)
    requires HasMember(v, name) && Accepts(v, s) && Tidy(s, false) && Clear(s, name)
    ensures s.allOf != [] ==> Admits(EveryOf(BranchChildren(s.allOf, name)), v.members[name])
    decreases s, 0
  {
    assert AcceptsCombined(v, s);
    var children := BranchChildren(s.allOf, name);
    forall i | 0 <= i < |children| ensures children[i].Some? && Accepts(v.members[name], children[i].value) {
      ChildIsSound(v, s.allOf[i], name);
    }
    EveryOfAdmits(children, v.members[name]);
  }

  // ----- paths

  lemma {:induction false} TypedSuffices(s: Schema)
    requires Tidy(s, true)
    ensures TypedSource(s) && Tidy(s, false)
    decreases s
  {
    if s.properties.Properties? {
      var table := s.properties.table;
      forall n | n in table ensures TypedSource(table[n]) && Tidy(table[n], false) {
        TypedSuffices(table[n]);
      }
    }
    if s.additional.Each? { TypedSuffices(s.additional.schema); }
    if s.items.Items? { TypedSuffices(s.items.schema); }
    forall i | 0 <= i < |s.anyOf| ensures TypedSource(s.anyOf[i]) && Tidy(s.anyOf[i], false) {
      TypedSuffices(s.anyOf[i]);
    }
    forall i | 0 <= i < |s.oneOf| ensures TypedSource(s.oneOf[i]) && Tidy(s.oneOf[i], false) {
      TypedSuffices(s.oneOf[i]);
    }
    forall i | 0 <= i < |s.allOf| ensures TypedSource(s.allOf[i]) && Tidy(s.allOf[i], false) {
      TypedSuffices(s.allOf[i]);
    }
    assert s.allOf != [] ==> TypedSource(s.allOf[0]);
  }

  lemma {:induction false} LiteralIsTidy(v: Json, typed: bool)
    ensures Tidy(LiteralSchema(v), typed)
    decreases v
  {
    if v.JObject? {
      forall n | n in v.members ensures Tidy(LiteralSchema(v.members[n]), typed) {
        LiteralIsTidy(v.members[n], typed);
      }
    }
  }

  predicate TidyPart(part: Constraint, typed: bool) {
    part.Demand? ==> Tidy(part.schema, typed)
  }

  lemma DemandsStayTidy(parts: seq<Constraint>, typed: bool)
    requires forall i | 0 <= i < |parts| :: TidyPart(parts[i], typed)
    ensures forall c | c in Demands(parts) :: Tidy(c, typed)
  {
    forall c | c in Demands(parts) ensures Tidy(c, typed) {
      DemandsAre(parts, c);
    }
  }

  lemma PresentStayTidy(children: seq<Option<Schema>>, typed: bool)
    requires forall i | 0 <= i < |children| :: children[i].Some? ==> Tidy(children[i].value, typed)
    ensures forall c | c in Present(children) :: Tidy(c, typed)
  {
    forall c | c in Present(children) ensures Tidy(c, typed) {
      PresentAre(children, c);
    }
  }

  lemma CombinedStayTidy(children: seq<Schema>, typed: bool)
    requires forall c | c in children :: Tidy(c, typed)
    ensures TidyPart(SomeOf(children), typed) && Tidy(AllOf(children), typed)
  {
    assert Tidy(AnyOf(children), typed);
  }

  lemma LiteralPartsStayTidy(s: Schema, name: string, typed: bool)
    requires Tidy(s, typed)
    ensures forall i | 0 <= i < 3 :: TidyPart(LiteralParts(s, name)[i], typed)
  {
    forall v: Json ensures TidyPart(LiteralConstraint(v, name), typed) {
      if v.JObject? && name in v.members {
        LiteralIsTidy(v.members[name], typed);
      }
    }
    if s.enumeration.Some? {
      var values := s.enumeration.value;
      DemandsStayTidy(seq(|values|, i requires 0 <= i < |values| => LiteralConstraint(values[i], name)), typed);
      CombinedStayTidy(LiteralChildren(values, name), typed);
    }
  }

  lemma {:induction false} BranchesStayTidy(branches: seq<Schema>, name: string, typed: bool)
    requires forall i | 0 <= i < |branches| :: Tidy(branches[i], typed)
    ensures TidyPart(SomeOf(Present(BranchChildren(branches, name))), typed)
    ensures TidyPart(EveryOf(BranchChildren(branches, name)), typed)
    decreases branches, 0
  {
    var children := BranchChildren(branches, name);
    forall i | 0 <= i < |children| ensures children[i].Some? ==> Tidy(children[i].value, typed) {
      ChildStaysTidy(branches[i], name, typed);
    }
    PresentStayTidy(children, typed);
    CombinedStayTidy(Present(children), typed);
  }

  lemma {:induction false} BranchPartsStayTidy(s: Schema, name: string, typed: bool)
    requires Tidy(s, typed)
    ensures forall i | 0 <= i < 3 :: TidyPart(BranchParts(s, name)[i], typed)
    decreases s, 0
  {
    hide SchemaChild, BranchChildren, SomeOf, EveryOf, Present;
    BranchesStayTidy(s.anyOf, name, typed);
    BranchesStayTidy(s.oneOf, name, typed);
    BranchesStayTidy(s.allOf, name, typed);
  }

  /** Resolution never loses the explicit types. */
  lemma {:induction false} ChildStaysTidy(s: Schema, name: string, typed: bool)
    requires Tidy(s, typed)
    ensures SchemaChild(s, name).Some? ==> Tidy(SchemaChild(s, name).value, typed)
    decreases s, 1
  {
    LiteralPartsStayTidy(s, name, typed);
    BranchPartsStayTidy(s, name, typed);
    var parts := LiteralParts(s, name) + BranchParts(s, name);
    forall i | 0 <= i < |parts| ensures TidyPart(parts[i], typed) {
      if i < 3 {
        assert parts[i] == LiteralParts(s, name)[i];
      } else {
        assert parts[i] == BranchParts(s, name)[i - 3];
      }
    }
    ConjoinStaysTidy(parts, typed);
  }

  lemma ConjoinStaysTidy(parts: seq<Constraint>, typed: bool)
    requires forall i | 0 <= i < |parts| :: TidyPart(parts[i], typed)
    ensures Conjoin(parts).Some? ==> Tidy(Conjoin(parts).value, typed)
  {
    DemandsStayTidy(parts, typed);
    CombinedStayTidy(Demands(parts), typed);
  }

  type Path = seq<string>

  /** The value at a path of object members, if every step is there. */
  function ValueAt(v: Json, path: Path): Option<Json> {
    if path == [] then Some(v)
    else if HasMember(v, path[0]) then ValueAt(v.members[path[0]], path[1..])
    else None
  }

  /** schemaChild applied to each segment in turn. */
  function ChildAlong(s: Schema, path: Path): Option<Schema>
    decreases |path|
  {
    if path == [] then Some(s)
    else match SchemaChild(s, path[0])
      case None => None
      case Some(child) => ChildAlong(child, path[1..])
  }

  /** The fold of schemaChild over the segments of a path. */
  method FollowPath(s: Schema, path: Path) returns (found: Option<Schema>)
    ensures found == ChildAlong(s, path)
  {
    var schema := s;
    for i := 0 to |path|
      invariant ChildAlong(schema, path[i..]) == ChildAlong(s, path)
    {
      assert path[i..][1..] == path[i + 1..];
      var child := SchemaChild(schema, path[i]);
      if child.None? {
        return None;
      }
      schema := child.value;
    }
    found := Some(schema);
  }

  /** No step of the path is overlooked by the schema it is taken in. */
  ghost predicate PathClear(s: Schema, path: Path)
    decreases |path|
  {
    path == [] ||
    (Clear(s, path[0]) && (SchemaChild(s, path[0]).Some? ==> PathClear(SchemaChild(s, path[0]).value, path[1..])))
  }

  lemma {:induction false} OrdinaryPathsAreClear(s: Schema, path: Path)
    requires forall i | 0 <= i < |path| :: !Inherited(path[i])
    ensures PathClear(s, path)
    decreases |path|
  {
    if path != [] {
      OrdinaryNamesAreClear(s, path[0]);
      if SchemaChild(s, path[0]).Some? {
        OrdinaryPathsAreClear(SchemaChild(s, path[0]).value, path[1..]);
      }
    }
  }

  /** Path resolution is sound, and keeps whichever condition the root meets. */
  lemma {:induction false} PathIsSound(v: Json, s: Schema, path: Path, typed: bool)
    requires Accepts(v, s) && Tidy(s, typed) && PathClear(s, path) && ValueAt(v, path).Some?
    ensures ChildAlong(s, path).Some?
    ensures Tidy(ChildAlong(s, path).value, typed) && Accepts(ValueAt(v, path).value, ChildAlong(s, path).value)
    decreases |path|
  {
    if path != [] {
      if typed {
        TypedSuffices(s);
      }
      ChildIsSound(v, s, path[0]);
      ChildStaysTidy(s, path[0], typed);
      PathIsSound(v.members[path[0]], SchemaChild(s, path[0]).value, path[1..], typed);
    }
  }

  /** dataKeyDeclarations: a declared key, or a property of the declaration one step up. */
  function Lookup(declared: map<Path, Schema>, path: Path): Option<Schema> {
    if path in declared then Some(declared[path])
    else if path == [] then None
    else
      match Lookup(declared, path[..|path| - 1])
      case None => None
      case Some(parent) =>
        if path[|path| - 1] in Declared(parent) then Some(Declared(parent)[path[|path| - 1]]) else None
  }

  /** resolveDataKeyDeclaration: an expanded declaration, or the root followed step by step. */
  function Resolve(declared: map<Path, Schema>, path: Path): Option<Schema> {
    if path == [] then None
    else if Lookup(declared, path).Some? then Lookup(declared, path)
    else match Lookup(declared, path[..1])
      case None => None
      case Some(root) => ChildAlong(root, path[1..])
  }

  /** The run's data honours every declared key, and the declarations are tidy. */
  ghost predicate Honoured(declared: map<Path, Schema>, data: Json, typed: bool) {
    forall p | p in declared ::
      Tidy(declared[p], typed) && (ValueAt(data, p).Some? ==> Accepts(ValueAt(data, p).value, declared[p]))
  }

  lemma {:induction false} ValueAtSplits(v: Json, path: Path, more: Path)
    ensures ValueAt(v, path + more) ==
            (if ValueAt(v, path).Some? then ValueAt(ValueAt(v, path).value, more) else None)
  {
    if path == [] {
      assert path + more == more;
    } else {
      assert (path + more)[1..] == path[1..] + more;
      if HasMember(v, path[0]) {
        ValueAtSplits(v.members[path[0]], path[1..], more);
      }
    }
  }

  lemma {:induction false} LookupIsSound(declared: map<Path, Schema>, data: Json, path: Path, typed: bool)
    requires Honoured(declared, data, typed) && Lookup(declared, path).Some?
    ensures Tidy(Lookup(declared, path).value, typed)
    ensures ValueAt(data, path).Some? ==> Accepts(ValueAt(data, path).value, Lookup(declared, path).value)
  {
    if path !in declared {
      var up, name := path[..|path| - 1], path[|path| - 1];
      LookupIsSound(declared, data, up, typed);
      assert path == up + [name];
      ValueAtSplits(data, up, [name]);
      if ValueAt(data, path).Some? {
        var parent := ValueAt(data, up).value;
        assert ValueAt(parent, [name]).value == parent.members[name];
        assert AcceptsShape(parent, Lookup(declared, up).value);
        assert AcceptsMember(name, parent.members[name], Lookup(declared, up).value);
      }
    }
  }

  /** The path is declared, or no step of it below its declared root is overlooked. */
  ghost predicate ResolvesClear(declared: map<Path, Schema>, path: Path) {
    path != [] && Lookup(declared, path).None? && Lookup(declared, path[..1]).Some? ==>
      PathClear(Lookup(declared, path[..1]).value, path[1..])
  }

  /** A path with a declared root resolves, and the value found there fits the resolved schema. */
  lemma ResolutionIsSound(declared: map<Path, Schema>, data: Json, path: Path, typed: bool)
    requires Honoured(declared, data, typed) && path != [] && Lookup(declared, path[..1]).Some?
    requires ValueAt(data, path).Some? && ResolvesClear(declared, path)
    ensures Resolve(declared, path).Some? && Tidy(Resolve(declared, path).value, typed)
    ensures Accepts(ValueAt(data, path).value, Resolve(declared, path).value)
  {
    if Lookup(declared, path).Some? {
      LookupIsSound(declared, data, path, typed);
    } else {
      LookupIsSound(declared, data, path[..1], typed);
      assert path == path[..1] + path[1..];
      ValueAtSplits(data, path[..1], path[1..]);
      PathIsSound(ValueAt(data, path[..1]).value, Lookup(declared, path[..1]).value, path[1..], typed);
    }
  }

  /** validateDataKeyBindings: an accepted binding never delivers a value its port rejects. */
  lemma BindingIsSound(declared: map<Path, Schema>, data: Json, path: Path, port: Schema)
    requires Honoured(declared, data, true) && TargetSafe(port)
    requires Resolve(declared, path).Some? && Compatible(Resolve(declared, path).value, port)
    requires ValueAt(data, path).Some? && ResolvesClear(declared, path)
    ensures Accepts(ValueAt(data, path).value, port)
  {
    if Lookup(declared, path[..1]).None? {
      LookupIsSound(declared, data, path, true);
    } else {
      ResolutionIsSound(declared, data, path, true);
    }
    TypedSuffices(Resolve(declared, path).value);
    CompatibleIsSound(ValueAt(data, path).value, Resolve(declared, path).value, port);
  }

  // ----- where resolution fails

  /** What one step of resolution promises. */
  ghost predicate SoundStep(s: Schema, name: string) {
    forall v: Json | HasMember(v, name) && Accepts(v, s) ::
      SchemaChild(s, name).Some? && Accepts(v.members[name], SchemaChild(s, name).value)
  }

  /** Only the shape decides the child of a plain shape. */
  lemma PlainChild(s: Schema, name: string)
    requires PlainShape(s)
    ensures SchemaChild(s, name) == match ShapeConstraint(s, name)
                                    case Reject => None
                                    case Silent => Some(EMPTY)
                                    case Demand(c) => Some(c)
  {
    var shape := ShapeConstraint(s, name);
    var parts := LiteralParts(s, name) + BranchParts(s, name);
    assert parts == [shape, Silent, Silent, Silent, Silent, Silent];
    SilentTail(shape);
    if shape.Reject? {
      assert parts[0] == Reject;
    } else {
      forall i | 0 <= i < |parts| ensures parts[i] != Reject {}
    }
  }

  lemma SilentTail(shape: Constraint)
    ensures Demands([shape, Silent, Silent, Silent, Silent, Silent]) == if shape.Demand? then [shape.schema] else []
  {
    assert [shape, Silent, Silent, Silent, Silent, Silent][1..] == [Silent, Silent, Silent, Silent, Silent];
    NothingDemanded([Silent, Silent, Silent, Silent, Silent]);
  }

  lemma {:induction false} NothingDemanded(parts: seq<Constraint>)
    requires forall i | 0 <= i < |parts| :: parts[i] == Silent
    ensures Demands(parts) == []
  {
    if parts != [] {
      NothingDemanded(parts[1..]);
    }
  }

  /** The step gives the member a schema, and the schema accepts it. */
  predicate Resolves(s: Schema, name: string, x: Json) {
    SchemaChild(s, name).Some? && Accepts(x, SchemaChild(s, name).value)
  }

  /** The validator passed the member unchecked, while resolution asks something of it that it fails. */
  predicate Misruled(s: Schema, name: string, x: Json) {
    && Inherited(name) && name !in Declared(s)
    && (s.additional.Forbidden? || (s.additional.Each? && !Accepts(x, s.additional.schema)))
  }

  /**
   * The condition at one step for one object: neither fault in the schema itself nor in
   * an allOf branch, and some anyOf and some oneOf branch that is free of them too, or
   * that rejects the object and yet finds a schema for the member.
   */
  predicate Answers(s: Schema, v: Json, name: string)
    requires HasMember(v, name)
    decreases s, 1
  {
    && !MistakenForArray(s) && !Misruled(s, name, v.members[name])
    && (s.anyOf != [] ==> exists i | 0 <= i < |s.anyOf| :: BranchAnswers(s.anyOf[i], v, name))
    && (s.oneOf != [] ==> exists i | 0 <= i < |s.oneOf| :: BranchAnswers(s.oneOf[i], v, name))
    && (forall i | 0 <= i < |s.allOf| :: BranchAnswers(s.allOf[i], v, name))
  }

  predicate BranchAnswers(b: Schema, v: Json, name: string)
    requires HasMember(v, name)
    decreases b, 2
  {
    if Accepts(v, b) then Answers(b, v, name) else Resolves(b, name, v.members[name])
  }

  /** For every schema and every valid object with the member: the step is right exactly when the condition holds. */
  lemma {:induction false} StepExact(v: Json, s: Schema, name: string)
    requires HasMember(v, name) && Accepts(v, s)
    ensures Resolves(s, name, v.members[name]) <==> Answers(s, v, name)
    decreases s, 1
  {
    hide Accepts, SchemaChild, MistakenForArray, Misruled;
    StepParts(v, s, name);
    forall i | 0 <= i < |s.anyOf| ensures Resolves(s.anyOf[i], name, v.members[name]) <==> BranchAnswers(s.anyOf[i], v, name) {
      BranchExact(v, s.anyOf[i], name);
    }
    forall i | 0 <= i < |s.oneOf| ensures Resolves(s.oneOf[i], name, v.members[name]) <==> BranchAnswers(s.oneOf[i], v, name) {
      BranchExact(v, s.oneOf[i], name);
    }
    forall i | 0 <= i < |s.allOf| ensures Resolves(s.allOf[i], name, v.members[name]) <==> BranchAnswers(s.allOf[i], v, name) {
      BranchExact(v, s.allOf[i], name);
    }
  }

  lemma {:induction false} BranchExact(v: Json, b: Schema, name: string)
    requires HasMember(v, name)
    ensures Resolves(b, name, v.members[name]) <==> BranchAnswers(b, v, name)
    decreases b, 2
  {
    if Accepts(v, b) {
      StepExact(v, b, name);
    }
  }

  /** A step is right exactly when every keyword lets the member through. */
  lemma StepParts(v: Json, s: Schema, name: string)
    requires HasMember(v, name) && Accepts(v, s)
    ensures var x := v.members[name];
            Resolves(s, name, x) <==>
              && !MistakenForArray(s) && !Misruled(s, name, x)
              && (s.anyOf != [] ==> exists i | 0 <= i < |s.anyOf| :: Resolves(s.anyOf[i], name, x))
              && (s.oneOf != [] ==> exists i | 0 <= i < |s.oneOf| :: Resolves(s.oneOf[i], name, x))
              && (forall i | 0 <= i < |s.allOf| :: Resolves(s.allOf[i], name, x))
  {
    hide Accepts, MistakenForArray, Misruled, Resolves, SomeOf, EveryOf, Present, BranchChildren, ShapeConstraint;
    var x := v.members[name];
    ResolvesByParts(s, name, x);
    ShapeExact(v, s, name);
    LiteralsAdmit(v, s, name);
    SomeBranchExact(s.anyOf, name, x);
    SomeBranchExact(s.oneOf, name, x);
    EveryBranchExact(s.allOf, name, x);
  }

  lemma ResolvesByParts(s: Schema, name: string, x: Json)
    ensures var l, b := LiteralParts(s, name), BranchParts(s, name);
            Resolves(s, name, x) <==>
              && Admits(l[0], x) && Admits(l[1], x) && Admits(l[2], x)
              && Admits(b[0], x) && Admits(b[1], x) && Admits(b[2], x)
  {
    hide Accepts, LiteralParts, BranchParts, Admits;
    var l, b := LiteralParts(s, name), BranchParts(s, name);
    var parts := l + b;
    assert parts[0] == l[0] && parts[1] == l[1] && parts[2] == l[2];
    assert parts[3] == b[0] && parts[4] == b[1] && parts[5] == b[2];
    ConjoinExact(parts, x);
  }

  lemma ShapeExact(v: Json, s: Schema, name: string)
    requires HasMember(v, name) && Accepts(v, s)
    ensures Admits(ShapeConstraint(s, name), v.members[name]) <==> !MistakenForArray(s) && !Misruled(s, name, v.members[name])
  {
    assert AcceptsShape(v, s) && AcceptsMember(name, v.members[name], s);
    EmptyAccepts(v.members[name]);
    if s.types != {} {
      AcceptedKind(v, s);
    }
  }

  lemma LiteralsAdmit(v: Json, s: Schema, name: string)
    requires HasMember(v, name) && Accepts(v, s)
    ensures Admits(LiteralParts(s, name)[1], v.members[name]) && Admits(LiteralParts(s, name)[2], v.members[name])
  {
    assert AcceptsLiteral(v, s);
    if s.constant.Some? {
      LiteralAcceptsItself(v.members[name]);
    }
    if s.enumeration.Some? {
      EnumAdmits(v, s.enumeration.value, name);
    }
  }

  lemma ConjoinExact(parts: seq<Constraint>, x: Json)
    ensures (Conjoin(parts).Some? && Accepts(x, Conjoin(parts).value)) <==> forall i | 0 <= i < |parts| :: Admits(parts[i], x)
  {
    hide Accepts;
    if forall i | 0 <= i < |parts| :: Admits(parts[i], x) {
      ConjoinAdmits(parts, x);
    } else if Conjoin(parts).Some? && Accepts(x, Conjoin(parts).value) {
      var i :| 0 <= i < |parts| && !Admits(parts[i], x);
      DemandsAre(parts, parts[i].schema);
      AllOfExact(x, Demands(parts));
    }
  }

  lemma AllOfExact(x: Json, branches: seq<Schema>)
    ensures Accepts(x, AllOf(branches)) <==> forall c | c in branches :: Accepts(x, c)
  {
    if Accepts(x, AllOf(branches)) {
      assert AcceptsCombined(x, AllOf(branches));
    }
    if forall c | c in branches :: Accepts(x, c) {
      AllOfAccepts(x, branches);
    }
  }

  lemma SomeOfExact(children: seq<Schema>, x: Json)
    ensures Admits(SomeOf(children), x) <==> exists c | c in children :: Accepts(x, c)
  {
    if c :| c in children && Accepts(x, c) {
      SomeOfAdmits(children, c, x);
    }
    if Admits(SomeOf(children), x) && |children| > 1 {
      assert AcceptsCombined(x, AnyOf(children));
      var i :| 0 <= i < |children| && Accepts(x, children[i]);
      assert children[i] in children;
    }
  }

  lemma SomeBranchExact(branches: seq<Schema>, name: string, x: Json)
    ensures Admits(SomeOf(Present(BranchChildren(branches, name))), x)
            <==> exists i | 0 <= i < |branches| :: Resolves(branches[i], name, x)
  {
    hide Accepts, SchemaChild, SomeOf, Present;
    var children := BranchChildren(branches, name);
    SomeOfExact(Present(children), x);
    if i :| 0 <= i < |branches| && Resolves(branches[i], name, x) {
      PresentAre(children, children[i].value);
    }
    if c :| c in Present(children) && Accepts(x, c) {
      PresentAre(children, c);
      var i :| 0 <= i < |children| && children[i] == Some(c);
      assert Resolves(branches[i], name, x);
    }
  }

  lemma EveryBranchExact(branches: seq<Schema>, name: string, x: Json)
    ensures Admits(EveryOf(BranchChildren(branches, name)), x)
            <==> forall i | 0 <= i < |branches| :: Resolves(branches[i], name, x)
  {
    hide Accepts, SchemaChild;
    var children := BranchChildren(branches, name);
    if forall i | 0 <= i < |branches| :: Resolves(branches[i], name, x) {
      EveryOfAdmits(children, x);
    } else if Admits(EveryOf(children), x) {
      var i :| 0 <= i < |branches| && !Resolves(branches[i], name, x);
      assert children[i] in children && children[i].Some?;
      PresentAre(children, children[i].value);
      AllOfExact(x, Present(children));
    }
  }

  /**
   * For a plain shape and a name that some valid object has, one step is sound exactly
   * when the name is not overlooked and the schema is not mistaken for an array.
   */
  lemma PlainStepExact(s: Schema, name: string, o: Json)
    requires PlainShape(s) && HasMember(o, name) && Accepts(o, s)
    ensures SoundStep(s, name) <==> !Overlooked(s, name) && !MistakenForArray(s)
  {
    PlainChild(s, name);
    if MistakenForArray(s) {
      assert HasMember(o, name) && SchemaChild(s, name).None?;
    } else if Overlooked(s, name) {
      var x: Json := JNull;
      if s.additional.Each? {
        x :| !Accepts(x, s.additional.schema);
      }
      UncheckedMember(o, s, name, x);
      assert HasMember(JObject(o.order, o.members[name := x]), name);
    } else {
      forall v: Json | HasMember(v, name) && Accepts(v, s)
        ensures SchemaChild(s, name).Some? && Accepts(v.members[name], SchemaChild(s, name).value)
      {
        ShapeAdmits(v, s, name);
        EmptyAccepts(v.members[name]);
      }
    }
  }

  const CLOSED := Typed(TObject).(additional := Forbidden)

  /** A closed object schema accepts a member toString and gives it no schema. */
  lemma InheritedMemberNeverResolves(x: Json)
    ensures var v := JObject(["toString"], map["toString" := x]);
            HasMember(v, "toString") && Accepts(v, CLOSED) && SchemaChild(CLOSED, "toString").None?
  {
    var bare := JObject(["toString"], map[]);
    assert AcceptsType(bare, TObject) && AcceptsShape(bare, CLOSED) && Accepts(bare, CLOSED);
    UncheckedMember(bare, CLOSED, "toString", x);
    PlainChild(CLOSED, "toString");
  }

  /** Two levels of data, read along their path. */
  lemma TwoSteps(outer: string, inner: string, x: Json)
    ensures var below := JObject([inner], map[inner := x]);
            var data := JObject([outer], map[outer := below]);
            ValueAt(data, [outer]) == Some(below) && ValueAt(data, [outer, inner]) == Some(x)
  {
    var below := JObject([inner], map[inner := x]);
    var data := JObject([outer], map[outer := below]);
    assert [outer, inner][1..] == [inner] && [outer][1..] == [] && [inner][1..] == [];
    assert ValueAt(below, [inner]) == ValueAt(x, []);
  }

  /** A member resolved through the additional properties of a declared root. */
  lemma ResolvesToExtra(outer: string, inner: string, extra: Schema)
    ensures var declared := map[[outer] := Typed(TObject).(additional := Each(extra))];
            Resolve(declared, [outer, inner]) == Some(extra)
  {
    var root := Typed(TObject).(additional := Each(extra));
    var declared, path := map[[outer] := root], [outer, inner];
    assert path[1..] == [inner] && path[..1] == [outer] && [inner][1..] == [];
    PlainChild(root, inner);
    assert ChildAlong(root, [inner]) == ChildAlong(extra, []);
    assert Lookup(declared, path).None? && Lookup(declared, [outer]) == Some(root);
  }

  /** An accepted binding that delivers a value its port rejects, whatever the port and the value. */
  lemma InheritedBindingIsUnsound(outer: string, inner: string, port: Schema, x: Json)
    requires Inherited(inner) && !Accepts(x, port)
    requires Tidy(port, true) && TargetSafe(port) && Compatible(port, port)
    ensures var declared := map[[outer] := Typed(TObject).(additional := Each(port))];
            var data := JObject([outer], map[outer := JObject([inner], map[inner := x])]);
            && Honoured(declared, data, true)
            && Resolve(declared, [outer, inner]).Some? && Compatible(Resolve(declared, [outer, inner]).value, port)
            && ValueAt(data, [outer, inner]) == Some(x)
  {
    hide Compatible;
    var root, below := Typed(TObject).(additional := Each(port)), JObject([inner], map[inner := x]);
    assert AcceptsMember(inner, x, root);
    assert AcceptsType(below, TObject) && TObject in root.types;
    assert AcceptsShape(below, root) && AcceptsCombined(below, root);
    TwoSteps(outer, inner, x);
    ResolvesToExtra(outer, inner, port);
  }

  /** Where member resolution fails: such a schema gives no member a schema ... */
  lemma MistakenForArrayNeverResolves(s: Schema, name: string)
    requires MistakenForArray(s)
    ensures SchemaChild(s, name).None?
  {
    assert (LiteralParts(s, name) + BranchParts(s, name))[0] == Reject;
  }

  /** ... although it accepts objects that have members. */
  lemma MistakenForArrayAcceptsObjects()
    ensures exists s, v, name :: MistakenForArray(s) && HasMember(v, name) && Accepts(v, s)
  {
    var s := EMPTY.(additional := Anything, items := Items(EMPTY));
    var v := JObject(["x"], map["x" := JNull]);
    assert AcceptsCombined(v, s) && AcceptsShape(v, s);
    assert MistakenForArray(s) && HasMember(v, "x") && Accepts(v, s);
  }
}
