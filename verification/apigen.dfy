/** Schema generation from Go types (pkg/openapigen/generator.go): a recursive walk over a possibly
    cyclic type graph that defines named structs lazily, with an in-progress map to break cycles,
    against a pure description of the schema of a type. */
module ApiGen {
  import opened Options
  import opened Strings
  import Graphs
  import MarkedWalks

  /** `ref` holds the component name of a `#/components/schemas/<name>` reference. The validation
      keywords that applyValidators sets hold no references and are left out. */
  datatype Schema = Schema(
    ref: Option<string>, typ: string, format: string, description: string, nullable: bool,
    required: seq<string>, properties: map<string, Schema>,
    items: Option<Schema>, additional: Option<Schema>, allOf: seq<Schema>)

  const FREE_FORM := Schema(None, "", "", "", false, [], map[], None, None, [])

  function Ref(name: string): Schema { FREE_FORM.(ref := Some(name)) }

  /** WalkSchema: every reference in every branch. */
  function Refs(s: Schema): set<string> {
    (if s.ref.Some? then {s.ref.value} else {}) +
    (if s.items.Some? then Refs(s.items.value) else {}) +
    (if s.additional.Some? then Refs(s.additional.value) else {}) +
    (set i, r | 0 <= i < |s.allOf| && r in Refs(s.allOf[i]) :: r) +
    (set k, r | k in s.properties && r in Refs(s.properties[k]) :: r)
  }

  function RefsOfAll(props: map<string, Schema>): set<string> {
    set k, r | k in props && r in Refs(props[k]) :: r
  }

  /** Every required list, at every depth, names existing properties. */
  predicate Sound(s: Schema) {
    && (forall n | n in s.required :: n in s.properties)
    && (s.items.Some? ==> Sound(s.items.value))
    && (s.additional.Some? ==> Sound(s.additional.value))
    && (forall i | 0 <= i < |s.allOf| :: Sound(s.allOf[i]))
    && (forall k | k in s.properties :: Sound(s.properties[k]))
  }

  // ---- Types --------------------------------------------------------------------------------------

  datatype Mode = ResponseMode | InputMode

  /** `binding` holds the comma-separated, trimmed rules of the binding tag. */
  datatype Field = Field(
    name: string, exported: bool, anonymous: bool, typ: string, json: string, binding: seq<string>, desc: string)

  datatype Kind =
    | Plain(typ: string, format: string, byte: bool) // string, bool, integer and float kinds; byte is uint8
    | Slice(elem: string)                            // slices and arrays
    | Map(elem: string)
    | Pointer(elem: string)
    | Struct(fields: seq<Field>)
    | Interface                                      // and every other kind

  /** `component` is what componentName yields for a named type. */
  datatype Type = Type(name: string, component: string, kind: Kind)

  datatype Universe = Universe(types: map<string, Type>, wellKnown: map<string, Schema>)

  function JsonName(f: Field): string { SplitCommas(f.json)[0] }

  function JsonOptions(f: Field): seq<string> { SplitCommas(f.json)[1..] }

  predicate ClosedTypes(u: Universe) {
    forall t | t in u.types ::
      match u.types[t].kind
      case Slice(e) => e in u.types
      case Map(e) => e in u.types
      case Pointer(e) => e in u.types
      case Struct(fields) => forall i | 0 <= i < |fields| :: fields[i].typ in u.types
      case _ => true
  }

  predicate NamedStruct(u: Universe, t: string)
    requires t in u.types
  {
    u.types[t].kind.Struct? && u.types[t].name != ""
  }

  /** The walk does not descend into this type from a use of it: its schema is given, or it becomes
      a reference to a component. */
  predicate Stops(u: Universe, t: string)
    requires t in u.types
  {
    !u.types[t].kind.Pointer? && (t in u.wellKnown || NamedStruct(u, t))
  }

  /** An embedded struct whose properties merge into the parent. */
  predicate Flattened(u: Universe, f: Field)
    requires f.typ in u.types
  {
    f.anonymous && u.types[f.typ].kind.Struct? && JsonName(f) == ""
  }

  /** The types the walk descends into without the protection of the in-progress map. */
  function Next(u: Universe, t: string): set<string>
    requires ClosedTypes(u) && t in u.types
  {
    match u.types[t].kind
    case Slice(e) => if Stops(u, e) then {} else {e}
    case Map(e) => if Stops(u, e) then {} else {e}
    case Pointer(e) => if Stops(u, e) then {} else {e}
    case Struct(fields) =>
      set i | 0 <= i < |fields| && fields[i].exported &&
              (Flattened(u, fields[i]) || (fields[i].json != "-" && !Stops(u, fields[i].typ))) :: fields[i].typ
    case _ => {}
  }

  function TypeGraph(u: Universe): Graphs.Edges
    requires ClosedTypes(u)
  {
    map t | t in u.types :: Next(u, t)
  }

  /** Every type cycle passes through a use of a named struct. */
  ghost predicate Guarded(u: Universe)
    requires ClosedTypes(u)
  {
    Graphs.Acyclic(TypeGraph(u))
  }

  ghost predicate Valid(u: Universe) { ClosedTypes(u) && Guarded(u) }

  predicate SoundWellKnown(u: Universe) { forall t | t in u.wellKnown :: Sound(u.wellKnown[t]) }

  lemma NextIsAType(u: Universe, t: string, e: string)
    requires ClosedTypes(u) && t in u.types && e in Next(u, t)
    ensures e in u.types
  {
  }

  /** A number that drops along every unprotected step. */
  ghost function Rank(u: Universe, t: string): nat
    requires Valid(u) && t in u.types
  {
    Graphs.RankingExists(TypeGraph(u));
    var ranks :| Graphs.IsRanking(TypeGraph(u), ranks);
    ranks[t]
  }

  lemma RankDrops(u: Universe, t: string, e: string)
    requires Valid(u) && t in u.types && e in Next(u, t)
    ensures e in u.types && Rank(u, e) < Rank(u, t)
  {
    NextIsAType(u, t, e);
    assert e in TypeGraph(u)[t];
  }

  // ---- The schema of a type -------------------------------------------------------------------------

  /** isFieldRequired. */
  predicate Required(mode: Mode, f: Field, pointer: bool) {
    "omitempty" !in JsonOptions(f) && !pointer && (mode == ResponseMode || "required" in f.binding)
  }

  /** A sibling of `$ref` would be ignored, so a described or nullable reference is wrapped. */
  function Decorated(s: Schema, desc: string, pointer: bool): Schema {
    if s.ref.Some? && (pointer || desc != "") then
      FREE_FORM.(description := desc, nullable := pointer, allOf := [Ref(s.ref.value)])
    else
      s.(description := if desc != "" then desc else s.description, nullable := s.nullable || pointer)
  }

  /** The component name uses of a named struct refer to: a registered root may be pinned to a
      name of its own. */
  function NameOf(u: Universe, pinned: map<string, string>, t: string): string
    requires t in u.types
  {
    if t in pinned then pinned[t] else u.types[t].component
  }

  function Leaf(u: Universe, pinned: map<string, string>, t: string): Schema
    requires t in u.types && Stops(u, t)
  {
    if t in u.wellKnown then u.wellKnown[t] else Ref(NameOf(u, pinned, t))
  }

  ghost function SchemaOf(u: Universe, pinned: map<string, string>, t: string): Schema
    requires Valid(u) && t in u.types
    decreases Rank(u, t), 1, 0
  {
    if Stops(u, t) then Leaf(u, pinned, t) else
    match u.types[t].kind
    case Plain(typ, format, _) => FREE_FORM.(typ := typ, format := format)
    case Slice(e) =>
      if u.types[e].kind.Plain? && u.types[e].kind.byte then FREE_FORM.(typ := "string", format := "byte")
      else FREE_FORM.(typ := "array", items := Some(UseOf(u, pinned, t, e)))
    case Map(e) => FREE_FORM.(typ := "object", additional := Some(UseOf(u, pinned, t, e)))
    case Pointer(e) => UseOf(u, pinned, t, e)
    case Struct(_) => StructOf(u, pinned, t, ResponseMode)
    case Interface => FREE_FORM
  }

  /** The schema of e where t uses it. */
  ghost function UseOf(u: Universe, pinned: map<string, string>, t: string, e: string): Schema
    requires Valid(u) && t in u.types && e in u.types && (Stops(u, e) || e in Next(u, t))
    decreases Rank(u, t), 0, 0
  {
    if Stops(u, e) then Leaf(u, pinned, e)
    else
      RankDrops(u, t, e);
      SchemaOf(u, pinned, e)
  }

  ghost function StructOf(u: Universe, pinned: map<string, string>, t: string, mode: Mode): Schema
    requires Valid(u) && t in u.types && u.types[t].kind.Struct?
    decreases Rank(u, t), 0, |u.types[t].kind.fields| + 2
  {
    var (properties, required) := FieldsOf(u, pinned, t, |u.types[t].kind.fields|, mode);
    FREE_FORM.(typ := "object", properties := properties, required := Sort(required))
  }

  /** The properties and required names the first n fields contribute. */
  ghost function FieldsOf(u: Universe, pinned: map<string, string>, t: string, n: nat, mode: Mode)
    : (map<string, Schema>, seq<string>)
    requires Valid(u) && t in u.types && u.types[t].kind.Struct? && n <= |u.types[t].kind.fields|
    decreases Rank(u, t), 0, n + 1
  {
    if n == 0 then (map[], []) else
      var before := FieldsOf(u, pinned, t, n - 1, mode);
      var f := FieldOf(u, pinned, t, n - 1, mode);
      (before.0 + f.0, before.1 + f.1)
  }

  /** What field number i contributes: nothing, the merged members of an embedded struct, or one
      property. */
  ghost function FieldOf(u: Universe, pinned: map<string, string>, t: string, i: nat, mode: Mode)
    : (map<string, Schema>, seq<string>)
    requires Valid(u) && t in u.types && u.types[t].kind.Struct? && i < |u.types[t].kind.fields|
    decreases Rank(u, t), 0, i + 1
  {
    var f := u.types[t].kind.fields[i];
    if !f.exported then (map[], [])
    else if Flattened(u, f) then
      assert f.typ in Next(u, t);
      RankDrops(u, t, f.typ);
      var sub := StructOf(u, pinned, f.typ, mode);
      (sub.properties, sub.required)
    else if f.json == "-" then (map[], [])
    else
      var pointer := u.types[f.typ].kind.Pointer?;
      assert Stops(u, f.typ) || f.typ in Next(u, t);
      var s := Decorated(UseOf(u, pinned, t, f.typ), f.desc, pointer);
      var name := if JsonName(f) == "" then f.name else JsonName(f);
      (map[name := s], if Required(mode, f, pointer) then [name] else [])
  }

  // ---- Required lists name properties -----------------------------------------------------------------

  lemma DecoratedSound(s: Schema, desc: string, pointer: bool)
    requires Sound(s)
    ensures Sound(Decorated(s, desc, pointer))
  {
    var d := Decorated(s, desc, pointer);
    if s.ref.Some? && (pointer || desc != "") {
      assert d.allOf == [Ref(s.ref.value)] && Refs(d.allOf[0]) == {s.ref.value};
    }
  }

  lemma PartsSound(inner: Schema, typ: string, format: string)
    requires Sound(inner)
    ensures Sound(FREE_FORM.(typ := typ, items := Some(inner)))
    ensures Sound(FREE_FORM.(typ := typ, additional := Some(inner)))
    ensures Sound(FREE_FORM.(typ := typ, format := format))
  {
  }

  /** The forms the schema of a slice, map or pointer can take. */
  lemma ElemForms(u: Universe, pinned: map<string, string>, t: string, e: string, inner: Schema)
    requires Valid(u) && t in u.types && !Stops(u, t) && e in u.types && (Stops(u, e) || e in Next(u, t))
    requires u.types[t].kind in {Slice(e), Map(e), Pointer(e)} && inner == UseOf(u, pinned, t, e)
    ensures var s := SchemaOf(u, pinned, t);
            || s == inner || s == FREE_FORM.(typ := "string", format := "byte")
            || s == FREE_FORM.(typ := "array", items := Some(inner)) || s == FREE_FORM.(typ := "object", additional := Some(inner))
  {
  }

  lemma ElemSound(u: Universe, pinned: map<string, string>, t: string, e: string)
    requires Valid(u) && t in u.types && !Stops(u, t) && e in u.types && (Stops(u, e) || e in Next(u, t))
    requires u.types[t].kind in {Slice(e), Map(e), Pointer(e)} && Sound(UseOf(u, pinned, t, e))
    ensures Sound(SchemaOf(u, pinned, t))
  {
    var inner := UseOf(u, pinned, t, e);
    ElemForms(u, pinned, t, e, inner);
    PartsSound(inner, "array", "");
    PartsSound(inner, "object", "");
    PartsSound(inner, "string", "byte");
  }

  lemma LeafSound(u: Universe, pinned: map<string, string>, t: string)
    requires SoundWellKnown(u) && t in u.types && Stops(u, t)
    ensures Sound(Leaf(u, pinned, t))
  {
  }

  lemma {:induction false} SchemaSound(u: Universe, pinned: map<string, string>, t: string)
    requires Valid(u) && SoundWellKnown(u) && t in u.types
    ensures Sound(SchemaOf(u, pinned, t))
    decreases Rank(u, t), 1, 0
  {
    if Stops(u, t) {
      LeafSound(u, pinned, t);
    } else {
      match u.types[t].kind {
        case Slice(e) => UseSound(u, pinned, t, e); ElemSound(u, pinned, t, e);
        case Map(e) => UseSound(u, pinned, t, e); ElemSound(u, pinned, t, e);
        case Pointer(e) => UseSound(u, pinned, t, e); ElemSound(u, pinned, t, e);
        case Struct(_) => StructSound(u, pinned, t, ResponseMode);
        case Plain(typ, format, _) => PartsSound(FREE_FORM, typ, format);
        case Interface =>
      }
    }
  }

  lemma {:induction false} UseSound(u: Universe, pinned: map<string, string>, t: string, e: string)
    requires Valid(u) && SoundWellKnown(u) && t in u.types && e in u.types && (Stops(u, e) || e in Next(u, t))
    ensures Sound(UseOf(u, pinned, t, e))
    decreases Rank(u, t), 0, 0
  {
    if !Stops(u, e) {
      RankDrops(u, t, e);
      SchemaSound(u, pinned, e);
    }
  }

  lemma {:induction false} StructSound(u: Universe, pinned: map<string, string>, t: string, mode: Mode)
    requires Valid(u) && SoundWellKnown(u) && t in u.types && u.types[t].kind.Struct?
    ensures Sound(StructOf(u, pinned, t, mode))
    decreases Rank(u, t), 0, |u.types[t].kind.fields| + 2
  {
    var n := |u.types[t].kind.fields|;
    FieldsSound(u, pinned, t, n, mode);
    var (properties, required) := FieldsOf(u, pinned, t, n, mode);
    forall r | r in Sort(required)
      ensures r in properties
    {
      assert r in multiset(Sort(required)) && r in multiset(required);
    }
  }

  ghost predicate FieldsGood(properties: map<string, Schema>, required: seq<string>) {
    (forall k | k in properties :: Sound(properties[k])) && (forall r | r in required :: r in properties)
  }

  lemma FieldsJoin(before: (map<string, Schema>, seq<string>), f: (map<string, Schema>, seq<string>), both: (map<string, Schema>, seq<string>))
    requires FieldsGood(before.0, before.1) && FieldsGood(f.0, f.1)
    requires both == (before.0 + f.0, before.1 + f.1)
    ensures FieldsGood(both.0, both.1)
  {
  }

  lemma {:induction false} FieldsSound(u: Universe, pinned: map<string, string>, t: string, n: nat, mode: Mode)
    requires Valid(u) && SoundWellKnown(u) && t in u.types && u.types[t].kind.Struct? && n <= |u.types[t].kind.fields|
    ensures FieldsGood(FieldsOf(u, pinned, t, n, mode).0, FieldsOf(u, pinned, t, n, mode).1)
    decreases Rank(u, t), 0, n + 1
  {
    if n == 0 {
      assert FieldsOf(u, pinned, t, 0, mode) == (map[], []);
    } else {
      FieldsSound(u, pinned, t, n - 1, mode);
      FieldSound(u, pinned, t, n - 1, mode);
      FieldsJoin(FieldsOf(u, pinned, t, n - 1, mode), FieldOf(u, pinned, t, n - 1, mode), FieldsOf(u, pinned, t, n, mode));
    }
  }

  lemma {:induction false} FieldSound(u: Universe, pinned: map<string, string>, t: string, i: nat, mode: Mode)
    requires Valid(u) && SoundWellKnown(u) && t in u.types && u.types[t].kind.Struct? && i < |u.types[t].kind.fields|
    ensures FieldsGood(FieldOf(u, pinned, t, i, mode).0, FieldOf(u, pinned, t, i, mode).1)
    decreases Rank(u, t), 0, i + 1
  {
    var f := u.types[t].kind.fields[i];
    if f.exported && Flattened(u, f) {
      assert f.typ in Next(u, t);
      RankDrops(u, t, f.typ);
      StructSound(u, pinned, f.typ, mode);
    } else if f.exported && f.json != "-" {
      assert Stops(u, f.typ) || f.typ in Next(u, t);
      UseSound(u, pinned, t, f.typ);
      DecoratedSound(UseOf(u, pinned, t, f.typ), f.desc, u.types[f.typ].kind.Pointer?);
    }
  }

  // ---- The two modes --------------------------------------------------------------------------------

  /** Same properties; whatever input requires, a response requires too. */
  ghost predicate InputRequiresLess(input: (map<string, Schema>, seq<string>), response: (map<string, Schema>, seq<string>)) {
    input.0 == response.0 && forall r | r in input.1 :: r in response.1
  }

  /** An object's input schema has the properties of its response schema and requires no more. */
  lemma {:induction false} ModesAgree(u: Universe, pinned: map<string, string>, t: string)
    requires Valid(u) && t in u.types && u.types[t].kind.Struct?
    ensures var input, response := StructOf(u, pinned, t, InputMode), StructOf(u, pinned, t, ResponseMode);
            InputRequiresLess((input.properties, input.required), (response.properties, response.required))
    decreases Rank(u, t), 0, |u.types[t].kind.fields| + 2
  {
    var n := |u.types[t].kind.fields|;
    FieldsModes(u, pinned, t, n);
    var input, response := FieldsOf(u, pinned, t, n, InputMode).1, FieldsOf(u, pinned, t, n, ResponseMode).1;
    forall r | r in Sort(input)
      ensures r in Sort(response)
    {
      assert r in multiset(Sort(input)) && r in multiset(input);
      assert r in input;
      assert r in response;
      assert r in multiset(response) && r in multiset(Sort(response));
    }
  }

  lemma {:induction false} FieldsModes(u: Universe, pinned: map<string, string>, t: string, n: nat)
    requires Valid(u) && t in u.types && u.types[t].kind.Struct? && n <= |u.types[t].kind.fields|
    ensures InputRequiresLess(FieldsOf(u, pinned, t, n, InputMode), FieldsOf(u, pinned, t, n, ResponseMode))
    decreases Rank(u, t), 0, n + 1
  {
    if n > 0 {
      FieldsModes(u, pinned, t, n - 1);
      FieldModes(u, pinned, t, n - 1);
    }
  }

  lemma {:induction false} FieldModes(u: Universe, pinned: map<string, string>, t: string, i: nat)
    requires Valid(u) && t in u.types && u.types[t].kind.Struct? && i < |u.types[t].kind.fields|
    ensures InputRequiresLess(FieldOf(u, pinned, t, i, InputMode), FieldOf(u, pinned, t, i, ResponseMode))
    decreases Rank(u, t), 0, i + 1
  {
    var f := u.types[t].kind.fields[i];
    if f.exported && Flattened(u, f) {
      assert f.typ in Next(u, t);
      RankDrops(u, t, f.typ);
      ModesAgree(u, pinned, f.typ);
    }
  }

  // ---- The generator --------------------------------------------------------------------------------

  function WellKnownRefs(u: Universe): set<string> { RefsOfAll(u.wellKnown) }

  /** Between two states of the definitions: nothing disappears, and whatever is new or replaced is
      the schema of a named struct under its component name. */
  ghost predicate Grew(u: Universe, pinned: map<string, string>, before: map<string, Schema>, after: map<string, Schema>)
    requires Valid(u)
  {
    && before.Keys <= after.Keys
    && (forall n | n in after ::
          (n in before && after[n] == before[n]) ||
          (exists t :: t in u.types && NamedStruct(u, t) && u.types[t].component == n &&
                       after[n] == StructOf(u, pinned, t, ResponseMode)))
  }

  lemma GrewTransitive(u: Universe, pinned: map<string, string>,
                       a: map<string, Schema>, b: map<string, Schema>, c: map<string, Schema>)
    requires Valid(u) && Grew(u, pinned, a, b) && Grew(u, pinned, b, c)
    ensures Grew(u, pinned, a, c)
  {
  }

  /** The generator's fields: the component schemas, and the types being built with their names. */
  datatype Gen = Gen(defs: map<string, Schema>, inProgress: map<string, string>)

  /** The names a reference may use: defined, being built, or given with a well-known schema. */
  function Known(u: Universe, g: Gen): set<string> {
    g.defs.Keys + (set t | t in g.inProgress :: g.inProgress[t]) + WellKnownRefs(u)
  }

  ghost predicate RefsOk(u: Universe, g: Gen) {
    forall n | n in g.defs :: Refs(g.defs[n]) <= Known(u, g)
  }

  /** The in-progress map agrees with the naming of this walk. */
  ghost predicate NamesOk(u: Universe, pinned: map<string, string>, inProgress: map<string, string>) {
    && (forall t | t in inProgress :: t in u.types && inProgress[t] == NameOf(u, pinned, t))
    && (forall t | t in pinned :: t in inProgress)
  }

  ghost predicate Ready(u: Universe, pinned: map<string, string>, g: Gen) {
    NamesOk(u, pinned, g.inProgress) && RefsOk(u, g)
  }

  /** What a part of the walk achieves: the in-progress map is restored, definitions only grow, and
      every reference in them and in the produced schema can be resolved. */
  ghost predicate Walked(u: Universe, pinned: map<string, string>, g: Gen, g': Gen, refs: set<string>)
    requires Valid(u)
  {
    && Ready(u, pinned, g') && g'.inProgress == g.inProgress
    && Grew(u, pinned, g.defs, g'.defs) && refs <= Known(u, g')
  }

  lemma WalkedTwice(u: Universe, pinned: map<string, string>, g: Gen, g1: Gen, g2: Gen, r1: set<string>, r2: set<string>)
    requires Valid(u) && Walked(u, pinned, g, g1, r1) && Walked(u, pinned, g1, g2, r2)
    ensures Walked(u, pinned, g, g2, r1 + r2)
  {
    GrewTransitive(u, pinned, g.defs, g1.defs, g2.defs);
  }

  lemma WalkedNowhere(u: Universe, pinned: map<string, string>, g: Gen, refs: set<string>)
    requires Valid(u) && Ready(u, pinned, g) && refs <= Known(u, g)
    ensures Walked(u, pinned, g, g, refs)
  {
  }

  function Marked(u: Universe, g: Gen, t: string): Gen
    requires t in u.types
  {
    g.(inProgress := g.inProgress[t := u.types[t].component])
  }

  /** Starting on a type only adds a usable name. */
  lemma Marking(u: Universe, pinned: map<string, string>, g: Gen, t: string)
    requires Ready(u, pinned, g) && t in u.types && t !in g.inProgress
    ensures Ready(u, pinned, Marked(u, g, t))
  {
    var m := Marked(u, g, t);
    forall x | x in g.inProgress
      ensures g.inProgress[x] in Known(u, m)
    {
      assert m.inProgress[x] == g.inProgress[x];
    }
    assert Known(u, g) <= Known(u, m);
  }

  /** Defining the type's component makes up for taking its mark away. */
  lemma Unmarking(u: Universe, g: Gen, g1: Gen, t: string, name: string, body: Schema)
    requires t !in g.inProgress && g1.inProgress == g.inProgress[t := name]
    requires RefsOk(u, g1) && Refs(body) <= Known(u, g1)
    ensures var g2 := Gen(g1.defs[name := body], g1.inProgress - {t});
            g2.inProgress == g.inProgress && RefsOk(u, g2) && name in Known(u, g2)
  {
    var g2 := Gen(g1.defs[name := body], g1.inProgress - {t});
    assert g2.inProgress == g.inProgress;
    forall r | r in Known(u, g1)
      ensures r in Known(u, g2)
    {
      if x :| x in g1.inProgress && g1.inProgress[x] == r {
        assert x != t ==> g2.inProgress[x] == r;
      }
    }
  }

  lemma Defining(u: Universe, pinned: map<string, string>, g: Gen, t: string, g1: Gen, body: Schema)
    requires Valid(u) && Ready(u, pinned, g) && t in u.types && NamedStruct(u, t) && t !in g.inProgress
    requires Walked(u, pinned, Marked(u, g, t), g1, Refs(body)) && body == StructOf(u, pinned, t, ResponseMode)
    ensures var name := u.types[t].component;
            Walked(u, pinned, g, Gen(g1.defs[name := body], g1.inProgress - {t}), {name})
  {
    Unmarking(u, g, g1, t, u.types[t].component, body);
    GrewByDefinition(u, pinned, g.defs, g1.defs, t);
  }

  lemma GrewByDefinition(u: Universe, pinned: map<string, string>, before: map<string, Schema>, after: map<string, Schema>, t: string)
    requires Valid(u) && Grew(u, pinned, before, after) && t in u.types && NamedStruct(u, t)
    ensures Grew(u, pinned, before, after[u.types[t].component := StructOf(u, pinned, t, ResponseMode)])
  {
  }

  ghost function Unmarked(u: Universe, g: Gen): set<string> {
    set t | t in u.types && t !in g.inProgress
  }

  lemma MarkingShrinks(u: Universe, g: Gen, t: string)
    requires t in u.types && t !in g.inProgress
    ensures |Unmarked(u, Marked(u, g, t))| < |Unmarked(u, g)|
  {
    assert Unmarked(u, Marked(u, g, t)) == Unmarked(u, g) - {t};
  }

  /** The measure of a use of a type: uses of named structs are protected by their mark. */
  ghost function Depth(u: Universe, t: string): nat
    requires Valid(u) && t in u.types
  {
    if Stops(u, t) then 0 else Rank(u, t) + 1
  }

  /** The named-struct case of SchemaForType: in progress, already defined, or defined now. */
  method UseNamed(u: Universe, g: Gen, t: string, ghost pinned: map<string, string>) returns (s: Schema, g': Gen)
    requires Valid(u) && Ready(u, pinned, g) && t in u.types && NamedStruct(u, t)
    ensures s == Ref(NameOf(u, pinned, t)) && Walked(u, pinned, g, g', {NameOf(u, pinned, t)})
    decreases |Unmarked(u, g)|, 0, 0
  {
    var name := u.types[t].component;
    if t in g.inProgress {
      WalkedNowhere(u, pinned, g, {g.inProgress[t]});
      return Ref(g.inProgress[t]), g;
    }
    if name in g.defs {
      WalkedNowhere(u, pinned, g, {name});
      return Ref(name), g;
    }
    Marking(u, pinned, g, t);
    MarkingShrinks(u, g, t);
    var body, g1 := StructSchema(u, Marked(u, g, t), t, ResponseMode, pinned);
    Defining(u, pinned, g, t, g1, body);
    return Ref(name), Gen(g1.defs[name := body], g1.inProgress - {t});
  }

  /** The type under all pointers. */
  ghost function BaseType(u: Universe, t: string): (e: string)
    requires Valid(u) && t in u.types
    ensures e in u.types && !u.types[e].kind.Pointer?
    decreases Depth(u, t)
  {
    if u.types[t].kind.Pointer? then
      PointerStep(u, map[], t);
      BaseType(u, u.types[t].kind.elem)
    else t
  }

  /** Peel off pointers. */
  method Strip(u: Universe, t: string, ghost pinned: map<string, string>) returns (e: string)
    requires Valid(u) && t in u.types
    ensures e in u.types && e == BaseType(u, t)
    ensures SchemaOf(u, pinned, e) == SchemaOf(u, pinned, t) && Depth(u, e) <= Depth(u, t)
  {
    e := t;
    while u.types[e].kind.Pointer?
      invariant e in u.types && BaseType(u, e) == BaseType(u, t)
      invariant SchemaOf(u, pinned, e) == SchemaOf(u, pinned, t) && Depth(u, e) <= Depth(u, t)
      decreases Depth(u, e)
    {
      PointerStep(u, pinned, e);
      e := u.types[e].kind.elem;
    }
  }

  lemma PointerStep(u: Universe, pinned: map<string, string>, t: string)
    requires Valid(u) && t in u.types && u.types[t].kind.Pointer?
    ensures var e := u.types[t].kind.elem;
            e in u.types && Depth(u, e) < Depth(u, t) && SchemaOf(u, pinned, e) == SchemaOf(u, pinned, t)
  {
    var e := u.types[t].kind.elem;
    assert e in u.types;
    if !Stops(u, e) { RankDrops(u, t, e); }
  }

  /** The references of the schemas the walk puts together. */
  lemma RefsOfParts(s: Schema, typ: string, format: string, name: string)
    ensures Refs(FREE_FORM.(typ := typ, format := format)) == {}
    ensures Refs(FREE_FORM.(typ := typ, items := Some(s))) == Refs(s)
    ensures Refs(FREE_FORM.(typ := typ, additional := Some(s))) == Refs(s)
    ensures Refs(Ref(name)) == {name}
  {
  }

  lemma RefsOfStruct(properties: map<string, Schema>, required: seq<string>)
    ensures Refs(FREE_FORM.(typ := "object", properties := properties, required := required)) == RefsOfAll(properties)
  {
    var s := FREE_FORM.(typ := "object", properties := properties, required := required);
    forall r
      ensures r in Refs(s) <==> r in RefsOfAll(properties)
    {
      if r in RefsOfAll(properties) {
        var k :| k in properties && r in Refs(properties[k]);
        assert k in s.properties && r in Refs(s.properties[k]);
      }
    }
  }

  lemma SchemaOfElem(u: Universe, pinned: map<string, string>, t: string)
    requires Valid(u) && t in u.types && !Stops(u, t) && (u.types[t].kind.Slice? || u.types[t].kind.Map?)
    ensures var e := u.types[t].kind.elem;
            && e in u.types && Depth(u, e) < Depth(u, t)
            && (u.types[t].kind.Map? ==>
                  SchemaOf(u, pinned, t) == FREE_FORM.(typ := "object", additional := Some(SchemaOf(u, pinned, e))))
            && (u.types[t].kind.Slice? && !(u.types[e].kind.Plain? && u.types[e].kind.byte) ==>
                  SchemaOf(u, pinned, t) == FREE_FORM.(typ := "array", items := Some(SchemaOf(u, pinned, e))))
  {
    var e := u.types[t].kind.elem;
    assert e in u.types;
    UseDescends(u, pinned, t, e);
  }

  lemma UseDescends(u: Universe, pinned: map<string, string>, t: string, e: string)
    requires Valid(u) && t in u.types && e in u.types && (Stops(u, e) || e in Next(u, t))
    ensures UseOf(u, pinned, t, e) == SchemaOf(u, pinned, e)
    ensures Depth(u, e) < Rank(u, t) + 1
  {
    if !Stops(u, e) { RankDrops(u, t, e); }
  }

  /** SchemaForType: a reference for a named struct, defined on first use; everything else inline. */
  method SchemaForType(u: Universe, g: Gen, t0: string, ghost pinned: map<string, string>) returns (s: Schema, g': Gen)
    requires Valid(u) && Ready(u, pinned, g) && t0 in u.types
    ensures s == SchemaOf(u, pinned, t0) && Walked(u, pinned, g, g', Refs(s))
    decreases |Unmarked(u, g)|, Depth(u, t0), 3
  {
    var t := Strip(u, t0, pinned);
    if t in u.wellKnown {
      WellKnownIsKnown(u, pinned, g, t);
      return u.wellKnown[t], g;
    }
    match u.types[t].kind {
      case Slice(_) => s, g' := ElemSchema(u, g, t, pinned);
      case Map(_) => s, g' := ElemSchema(u, g, t, pinned);
      case Struct(_) =>
        if u.types[t].name != "" {
          s, g' := UseNamed(u, g, t, pinned);
          RefsOfParts(FREE_FORM, "", "", NameOf(u, pinned, t));
        } else {
          s, g' := StructSchema(u, g, t, ResponseMode, pinned);
        }
      case Plain(typ, format, _) =>
        s, g' := FREE_FORM.(typ := typ, format := format), g;
        RefsOfParts(FREE_FORM, typ, format, "");
        WalkedNowhere(u, pinned, g, {});
      case Interface =>
        s, g' := FREE_FORM, g;
        RefsOfParts(FREE_FORM, "", "", "");
        WalkedNowhere(u, pinned, g, {});
    }
  }

  lemma WellKnownIsKnown(u: Universe, pinned: map<string, string>, g: Gen, t: string)
    requires Valid(u) && Ready(u, pinned, g) && t in u.wellKnown
    ensures Walked(u, pinned, g, g, Refs(u.wellKnown[t]))
  {
    assert Refs(u.wellKnown[t]) <= WellKnownRefs(u);
    WalkedNowhere(u, pinned, g, Refs(u.wellKnown[t]));
  }

  /** The slice and map cases. */
  method ElemSchema(u: Universe, g: Gen, t: string, ghost pinned: map<string, string>) returns (s: Schema, g': Gen)
    requires Valid(u) && Ready(u, pinned, g) && t in u.types && !Stops(u, t)
    requires u.types[t].kind.Slice? || u.types[t].kind.Map?
    ensures s == SchemaOf(u, pinned, t) && Walked(u, pinned, g, g', Refs(s))
    decreases |Unmarked(u, g)|, Depth(u, t), 2
  {
    SchemaOfElem(u, pinned, t);
    var e := u.types[t].kind.elem;
    if u.types[t].kind.Slice? && u.types[e].kind.Plain? && u.types[e].kind.byte {
      RefsOfParts(FREE_FORM, "string", "byte", "");
      WalkedNowhere(u, pinned, g, {});
      return FREE_FORM.(typ := "string", format := "byte"), g;
    }
    var inner;
    inner, g' := SchemaForType(u, g, e, pinned);
    if u.types[t].kind.Slice? {
      RefsOfParts(inner, "array", "", "");
      s := FREE_FORM.(typ := "array", items := Some(inner));
    } else {
      RefsOfParts(inner, "object", "", "");
      s := FREE_FORM.(typ := "object", additional := Some(inner));
    }
  }

  lemma WalkedFields(u: Universe, pinned: map<string, string>, g: Gen, g1: Gen, g2: Gen,
                     p: map<string, Schema>, q: map<string, Schema>)
    requires Valid(u) && Walked(u, pinned, g, g1, RefsOfAll(p)) && Walked(u, pinned, g1, g2, RefsOfAll(q))
    ensures Walked(u, pinned, g, g2, RefsOfAll(p + q))
  {
    WalkedTwice(u, pinned, g, g1, g2, RefsOfAll(p), RefsOfAll(q));
    assert RefsOfAll(p + q) <= RefsOfAll(p) + RefsOfAll(q);
  }

  /** StructSchema: the fields in order, embedded structs flattened into the parent. */
  method StructSchema(u: Universe, g: Gen, t: string, mode: Mode, ghost pinned: map<string, string>) returns (s: Schema, g': Gen)
    requires Valid(u) && Ready(u, pinned, g) && t in u.types && u.types[t].kind.Struct?
    ensures s == StructOf(u, pinned, t, mode) && Walked(u, pinned, g, g', Refs(s))
    decreases |Unmarked(u, g)|, Rank(u, t) + 1, 1
  {
    var n := |u.types[t].kind.fields|;
    var properties: map<string, Schema> := map[];
    var required: seq<string> := [];
    g' := g;
    assert RefsOfAll(properties) == {};
    WalkedNowhere(u, pinned, g, {});
    for i := 0 to n
      invariant (properties, required) == FieldsOf(u, pinned, t, i, mode)
      invariant Walked(u, pinned, g, g', RefsOfAll(properties))
    {
      var props, req, g1 := FieldSchema(u, g', t, i, mode, pinned);
      WalkedFields(u, pinned, g, g', g1, properties, props);
      properties := properties + props;
      required := required + req;
      g' := g1;
    }
    s := FREE_FORM.(typ := "object", properties := properties, required := Sort(required));
    RefsOfStruct(properties, Sort(required));
  }

  /** One round of StructSchema's loop. */
  method FieldSchema(u: Universe, g: Gen, t: string, i: nat, mode: Mode, ghost pinned: map<string, string>)
    returns (properties: map<string, Schema>, required: seq<string>, g': Gen)
    requires Valid(u) && Ready(u, pinned, g) && t in u.types && u.types[t].kind.Struct?
    requires i < |u.types[t].kind.fields|
    ensures (properties, required) == FieldOf(u, pinned, t, i, mode)
    ensures Walked(u, pinned, g, g', RefsOfAll(properties))
    decreases |Unmarked(u, g)|, Rank(u, t) + 1, 0
  {
    var f := u.types[t].kind.fields[i];
    if !f.exported {
      NoProperties(u, pinned, g);
      return map[], [], g;
    }
    if Flattened(u, f) {
      FlattenedDescends(u, t, i);
      var sub, g1 := StructSchema(u, g, f.typ, mode, pinned);
      RefsOfStruct(sub.properties, sub.required);
      return sub.properties, sub.required, g1;
    }
    if f.json == "-" {
      NoProperties(u, pinned, g);
      return map[], [], g;
    }
    var name := JsonName(f);
    if name == "" {
      name := f.name;
    }
    FieldDescends(u, pinned, t, i);
    var fs, g1 := SchemaForType(u, g, f.typ, pinned);
    var pointer := u.types[f.typ].kind.Pointer?;
    OneProperty(u, pinned, g, g1, fs, f.desc, pointer, name);
    return map[name := Decorated(fs, f.desc, pointer)], if Required(mode, f, pointer) then [name] else [], g1;
  }

  lemma NoProperties(u: Universe, pinned: map<string, string>, g: Gen)
    requires Valid(u) && Ready(u, pinned, g)
    ensures Walked(u, pinned, g, g, RefsOfAll(map[]))
  {
    WalkedNowhere(u, pinned, g, {});
  }

  lemma FlattenedDescends(u: Universe, t: string, i: nat)
    requires Valid(u) && t in u.types && u.types[t].kind.Struct? && i < |u.types[t].kind.fields|
    requires var f := u.types[t].kind.fields[i]; f.exported && f.typ in u.types && Flattened(u, f)
    ensures Rank(u, u.types[t].kind.fields[i].typ) < Rank(u, t)
  {
    assert u.types[t].kind.fields[i].typ in Next(u, t);
    RankDrops(u, t, u.types[t].kind.fields[i].typ);
  }

  lemma FieldDescends(u: Universe, pinned: map<string, string>, t: string, i: nat)
    requires Valid(u) && t in u.types && u.types[t].kind.Struct? && i < |u.types[t].kind.fields|
    requires u.types[t].kind.fields[i].exported && u.types[t].kind.fields[i].json != "-"
    ensures var e := u.types[t].kind.fields[i].typ;
            && e in u.types && Depth(u, e) < Rank(u, t) + 1
            && (Stops(u, e) || e in Next(u, t)) && UseOf(u, pinned, t, e) == SchemaOf(u, pinned, e)
  {
    var e := u.types[t].kind.fields[i].typ;
    assert Stops(u, e) || e in Next(u, t);
    UseDescends(u, pinned, t, e);
  }

  lemma OneProperty(u: Universe, pinned: map<string, string>, g: Gen, g': Gen, s: Schema, desc: string, pointer: bool, name: string)
    requires Valid(u) && Walked(u, pinned, g, g', Refs(s))
    ensures Walked(u, pinned, g, g', RefsOfAll(map[name := Decorated(s, desc, pointer)]))
  {
    DecoratedRefs(s, desc, pointer);
    var d := Decorated(s, desc, pointer);
    assert RefsOfAll(map[name := d]) <= Refs(d);
  }

  lemma DecoratedRefs(s: Schema, desc: string, pointer: bool)
    ensures Refs(Decorated(s, desc, pointer)) <= Refs(s)
  {
    if s.ref.Some? && (pointer || desc != "") {
      var d := Decorated(s, desc, pointer);
      assert d.allOf == [Ref(s.ref.value)] && Refs(d.allOf[0]) == {s.ref.value};
    }
  }

  /** Nothing a field says is lost: no key stands beside a `$ref`, and the description and the
      nullability show. */
  lemma DecoratedShows(s: Schema, desc: string, pointer: bool)
    ensures var d := Decorated(s, desc, pointer);
            && (d.ref.Some? ==> !pointer && desc == "")
            && (desc != "" ==> d.description == desc) && (pointer ==> d.nullable)
            && (s.ref.Some? ==> s.ref.value in Refs(d))
  {
    var d := Decorated(s, desc, pointer);
    if s.ref.Some? && (pointer || desc != "") {
      assert d.allOf == [Ref(s.ref.value)] && s.ref.value in Refs(d.allOf[0]);
    }
  }

  // ---- Registering a type ---------------------------------------------------------------------------

  /** What Register stores: a well-known schema, the expanded struct, or the inline schema. */
  ghost function RootSchema(u: Universe, name: string, t: string, mode: Mode): Schema
    requires Valid(u) && t in u.types
  {
    if t in u.wellKnown then u.wellKnown[t]
    else if u.types[t].kind.Struct? then StructOf(u, map[t := name], t, mode)
    else SchemaOf(u, map[t := name], t)
  }

  /** Every reference resolves and every required list names properties. */
  ghost predicate Complete(u: Universe, defs: map<string, Schema>) {
    forall n | n in defs :: Refs(defs[n]) <= defs.Keys + WellKnownRefs(u) && Sound(defs[n])
  }

  lemma RegisterStarts(u: Universe, defs: map<string, Schema>, name: string, t: string)
    requires Complete(u, defs) && t in u.types
    ensures Ready(u, map[t := name], Gen(defs, map[t := name]))
  {
  }

  lemma RootSound(u: Universe, name: string, t: string, mode: Mode)
    requires Valid(u) && SoundWellKnown(u) && t in u.types
    ensures Sound(RootSchema(u, name, t, mode))
  {
    if t !in u.wellKnown {
      if u.types[t].kind.Struct? { StructSound(u, map[t := name], t, mode); }
      else { SchemaSound(u, map[t := name], t); }
    }
  }

  lemma GrownSound(u: Universe, pinned: map<string, string>, before: map<string, Schema>, after: map<string, Schema>, n: string)
    requires Valid(u) && SoundWellKnown(u) && Complete(u, before) && Grew(u, pinned, before, after) && n in after
    ensures Sound(after[n])
  {
    if !(n in before && after[n] == before[n]) {
      var t :| t in u.types && NamedStruct(u, t) && u.types[t].component == n && after[n] == StructOf(u, pinned, t, ResponseMode);
      StructSound(u, pinned, t, ResponseMode);
    }
  }

  /** Besides the registered name, only schemas of named structs are added or replaced. */
  ghost predicate OthersGrew(u: Universe, pinned: map<string, string>, name: string, before: map<string, Schema>, after: map<string, Schema>)
    requires Valid(u)
  {
    && before.Keys <= after.Keys
    && (forall n | n in after && n != name ::
          (n in before && after[n] == before[n]) ||
          (exists t :: t in u.types && NamedStruct(u, t) && u.types[t].component == n &&
                       after[n] == StructOf(u, pinned, t, ResponseMode)))
  }

  lemma MarkCleared(marks: map<string, string>, t: string, name: string)
    requires marks == map[t := name]
    ensures marks - {t} == map[]
  {
  }

  lemma StoredWithin(defs: map<string, Schema>, name: string, s: Schema, known: set<string>)
    requires Refs(s) <= known && forall n | n in defs :: Refs(defs[n]) <= known
    ensures var out := defs[name := s]; forall n | n in out :: Refs(out[n]) <= known
  {
  }

  /** Storing the root under its name makes up for the mark that Register takes away. */
  lemma RootResolves(u: Universe, g: Gen, name: string, t: string, s: Schema)
    requires g.inProgress == map[t := name] && RefsOk(u, g) && Refs(s) <= Known(u, g)
    ensures var out := g.defs[name := s]; forall n | n in out :: Refs(out[n]) <= out.Keys + WellKnownRefs(u)
  {
    assert Known(u, g) <= g.defs[name := s].Keys + WellKnownRefs(u);
    StoredWithin(g.defs, name, s, Known(u, g));
  }

  lemma GrewThenRoot(u: Universe, pinned: map<string, string>, name: string, before: map<string, Schema>, after: map<string, Schema>, s: Schema)
    requires Valid(u) && Grew(u, pinned, before, after)
    ensures OthersGrew(u, pinned, name, before, after[name := s])
  {
    forall n | n in after[name := s] && n != name
      ensures (n in before && after[n] == before[n]) ||
              (exists t :: t in u.types && NamedStruct(u, t) && u.types[t].component == n &&
                           after[n] == StructOf(u, pinned, t, ResponseMode))
    {
      assert n in after;
    }
  }

  lemma RegisterEnds(u: Universe, defs: map<string, Schema>, name: string, t: string, mode: Mode, g: Gen, s: Schema)
    requires Valid(u) && SoundWellKnown(u) && Complete(u, defs) && t in u.types
    requires s == RootSchema(u, name, t, mode)
    requires Walked(u, map[t := name], Gen(defs, map[t := name]), g, Refs(s))
    ensures Complete(u, g.defs[name := s]) && g.inProgress - {t} == map[]
    ensures OthersGrew(u, map[t := name], name, defs, g.defs[name := s])
  {
    var out := g.defs[name := s];
    RootResolves(u, g, name, t, s);
    MarkCleared(g.inProgress, t, name);
    RootSound(u, name, t, mode);
    forall n | n in out
      ensures Sound(out[n])
    {
      if n != name { GrownSound(u, map[t := name], defs, g.defs, n); }
    }
    GrewThenRoot(u, map[t := name], name, defs, g.defs, s);
  }

  /** The three ways Register builds the root. */
  method BuildRoot(u: Universe, g: Gen, name: string, t: string, mode: Mode) returns (s: Schema, g': Gen)
    requires Valid(u) && t in u.types && Ready(u, map[t := name], g)
    ensures s == RootSchema(u, name, t, mode) && Walked(u, map[t := name], g, g', Refs(s))
  {
    if t in u.wellKnown {
      WellKnownIsKnown(u, map[t := name], g, t);
      s, g' := u.wellKnown[t], g;
    } else if u.types[t].kind.Struct? {
      s, g' := StructSchema(u, g, t, mode, map[t := name]);
    } else {
      s, g' := SchemaForType(u, g, t, map[t := name]);
    }
  }

  class Generator {
    const u: Universe
    var defs: map<string, Schema>
    var inProgress: map<string, string>

    constructor (u: Universe)
      ensures this.u == u && defs == map[] && inProgress == map[] && Complete(u, defs)
    {
      this.u := u;
      defs, inProgress := map[], map[];
    }

    /** Register: terminates on every guarded type graph, restores the in-progress map, stores the
        root under the given name, and leaves every reference resolved and every required list
        within its properties. Whatever else it defines is the schema of a named struct. */
    method Register(name: string, t0: string, mode: Mode)
      requires Valid(u) && SoundWellKnown(u) && t0 in u.types
      requires inProgress == map[] && Complete(u, defs)
      modifies this
      ensures inProgress == map[] && Complete(u, defs)
      ensures name in defs && defs[name] == RootSchema(u, name, BaseType(u, t0), mode)
      ensures OthersGrew(u, map[BaseType(u, t0) := name], name, old(defs), defs)
    {
      var t := Strip(u, t0, map[]);
      RegisterStarts(u, defs, name, t);
      inProgress := inProgress[t := name];
      assert inProgress == map[t := name];
      var s, g := BuildRoot(u, Gen(defs, inProgress), name, t, mode);
      RegisterEnds(u, defs, name, t, mode, g, s);
      defs := g.defs[name := s];
      inProgress := g.inProgress - {t};
    }
  }

  // ---- The hypothesis is needed -------------------------------------------------------------------

  /** A use of this type is a use of a named struct that is not defined yet. */
  predicate Undefined(u: Universe, defined: set<string>, e: string)
    requires e in u.types
  {
    Stops(u, e) && e !in u.wellKnown && u.types[e].component !in defined
  }

  /** The named structs a type uses and that are not defined yet: each becomes a reference, and is
      expanded under an in-progress mark unless it has one. */
  function StructUses(u: Universe, defined: set<string>, t: string): set<string>
    requires ClosedTypes(u) && t in u.types
  {
    match u.types[t].kind
    case Slice(e) => if Undefined(u, defined, e) then {e} else {}
    case Map(e) => if Undefined(u, defined, e) then {e} else {}
    case Pointer(e) => if Undefined(u, defined, e) then {e} else {}
    case Struct(fields) =>
      set i | 0 <= i < |fields| && fields[i].exported && !Flattened(u, fields[i]) && fields[i].json != "-" &&
              Undefined(u, defined, fields[i].typ) :: fields[i].typ
    case _ => {}
  }

  function StructGraph(u: Universe, defined: set<string>): Graphs.Edges
    requires ClosedTypes(u)
  {
    map t | t in u.types :: StructUses(u, defined, t)
  }

  /** The walk that expands t with these marks and definitions comes back, within some depth of calls
      and pointer steps. (A struct that the walk itself has defined is not expanded again when it is
      met again, which leaves out repeated work only.) */
  ghost predicate ComesBack(u: Universe, defined: set<string>, marks: set<string>, t: string)
    requires ClosedTypes(u)
  {
    MarkedWalks.Returns(TypeGraph(u), StructGraph(u, defined), marks, t)
  }

  /** No type that t leads to, through named structs or not, lies on a cycle without named structs. */
  ghost predicate NoUnmarkedCycle(u: Universe, defined: set<string>, t: string)
    requires ClosedTypes(u)
  {
    MarkedWalks.NoOpenCycle(TypeGraph(u), StructGraph(u, defined), t)
  }

  lemma ComesBackIff(u: Universe, defined: set<string>, marks: set<string>, t: string)
    requires ClosedTypes(u) && t in u.types && marks <= {t}
    ensures ComesBack(u, defined, marks, t) <==> NoUnmarkedCycle(u, defined, t)
  {
    MarkedWalks.ReturnsIff(TypeGraph(u), StructGraph(u, defined), marks, t);
  }

  /** Register marks the type before it expands it, and does not expand a well-known one. */
  ghost predicate RegisterReturns(u: Universe, defined: set<string>, t: string)
    requires ClosedTypes(u)
  {
    t in u.wellKnown || ComesBack(u, defined, {t}, t)
  }

  lemma RegisterReturnsIff(u: Universe, defined: set<string>, t: string)
    requires ClosedTypes(u) && t in u.types
    ensures RegisterReturns(u, defined, t) <==> t in u.wellKnown || NoUnmarkedCycle(u, defined, t)
  {
    ComesBackIff(u, defined, {t}, t);
  }

  /** The hypothesis of Register says exactly that the walk comes back from every type. */
  lemma GuardedIff(u: Universe)
    requires ClosedTypes(u)
    ensures Guarded(u) <==> forall t | t in u.types :: ComesBack(u, {}, {}, t)
  {
    var g := TypeGraph(u);
    if Guarded(u) {
      forall t | t in u.types
        ensures ComesBack(u, {}, {}, t)
      {
        ComesBackIff(u, {}, {}, t);
        assert forall x :: x !in g ==> Graphs.Below(g, x) == {};
      }
    } else {
      var t :| t in g && t in Graphs.Below(g, t);
      ComesBackIff(u, {}, {}, t);
      assert t in u.types && !ComesBack(u, {}, {}, t);
    }
  }

  /** `type T []T`: a named slice of itself. */
  function SelfSlice(): Universe { Universe(map["T" := Type("T", "T", Slice("T"))], map[]) }

  lemma OnCycleNeverReturns(u: Universe, t: string, x: string)
    requires ClosedTypes(u) && t in u.types && x in u.types && x in Next(u, x)
    requires x == t || (exists y :: y in u.types && x in Next(u, y) && (y == t || y in StructUses(u, {}, t)))
    ensures !ComesBack(u, {}, {}, t)
  {
    var g := TypeGraph(u);
    ComesBackIff(u, {}, {}, t);
    Graphs.BelowStep(g, x, x);
    var both := MarkedWalks.Both(g, StructGraph(u, {}));
    var all := Graphs.Reach(both, {t});
    if x != t {
      var y :| y in u.types && x in Next(u, y) && (y == t || y in StructUses(u, {}, t));
      assert both[t] <= all && y in all && both[y] <= all;
    }
  }

  lemma SelfSliceNeverComesBack()
    ensures ClosedTypes(SelfSlice()) && !ComesBack(SelfSlice(), {}, {}, "T")
  {
    OnCycleNeverReturns(SelfSlice(), "T", "T");
  }

  /** `type T []T; type R struct { F T }` and `[]R`: the cycle hides behind a named struct. */
  function HiddenSlice(): Universe {
    Universe(map["T" := Type("T", "T", Slice("T")),
                 "R" := Type("R", "R", Struct([Field("F", true, false, "T", "", [], "")])),
                 "[]R" := Type("", "", Slice("R"))], map[])
  }

  lemma HiddenSliceNeverComesBack()
    ensures ClosedTypes(HiddenSlice()) && !ComesBack(HiddenSlice(), {}, {}, "[]R")
  {
    var u := HiddenSlice();
    var f := u.types["R"].kind.fields[0];
    assert f.typ == "T" && "T" in Next(u, "R") && "R" in StructUses(u, {}, "[]R");
    OnCycleNeverReturns(u, "[]R", "T");
  }
}
