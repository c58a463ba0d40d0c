/** What the components that the generator defines stand for (pkg/openapigen/generator.go): a reference
    to a type leads to that type's own schema, and when a type has one canonical shape. */
module ApiShapes {
  import opened ApiGen
  import Graphs
  import Options

  // ---- References lead to their own type ------------------------------------------------------------

  /** s is a schema the generator builds for t: as a registered root, or as the component of a named
      struct. */
  ghost predicate Describes(u: Universe, s: Schema, t: string)
    requires Valid(u) && t in u.types
  {
    || (exists name, mode :: s == RootSchema(u, name, t, mode))
    || (u.types[t].kind.Struct? && exists pinned :: s == StructOf(u, pinned, t, ResponseMode))
  }

  /** No two named structs have the same component name. */
  ghost predicate DistinctNames(u: Universe) {
    forall a, b | a in u.types && b in u.types && NamedStruct(u, a) && NamedStruct(u, b) &&
                  u.types[a].component == u.types[b].component :: a == b
  }

  /** A registered name that is some struct's component name is registered for that struct. */
  ghost predicate NamesFit(u: Universe, registered: map<string, string>) {
    forall n, t | n in registered && t in u.types && NamedStruct(u, t) && u.types[t].component == n :: registered[n] == t
  }

  /** Every registered name and every struct's component name, where defined, holds a schema of its
      own type. */
  ghost predicate EachItsOwn(u: Universe, registered: map<string, string>, defs: map<string, Schema>)
    requires Valid(u)
  {
    && (forall n | n in registered :: n in defs && registered[n] in u.types && Describes(u, defs[n], registered[n]))
    && (forall t | t in u.types && NamedStruct(u, t) && u.types[t].component in defs ::
          Describes(u, defs[u.types[t].component], t))
  }

  lemma GrownDescribes(u: Universe, pinned: map<string, string>, name: string, before: map<string, Schema>, after: map<string, Schema>, t: string)
    requires Valid(u) && DistinctNames(u) && OthersGrew(u, pinned, name, before, after)
    requires t in u.types && NamedStruct(u, t) && u.types[t].component in after && u.types[t].component != name
    requires u.types[t].component in before ==> Describes(u, before[u.types[t].component], t)
    ensures Describes(u, after[u.types[t].component], t)
  {
    var n := u.types[t].component;
    if !(n in before && after[n] == before[n]) {
      var x :| x in u.types && NamedStruct(u, x) && u.types[x].component == n && after[n] == StructOf(u, pinned, x, ResponseMode);
      assert x == t;
    }
  }

  lemma RegisteredDescribes(u: Universe, registered: map<string, string>, pinned: map<string, string>, name: string,
                            before: map<string, Schema>, after: map<string, Schema>, n: string)
    requires Valid(u) && NamesFit(u, registered) && OthersGrew(u, pinned, name, before, after)
    requires n in registered && n != name && n in before && registered[n] in u.types && Describes(u, before[n], registered[n])
    ensures n in after && Describes(u, after[n], registered[n])
  {
    if after[n] != before[n] {
      var x :| x in u.types && NamedStruct(u, x) && u.types[x].component == n && after[n] == StructOf(u, pinned, x, ResponseMode);
      assert x == registered[n];
    }
  }

  /** What Register promises keeps every name with its own type. */
  lemma RegisterKeepsOwn(u: Universe, registered: map<string, string>, before: map<string, Schema>, after: map<string, Schema>,
                         name: string, t: string, mode: Mode)
    requires Valid(u) && DistinctNames(u) && t in u.types && NamesFit(u, registered[name := t])
    requires EachItsOwn(u, registered, before) && OthersGrew(u, map[t := name], name, before, after)
    requires name in after && after[name] == RootSchema(u, name, t, mode)
    ensures EachItsOwn(u, registered[name := t], after)
  {
    var now := registered[name := t];
    forall n | n in now
      ensures n in after && now[n] in u.types && Describes(u, after[n], now[n])
    {
      if n != name {
        RegisteredDescribes(u, now, map[t := name], name, before, after, n);
      }
    }
    forall x | x in u.types && NamedStruct(u, x) && u.types[x].component in after
      ensures Describes(u, after[u.types[x].component], x)
    {
      if u.types[x].component == name {
        assert now[name] == x;
      } else {
        GrownDescribes(u, map[t := name], name, before, after, x);
      }
    }
  }

  /** The reference that a use of a named struct becomes while `name` is registered for `root` leads,
      in the definitions that result, to a schema of that struct. */
  lemma ReferenceLeadsToItsType(u: Universe, registered: map<string, string>, defs: map<string, Schema>, name: string, root: string, t: string)
    requires Valid(u) && EachItsOwn(u, registered, defs) && name in registered && registered[name] == root
    requires t in u.types && NamedStruct(u, t) && t !in u.wellKnown
    requires NameOf(u, map[root := name], t) in defs
    ensures var r := Leaf(u, map[root := name], t).ref;
            r == Options.Some(NameOf(u, map[root := name], t)) && Describes(u, defs[r.value], t)
  {
  }

  // ---- One canonical shape per type -------------------------------------------------------------------

  /** The field asks for nothing in a response that it does not ask for in an input. */
  ghost predicate FieldBound(u: Universe, t: string, i: nat)
    requires Valid(u) && t in u.types && u.types[t].kind.Struct? && i < |u.types[t].kind.fields|
    decreases Rank(u, t), 0, i + 1
  {
    var f := u.types[t].kind.fields[i];
    if !f.exported then true
    else if Flattened(u, f) then
      assert f.typ in Next(u, t);
      RankDrops(u, t, f.typ);
      AllBound(u, f.typ, |u.types[f.typ].kind.fields|)
    else
      var pointer := u.types[f.typ].kind.Pointer?;
      f.json == "-" || (Required(ResponseMode, f, pointer) ==> Required(InputMode, f, pointer))
  }

  /** Every one of the first n fields that is always present is bound as required, embedded structs
      included. */
  ghost predicate AllBound(u: Universe, t: string, n: nat)
    requires Valid(u) && t in u.types && u.types[t].kind.Struct? && n <= |u.types[t].kind.fields|
    decreases Rank(u, t), 0, n + 1
  {
    n == 0 || (AllBound(u, t, n - 1) && FieldBound(u, t, n - 1))
  }

  ghost predicate Bound(u: Universe, t: string)
    requires Valid(u) && t in u.types && u.types[t].kind.Struct?
  {
    AllBound(u, t, |u.types[t].kind.fields|)
  }

  /** The input asks for no more names, and for as many exactly when it is the same. */
  ghost predicate SameIff(input: (map<string, Schema>, seq<string>), response: (map<string, Schema>, seq<string>), bound: bool) {
    |input.1| <= |response.1| && (bound <==> |input.1| == |response.1|) && (bound ==> input == response)
  }

  lemma {:induction false} FieldSameIff(u: Universe, pinned: map<string, string>, t: string, i: nat)
    requires Valid(u) && t in u.types && u.types[t].kind.Struct? && i < |u.types[t].kind.fields|
    ensures SameIff(FieldOf(u, pinned, t, i, InputMode), FieldOf(u, pinned, t, i, ResponseMode), FieldBound(u, t, i))
    decreases Rank(u, t), 0, i + 1
  {
    var f := u.types[t].kind.fields[i];
    if f.exported && Flattened(u, f) {
      assert f.typ in Next(u, t);
      RankDrops(u, t, f.typ);
      StructSameIff(u, pinned, f.typ);
    }
  }

  lemma JoinSame(a: (map<string, Schema>, seq<string>), b: (map<string, Schema>, seq<string>), bound: bool,
                 c: (map<string, Schema>, seq<string>), d: (map<string, Schema>, seq<string>), bound': bool)
    requires SameIff(a, b, bound) && SameIff(c, d, bound')
    ensures SameIff((a.0 + c.0, a.1 + c.1), (b.0 + d.0, b.1 + d.1), bound && bound')
  {
  }

  lemma {:induction false} FieldsSameIff(u: Universe, pinned: map<string, string>, t: string, n: nat)
    requires Valid(u) && t in u.types && u.types[t].kind.Struct? && n <= |u.types[t].kind.fields|
    ensures SameIff(FieldsOf(u, pinned, t, n, InputMode), FieldsOf(u, pinned, t, n, ResponseMode), AllBound(u, t, n))
    decreases Rank(u, t), 0, n + 1
  {
    if n > 0 {
      FieldsSameIff(u, pinned, t, n - 1);
      FieldSameIff(u, pinned, t, n - 1);
      JoinSame(FieldsOf(u, pinned, t, n - 1, InputMode), FieldsOf(u, pinned, t, n - 1, ResponseMode), AllBound(u, t, n - 1),
               FieldOf(u, pinned, t, n - 1, InputMode), FieldOf(u, pinned, t, n - 1, ResponseMode), FieldBound(u, t, n - 1));
    }
  }

  lemma {:induction false} StructSameIff(u: Universe, pinned: map<string, string>, t: string)
    requires Valid(u) && t in u.types && u.types[t].kind.Struct?
    ensures var input, response := StructOf(u, pinned, t, InputMode), StructOf(u, pinned, t, ResponseMode);
            SameIff((input.properties, input.required), (response.properties, response.required), Bound(u, t))
    decreases Rank(u, t), 0, |u.types[t].kind.fields| + 2
  {
    ModesAgree(u, pinned, t);
    FieldsSameIff(u, pinned, t, |u.types[t].kind.fields|);
  }

  /** The two modes give one shape exactly when every field that is always present is bound as
      required. */
  lemma OneShapeIff(u: Universe, pinned: map<string, string>, t: string)
    requires Valid(u) && t in u.types && u.types[t].kind.Struct?
    ensures StructOf(u, pinned, t, InputMode) == StructOf(u, pinned, t, ResponseMode) <==> Bound(u, t)
  {
    StructSameIff(u, pinned, t);
  }

  /** A struct registered under its own component name is where nested uses of it lead as well. It has
      the canonical, response shape there exactly when it is registered for responses or both modes
      agree on it. */
  lemma CanonicalIff(u: Universe, t: string, mode: Mode)
    requires Valid(u) && t in u.types && NamedStruct(u, t) && t !in u.wellKnown
    ensures var name := u.types[t].component;
            RootSchema(u, name, t, mode) == StructOf(u, map[t := name], t, ResponseMode) <==> mode == ResponseMode || Bound(u, t)
  {
    OneShapeIff(u, map[t := u.types[t].component], t);
  }

  /** `type R struct { F string }` without a binding: registered for input under its own name, nested
      uses of it find `F` optional. */
  function Loose(): Universe {
    Universe(map["string" := Type("string", "", Plain("string", "", false)),
                 "R" := Type("R", "R", Struct([Field("F", true, false, "string", "F", [], "")]))], map[])
  }

  lemma LooseIsValid()
    ensures Valid(Loose())
  {
    var u := Loose();
    var g := TypeGraph(u);
    var f := u.types["R"].kind.fields[0];
    assert f.typ == "string" && "string" in Next(u, "R");
    assert g["string"] == {} && g["R"] == {"string"};
    Graphs.LeafBelow(g, "string");
    Graphs.ChainBelow(g, "R", "string");
  }

  lemma LooseHasTwoShapes()
    ensures Valid(Loose()) && !Bound(Loose(), "R")
  {
    LooseIsValid();
    var f := Loose().types["R"].kind.fields[0];
    assert !FieldBound(Loose(), "R", 0);
  }
}
