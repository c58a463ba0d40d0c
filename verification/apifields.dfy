/** What the generated schemas say about the Go types they come from (pkg/openapigen/generator.go),
    kind by kind and field by field. */
module ApiFields {
  import opened Options
  import opened Strings
  import opened ApiGen

  /** A schema that says nothing but this. */
  ghost predicate Only(s: Schema, typ: string, format: string, items: Option<Schema>, additional: Option<Schema>) {
    && s.typ == typ && s.format == format && s.items == items && s.additional == additional
    && s.ref == None && s.description == "" && !s.nullable && s.required == [] && s.properties == map[] && s.allOf == []
  }

  // ---- Kind by kind -----------------------------------------------------------------------------------

  /** Strings, booleans and numbers have their type and format; anything unknown is free-form. */
  lemma ScalarSchemas(u: Universe, pinned: map<string, string>, t: string)
    requires Valid(u) && t in u.types && t !in u.wellKnown
    ensures match u.types[t].kind
            case Plain(typ, format, _) => Only(SchemaOf(u, pinned, t), typ, format, None, None)
            case Interface => Only(SchemaOf(u, pinned, t), "", "", None, None)
            case _ => true
  {
  }

  /** Bytes are a base64 string; other slices and arrays are arrays of their element, maps objects of
      their element, and a pointer is what it points to. */
  lemma ElementSchemas(u: Universe, pinned: map<string, string>, t: string)
    requires Valid(u) && t in u.types && (t !in u.wellKnown || u.types[t].kind.Pointer?)
    ensures match u.types[t].kind
            case Slice(e) =>
              && e in u.types
              && if u.types[e].kind.Plain? && u.types[e].kind.byte then Only(SchemaOf(u, pinned, t), "string", "byte", None, None)
                 else Only(SchemaOf(u, pinned, t), "array", "", Some(SchemaOf(u, pinned, e)), None)
            case Map(e) => e in u.types && Only(SchemaOf(u, pinned, t), "object", "", None, Some(SchemaOf(u, pinned, e)))
            case Pointer(e) => e in u.types && SchemaOf(u, pinned, t) == SchemaOf(u, pinned, e)
            case _ => true
  {
    match u.types[t].kind {
      case Slice(e) => SliceSchema(u, pinned, t, e);
      case Map(e) => MapSchema(u, pinned, t, e);
      case Pointer(e) => UseDescends(u, pinned, t, e);
      case _ =>
    }
  }

  lemma SliceSchema(u: Universe, pinned: map<string, string>, t: string, e: string)
    requires Valid(u) && t in u.types && t !in u.wellKnown && u.types[t].kind == Slice(e)
    ensures e in u.types
    ensures if u.types[e].kind.Plain? && u.types[e].kind.byte then Only(SchemaOf(u, pinned, t), "string", "byte", None, None)
            else Only(SchemaOf(u, pinned, t), "array", "", Some(SchemaOf(u, pinned, e)), None)
  {
    UseDescends(u, pinned, t, e);
  }

  lemma MapSchema(u: Universe, pinned: map<string, string>, t: string, e: string)
    requires Valid(u) && t in u.types && t !in u.wellKnown && u.types[t].kind == Map(e)
    ensures e in u.types && Only(SchemaOf(u, pinned, t), "object", "", None, Some(SchemaOf(u, pinned, e)))
  {
    UseDescends(u, pinned, t, e);
  }

  /** A well-known type has its given schema; any other named struct is a reference and nothing else, to
      its component or, for the type being registered, to the registered name; an unnamed struct is
      written out. */
  lemma StructSchemas(u: Universe, pinned: map<string, string>, t: string)
    requires Valid(u) && t in u.types && !u.types[t].kind.Pointer?
    ensures t in u.wellKnown ==> SchemaOf(u, pinned, t) == u.wellKnown[t]
    ensures t !in u.wellKnown && u.types[t].kind.Struct? && u.types[t].name != "" ==>
              SchemaOf(u, pinned, t) ==
              Schema(Some(if t in pinned then pinned[t] else u.types[t].component), "", "", "", false, [], map[], None, None, [])
    ensures t !in u.wellKnown && u.types[t].kind.Struct? && u.types[t].name == "" ==>
              SchemaOf(u, pinned, t) == StructOf(u, pinned, t, ResponseMode)
  {
  }

  // ---- Field by field -----------------------------------------------------------------------------------

  /** The field appears in the JSON object. */
  predicate Appears(f: Field) { f.exported && f.json != "-" }

  /** The name before the first comma of the json tag, or the Go name. */
  function PropertyName(f: Field): string { if SplitCommas(f.json)[0] == "" then f.name else SplitCommas(f.json)[0] }

  /** An embedded struct without a name in its json tag. */
  predicate Embeds(u: Universe, f: Field)
    requires f.typ in u.types
  {
    f.anonymous && u.types[f.typ].kind.Struct? && SplitCommas(f.json)[0] == ""
  }

  /** A struct without embedded structs, whose fields appear under different names. */
  ghost predicate Flat(u: Universe, t: string) {
    && t in u.types && u.types[t].kind.Struct?
    && var fields := u.types[t].kind.fields;
       && (forall i | 0 <= i < |fields| :: fields[i].typ in u.types && (fields[i].exported ==> !Embeds(u, fields[i])))
       && (forall i, j | 0 <= i < j < |fields| && Appears(fields[i]) && Appears(fields[j]) ::
             PropertyName(fields[i]) != PropertyName(fields[j]))
  }

  /** p is the schema s of a field's type with the field's description and, for a pointer, nullable: an
      inline schema keeps everything else, and a reference that has either is wrapped and has nothing
      beside it. */
  ghost predicate Presents(p: Schema, s: Schema, desc: string, pointer: bool) {
    if s.ref == None then
      && p.ref == None && p.typ == s.typ && p.format == s.format && p.required == s.required
      && p.properties == s.properties && p.items == s.items && p.additional == s.additional && p.allOf == s.allOf
      && p.description == (if desc == "" then s.description else desc) && p.nullable == (s.nullable || pointer)
    else if desc == "" && !pointer then p == s
    else
      p == Schema(None, "", "", desc, pointer, [], map[], None, None,
                  [Schema(s.ref, "", "", "", false, [], map[], None, None, [])])
  }

  lemma DecoratedPresents(s: Schema, desc: string, pointer: bool)
    ensures Presents(Decorated(s, desc, pointer), s, desc, pointer)
  {
  }

  /** No `omitempty` after the first comma, no pointer, and in an input the binding asks for it. */
  predicate MustHave(u: Universe, f: Field, mode: Mode)
    requires f.typ in u.types
  {
    && "omitempty" !in SplitCommas(f.json)[1..] && !u.types[f.typ].kind.Pointer?
    && (mode.ResponseMode? || "required" in f.binding)
  }

  /** What a field has to say in the schema of its struct. */
  datatype Entry = Entry(appears: bool, name: string, schema: Schema, desc: string, pointer: bool, must: bool)

  ghost function EntryOf(u: Universe, pinned: map<string, string>, f: Field, mode: Mode): Entry
    requires Valid(u) && f.typ in u.types
  {
    Entry(Appears(f), PropertyName(f), SchemaOf(u, pinned, f.typ), f.desc, u.types[f.typ].kind.Pointer?, MustHave(u, f, mode))
  }

  ghost function EntriesOf(u: Universe, pinned: map<string, string>, t: string, mode: Mode): (es: seq<Entry>)
    requires Valid(u) && Flat(u, t)
    ensures |es| == |u.types[t].kind.fields|
    ensures forall i | 0 <= i < |es| :: es[i] == EntryOf(u, pinned, u.types[t].kind.fields[i], mode)
    ensures Distinct(es)
  {
    var fields := u.types[t].kind.fields;
    seq(|fields|, i requires 0 <= i < |fields| => EntryOf(u, pinned, fields[i], mode))
  }

  ghost predicate Distinct(es: seq<Entry>) {
    forall i, j | 0 <= i < j < |es| && es[i].appears && es[j].appears :: es[i].name != es[j].name
  }

  /** The entry is said: its property presents its schema, and is required exactly if it must be there. */
  ghost predicate Said(e: Entry, properties: map<string, Schema>, required: seq<string>) {
    e.appears ==> e.name in properties && Presents(properties[e.name], e.schema, e.desc, e.pointer) && (e.name in required <==> e.must)
  }

  /** Exactly the entries are said. */
  ghost predicate Reads(es: seq<Entry>, properties: map<string, Schema>, required: seq<string>) {
    && (forall i | 0 <= i < |es| :: Said(es[i], properties, required))
    && (forall name | name in properties :: exists i :: 0 <= i < |es| && es[i].appears && es[i].name == name)
    && (forall name | name in required :: name in properties)
  }

  /** One entry by itself. */
  ghost predicate SaidAlone(e: Entry, properties: map<string, Schema>, required: seq<string>) {
    if !e.appears then properties == map[] && required == []
    else properties.Keys == {e.name} && Presents(properties[e.name], e.schema, e.desc, e.pointer) && required == if e.must then [e.name] else []
  }

  lemma NameIsNew(es: seq<Entry>, e: Entry, p: map<string, Schema>, r: seq<string>)
    requires Distinct(es + [e]) && Reads(es, p, r) && e.appears
    ensures e.name !in p && e.name !in r
  {
    var all := es + [e];
    forall j | 0 <= j < |es| && es[j].appears
      ensures es[j].name != e.name
    {
      assert all[j] == es[j] && all[|es|] == e;
    }
  }

  lemma ReadsOneMore(es: seq<Entry>, e: Entry, p: map<string, Schema>, r: seq<string>, p': map<string, Schema>, r': seq<string>)
    requires Distinct(es + [e]) && Reads(es, p, r) && SaidAlone(e, p', r')
    ensures Reads(es + [e], p + p', r + r')
  {
    var all := es + [e];
    assert all[|es|] == e;
    if e.appears { NameIsNew(es, e, p, r); }
    forall i | 0 <= i < |all|
      ensures Said(all[i], p + p', r + r')
    {
      if i < |es| {
        assert all[i] == es[i] && Said(es[i], p, r);
      }
    }
    forall name | name in p + p'
      ensures exists i :: 0 <= i < |all| && all[i].appears && all[i].name == name
    {
      if name in p {
        var i :| 0 <= i < |es| && es[i].appears && es[i].name == name;
        assert all[i] == es[i];
      } else {
        assert all[|es|].appears && all[|es|].name == name;
      }
    }
  }

  /** Field number i is not an embedded struct. */
  predicate OwnField(u: Universe, t: string, i: nat) {
    && t in u.types && u.types[t].kind.Struct? && i < |u.types[t].kind.fields|
    && var f := u.types[t].kind.fields[i]; f.typ in u.types && (f.exported ==> !Embeds(u, f))
  }

  lemma AppearsAlone(u: Universe, pinned: map<string, string>, t: string, i: nat, mode: Mode, f: Field, s: Schema)
    requires Valid(u) && OwnField(u, t, i) && f == u.types[t].kind.fields[i] && Appears(f)
    requires (Stops(u, f.typ) || f.typ in Next(u, t)) && s == UseOf(u, pinned, t, f.typ)
    ensures FieldOf(u, pinned, t, i, mode) ==
            (map[PropertyName(f) := Decorated(s, f.desc, u.types[f.typ].kind.Pointer?)], if MustHave(u, f, mode) then [PropertyName(f)] else [])
  {
  }

  lemma DisappearsAlone(u: Universe, pinned: map<string, string>, t: string, i: nat, mode: Mode)
    requires Valid(u) && OwnField(u, t, i) && !Appears(u.types[t].kind.fields[i])
    ensures FieldOf(u, pinned, t, i, mode) == (map[], [])
  {
  }

  lemma SaidByOne(e: Entry, p: Schema, f: (map<string, Schema>, seq<string>))
    requires e.appears && Presents(p, e.schema, e.desc, e.pointer) && f == (map[e.name := p], if e.must then [e.name] else [])
    ensures SaidAlone(e, f.0, f.1)
  {
  }

  /** What one field of such a struct contributes. */
  lemma FieldContributes(u: Universe, pinned: map<string, string>, t: string, i: nat, mode: Mode)
    requires Valid(u) && OwnField(u, t, i)
    ensures var f := FieldOf(u, pinned, t, i, mode);
            SaidAlone(EntryOf(u, pinned, u.types[t].kind.fields[i], mode), f.0, f.1)
  {
    var f := u.types[t].kind.fields[i];
    if Appears(f) {
      FieldDescends(u, pinned, t, i);
      var s, pointer := SchemaOf(u, pinned, f.typ), u.types[f.typ].kind.Pointer?;
      AppearsAlone(u, pinned, t, i, mode, f, s);
      DecoratedPresents(s, f.desc, pointer);
      SaidByOne(EntryOf(u, pinned, f, mode), Decorated(s, f.desc, pointer), FieldOf(u, pinned, t, i, mode));
    } else {
      DisappearsAlone(u, pinned, t, i, mode);
    }
  }

  lemma ReadsNext(es: seq<Entry>, n: nat, before: (map<string, Schema>, seq<string>), f: (map<string, Schema>, seq<string>),
                  both: (map<string, Schema>, seq<string>))
    requires 0 < n <= |es| && Distinct(es) && Reads(es[..n - 1], before.0, before.1) && SaidAlone(es[n - 1], f.0, f.1)
    requires both == (before.0 + f.0, before.1 + f.1)
    ensures Reads(es[..n], both.0, both.1)
  {
    assert es[..n] == es[..n - 1] + [es[n - 1]];
    ReadsOneMore(es[..n - 1], es[n - 1], before.0, before.1, f.0, f.1);
  }

  /** The entry is what field number i contributes. */
  ghost predicate Alone(u: Universe, pinned: map<string, string>, t: string, i: nat, mode: Mode, e: Entry)
    requires Valid(u) && t in u.types && u.types[t].kind.Struct? && i < |u.types[t].kind.fields|
  {
    SaidAlone(e, FieldOf(u, pinned, t, i, mode).0, FieldOf(u, pinned, t, i, mode).1)
  }

  lemma EntryIsSaid(u: Universe, pinned: map<string, string>, t: string, i: nat, mode: Mode, e: Entry)
    requires Valid(u) && OwnField(u, t, i) && e == EntryOf(u, pinned, u.types[t].kind.fields[i], mode)
    ensures Alone(u, pinned, t, i, mode, e)
  {
    FieldContributes(u, pinned, t, i, mode);
  }

  lemma {:induction false} FieldsRead(u: Universe, pinned: map<string, string>, t: string, n: nat, mode: Mode, es: seq<Entry>)
    requires Valid(u) && t in u.types && u.types[t].kind.Struct? && n <= |u.types[t].kind.fields| == |es|
    requires Distinct(es) && forall i | 0 <= i < |es| :: Alone(u, pinned, t, i, mode, es[i])
    ensures Reads(es[..n], FieldsOf(u, pinned, t, n, mode).0, FieldsOf(u, pinned, t, n, mode).1)
  {
    if n > 0 {
      FieldsRead(u, pinned, t, n - 1, mode, es);
      assert Alone(u, pinned, t, n - 1, mode, es[n - 1]);
      ReadsNext(es, n, FieldsOf(u, pinned, t, n - 1, mode), FieldOf(u, pinned, t, n - 1, mode), FieldsOf(u, pinned, t, n, mode));
    }
  }

  lemma ReadsSorted(es: seq<Entry>, properties: map<string, Schema>, required: seq<string>)
    requires Reads(es, properties, required)
    ensures Reads(es, properties, Sort(required))
  {
    forall name
      ensures name in Sort(required) <==> name in required
    {
      assert name in multiset(Sort(required)) <==> name in multiset(required);
    }
    forall i | 0 <= i < |es|
      ensures Said(es[i], properties, Sort(required))
    {
      assert Said(es[i], properties, required);
    }
  }

  /** The schema of such a struct is an object whose properties are exactly the names under which its
      fields appear, each presenting the schema of the field's type, and in which a field is required
      exactly when it must be there. */
  lemma StructReads(u: Universe, pinned: map<string, string>, t: string, mode: Mode)
    requires Valid(u) && Flat(u, t)
    ensures var s := StructOf(u, pinned, t, mode);
            && s.typ == "object" && s.ref == None && s.items == None && s.additional == None && s.allOf == []
            && Reads(EntriesOf(u, pinned, t, mode), s.properties, s.required) && Sorted(s.required)
  {
    var n := |u.types[t].kind.fields|;
    var es := EntriesOf(u, pinned, t, mode);
    forall i | 0 <= i < |es|
      ensures Alone(u, pinned, t, i, mode, es[i])
    {
      EntryIsSaid(u, pinned, t, i, mode, es[i]);
    }
    FieldsRead(u, pinned, t, n, mode, es);
    var f := FieldsOf(u, pinned, t, n, mode);
    assert es[..n] == es;
    ReadsSorted(es, f.0, f.1);
    SortSorted(f.1);
  }

  /** And so is what Register stores for it. */
  lemma RegisteredReads(u: Universe, name: string, t: string, mode: Mode)
    requires Valid(u) && Flat(u, t) && t !in u.wellKnown
    ensures var s := RootSchema(u, name, t, mode);
            s.typ == "object" && Reads(EntriesOf(u, map[t := name], t, mode), s.properties, s.required)
  {
    StructReads(u, map[t := name], t, mode);
  }

  /** An embedded struct contributes its own properties and required names, later fields winning. */
  lemma EmbeddedContributes(u: Universe, pinned: map<string, string>, t: string, i: nat, mode: Mode)
    requires Valid(u) && t in u.types && u.types[t].kind.Struct? && i < |u.types[t].kind.fields|
    requires var f := u.types[t].kind.fields[i];
             f.exported && f.typ in u.types && Embeds(u, f)
    ensures var sub := StructOf(u, pinned, u.types[t].kind.fields[i].typ, mode);
            && FieldsOf(u, pinned, t, i + 1, mode).0 == FieldsOf(u, pinned, t, i, mode).0 + sub.properties
            && FieldsOf(u, pinned, t, i + 1, mode).1 == FieldsOf(u, pinned, t, i, mode).1 + sub.required
  {
  }
}
