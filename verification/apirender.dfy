/** From the generator's components to the document that folding reads: schemas as decoded YAML. */
module ApiRender {
  import opened Options
  import opened ApiDocs
  import ApiGen
  import ApiFold
  import ApiAssembly

  const KEYS := {"$ref", "type", "format", "description", "nullable", "required", "properties", "items",
                 "additionalProperties", "allOf"}

  function Text(value: string): Option<Node> { if value == "" then None else Some(Str(value)) }

  function Texts(values: seq<string>): Option<Node> {
    if values == [] then None else Some(Arr(seq(|values|, i requires 0 <= i < |values| => Str(values[i]))))
  }

  function Nodes(schemas: seq<ApiGen.Schema>): (nodes: seq<Node>)
    ensures |nodes| == |schemas| && forall i | 0 <= i < |nodes| :: nodes[i] == NodeOf(schemas[i])
    decreases schemas, 2
  {
    seq(|schemas|, i requires 0 <= i < |schemas| => NodeOf(schemas[i]))
  }

  /** The member of a schema's JSON object under a key; None is left out. */
  function Member(s: ApiGen.Schema, key: string): Option<Node>
    decreases s, 0
  {
    if key == "$ref" then (if s.ref.None? then None else Some(Str(REF_PREFIX + s.ref.value)))
    else if key == "type" then Text(s.typ)
    else if key == "format" then Text(s.format)
    else if key == "description" then Text(s.description)
    else if key == "nullable" then (if s.nullable then Some(Scalar("true")) else None)
    else if key == "required" then Texts(s.required)
    else if key == "items" then (if s.items.None? then None else Some(NodeOf(s.items.value)))
    else if key == "additionalProperties" then (if s.additional.None? then None else Some(NodeOf(s.additional.value)))
    else if key == "allOf" then (if s.allOf == [] then None else Some(Arr(Nodes(s.allOf))))
    else if key == "properties" then
      (if s.properties == map[] then None else Some(Obj(map k | k in s.properties :: NodeOf(s.properties[k]))))
    else None
  }

  function Members(s: ApiGen.Schema): Fields
    decreases s, 1
  {
    map key | key in KEYS && Member(s, key).Some? :: Member(s, key).value
  }

  function NodeOf(s: ApiGen.Schema): Node
    decreases s, 2
  {
    Obj(Members(s))
  }

  // ---- The references are the same -------------------------------------------------------------------

  function RefsOfEach(schemas: seq<ApiGen.Schema>): set<string> {
    set i, r | 0 <= i < |schemas| && r in ApiGen.Refs(schemas[i]) :: r
  }

  /** The references of a schema that are in the member under this key. */
  function RefsUnder(s: ApiGen.Schema, key: string): set<string> {
    if key == "items" && s.items.Some? then ApiGen.Refs(s.items.value)
    else if key == "additionalProperties" && s.additional.Some? then ApiGen.Refs(s.additional.value)
    else if key == "allOf" then RefsOfEach(s.allOf)
    else if key == "properties" then ApiGen.RefsOfAll(s.properties)
    else {}
  }

  lemma RefsByKey(s: ApiGen.Schema)
    ensures ApiGen.Refs(s) == (if s.ref.Some? then {s.ref.value} else {}) +
            RefsUnder(s, "items") + RefsUnder(s, "additionalProperties") + RefsUnder(s, "allOf") + RefsUnder(s, "properties")
  {
  }

  function MemberRefs(node: Option<Node>): set<string> { if node.None? then {} else Refs(node.value) }

  lemma TextsRefs(values: seq<string>)
    ensures MemberRefs(Texts(values)) == {}
  {
    if values != [] { RefsOfArr(Texts(values).value.items); }
  }

  lemma NodesRefs(schemas: seq<ApiGen.Schema>, nodes: seq<Node>)
    requires |nodes| == |schemas| && forall i | 0 <= i < |nodes| :: Refs(nodes[i]) == ApiGen.Refs(schemas[i])
    ensures Refs(Arr(nodes)) == RefsOfEach(schemas)
  {
    RefsOfArr(nodes);
    forall r
      ensures r in RefsOfFirst(nodes, |nodes|) <==> r in RefsOfEach(schemas)
    {
      if r in RefsOfFirst(nodes, |nodes|) {
        var i :| 0 <= i < |nodes| && r in Refs(nodes[i]);
        assert r in ApiGen.Refs(schemas[i]);
      }
      if r in RefsOfEach(schemas) {
        var i :| 0 <= i < |schemas| && r in ApiGen.Refs(schemas[i]);
        assert r in Refs(nodes[i]);
      }
    }
  }

  lemma PropertiesRefs(properties: map<string, ApiGen.Schema>, nodes: Fields)
    requires nodes.Keys == properties.Keys
    requires forall k | k in nodes :: nodes[k].Obj? && Refs(nodes[k]) == ApiGen.Refs(properties[k])
    ensures Refs(Obj(nodes)) == ApiGen.RefsOfAll(properties)
  {
    RefsOfObj(nodes);
    forall r
      ensures r in RefsOfAll(nodes) <==> r in ApiGen.RefsOfAll(properties)
    {
      if r in RefsOfAll(nodes) {
        var k :| k in nodes && r in Refs(nodes[k]);
        assert k in properties && r in ApiGen.Refs(properties[k]);
      }
      if r in ApiGen.RefsOfAll(properties) {
        var k :| k in properties && r in ApiGen.Refs(properties[k]);
        assert k in nodes && r in Refs(nodes[k]);
      }
    }
  }

  lemma {:induction false} MemberHasRefs(s: ApiGen.Schema, key: string)
    ensures MemberRefs(Member(s, key)) == RefsUnder(s, key)
    decreases s, 0, 1
  {
    if key == "required" {
      TextsRefs(s.required);
    } else if key == "items" {
      if s.items.Some? { NodeRefs(s.items.value); }
    } else if key == "additionalProperties" {
      if s.additional.Some? { NodeRefs(s.additional.value); }
    } else if key == "allOf" {
      AllOfRefs(s);
    } else if key == "properties" {
      PropertyRefs(s);
    }
  }

  lemma {:induction false} AllOfRefs(s: ApiGen.Schema)
    ensures MemberRefs(Member(s, "allOf")) == RefsUnder(s, "allOf")
    decreases s, 0, 0
  {
    var nodes := Nodes(s.allOf);
    forall i | 0 <= i < |nodes|
      ensures Refs(nodes[i]) == ApiGen.Refs(s.allOf[i])
    {
      NodeRefs(s.allOf[i]);
    }
    NodesRefs(s.allOf, nodes);
  }

  lemma {:induction false} PropertyRefs(s: ApiGen.Schema)
    ensures MemberRefs(Member(s, "properties")) == RefsUnder(s, "properties")
    decreases s, 0, 0
  {
    var nodes := map k | k in s.properties :: NodeOf(s.properties[k]);
    forall k | k in nodes
      ensures nodes[k].Obj? && Refs(nodes[k]) == ApiGen.Refs(s.properties[k])
    {
      NodeRefs(s.properties[k]);
    }
    PropertiesRefs(s.properties, nodes);
  }

  lemma MembersOwnRef(s: ApiGen.Schema)
    ensures OwnRef(Members(s)) == if s.ref.Some? then {s.ref.value} else {}
  {
    assert "$ref" in KEYS;
    if s.ref.Some? {
      assert Member(s, "$ref") == Some(Str(REF_PREFIX + s.ref.value));
      assert Members(s)["$ref"] == Str(REF_PREFIX + s.ref.value);
      assert (REF_PREFIX + s.ref.value)[|REF_PREFIX|..] == s.ref.value;
    }
  }

  lemma UnderWhichKey(s: ApiGen.Schema, key: string, r: string)
    requires key in Members(s) && r in Refs(Members(s)[key]) && MemberRefs(Member(s, key)) == RefsUnder(s, key)
    ensures r in RefsUnder(s, "items") + RefsUnder(s, "additionalProperties") + RefsUnder(s, "allOf") + RefsUnder(s, "properties")
  {
    assert r in RefsUnder(s, key);
  }

  /** Gathering the members gathers what each of them refers to. */
  lemma Gathered(s: ApiGen.Schema)
    requires forall key :: MemberRefs(Member(s, key)) == RefsUnder(s, key)
    ensures RefsOfAll(Members(s)) ==
            RefsUnder(s, "items") + RefsUnder(s, "additionalProperties") + RefsUnder(s, "allOf") + RefsUnder(s, "properties")
  {
    forall r | r in RefsOfAll(Members(s))
      ensures r in RefsUnder(s, "items") + RefsUnder(s, "additionalProperties") + RefsUnder(s, "allOf") + RefsUnder(s, "properties")
    {
      var key :| key in Members(s) && r in Refs(Members(s)[key]);
      UnderWhichKey(s, key, r);
    }
    MemberIsGathered(s, "items");
    MemberIsGathered(s, "additionalProperties");
    MemberIsGathered(s, "allOf");
    MemberIsGathered(s, "properties");
  }

  lemma MemberIsGathered(s: ApiGen.Schema, key: string)
    requires key in KEYS && MemberRefs(Member(s, key)) == RefsUnder(s, key)
    ensures RefsUnder(s, key) <= RefsOfAll(Members(s))
  {
    if Member(s, key).Some? { assert Members(s)[key] == Member(s, key).value; }
  }

  /** Rendering loses no reference and adds none. */
  lemma {:induction false} NodeRefs(s: ApiGen.Schema)
    ensures Refs(NodeOf(s)) == ApiGen.Refs(s)
    decreases s, 1
  {
    forall key ensures MemberRefs(Member(s, key)) == RefsUnder(s, key) { MemberHasRefs(s, key); }
    RefsOfObj(Members(s));
    MembersOwnRef(s);
    Gathered(s);
    RefsByKey(s);
  }

  // ---- A generated document is self-contained -----------------------------------------------------------

  function Rendered(defs: map<string, ApiGen.Schema>): Fields { map n | n in defs :: NodeOf(defs[n]) }

  /** A document whose components come from the generator, whose paths refer to components it defines,
      and whose well-known schemas do too, is self-contained. */
  lemma GeneratedIsSelfContained(u: ApiGen.Universe, defs: map<string, ApiGen.Schema>, paths: Fields, tags: seq<Node>)
    requires ApiGen.Complete(u, defs) && ApiGen.WellKnownRefs(u) <= defs.Keys && RefsOfAll(paths) <= defs.Keys
    ensures ApiAssembly.SelfContained(ApiFold.Spec(paths, Rendered(defs), tags))
  {
    var schemas := Rendered(defs);
    forall r | r in RefsOfAll(schemas)
      ensures r in schemas.Keys
    {
      var n :| n in schemas && r in Refs(schemas[n]);
      NodeRefs(defs[n]);
    }
  }
}
