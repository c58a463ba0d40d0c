/** Decoded OpenAPI documents and the references in them. A schema reference is an object whose
    `$ref` is `#/components/schemas/<name>` (the Reference Object of section 4.7.23 of the OpenAPI
    Specification 3.0.3). */
module ApiDocs {
  import opened Options
  import opened Graphs

  /** A decoded YAML value; `Scalar` stands for every value that is not a map, list or string. */
  datatype Node =
    | Obj(fields: map<string, Node>)
    | Arr(items: seq<Node>)
    | Str(text: string)
    | Scalar(raw: string)

  type Fields = map<string, Node>

  const REF_PREFIX := "#/components/schemas/"

  /** The schema an object's own `$ref` names, if it is a schema reference. */
  function OwnRef(fields: Fields): set<string> {
    if "$ref" in fields && fields["$ref"].Str? && REF_PREFIX <= fields["$ref"].text
    then {fields["$ref"].text[|REF_PREFIX|..]}
    else {}
  }

  /** Every schema name referenced anywhere in the subtree. */
  function Refs(node: Node): set<string> {
    match node
    case Obj(fields) => OwnRef(fields) + set k, r | k in fields && r in Refs(fields[k]) :: r
    case Arr(items) => set i, r | 0 <= i < |items| && r in Refs(items[i]) :: r
    case Str(_) => {}
    case Scalar(_) => {}
  }

  function RefsOfAll(nodes: Fields): set<string> {
    set k, r | k in nodes && r in Refs(nodes[k]) :: r
  }

  /** collectRefs: the recursive walk that adds what it finds to a set. */
  method CollectRefs(node: Node, into: set<string>) returns (found: set<string>)
    ensures found == into + Refs(node)
    decreases node
  {
    found := into;
    match node {
      case Obj(fields) =>
        found := found + OwnRef(fields);
        var todo := fields.Keys;
        while todo != {}
          invariant todo <= fields.Keys
          invariant found == into + OwnRef(fields) + RefsOfAll(fields - todo)
        {
          var k :| k in todo;
          found := CollectRefs(fields[k], found);
          RefsOfOneMore(fields, todo, k);
          todo := todo - {k};
        }
        assert fields - todo == fields;
        RefsOfObj(fields);
      case Arr(items) =>
        for i := 0 to |items|
          invariant found == into + RefsOfFirst(items, i)
        {
          found := CollectRefs(items[i], found);
          assert RefsOfFirst(items, i + 1) == RefsOfFirst(items, i) + Refs(items[i]);
        }
        RefsOfArr(items);
      case _ =>
    }
  }

  function RefsOfFirst(items: seq<Node>, n: nat): set<string>
    requires n <= |items|
  {
    set i, r | 0 <= i < n && r in Refs(items[i]) :: r
  }

  lemma RefsOfArr(items: seq<Node>)
    ensures Refs(Arr(items)) == RefsOfFirst(items, |items|)
  {
    var node := Arr(items);
    forall r
      ensures r in Refs(node) <==> r in RefsOfFirst(items, |items|)
    {
      if r in RefsOfFirst(items, |items|) {
        var i :| 0 <= i < |items| && r in Refs(items[i]);
        assert r in Refs(node.items[i]);
      }
    }
  }

  lemma RefsOfObj(fields: Fields)
    ensures Refs(Obj(fields)) == OwnRef(fields) + RefsOfAll(fields)
  {
    var node := Obj(fields);
    forall r
      ensures r in Refs(node) <==> r in OwnRef(fields) + RefsOfAll(fields)
    {
      if r in RefsOfAll(fields) {
        var k :| k in fields && r in Refs(fields[k]);
        assert r in Refs(node.fields[k]);
      }
    }
  }

  lemma RefsOfOneMore(nodes: Fields, todo: set<string>, k: string)
    requires todo <= nodes.Keys && k in todo
    ensures RefsOfAll(nodes - (todo - {k})) == RefsOfAll(nodes - todo) + Refs(nodes[k])
  {
    var done, more := nodes - todo, nodes - (todo - {k});
    assert more.Keys == done.Keys + {k};
    forall r | r in RefsOfAll(more)
      ensures r in RefsOfAll(done) + Refs(nodes[k])
    {
      var j :| j in more && r in Refs(more[j]);
      if j != k { assert j in done && done[j] == more[j]; }
    }
    forall r | r in RefsOfAll(done) + Refs(nodes[k])
      ensures r in RefsOfAll(more)
    {
      if r in RefsOfAll(done) {
        var j :| j in done && r in Refs(done[j]);
        assert j in more && more[j] == done[j];
      } else {
        assert k in more && r in Refs(more[k]);
      }
    }
  }

  lemma RefsOfAllMono(few: Fields, many: Fields)
    requires forall k | k in few :: k in many && few[k] == many[k]
    ensures RefsOfAll(few) <= RefsOfAll(many)
  {
    forall r | r in RefsOfAll(few)
      ensures r in RefsOfAll(many)
    {
      var k :| k in few && r in Refs(few[k]);
      assert k in many && r in Refs(many[k]);
    }
  }

  // ---- The transitive closure of references -----------------------------------------------------

  /** From a definition to the names it refers to. A name without a definition is a dangling
      reference and leads nowhere. */
  function RefGraph(schemas: Fields): Edges { map n | n in schemas :: Refs(schemas[n]) }

  /** Halfway through the worklist: `done` has been expanded, `known` is done plus queued. */
  ghost predicate Explored(schemas: Fields, seed: set<string>, done: set<string>, known: set<string>) {
    && seed <= known && done <= known <= seed + RefsOfAll(schemas)
    && (forall n | n in done && n in schemas :: Refs(schemas[n]) <= known)
    && (forall other | seed <= other && Closed(RefGraph(schemas), other) :: known <= other)
  }

  lemma ExploreOne(schemas: Fields, seed: set<string>, done: set<string>, known: set<string>, name: string)
    requires Explored(schemas, seed, done, known) && name in known
    ensures Explored(schemas, seed, done + {name}, known + if name in schemas then Refs(schemas[name]) else {})
  {
    if name in schemas {
      assert Refs(schemas[name]) <= RefsOfAll(schemas);
    }
  }

  /** reachableSchemaNames: a worklist over the references in the kept paths. It terminates on
      cyclic and dangling references and returns exactly the closure. */
  method ReachableSchemaNames(keptPaths: Fields, schemas: Fields) returns (reachable: set<string>)
    ensures IsClosure(RefGraph(schemas), RefsOfAll(keptPaths), reachable)
  {
    var seed := CollectAll(keptPaths);
    reachable := {};
    var queue := ListOf(seed);
    while queue != []
      invariant Explored(schemas, seed, reachable, reachable + Elements(queue))
      decreases seed + RefsOfAll(schemas) - reachable, |queue|
    {
      var name := queue[|queue| - 1];
      ghost var known := reachable + Elements(queue);
      SplitLast(queue);
      queue := queue[..|queue| - 1];
      if name in reachable {
        assert reachable + Elements(queue) == known;
        continue;
      }
      ExploreOne(schemas, seed, reachable, known, name);
      reachable := reachable + {name};
      if name in schemas {
        var next := CollectRefs(schemas[name], {});
        var more := ListOf(next - reachable);
        AppendElements(queue, more);
        queue := queue + more;
        assert reachable + Elements(queue) == known + Refs(schemas[name]);
      } else {
        assert reachable + Elements(queue) == known + {};
      }
    }
    assert reachable + Elements(queue) == reachable;
  }

  function Elements(s: seq<string>): set<string> { set x | x in s }

  lemma SplitLast(s: seq<string>)
    requires s != []
    ensures Elements(s) == Elements(s[..|s| - 1]) + {s[|s| - 1]}
  {
    assert s == s[..|s| - 1] + [s[|s| - 1]];
  }

  lemma AppendElements(s: seq<string>, t: seq<string>)
    ensures Elements(s + t) == Elements(s) + Elements(t)
  {
  }

  /** A set's elements in the arbitrary order of a Go map iteration. */
  method ListOf(names: set<string>) returns (list: seq<string>)
    ensures Elements(list) == names
  {
    list := [];
    var todo := names;
    while todo != {}
      invariant todo <= names && Elements(list) == names - todo
    {
      var n :| n in todo;
      AppendElements(list, [n]);
      list := list + [n];
      todo := todo - {n};
    }
  }

  method CollectAll(nodes: Fields) returns (found: set<string>)
    ensures found == RefsOfAll(nodes)
  {
    found := {};
    var todo := nodes.Keys;
    while todo != {}
      invariant todo <= nodes.Keys && found == RefsOfAll(nodes - todo)
    {
      var k :| k in todo;
      found := CollectRefs(nodes[k], found);
      RefsOfOneMore(nodes, todo, k);
      todo := todo - {k};
    }
    assert nodes - todo == nodes;
  }

  // ---- The closure as a function ------------------------------------------------------------------

  ghost function Reach(schemas: Fields, seed: set<string>): (names: set<string>)
    ensures IsClosure(RefGraph(schemas), seed, names)
  {
    Graphs.Reach(RefGraph(schemas), seed)
  }

  lemma ReachUnique(schemas: Fields, seed: set<string>, names: set<string>)
    requires IsClosure(RefGraph(schemas), seed, names)
    ensures names == Reach(schemas, seed)
  {
    Graphs.ClosureUnique(RefGraph(schemas), seed, names, Reach(schemas, seed));
  }

  lemma ReachGrows(schemas: Fields, few: set<string>, many: set<string>)
    requires few <= many
    ensures Reach(schemas, few) <= Reach(schemas, many)
  {
  }

  lemma ReachFollows(schemas: Fields, seed: set<string>, n: string)
    requires n in Reach(schemas, seed) && n in schemas
    ensures Refs(schemas[n]) <= Reach(schemas, seed)
  {
    assert RefGraph(schemas)[n] == Refs(schemas[n]);
  }

  /** Where everything referred to is defined, everything reachable is. */
  lemma ReachIsDefined(schemas: Fields, seed: set<string>)
    requires seed + RefsOfAll(schemas) <= schemas.Keys
    ensures Reach(schemas, seed) <= schemas.Keys
  {
    forall n | n in schemas
      ensures RefGraph(schemas)[n] <= schemas.Keys
    {
      assert Refs(schemas[n]) <= RefsOfAll(schemas);
    }
    assert Closed(RefGraph(schemas), schemas.Keys);
  }

  /** Where the definitions of everything reachable agree, so do the closures. */
  lemma ReachAgrees(one: Fields, two: Fields, seed: set<string>)
    requires forall n | n in Reach(one, seed) :: (n in one <==> n in two) && (n in one ==> one[n] == two[n])
    ensures Reach(two, seed) == Reach(one, seed)
  {
    var names := Reach(one, seed);
    assert Closed(RefGraph(two), names);
    forall other | seed <= other && Closed(RefGraph(two), other)
      ensures names <= other
    {
      assert Closed(RefGraph(one), other * names);
    }
    ReachUnique(two, seed, names);
  }
}
