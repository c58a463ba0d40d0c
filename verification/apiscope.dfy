/** Scoping a document to path prefixes (scopeToPrefixes and pruneTags in axisml-standalone/openapi.go):
    drop the other paths, prune the schemas to the reference closure of what is left, and drop the
    tags no surviving operation uses. */
module ApiScope {
  import opened Options
  import opened ApiDocs
  import Graphs

  const VERBS := ["get", "post", "put", "patch", "delete"]

  // ---- Reading a document -------------------------------------------------------------------------

  function MapAt(fields: Fields, key: string): Option<Fields> {
    if key in fields && fields[key].Obj? then Some(fields[key].fields) else None
  }

  function Paths(doc: Fields): Fields {
    var m := MapAt(doc, "paths");
    if m.Some? then m.value else map[]
  }

  /** nestedMap(doc, "components", "schemas"). */
  function Schemas(doc: Fields): Option<Fields> {
    var c := MapAt(doc, "components");
    if c.Some? then MapAt(c.value, "schemas") else None
  }

  function WithSchemas(doc: Fields, schemas: Fields): Fields
    requires Schemas(doc).Some?
  {
    doc["components" := Obj(doc["components"].fields["schemas" := Obj(schemas)])]
  }

  /** The tag names one operation lists. */
  function TagsOfOp(op: Node): set<string> {
    if op.Obj? && "tags" in op.fields && op.fields["tags"].Arr? then
      set t | t in op.fields["tags"].items && t.Str? :: t.text
    else {}
  }

  function UsedTags(paths: Fields): set<string> {
    set p, v, t | p in paths && v in VERBS && paths[p].Obj? && v in paths[p].fields &&
                  t in TagsOfOp(paths[p].fields[v]) :: t
  }

  /** A tag definition that one of the names refers to. */
  predicate Names(tag: Node, used: set<string>) {
    tag.Obj? && "name" in tag.fields && tag.fields["name"].Str? && tag.fields["name"].text in used
  }

  function KeepTags(tags: seq<Node>, used: set<string>): seq<Node> {
    if tags == [] then []
    else (if Names(tags[0], used) then [tags[0]] else []) + KeepTags(tags[1..], used)
  }

  // ---- The specification of scoping -----------------------------------------------------------------

  function Keep(paths: Fields, keep: set<string>): Fields {
    map p | p in paths && p in keep :: paths[p]
  }

  ghost function Pruned(schemas: Fields, paths: Fields): Fields {
    map n | n in schemas && n in Reach(schemas, RefsOfAll(paths)) :: schemas[n]
  }

  function SchemasOr(doc: Fields): Fields { if Schemas(doc).Some? then Schemas(doc).value else map[] }

  predicate HasTags(doc: Fields) { "tags" in doc && doc["tags"].Arr? }

  function TagsOr(doc: Fields): seq<Node> { if HasTags(doc) then doc["tags"].items else [] }

  /** The document with its paths replaced, and its schemas and tags where it has any. */
  function Assembled(doc: Fields, paths: Fields, schemas: Fields, tags: seq<Node>): Fields {
    var d := doc["paths" := Obj(paths)];
    var d := if Schemas(doc).Some? then WithSchemas(d, schemas) else d;
    if HasTags(doc) then d["tags" := Arr(tags)] else d
  }

  /** The document with exactly these paths kept. */
  ghost function ScopedTo(doc: Fields, keep: set<string>): Fields {
    var kept := Keep(Paths(doc), keep);
    Assembled(doc, kept, Pruned(SchemasOr(doc), kept), KeepTags(TagsOr(doc), UsedTags(kept)))
  }

  /** Equal to the prefix or nested under it on a path-segment boundary. */
  predicate Under(path: string, prefix: string) { path == prefix || prefix + "/" <= path }

  function MatchingPaths(paths: Fields, prefixes: seq<string>): set<string> {
    set p | p in paths && exists i :: 0 <= i < |prefixes| && Under(p, prefixes[i])
  }

  function Matching(doc: Fields, prefixes: seq<string>): set<string> { MatchingPaths(Paths(doc), prefixes) }

  // ---- The implementation -----------------------------------------------------------------------------

  method MatchesAnyPrefix(path: string, prefixes: seq<string>) returns (yes: bool)
    ensures yes <==> exists i :: 0 <= i < |prefixes| && Under(path, prefixes[i])
  {
    for i := 0 to |prefixes|
      invariant forall j | 0 <= j < i :: !Under(path, prefixes[j])
    {
      var pre := prefixes[i];
      if path == pre || pre + "/" <= path {
        return true;
      }
    }
    return false;
  }

  /** The path loop of scopeToPrefixes. */
  method KeepMatching(paths: Fields, prefixes: seq<string>) returns (kept: Fields)
    ensures kept == Keep(paths, MatchingPaths(paths, prefixes))
  {
    kept := map[];
    var todo := paths.Keys;
    ghost var keep := MatchingPaths(paths, prefixes);
    while todo != {}
      invariant todo <= paths.Keys && kept == Keep(paths - todo, keep)
    {
      var p :| p in todo;
      var yes := MatchesAnyPrefix(p, prefixes);
      if yes {
        kept := kept[p := paths[p]];
      }
      todo := todo - {p};
    }
    assert paths - todo == paths;
  }

  /** The schema part of scopeToPrefixes. */
  method PruneSchemas(kept: Fields, schemas: Fields) returns (pruned: Fields)
    ensures pruned == Pruned(schemas, kept)
  {
    var reachable := ReachableSchemaNames(kept, schemas);
    ReachUnique(schemas, RefsOfAll(kept), reachable);
    pruned := DropUnreachable(schemas, reachable);
  }

  class Document {
    var root: Fields

    constructor (root: Fields)
      ensures this.root == root
    {
      this.root := root;
    }

    /** scopeToPrefixes: the paths, then the schemas, then the tags, in place. */
    method ScopeToPrefixes(prefixes: seq<string>)
      modifies this
      ensures root == ScopedTo(old(root), Matching(old(root), prefixes))
    {
      var kept := KeepMatching(Paths(root), prefixes);
      root := root["paths" := Obj(kept)];
      if Schemas(root).Some? {
        var pruned := PruneSchemas(kept, Schemas(root).value);
        root := WithSchemas(root, pruned);
      }
      PruneTags(kept);
    }

    /** pruneTags: the names the kept operations use, then the definitions they name. */
    method PruneTags(kept: Fields)
      modifies this
      ensures root == if HasTags(old(root))
                      then old(root)["tags" := Arr(KeepTags(TagsOr(old(root)), UsedTags(kept)))] else old(root)
    {
      if !HasTags(root) {
        return;
      }
      var used := TagsInUse(kept);
      var tags := FilterTags(TagsOr(root), used);
      root := root["tags" := Arr(tags)];
    }
  }

  method FilterTags(tags: seq<Node>, used: set<string>) returns (kept: seq<Node>)
    ensures kept == KeepTags(tags, used)
  {
    kept := [];
    for i := 0 to |tags|
      invariant kept + KeepTags(tags[i..], used) == KeepTags(tags, used)
    {
      assert tags[i..][1..] == tags[i + 1..];
      if Names(tags[i], used) {
        assert kept + ([tags[i]] + KeepTags(tags[i + 1..], used)) == kept + [tags[i]] + KeepTags(tags[i + 1..], used);
        kept := kept + [tags[i]];
      } else {
        assert [] + KeepTags(tags[i + 1..], used) == KeepTags(tags[i + 1..], used);
      }
    }
    assert tags[|tags|..] == [] && kept + [] == kept;
  }

  method TagsInUse(kept: Fields) returns (used: set<string>)
    ensures used == UsedTags(kept)
  {
    used := {};
    var todo := kept.Keys;
    while todo != {}
      invariant todo <= kept.Keys && used == UsedTags(kept - todo)
    {
      var p :| p in todo;
      var item := kept[p];
      var found := if item.Obj? then set v, t | v in VERBS && v in item.fields && t in TagsOfOp(item.fields[v]) :: t
                   else {};
      UsedTagsOfOneMore(kept, todo, p);
      used := used + found;
      todo := todo - {p};
    }
    assert kept - todo == kept;
  }

  lemma UsedTagsOfOneMore(paths: Fields, todo: set<string>, p: string)
    requires todo <= paths.Keys && p in todo
    ensures UsedTags(paths - (todo - {p})) == UsedTags(paths - todo) +
            if paths[p].Obj? then set v, t | v in VERBS && v in paths[p].fields && t in TagsOfOp(paths[p].fields[v]) :: t
            else {}
  {
    var done, more := paths - todo, paths - (todo - {p});
    assert more.Keys == done.Keys + {p};
    forall t | t in UsedTags(done)
      ensures t in UsedTags(more)
    {
      var q, v :| q in done && v in VERBS && done[q].Obj? && v in done[q].fields && t in TagsOfOp(done[q].fields[v]);
      assert q in more && more[q] == done[q];
    }
    forall t | t in UsedTags(more)
      ensures t in UsedTags(done) || (paths[p].Obj? && exists v :: v in VERBS && v in paths[p].fields && t in TagsOfOp(paths[p].fields[v]))
    {
      var q, v :| q in more && v in VERBS && more[q].Obj? && v in more[q].fields && t in TagsOfOp(more[q].fields[v]);
      if q != p { assert q in done && done[q] == more[q]; }
    }
    if paths[p].Obj? {
      forall v, t | v in VERBS && v in paths[p].fields && t in TagsOfOp(paths[p].fields[v])
        ensures t in UsedTags(more)
      {
        assert more[p] == paths[p];
      }
    }
  }

  method DropUnreachable(schemas: Fields, reachable: set<string>) returns (pruned: Fields)
    ensures pruned == map n | n in schemas && n in reachable :: schemas[n]
  {
    pruned := schemas;
    var todo := schemas.Keys;
    while todo != {}
      invariant todo <= schemas.Keys
      invariant pruned == map n | n in schemas && (n in todo || n in reachable) :: schemas[n]
    {
      var n :| n in todo;
      if n !in reachable {
        pruned := pruned - {n};
      }
      todo := todo - {n};
    }
  }

  // ---- What is kept --------------------------------------------------------------------------------------

  /** A path is under a prefix when it is the prefix or goes on with a slash after it. */
  lemma UnderIff(path: string, prefix: string)
    ensures Under(path, prefix) <==> path == prefix || exists rest :: path == prefix + "/" + rest
  {
    if prefix + "/" <= path { assert path == prefix + "/" + path[|prefix| + 1..]; }
    if rest :| path == prefix + "/" + rest { assert prefix + "/" <= path; }
  }

  /** Exactly the tag definitions that have one of the names are kept. */
  lemma {:induction false} KeepTagsIff(tags: seq<Node>, used: set<string>, tag: Node)
    ensures tag in KeepTags(tags, used) <==>
            tag in tags && tag.Obj? && "name" in tag.fields && exists name :: name in used && tag.fields["name"] == Str(name)
  {
    if tags != [] {
      KeepTagsIff(tags[1..], used, tag);
      assert tags == [tags[0]] + tags[1..];
    }
  }

  /** The operation lists the name among its tags. */
  predicate ListsTag(op: Node, name: string) {
    op.Obj? && "tags" in op.fields && op.fields["tags"].Arr? && Str(name) in op.fields["tags"].items
  }

  lemma TagsOfOpIff(op: Node, name: string)
    ensures name in TagsOfOp(op) <==> ListsTag(op, name)
  {
  }

  /** The path item has an operation of this verb that lists the name. */
  predicate ItemLists(item: Node, verb: string, name: string) {
    item.Obj? && verb in item.fields && ListsTag(item.fields[verb], name)
  }

  /** Exactly the names are used that some get, post, put, patch or delete operation lists. */
  lemma UsedTagsIff(paths: Fields, name: string)
    ensures name in UsedTags(paths) <==>
            exists p, verb :: p in paths && verb in {"get", "post", "put", "patch", "delete"} && ItemLists(paths[p], verb, name)
  {
    if name in UsedTags(paths) {
      var p, v :| p in paths && v in VERBS && paths[p].Obj? && v in paths[p].fields && name in TagsOfOp(paths[p].fields[v]);
      TagsOfOpIff(paths[p].fields[v], name);
      assert ItemLists(paths[p], v, name);
    }
    if p, verb :| p in paths && verb in {"get", "post", "put", "patch", "delete"} && ItemLists(paths[p], verb, name) {
      TagsOfOpIff(paths[p].fields[verb], name);
      assert verb in VERBS;
    }
  }

  // ---- Dangling and unreferenced schemas ------------------------------------------------------------

  function Defined(doc: Fields): set<string> {
    if Schemas(doc).Some? then Schemas(doc).value.Keys else {}
  }

  function InPaths(doc: Fields): set<string> { RefsOfAll(Paths(doc)) }

  function InSchemas(doc: Fields): set<string> {
    if Schemas(doc).Some? then RefsOfAll(Schemas(doc).value) else {}
  }

  /** References in the rest of the document: other components, and other top-level members. */
  function Elsewhere(doc: Fields): set<string> {
    RefsOfAll(doc - {"paths", "components"}) +
    (if MapAt(doc, "components").Some? then RefsOfAll(doc["components"].fields - {"schemas"}) else {})
  }

  predicate NothingDangles(doc: Fields) {
    InPaths(doc) + InSchemas(doc) + Elsewhere(doc) <= Defined(doc)
  }

  lemma AssembledParts(doc: Fields, paths: Fields, schemas: Fields, tags: seq<Node>)
    ensures var d := Assembled(doc, paths, schemas, tags);
            && Paths(d) == paths
            && (Schemas(d).Some? <==> Schemas(doc).Some?) && (Schemas(d).Some? ==> Schemas(d).value == schemas)
            && (HasTags(d) <==> HasTags(doc)) && (HasTags(d) ==> TagsOr(d) == tags)
  {
  }

  /** The members of an assembled document one by one. */
  lemma AssembledAt(doc: Fields, paths: Fields, schemas: Fields, tags: seq<Node>, key: string)
    ensures var d := Assembled(doc, paths, schemas, tags);
            && (key in d <==> key in doc || key == "paths")
            && (key in d ==> d[key] == (if key == "paths" then Obj(paths)
                                        else if key == "components" && Schemas(doc).Some?
                                        then Obj(doc["components"].fields["schemas" := Obj(schemas)])
                                        else if key == "tags" && HasTags(doc) then Arr(tags) else doc[key]))
  {
  }

  lemma AssembledTwice(doc: Fields, p: Fields, s: Fields, t: seq<Node>, p': Fields, s': Fields, t': seq<Node>)
    ensures Assembled(Assembled(doc, p, s, t), p', s', t') == Assembled(doc, p', s', t')
  {
    AssembledParts(doc, p, s, t);
    var d1 := Assembled(doc, p, s, t);
    forall k
      ensures k in Assembled(d1, p', s', t') <==> k in Assembled(doc, p', s', t')
      ensures k in Assembled(doc, p', s', t') ==> Assembled(d1, p', s', t')[k] == Assembled(doc, p', s', t')[k]
    {
      SameMember(doc, p, s, t, p', s', t', k);
    }
  }

  lemma SameMember(doc: Fields, p: Fields, s: Fields, t: seq<Node>, p': Fields, s': Fields, t': seq<Node>, k: string)
    ensures var twice, once := Assembled(Assembled(doc, p, s, t), p', s', t'), Assembled(doc, p', s', t');
            (k in twice <==> k in once) && (k in once ==> twice[k] == once[k])
  {
    AssembledParts(doc, p, s, t);
    AssembledAt(doc, p, s, t, k);
    AssembledAt(Assembled(doc, p, s, t), p', s', t', k);
    AssembledAt(doc, p', s', t', k);
    if k == "components" && Schemas(doc).Some? {
      var c := doc["components"].fields;
      assert c["schemas" := Obj(s)]["schemas" := Obj(s')] == c["schemas" := Obj(s')];
    }
  }

  lemma ScopedParts(doc: Fields, keep: set<string>)
    ensures Paths(ScopedTo(doc, keep)) == Keep(Paths(doc), keep)
    ensures Schemas(doc).Some? <==> Schemas(ScopedTo(doc, keep)).Some?
    ensures Schemas(doc).Some? ==>
              Schemas(ScopedTo(doc, keep)).value == Pruned(Schemas(doc).value, Keep(Paths(doc), keep))
  {
    var kept := Keep(Paths(doc), keep);
    AssembledParts(doc, kept, Pruned(SchemasOr(doc), kept), KeepTags(TagsOr(doc), UsedTags(kept)));
  }

  /** Scoping by prefixes keeps exactly the paths that are one of them or lie below one, as they are. */
  lemma ScopedPathsIff(doc: Fields, prefixes: seq<string>, p: string)
    ensures var d := ScopedTo(doc, Matching(doc, prefixes));
            && (p in Paths(d) <==>
                p in Paths(doc) && exists i :: 0 <= i < |prefixes| && (p == prefixes[i] || prefixes[i] + "/" <= p))
            && (p in Paths(d) ==> Paths(d)[p] == Paths(doc)[p])
  {
    ScopedParts(doc, Matching(doc, prefixes));
    if p in Paths(doc) && exists i :: 0 <= i < |prefixes| && (p == prefixes[i] || prefixes[i] + "/" <= p) {
      var i :| 0 <= i < |prefixes| && (p == prefixes[i] || prefixes[i] + "/" <= p);
      assert Under(p, prefixes[i]);
    }
  }

  /** And exactly the tag definitions that some kept operation names, in their order. */
  lemma ScopedTagsIff(doc: Fields, keep: set<string>, tag: Node)
    requires HasTags(doc)
    ensures var d := ScopedTo(doc, keep);
            && HasTags(d)
            && (tag in TagsOr(d) <==>
                tag in TagsOr(doc) && tag.Obj? && "name" in tag.fields &&
                exists name :: name in UsedTags(Keep(Paths(doc), keep)) && tag.fields["name"] == Str(name))
  {
    var kept := Keep(Paths(doc), keep);
    AssembledParts(doc, kept, Pruned(SchemasOr(doc), kept), KeepTags(TagsOr(doc), UsedTags(kept)));
    KeepTagsIff(TagsOr(doc), UsedTags(kept), tag);
  }

  /** Pruning keeps the definition of everything reachable, so closures inside it are unchanged. */
  lemma PrunedReach(schemas: Fields, paths: Fields, seed: set<string>)
    requires seed <= RefsOfAll(paths)
    ensures Reach(Pruned(schemas, paths), seed) == Reach(schemas, seed)
  {
    ReachGrows(schemas, seed, RefsOfAll(paths));
    ReachAgrees(schemas, Pruned(schemas, paths), seed);
  }

  lemma PrunedRefs(schemas: Fields, paths: Fields)
    ensures RefsOfAll(Pruned(schemas, paths)) <= Reach(schemas, RefsOfAll(paths))
  {
    forall r | r in RefsOfAll(Pruned(schemas, paths))
      ensures r in Reach(schemas, RefsOfAll(paths))
    {
      var n :| n in Pruned(schemas, paths) && r in Refs(Pruned(schemas, paths)[n]);
      ReachFollows(schemas, RefsOfAll(paths), n);
    }
  }

  lemma PrunedIsReach(schemas: Fields, paths: Fields)
    requires RefsOfAll(paths) + RefsOfAll(schemas) <= schemas.Keys
    ensures Pruned(schemas, paths).Keys == Reach(schemas, RefsOfAll(paths))
    ensures RefsOfAll(paths) + RefsOfAll(Pruned(schemas, paths)) <= Pruned(schemas, paths).Keys
  {
    ReachIsDefined(schemas, RefsOfAll(paths));
    PrunedRefs(schemas, paths);
  }

  /** Scoping never breaks a reference from a kept path or a kept schema, and keeps no schema that
      the kept paths do not reach. */
  lemma ScopedClosure(doc: Fields, keep: set<string>)
    requires Schemas(doc).Some? && InPaths(doc) + InSchemas(doc) <= Defined(doc)
    ensures var d := ScopedTo(doc, keep);
            && InPaths(d) + InSchemas(d) <= Defined(d)
            && Schemas(d).Some? && Defined(d) == Reach(Schemas(d).value, InPaths(d))
  {
    ScopedParts(doc, keep);
    var schemas, kept := Schemas(doc).value, Keep(Paths(doc), keep);
    RefsOfAllMono(kept, Paths(doc));
    PrunedIsReach(schemas, kept);
    PrunedReach(schemas, kept, RefsOfAll(kept));
  }

  /** The members that scoping leaves alone, with the tag definitions it keeps. */
  function Untouched(doc: Fields, keep: set<string>): Fields {
    var rest := doc - {"paths", "components"};
    if HasTags(doc) then rest["tags" := Arr(KeepTags(TagsOr(doc), UsedTags(Keep(Paths(doc), keep))))] else rest
  }

  /** What will still be referred to from outside the paths and schemas. */
  function StillReferred(doc: Fields, keep: set<string>): set<string> {
    RefsOfAll(Untouched(doc, keep)) +
    (if MapAt(doc, "components").Some? then RefsOfAll(doc["components"].fields - {"schemas"}) else {})
  }

  lemma ElsewhereAfterScoping(doc: Fields, keep: set<string>)
    ensures Elsewhere(ScopedTo(doc, keep)) == StillReferred(doc, keep)
  {
    var kept := Keep(Paths(doc), keep);
    ElsewhereOfAssembled(doc, kept, Pruned(SchemasOr(doc), kept), KeepTags(TagsOr(doc), UsedTags(kept)));
  }

  lemma ElsewhereOfAssembled(doc: Fields, paths: Fields, schemas: Fields, tags: seq<Node>)
    ensures var d := Assembled(doc, paths, schemas, tags);
            && d - {"paths", "components"} ==
               (if HasTags(doc) then (doc - {"paths", "components"})["tags" := Arr(tags)] else doc - {"paths", "components"})
            && (MapAt(d, "components").Some? <==> MapAt(doc, "components").Some?)
            && (MapAt(d, "components").Some? ==>
                  d["components"].fields - {"schemas"} == doc["components"].fields - {"schemas"})
  {
    var d := Assembled(doc, paths, schemas, tags);
    AssembledAt(doc, paths, schemas, tags, "components");
    forall k
      ensures k in d <==> k in doc || k == "paths"
      ensures k in d && k != "paths" && k != "components" ==> d[k] == if k == "tags" && HasTags(doc) then Arr(tags) else doc[k]
    {
      AssembledAt(doc, paths, schemas, tags, k);
    }
  }

  /** A document free of dangling references stays so under scoping exactly when what its other
      parts still refer to is reachable from the kept paths: scoping does not follow references
      that go through other components. */
  lemma ScopedDanglesIff(doc: Fields, keep: set<string>)
    requires NothingDangles(doc)
    ensures NothingDangles(ScopedTo(doc, keep)) <==>
            StillReferred(doc, keep) <= Reach(SchemasOr(doc), RefsOfAll(Keep(Paths(doc), keep)))
  {
    ElsewhereAfterScoping(doc, keep);
    ScopedParts(doc, keep);
    var kept := Keep(Paths(doc), keep);
    if Schemas(doc).Some? {
      ScopedClosure(doc, keep);
      PrunedReach(Schemas(doc).value, kept, RefsOfAll(kept));
    } else {
      RefsOfAllMono(kept, Paths(doc));
      assert RefsOfAll(kept) == {};
      NothingReached(SchemasOr(doc));
    }
  }

  // ---- Documents that refer from paths and schemas only ---------------------------------------------

  /** The references without a definition. */
  function Dangling(doc: Fields): set<string> { InPaths(doc) + InSchemas(doc) + Elsewhere(doc) - Defined(doc) }

  lemma {:induction false} KeptTagRefs(tags: seq<Node>, used: set<string>)
    ensures Refs(Arr(KeepTags(tags, used))) <= Refs(Arr(tags))
  {
    RefsOfArr(tags);
    RefsOfArr(KeepTags(tags, used));
    forall i | 0 <= i < |KeepTags(tags, used)|
      ensures Refs(KeepTags(tags, used)[i]) <= RefsOfFirst(tags, |tags|)
    {
      KeptTagsAreTags(tags, used);
      assert KeepTags(tags, used)[i] in KeepTags(tags, used);
      var j :| 0 <= j < |tags| && tags[j] == KeepTags(tags, used)[i];
    }
  }

  lemma {:induction false} KeptTagsAreTags(tags: seq<Node>, used: set<string>)
    ensures forall t | t in KeepTags(tags, used) :: t in tags
  {
    if tags != [] { KeptTagsAreTags(tags[1..], used); }
  }

  lemma StillReferredIsElsewhere(doc: Fields, keep: set<string>)
    ensures StillReferred(doc, keep) <= Elsewhere(doc)
  {
    var rest, kept := doc - {"paths", "components"}, Untouched(doc, keep);
    if HasTags(doc) { KeptTagRefs(TagsOr(doc), UsedTags(Keep(Paths(doc), keep))); }
    forall r | r in RefsOfAll(kept)
      ensures r in RefsOfAll(rest)
    {
      var k :| k in kept && r in Refs(kept[k]);
      assert k in rest && r in Refs(rest[k]);
    }
  }

  /** References from paths and schemas that dangle after scoping dangled before. */
  lemma PrunedDangling(schemas: Fields, paths: Fields, kept: Fields)
    requires forall p | p in kept :: p in paths && kept[p] == paths[p]
    ensures var pruned := Pruned(schemas, kept);
            RefsOfAll(kept) + RefsOfAll(pruned) - pruned.Keys <= RefsOfAll(paths) + RefsOfAll(schemas) - schemas.Keys
  {
    var pruned := Pruned(schemas, kept);
    RefsOfAllMono(kept, paths);
    RefsOfAllMono(pruned, schemas);
    PrunedRefs(schemas, kept);
    assert RefsOfAll(kept) <= Reach(schemas, RefsOfAll(kept));
  }

  /** A document whose other members hold no reference is scoped without a new dangling one, whether
      or not it had any. */
  lemma ScopingAddsNoDangling(doc: Fields, keep: set<string>)
    requires Elsewhere(doc) == {}
    ensures Dangling(ScopedTo(doc, keep)) <= Dangling(doc)
  {
    ElsewhereAfterScoping(doc, keep);
    StillReferredIsElsewhere(doc, keep);
    ScopedParts(doc, keep);
    var kept := Keep(Paths(doc), keep);
    RefsOfAllMono(kept, Paths(doc));
    if Schemas(doc).Some? { PrunedDangling(Schemas(doc).value, Paths(doc), kept); }
  }

  // ---- Composition ---------------------------------------------------------------------------------

  lemma {:induction false} KeepTagsTwice(tags: seq<Node>, used: set<string>, fewer: set<string>)
    requires fewer <= used
    ensures KeepTags(KeepTags(tags, used), fewer) == KeepTags(tags, fewer)
  {
    if tags != [] {
      KeepTagsTwice(tags[1..], used, fewer);
      var rest := KeepTags(tags[1..], used);
      if Names(tags[0], used) {
        assert ([tags[0]] + rest)[1..] == rest;
      } else {
        assert [] + rest == rest;
      }
    }
  }

  lemma UsedTagsMono(paths: Fields, keep: set<string>, more: set<string>)
    requires keep <= more
    ensures UsedTags(Keep(paths, keep)) <= UsedTags(Keep(paths, more))
  {
    var few, many := Keep(paths, keep), Keep(paths, more);
    forall t | t in UsedTags(few)
      ensures t in UsedTags(many)
    {
      var p, v :| p in few && v in VERBS && few[p].Obj? && v in few[p].fields && t in TagsOfOp(few[p].fields[v]);
      assert p in many && many[p] == few[p];
    }
  }

  /** Scoping twice is scoping once to the paths kept both times: paths, schemas, tags and all. */
  lemma ScopeTwice(doc: Fields, first: set<string>, second: set<string>)
    ensures ScopedTo(ScopedTo(doc, first), second) == ScopedTo(doc, first * second)
  {
    var kept1, kept := Keep(Paths(doc), first), Keep(Paths(doc), first * second);
    var schemas, tags := SchemasOr(doc), TagsOr(doc);
    var s1, t1 := Pruned(schemas, kept1), KeepTags(tags, UsedTags(kept1));
    AssembledParts(doc, kept1, s1, t1);
    assert Keep(kept1, second) == kept;
    UsedTagsMono(Paths(doc), first * second, first);
    KeepTagsTwice(tags, UsedTags(kept1), UsedTags(kept));
    PrunedTwice(schemas, kept1, kept);
    AssembledTwice(doc, kept1, s1, t1, kept, Pruned(schemas, kept), KeepTags(tags, UsedTags(kept)));
  }

  lemma PrunedTwice(schemas: Fields, paths: Fields, fewer: Fields)
    requires forall p | p in fewer :: p in paths && fewer[p] == paths[p]
    ensures Pruned(Pruned(schemas, paths), fewer) == Pruned(schemas, fewer)
  {
    RefsOfAllMono(fewer, paths);
    PrunedReach(schemas, paths, RefsOfAll(fewer));
    ReachGrows(schemas, RefsOfAll(fewer), RefsOfAll(paths));
  }

  /** Scoping by the prefixes P and then by Q keeps exactly the paths that match both; scoping
      again by the same prefixes changes nothing. */
  lemma ScopePrefixesTwice(doc: Fields, p: seq<string>, q: seq<string>)
    ensures var d := ScopedTo(doc, Matching(doc, p));
            && ScopedTo(d, Matching(d, q)) == ScopedTo(doc, Matching(doc, p) * Matching(doc, q))
            && ScopedTo(d, Matching(d, p)) == d
  {
    var d := ScopedTo(doc, Matching(doc, p));
    ScopedParts(doc, Matching(doc, p));
    ScopeTwice(doc, Matching(doc, p), Matching(d, q));
    assert Matching(doc, p) * Matching(d, q) == Matching(doc, p) * Matching(doc, q);
    ScopeTwice(doc, Matching(doc, p), Matching(d, p));
    assert Matching(doc, p) * Matching(d, p) == Matching(doc, p);
  }

  /** A path that answers with a shared response, whose schema nothing else refers to. */
  function SharedResponse(): Fields {
    map["paths" := Obj(map["/a" := OneField("get", OneField("responses", OneField("404", ResponseRef("Missing"))))]),
        "components" := Obj(map["schemas" := OneField("Error", Obj(map[])),
                                "responses" := OneField("Missing", MissingResponse())])]
  }

  function OneField(key: string, value: Node): Node { Obj(map[key := value]) }

  function ResponseRef(name: string): Node { OneField("$ref", Str("#/components/responses/" + name)) }

  function MissingResponse(): Node {
    OneField("content", OneField("application/json", OneField("schema", OneField("$ref", Str(REF_PREFIX + "Error")))))
  }

  lemma OneFieldRefs(key: string, value: Node)
    requires key != "$ref"
    ensures Refs(OneField(key, value)) == Refs(value)
  {
    RefsOfObj(map[key := value]);
    assert map[key := value][key] == value;
  }

  lemma OneRef(text: string)
    ensures Refs(OneField("$ref", Str(text))) == if REF_PREFIX <= text then {text[|REF_PREFIX|..]} else {}
  {
    RefsOfObj(map["$ref" := Str(text)]);
  }

  /** A schema reference is found, under exactly its name. */
  lemma SchemaRefFound(name: string)
    ensures Refs(OneField("$ref", Str("#/components/schemas/" + name))) == {name}
  {
    OneRef("#/components/schemas/" + name);
    assert ("#/components/schemas/" + name)[|REF_PREFIX|..] == name;
  }

  lemma MissingResponseRefs()
    ensures Refs(MissingResponse()) == {"Error"}
  {
    var name := REF_PREFIX + "Error";
    var ref := OneField("$ref", Str(name));
    OneRef(name);
    assert name[|REF_PREFIX|..] == "Error";
    OneFieldRefs("schema", ref);
    OneFieldRefs("application/json", OneField("schema", ref));
    OneFieldRefs("content", OneField("application/json", OneField("schema", ref)));
  }

  lemma SharedPathRefs()
    ensures InPaths(SharedResponse()) == {}
  {
    var ref := ResponseRef("Missing");
    OneRef("#/components/responses/Missing");
    assert "#/components/responses/" + "Missing" == "#/components/responses/Missing";
    assert ("#/components/responses/Missing")[13] != REF_PREFIX[13];
    OneFieldRefs("404", ref);
    OneFieldRefs("responses", OneField("404", ref));
    OneFieldRefs("get", OneField("responses", OneField("404", ref)));
  }

  lemma OneNodeRefs(key: string, node: Node)
    ensures RefsOfAll(map[key := node]) == Refs(node)
  {
    assert map[key := node][key] == node;
  }

  lemma SharedSchemaRefs()
    ensures InSchemas(SharedResponse()) == {} && Defined(SharedResponse()) == {"Error"}
  {
    assert Schemas(SharedResponse()).value == map["Error" := Obj(map[])];
    RefsOfObj(map[]);
    OneNodeRefs("Error", Obj(map[]));
  }

  lemma OtherComponents(schemas: Node, responses: Node)
    ensures map["schemas" := schemas, "responses" := responses] - {"schemas"} == map["responses" := responses]
  {
  }

  lemma SharedResponseRefs()
    ensures RefsOfAll(SharedResponse()["components"].fields - {"schemas"}) == {"Error"}
  {
    var shared := OneField("Missing", MissingResponse());
    MissingResponseRefs();
    OneFieldRefs("Missing", MissingResponse());
    OneNodeRefs("responses", shared);
    OtherComponents(OneField("Error", Obj(map[])), shared);
  }

  /** Nothing is reachable from nothing. */
  lemma NothingReached(schemas: Fields)
    ensures Reach(schemas, {}) == {}
  {
    assert Graphs.Closed(RefGraph(schemas), {});
  }

  /** Even with every path kept, the schema of a shared response is pruned although the response and
      its use stay: the reference to the response is not a schema reference, so nobody follows it. */
  lemma SharedResponseDangles()
    ensures NothingDangles(SharedResponse()) && !NothingDangles(ScopedTo(SharedResponse(), {"/a"}))
  {
    var doc := SharedResponse();
    SharedResponseRefs();
    SharedSchemaRefs();
    SharedPathRefs();
    assert doc - {"paths", "components"} == map[];
    assert Keep(Paths(doc), {"/a"}) == Paths(doc);
    ScopedDanglesIff(doc, {"/a"});
    NothingReached(SchemasOr(doc));
    assert "Error" in StillReferred(doc, {"/a"});
  }
}
