/** The standalone document from start to finish: assembled around the probe paths, folded from the
    component documents (cmd/openapi-gen/main.go), and scoped to path prefixes when it is served
    (axisml-standalone/openapi.go). */
module ApiAssembly {
  import opened Options
  import opened ApiDocs
  import opened ApiScope
  import ApiFold

  // ---- standaloneDocument ---------------------------------------------------------------------------

  /** An object without a `$ref` of its own whose members hold no reference. */
  lemma PlainObject(fields: Fields)
    requires "$ref" !in fields && forall k | k in fields :: Refs(fields[k]) == {}
    ensures Refs(Obj(fields)) == {}
  {
    RefsOfObj(fields);
  }

  function StringResponse(description: string): Node {
    Obj(map["description" := Str(description),
            "content" := OneField("text/plain", OneField("schema", OneField("type", Str("string"))))])
  }

  function ProbePath(summary: string, operationId: string, responses: Fields): Node {
    OneField("get", Obj(map["tags" := Arr([Str("Health")]), "summary" := Str(summary),
                            "operationId" := Str(operationId), "responses" := Obj(responses)]))
  }

  /** The paths, schemas and tags that folding starts from. */
  function Base(): ApiFold.Spec {
    ApiFold.Spec(
      map["/healthz" := ProbePath("Liveness probe", "healthz", map["200" := StringResponse("ok")]),
          "/readyz" := ProbePath("Readiness probe", "readyz",
                                 map["200" := StringResponse("ok"), "503" := StringResponse("dependency not yet ready")])],
      map[],
      [Obj(map["name" := Str("Health"), "description" := Str("Liveness and readiness probes.")])])
  }

  /** The texts of the document's head. */
  datatype About = About(title: string, version: string, description: string, server: string)

  /** The other members: `openapi`, `info` and `servers`. */
  function Head(about: About): Fields {
    map["openapi" := Str("3.0.3"),
        "info" := Obj(map["title" := Str(about.title), "version" := Str(about.version),
                          "description" := Str(about.description)]),
        "servers" := Arr([Obj(map["url" := Str("/"), "description" := Str(about.server)])])]
  }

  /** The document with these parts. */
  function Rendered(about: About, spec: ApiFold.Spec): Fields {
    Head(about)["tags" := Arr(spec.tags)]["paths" := Obj(spec.paths)]
      ["components" := OneField("schemas", Obj(spec.schemas))]
  }

  lemma StringResponseRefs(description: string)
    ensures Refs(StringResponse(description)) == {}
  {
    var schema := OneField("type", Str("string"));
    OneFieldRefs("type", Str("string"));
    OneFieldRefs("schema", schema);
    OneFieldRefs("text/plain", OneField("schema", schema));
    PlainObject(StringResponse(description).fields);
  }

  lemma ProbePathRefs(summary: string, operationId: string, responses: Fields)
    requires "$ref" !in responses && forall k | k in responses :: Refs(responses[k]) == {}
    ensures Refs(ProbePath(summary, operationId, responses)) == {}
  {
    PlainObject(responses);
    RefsOfArr([Str("Health")]);
    var op := ProbePath(summary, operationId, responses).fields["get"];
    PlainObject(op.fields);
    OneFieldRefs("get", op);
  }

  lemma BaseRefs()
    ensures RefsOfAll(Base().paths) == {} && TagsPlain(Base())
  {
    StringResponseRefs("ok");
    StringResponseRefs("dependency not yet ready");
    ProbePathRefs("Liveness probe", "healthz", map["200" := StringResponse("ok")]);
    ProbePathRefs("Readiness probe", "readyz",
                  map["200" := StringResponse("ok"), "503" := StringResponse("dependency not yet ready")]);
    PlainObject(Base().tags[0].fields);
  }

  lemma HeadRefs(about: About)
    ensures RefsOfAll(Head(about)) == {}
  {
    PlainObject(Head(about)["info"].fields);
    PlainObject(Head(about)["servers"].items[0].fields);
    RefsOfArr(Head(about)["servers"].items);
  }

  // ---- What folding keeps -----------------------------------------------------------------------------

  /** No tag definition holds a schema reference. */
  ghost predicate TagsPlain(spec: ApiFold.Spec) { forall t | t in spec.tags :: Refs(t) == {} }

  /** Every reference from a path or a schema is defined in the document itself. */
  ghost predicate SelfContained(spec: ApiFold.Spec) {
    RefsOfAll(spec.paths) + RefsOfAll(spec.schemas) <= spec.schemas.Keys
  }

  lemma {:induction false} NewTagsAreTags(have: set<string>, tags: seq<Node>)
    ensures forall t | t in ApiFold.NewTags(have, tags) :: t in tags
    decreases |tags|
  {
    if tags != [] {
      NewTagsAreTags(have, tags[1..]);
      NewTagsAreTags(have + {ApiFold.TagName(tags[0])}, tags[1..]);
    }
  }

  lemma UnionRefs(a: Fields, b: Fields)
    ensures RefsOfAll(a + b) <= RefsOfAll(a) + RefsOfAll(b)
  {
    forall r | r in RefsOfAll(a + b)
      ensures r in RefsOfAll(a) + RefsOfAll(b)
    {
      var k :| k in a + b && r in Refs((a + b)[k]);
      if k in b { assert r in Refs(b[k]); } else { assert r in Refs(a[k]); }
    }
  }

  lemma FoldedKeeps(dst: ApiFold.Spec, src: ApiFold.Spec)
    requires SelfContained(dst) && SelfContained(src) && TagsPlain(dst) && TagsPlain(src)
    ensures SelfContained(ApiFold.Folded(dst, src)) && TagsPlain(ApiFold.Folded(dst, src))
  {
    UnionRefs(dst.paths, ApiFold.Own(src));
    UnionRefs(src.schemas, dst.schemas);
    RefsOfAllMono(ApiFold.Own(src), src.paths);
    NewTagsAreTags(ApiFold.NamesOf(dst.tags), src.tags);
  }

  /** Folding self-contained documents gives a self-contained document. */
  lemma {:induction false} FoldAllKeeps(dst: ApiFold.Spec, srcs: seq<ApiFold.Spec>)
    requires ApiFold.FoldAll(dst, srcs).Some? && SelfContained(dst) && TagsPlain(dst)
    requires forall i | 0 <= i < |srcs| :: SelfContained(srcs[i]) && TagsPlain(srcs[i])
    ensures SelfContained(ApiFold.FoldAll(dst, srcs).value) && TagsPlain(ApiFold.FoldAll(dst, srcs).value)
    decreases |srcs|
  {
    if srcs != [] {
      FoldedKeeps(dst, srcs[0]);
      FoldAllKeeps(ApiFold.Folded(dst, srcs[0]), srcs[1..]);
    }
  }

  // ---- Folding, then scoping ----------------------------------------------------------------------------

  lemma RenderedParts(about: About, spec: ApiFold.Spec)
    ensures var doc := Rendered(about, spec);
            && Paths(doc) == spec.paths && Schemas(doc) == Some(spec.schemas)
            && doc - {"paths", "components"} == Head(about)["tags" := Arr(spec.tags)]
            && MapAt(doc, "components") == Some(map["schemas" := Obj(spec.schemas)])
  {
  }

  /** Outside its paths and schemas the rendered document refers to nothing. */
  lemma RenderedElsewhere(about: About, spec: ApiFold.Spec)
    requires TagsPlain(spec)
    ensures Elsewhere(Rendered(about, spec)) == {}
  {
    RenderedParts(about, spec);
    HeadRefs(about);
    RefsOfArr(spec.tags);
    TaggedRefs(Head(about), Arr(spec.tags));
    var none: Fields := map[];
    assert map["schemas" := Obj(spec.schemas)] - {"schemas"} == none;
  }

  lemma TaggedRefs(head: Fields, tags: Node)
    requires RefsOfAll(head) == {} && Refs(tags) == {}
    ensures RefsOfAll(head["tags" := tags]) == {}
  {
    var all := head["tags" := tags];
    forall k | k in all
      ensures Refs(all[k]) == {}
    {
      if k != "tags" { assert Refs(head[k]) <= RefsOfAll(head); }
    }
  }

  /** Serving any part of the folded document never introduces a dangling reference. */
  lemma ServedAddsNoDangling(about: About, spec: ApiFold.Spec, keep: set<string>)
    requires TagsPlain(spec)
    ensures Dangling(ScopedTo(Rendered(about, spec), keep)) <= Dangling(Rendered(about, spec))
  {
    RenderedElsewhere(about, spec);
    ScopingAddsNoDangling(Rendered(about, spec), keep);
  }

  /** What is served of the folded components. */
  ghost function Served(about: About, srcs: seq<ApiFold.Spec>, keep: set<string>): Fields
    requires ApiFold.FoldAll(Base(), srcs).Some?
  {
    ScopedTo(Rendered(about, ApiFold.FoldAll(Base(), srcs).value), keep)
  }

  ghost predicate AllSelfContained(srcs: seq<ApiFold.Spec>) {
    forall j | 0 <= j < |srcs| :: SelfContained(srcs[j]) && TagsPlain(srcs[j])
  }

  /** From self-contained component documents to what is served under any prefixes, nothing dangles. */
  lemma ServedNeverDangles(about: About, srcs: seq<ApiFold.Spec>, keep: set<string>)
    requires ApiFold.FoldAll(Base(), srcs).Some? && AllSelfContained(srcs)
    ensures Dangling(Served(about, srcs, keep)) == {}
  {
    BaseRefs();
    FoldAllKeeps(Base(), srcs);
    ServedDangles(about, ApiFold.FoldAll(Base(), srcs).value, keep);
  }

  lemma SameClosureTwice(one: Fields, two: Fields, three: Fields, seed: set<string>)
    requires ApiFold.SameClosure(one, two, seed) && ApiFold.SameClosure(two, three, seed)
    ensures ApiFold.SameClosure(one, three, seed)
  {
  }

  /** Every kept path of a component is served with that component's item, and everything the item
      refers to, directly or not, means there what it means in the component. */
  lemma ServedMeansTheSame(about: About, srcs: seq<ApiFold.Spec>, keep: set<string>, i: nat, p: string)
    requires ApiFold.FoldAll(Base(), srcs).Some? && AllSelfContained(srcs)
    requires i < |srcs| && p in ApiFold.Own(srcs[i]) && p in keep
    ensures var served := Served(about, srcs, keep);
            && p in Paths(served) && Paths(served)[p] == srcs[i].paths[p]
            && ApiFold.SameClosure(srcs[i].schemas, SchemasOr(served), Refs(srcs[i].paths[p]))
  {
    var out := ApiFold.FoldAll(Base(), srcs).value;
    SourceDefines(srcs[i], p);
    ApiFold.FoldPreservesMeaningIff(Base(), srcs, i, p);
    ServedClosure(about, out, keep, p);
    SameClosureTwice(srcs[i].schemas, out.schemas, SchemasOr(Served(about, srcs, keep)), Refs(srcs[i].paths[p]));
  }

  lemma ServedDangles(about: About, spec: ApiFold.Spec, keep: set<string>)
    requires TagsPlain(spec) && SelfContained(spec)
    ensures Dangling(ScopedTo(Rendered(about, spec), keep)) == {}
  {
    ServedAddsNoDangling(about, spec, keep);
    RenderedParts(about, spec);
    RenderedElsewhere(about, spec);
  }

  /** A self-contained document defines everything its paths reach. */
  lemma SourceDefines(src: ApiFold.Spec, p: string)
    requires SelfContained(src) && p in src.paths
    ensures Reach(src.schemas, Refs(src.paths[p])) <= src.schemas.Keys
  {
    assert Refs(src.paths[p]) <= RefsOfAll(src.paths);
    ReachIsDefined(src.schemas, Refs(src.paths[p]));
  }

  /** Scoping keeps the closure of every kept path, definition by definition. */
  lemma ServedClosure(about: About, spec: ApiFold.Spec, keep: set<string>, p: string)
    requires p in spec.paths && p in keep
    ensures var served := ScopedTo(Rendered(about, spec), keep);
            && p in Paths(served) && Paths(served)[p] == spec.paths[p]
            && ApiFold.SameClosure(spec.schemas, SchemasOr(served), Refs(spec.paths[p]))
  {
    RenderedParts(about, spec);
    ScopedParts(Rendered(about, spec), keep);
    var kept := Keep(spec.paths, keep);
    assert kept[p] == spec.paths[p] && Refs(kept[p]) <= RefsOfAll(kept);
    PrunedReach(spec.schemas, kept, Refs(spec.paths[p]));
    ReachGrows(spec.schemas, Refs(spec.paths[p]), RefsOfAll(kept));
  }
}
