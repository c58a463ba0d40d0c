/** Folding the component specifications into one standalone document (foldOne and mergeTags in
    axisml-standalone/cmd/openapi-gen/main.go). */
module ApiFold {
  import opened Options
  import opened ApiDocs

  /** The members of a document that folding reads or writes; a missing one reads as empty. */
  datatype Spec = Spec(paths: Fields, schemas: Fields, tags: seq<Node>)

  /** Paths the assembly serves itself and never takes from a component. */
  const ASSEMBLY := {"/healthz", "/readyz"}

  function Own(src: Spec): Fields { src.paths - ASSEMBLY }

  predicate Agree(a: Fields, b: Fields) { forall n | n in a && n in b :: a[n] == b[n] }

  predicate CanFold(dst: Spec, src: Spec) {
    Agree(dst.schemas, src.schemas) && dst.paths.Keys !! Own(src).Keys
  }

  // ---- Tags ---------------------------------------------------------------------------------------

  /** A tag's name; the empty string when it has none. */
  function TagName(tag: Node): string {
    if tag.Obj? && "name" in tag.fields && tag.fields["name"].Str? then tag.fields["name"].text else ""
  }

  /** The tags of src whose name is new, each name once. */
  function NewTags(have: set<string>, tags: seq<Node>): seq<Node>
    decreases |tags|
  {
    if tags == [] then []
    else if TagName(tags[0]) == "" || TagName(tags[0]) in have then NewTags(have, tags[1..])
    else [tags[0]] + NewTags(have + {TagName(tags[0])}, tags[1..])
  }

  function NamesOf(tags: seq<Node>): set<string> { set i | 0 <= i < |tags| :: TagName(tags[i]) }

  method MergeTags(dst: seq<Node>, src: seq<Node>) returns (merged: seq<Node>)
    ensures merged == dst + NewTags(NamesOf(dst), src)
  {
    merged := dst;
    var have := NamesOf(dst);
    for i := 0 to |src|
      invariant merged + NewTags(have, src[i..]) == dst + NewTags(NamesOf(dst), src)
    {
      var name := TagName(src[i]);
      assert src[i..][1..] == src[i + 1..];
      if name != "" && name !in have {
        assert merged + ([src[i]] + NewTags(have + {name}, src[i + 1..])) ==
               merged + [src[i]] + NewTags(have + {name}, src[i + 1..]);
        merged := merged + [src[i]];
        have := have + {name};
      }
    }
    assert src[|src|..] == [] && merged + [] == merged;
  }

  lemma NamesOfCons(tag: Node, tags: seq<Node>)
    ensures NamesOf([tag] + tags) == {TagName(tag)} + NamesOf(tags)
  {
    var all := [tag] + tags;
    assert all[0] == tag && forall i | 0 <= i < |tags| :: all[i + 1] == tags[i];
    forall n | n in NamesOf(tags) ensures n in NamesOf(all) {
      var i :| 0 <= i < |tags| && TagName(tags[i]) == n;
      assert TagName(all[i + 1]) == n;
    }
  }

  /** Merging loses no tag name and adds none that is there already, nor the same one twice. */
  lemma {:induction false} NewTagsComplete(have: set<string>, tags: seq<Node>)
    ensures NamesOf(tags) - {""} <= have + NamesOf(NewTags(have, tags))
    ensures NamesOf(NewTags(have, tags)) !! have + {""}
    ensures |NamesOf(NewTags(have, tags))| == |NewTags(have, tags)|
    decreases |tags|
  {
    if tags != [] {
      var name, rest := TagName(tags[0]), tags[1..];
      assert tags == [tags[0]] + rest;
      NamesOfCons(tags[0], rest);
      if name == "" || name in have {
        NewTagsComplete(have, rest);
      } else {
        NewTagsComplete(have + {name}, rest);
        NamesOfCons(tags[0], NewTags(have + {name}, rest));
      }
    }
  }

  // ---- Folding one and all --------------------------------------------------------------------------

  function Folded(dst: Spec, src: Spec): Spec {
    Spec(dst.paths + Own(src), src.schemas + dst.schemas, dst.tags + NewTags(NamesOf(dst.tags), src.tags))
  }

  /** The schema loop of foldOne. */
  method FoldSchemas(dst: Fields, src: Fields) returns (result: Option<Fields>)
    ensures result == if Agree(dst, src) then Some(src + dst) else None
  {
    var schemas := dst;
    var todo := src.Keys;
    while todo != {}
      invariant todo <= src.Keys
      invariant Agree(dst, src - todo) && schemas == (src - todo) + dst
    {
      var n :| n in todo;
      if n in schemas {
        if schemas[n] != src[n] {
          return None;
        }
      } else {
        schemas := schemas[n := src[n]];
      }
      todo := todo - {n};
    }
    assert src - todo == src;
    result := Some(schemas);
  }

  /** The path loop of foldOne. */
  method FoldPaths(dst: Fields, src: Spec) returns (result: Option<Fields>)
    ensures result == if dst.Keys !! Own(src).Keys then Some(dst + Own(src)) else None
  {
    var paths := dst;
    var left := src.paths.Keys;
    while left != {}
      invariant left <= src.paths.Keys
      invariant dst.Keys !! (Own(src) - left).Keys && paths == dst + (Own(src) - left)
    {
      var p :| p in left;
      left := left - {p};
      if p in ASSEMBLY {
        assert Own(src) - left == Own(src) - (left + {p});
        continue;
      }
      if p in paths {
        assert p in Own(src);
        return None;
      }
      paths := paths[p := src.paths[p]];
      assert Own(src) - left == (Own(src) - (left + {p}))[p := src.paths[p]];
    }
    assert Own(src) - left == Own(src);
    result := Some(paths);
  }

  /** foldOne: fails on a divergent schema or a path that is already present. */
  method FoldOne(dst: Spec, src: Spec) returns (result: Option<Spec>)
    ensures result == if CanFold(dst, src) then Some(Folded(dst, src)) else None
  {
    var schemas := FoldSchemas(dst.schemas, src.schemas);
    if schemas.None? {
      return None;
    }
    var paths := FoldPaths(dst.paths, src);
    if paths.None? {
      return None;
    }
    var tags := MergeTags(dst.tags, src.tags);
    result := Some(Spec(paths.value, schemas.value, tags));
  }


  function FoldAll(dst: Spec, srcs: seq<Spec>): Option<Spec>
    decreases |srcs|
  {
    if srcs == [] then Some(dst)
    else if CanFold(dst, srcs[0]) then FoldAll(Folded(dst, srcs[0]), srcs[1..])
    else None
  }

  /** The generator's loop over the component documents. */
  method FoldSources(dst: Spec, srcs: seq<Spec>) returns (result: Option<Spec>)
    ensures result == FoldAll(dst, srcs)
  {
    var doc := dst;
    for i := 0 to |srcs|
      invariant FoldAll(doc, srcs[i..]) == FoldAll(dst, srcs)
    {
      var one := FoldOne(doc, srcs[i]);
      assert srcs[i..][1..] == srcs[i + 1..];
      if one.None? {
        return None;
      }
      doc := one.value;
    }
    assert srcs[|srcs|..] == [];
    result := Some(doc);
  }

  // ---- The order of the sources does not matter -------------------------------------------------------

  predicate SameShape(a: Option<Spec>, b: Option<Spec>) {
    && (a.Some? <==> b.Some?)
    && (a.Some? ==> a.value.paths == b.value.paths && a.value.schemas == b.value.schemas)
  }

  lemma {:induction false} ShapeDecides(a: Spec, b: Spec, srcs: seq<Spec>)
    requires SameShape(Some(a), Some(b))
    ensures SameShape(FoldAll(a, srcs), FoldAll(b, srcs))
    decreases |srcs|
  {
    if srcs != [] && CanFold(a, srcs[0]) {
      ShapeDecides(Folded(a, srcs[0]), Folded(b, srcs[0]), srcs[1..]);
    }
  }

  /** Folding b after a needs what folding each into dst needs, and that the two do not clash. */
  lemma CanFoldAfter(dst: Spec, a: Spec, b: Spec)
    requires CanFold(dst, a)
    ensures CanFold(Folded(dst, a), b) <==>
            CanFold(dst, b) && Agree(a.schemas, b.schemas) && Own(a).Keys !! Own(b).Keys
  {
    var d := Folded(dst, a);
    assert d.paths.Keys == dst.paths.Keys + Own(a).Keys;
    assert forall n | n in dst.schemas :: d.schemas[n] == dst.schemas[n];
    assert forall n | n in a.schemas :: d.schemas[n] == a.schemas[n];
  }

  lemma DisjointCommute(dst: Fields, a: Fields, b: Fields)
    requires a.Keys !! b.Keys
    ensures dst + a + b == dst + b + a
  {
  }

  lemma AgreeCommute(dst: Fields, a: Fields, b: Fields)
    requires Agree(a, b)
    ensures b + (a + dst) == a + (b + dst)
  {
  }

  lemma TwoInEitherOrder(dst: Spec, a: Spec, b: Spec)
    ensures (CanFold(dst, a) && CanFold(Folded(dst, a), b)) <==> (CanFold(dst, b) && CanFold(Folded(dst, b), a))
    ensures CanFold(dst, a) && CanFold(Folded(dst, a), b) ==>
              SameShape(Some(Folded(Folded(dst, a), b)), Some(Folded(Folded(dst, b), a)))
  {
    if CanFold(dst, a) { CanFoldAfter(dst, a, b); }
    if CanFold(dst, b) { CanFoldAfter(dst, b, a); }
    if CanFold(dst, a) && CanFold(Folded(dst, a), b) {
      DisjointCommute(dst.paths, Own(a), Own(b));
      AgreeCommute(dst.schemas, a.schemas, b.schemas);
    }
  }

  lemma SwapFirstTwo(dst: Spec, a: Spec, b: Spec, rest: seq<Spec>)
    ensures SameShape(FoldAll(dst, [a, b] + rest), FoldAll(dst, [b, a] + rest))
  {
    TwoInEitherOrder(dst, a, b);
    FoldTwo(dst, a, b, rest);
    FoldTwo(dst, b, a, rest);
    if CanFold(dst, a) && CanFold(Folded(dst, a), b) {
      ShapeDecides(Folded(Folded(dst, a), b), Folded(Folded(dst, b), a), rest);
    }
  }

  lemma FoldTwo(dst: Spec, a: Spec, b: Spec, rest: seq<Spec>)
    ensures FoldAll(dst, [a, b] + rest) ==
            if CanFold(dst, a) && CanFold(Folded(dst, a), b) then FoldAll(Folded(Folded(dst, a), b), rest) else None
  {
    assert ([a, b] + rest)[1..] == [b] + rest && ([b] + rest)[1..] == rest;
  }

  lemma {:induction false} MoveToFront(dst: Spec, srcs: seq<Spec>, i: nat)
    requires i < |srcs|
    ensures SameShape(FoldAll(dst, srcs), FoldAll(dst, [srcs[i]] + srcs[..i] + srcs[i + 1..]))
    decreases i
  {
    if i == 0 {
      assert [srcs[0]] + srcs[..0] + srcs[1..] == srcs;
    } else {
      var a, x, tail := srcs[0], srcs[i], srcs[1..];
      var others := tail[..i - 1] + tail[i..];
      assert [tail[i - 1]] + tail[..i - 1] + tail[i..] == [x] + others;
      assert ([a] + ([x] + others))[1..] == [x] + others;
      assert [a] + ([x] + others) == [a, x] + others;
      assert srcs == [a] + tail && [x] + srcs[..i] + srcs[i + 1..] == [x, a] + others;
      if CanFold(dst, a) {
        MoveToFront(Folded(dst, a), tail, i - 1);
      }
      SwapFirstTwo(dst, a, x, others);
    }
  }

  lemma WithoutOne<T>(srcs: seq<T>, i: nat)
    requires i < |srcs|
    ensures multiset(srcs[..i] + srcs[i + 1..]) == multiset(srcs) - multiset{srcs[i]}
  {
    assert srcs == srcs[..i] + [srcs[i]] + srcs[i + 1..];
    assert multiset(srcs) == multiset(srcs[..i]) + multiset{srcs[i]} + multiset(srcs[i + 1..]);
  }

  /** Where the head of one order stands in the other. */
  lemma FindHead<T>(srcs: seq<T>, srcs': seq<T>) returns (i: nat)
    requires multiset(srcs) == multiset(srcs') && srcs' != []
    ensures i < |srcs| && srcs[i] == srcs'[0]
    ensures multiset(srcs[..i] + srcs[i + 1..]) == multiset(srcs'[1..])
  {
    var x, rest' := srcs'[0], srcs'[1..];
    assert srcs' == [x] + rest' && x in multiset(srcs);
    i :| 0 <= i < |srcs| && srcs[i] == x;
    assert multiset(srcs') == multiset{x} + multiset(rest');
    WithoutOne(srcs, i);
  }

  lemma FoldHead(dst: Spec, x: Spec, rest: seq<Spec>)
    ensures FoldAll(dst, [x] + rest) == if CanFold(dst, x) then FoldAll(Folded(dst, x), rest) else None
  {
    assert ([x] + rest)[1..] == rest;
  }

  /** Whether folding succeeds, and the paths and schemas it gives, do not depend on the order of
      the component documents. (The tag list does: it keeps the order of first mention.) */
  lemma {:induction false} OrderIndependent(dst: Spec, srcs: seq<Spec>, srcs': seq<Spec>)
    requires multiset(srcs) == multiset(srcs')
    ensures SameShape(FoldAll(dst, srcs), FoldAll(dst, srcs'))
    decreases |srcs'|
  {
    if srcs' == [] {
      assert |multiset(srcs)| == |srcs|;
    } else {
      var i := FindHead(srcs, srcs');
      var x, rest, rest' := srcs'[0], srcs[..i] + srcs[i + 1..], srcs'[1..];
      MoveToFront(dst, srcs, i);
      assert [x] + srcs[..i] + srcs[i + 1..] == [x] + rest;
      FoldHead(dst, x, rest);
      if CanFold(dst, x) {
        OrderIndependent(Folded(dst, x), rest, rest');
      }
    }
  }

  // ---- When folding succeeds ---------------------------------------------------------------------------

  /** The documents agree wherever both define a schema, and have no path in common but the probes. */
  ghost predicate Fit(a: Spec, b: Spec) {
    && (forall n | n in a.schemas && n in b.schemas :: a.schemas[n] == b.schemas[n])
    && (forall p | p in a.paths && p in b.paths :: p in {"/healthz", "/readyz"})
  }

  /** The same beside the assembled document, all of whose paths count. */
  ghost predicate FitsInto(dst: Spec, src: Spec) {
    && (forall n | n in dst.schemas && n in src.schemas :: dst.schemas[n] == src.schemas[n])
    && (forall p | p in dst.paths && p in src.paths :: p in {"/healthz", "/readyz"})
  }

  ghost predicate AllFit(dst: Spec, srcs: seq<Spec>) {
    && (forall i | 0 <= i < |srcs| :: FitsInto(dst, srcs[i]))
    && (forall i, j | 0 <= i < j < |srcs| :: Fit(srcs[i], srcs[j]))
  }

  lemma CanFoldIff(dst: Spec, src: Spec)
    ensures CanFold(dst, src) <==> FitsInto(dst, src)
  {
    if CanFold(dst, src) {
      forall p | p in dst.paths && p in src.paths
        ensures p in {"/healthz", "/readyz"}
      {
        assert p !in Own(src);
      }
    }
  }

  lemma FitAfter(dst: Spec, a: Spec, b: Spec)
    requires CanFold(dst, a)
    ensures FitsInto(Folded(dst, a), b) <==> FitsInto(dst, b) && Fit(a, b)
  {
    CanFoldAfter(dst, a, b);
    CanFoldIff(Folded(dst, a), b);
    CanFoldIff(dst, b);
    if Own(a).Keys !! Own(b).Keys {
      forall p | p in a.paths && p in b.paths
        ensures p in {"/healthz", "/readyz"}
      {
        assert p !in Own(a) || p !in Own(b);
      }
    }
  }

  lemma AllFitAfter(dst: Spec, srcs: seq<Spec>)
    requires srcs != [] && CanFold(dst, srcs[0])
    ensures AllFit(Folded(dst, srcs[0]), srcs[1..]) <==> AllFit(dst, srcs)
  {
    var next, tail := Folded(dst, srcs[0]), srcs[1..];
    forall i | 0 <= i < |tail|
      ensures tail[i] == srcs[i + 1]
      ensures FitsInto(next, tail[i]) <==> FitsInto(dst, tail[i]) && Fit(srcs[0], tail[i])
    {
      FitAfter(dst, srcs[0], tail[i]);
    }
    CanFoldIff(dst, srcs[0]);
    if AllFit(next, tail) {
      forall i | 0 <= i < |srcs|
        ensures FitsInto(dst, srcs[i])
      {
        if i > 0 { assert srcs[i] == tail[i - 1]; }
      }
      forall i, j | 0 <= i < j < |srcs|
        ensures Fit(srcs[i], srcs[j])
      {
        assert srcs[j] == tail[j - 1];
        if i > 0 { assert srcs[i] == tail[i - 1]; }
      }
    }
  }

  /** Folding succeeds exactly when the component documents fit the assembled one and each other. */
  lemma {:induction false} FoldSucceedsIff(dst: Spec, srcs: seq<Spec>)
    ensures FoldAll(dst, srcs).Some? <==> AllFit(dst, srcs)
    decreases |srcs|
  {
    if srcs != [] {
      CanFoldIff(dst, srcs[0]);
      if CanFold(dst, srcs[0]) {
        FoldSucceedsIff(Folded(dst, srcs[0]), srcs[1..]);
        AllFitAfter(dst, srcs);
      }
    }
  }

  /** And then it has no path but those of the assembled document and the components' own. */
  lemma {:induction false} FoldAddsOnly(dst: Spec, srcs: seq<Spec>, p: string)
    requires FoldAll(dst, srcs).Some? && p in FoldAll(dst, srcs).value.paths
    ensures p in dst.paths || (p !in {"/healthz", "/readyz"} && exists i :: 0 <= i < |srcs| && p in srcs[i].paths)
    decreases |srcs|
  {
    if srcs != [] {
      FoldAddsOnly(Folded(dst, srcs[0]), srcs[1..], p);
      if p !in dst.paths && p !in Own(srcs[0]) {
        var i :| 0 <= i < |srcs[1..]| && p in srcs[1..][i].paths;
        assert srcs[i + 1] == srcs[1..][i];
      }
    }
  }

  // ---- Meaning is preserved ---------------------------------------------------------------------------

  lemma {:induction false} FoldKeeps(dst: Spec, srcs: seq<Spec>)
    requires FoldAll(dst, srcs).Some?
    ensures var out := FoldAll(dst, srcs).value;
            && (forall p | p in dst.paths :: p in out.paths && out.paths[p] == dst.paths[p])
            && (forall n | n in dst.schemas :: n in out.schemas && out.schemas[n] == dst.schemas[n])
    ensures var out := FoldAll(dst, srcs).value;
            forall i | 0 <= i < |srcs| ::
              && (forall p | p in Own(srcs[i]) :: p in out.paths && out.paths[p] == srcs[i].paths[p])
              && (forall n | n in srcs[i].schemas :: n in out.schemas && out.schemas[n] == srcs[i].schemas[n])
    decreases |srcs|
  {
    if srcs != [] {
      FoldKeeps(Folded(dst, srcs[0]), srcs[1..]);
      var out := FoldAll(dst, srcs).value;
      forall i | 0 <= i < |srcs|
        ensures (forall p | p in Own(srcs[i]) :: p in out.paths && out.paths[p] == srcs[i].paths[p])
        ensures (forall n | n in srcs[i].schemas :: n in out.schemas && out.schemas[n] == srcs[i].schemas[n])
      {
        if i > 0 { assert srcs[i] == srcs[1..][i - 1]; }
      }
    }
  }

  /** The same names are reachable, with the same definitions. */
  ghost predicate SameClosure(one: Fields, two: Fields, seed: set<string>) {
    && Reach(one, seed) == Reach(two, seed)
    && (forall n | n in Reach(one, seed) :: (n in one <==> n in two) && (n in one ==> one[n] == two[n]))
  }

  /** No document of the fold defines the name. */
  predicate DefinedNowhere(dst: Spec, srcs: seq<Spec>, n: string) {
    n !in dst.schemas && forall j | 0 <= j < |srcs| :: n !in srcs[j].schemas
  }

  lemma {:induction false} FoldDefines(dst: Spec, srcs: seq<Spec>, n: string)
    requires FoldAll(dst, srcs).Some?
    ensures n !in FoldAll(dst, srcs).value.schemas <==> DefinedNowhere(dst, srcs, n)
    decreases |srcs|
  {
    if srcs != [] {
      var next, tail := Folded(dst, srcs[0]), srcs[1..];
      FoldDefines(next, tail, n);
      assert srcs == [srcs[0]] + tail;
      if DefinedNowhere(next, tail, n) {
        forall j | 0 <= j < |srcs|
          ensures n !in srcs[j].schemas
        {
          if j > 0 { assert srcs[j] == tail[j - 1]; }
        }
      }
    }
  }

  /** After a successful fold every path a component contributes keeps its item, and its reference
      closure means what it meant in that component exactly when none of the component's own
      dangling references is captured by a schema of another document. */
  lemma FoldPreservesMeaningIff(dst: Spec, srcs: seq<Spec>, i: nat, p: string)
    requires FoldAll(dst, srcs).Some? && i < |srcs| && p in Own(srcs[i])
    ensures var out, src := FoldAll(dst, srcs).value, srcs[i];
            && p in out.paths && out.paths[p] == src.paths[p]
            && (SameClosure(src.schemas, out.schemas, Refs(src.paths[p])) <==>
                forall n | n in Reach(src.schemas, Refs(src.paths[p])) && n !in src.schemas :: DefinedNowhere(dst, srcs, n))
  {
    FoldKeeps(dst, srcs);
    var out, src := FoldAll(dst, srcs).value, srcs[i];
    forall n
      ensures n !in out.schemas <==> DefinedNowhere(dst, srcs, n)
    {
      FoldDefines(dst, srcs, n);
    }
    if forall n | n in Reach(src.schemas, Refs(src.paths[p])) && n !in src.schemas :: n !in out.schemas {
      ReachAgrees(src.schemas, out.schemas, Refs(src.paths[p]));
    }
  }
}
