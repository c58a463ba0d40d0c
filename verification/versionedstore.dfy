/** The standalone versioned stores (axisml-standalone/resourcepool_store.go and tenant_store.go): one
    table of named rows with an optimistic version and a tombstone flag. Each SQL statement is one
    atomic step; a run is any interleaving of the statements of any number of requests, across any
    number of restarts. */
module VersionedStore {
  import opened Options
  import opened Decimal

  /** The custom resource: version is the resourceVersion string, created 0 a zero timestamp. */
  datatype Object<S> = Object(
    name: string, version: string, generation: int, uid: string, created: int,
    labels: map<string, string>, spec: S)

  datatype Row<S> = Row(obj: Object<S>, version: int, deleted: bool)

  type Table<S> = map<string, Row<S>>

  datatype Stamp = Stamp(uid: string, now: int)

  datatype Reply = Ok | BadRequest | Invalid | AlreadyExists | NotFound | Conflict | NotProvisioned

  predicate Live<S>(t: Table<S>, n: string) { n in t && !t[n].deleted }

  /** resourcePoolFromRecord and tenantFromRecord: the stored object with the row's version. */
  function FromRecord<S>(row: Row<S>): Object<S> { row.obj.(version := Format(row.version)) }

  /** The defaults a new record gets. */
  function Prepared<S>(o: Object<S>, stamp: Stamp): Object<S> {
    o.(version := "1",
       generation := if o.generation == 0 then 1 else o.generation,
       uid := if o.uid == "" then stamp.uid else o.uid,
       created := if o.created == 0 then stamp.now else o.created)
  }

  function NewRow<S>(o: Object<S>, stamp: Stamp): Row<S> { Row(Prepared(o, stamp), 1, false) }

  /** The replacement a patch stores. */
  function Replacement<S(==)>(o: Object<S>, base: Object<S>, expected: int): Object<S> {
    o.(version := Format(expected + 1),
       generation := if base.spec == o.spec then base.generation else base.generation + 1,
       created := if o.created == 0 then base.created else o.created)
  }

  // ---- The atomic statements -----------------------------------------------------------------------

  /** INSERT ... ON CONFLICT DO NOTHING. */
  function InsertIfAbsent<S>(t: Table<S>, row: Row<S>): Table<S> {
    if row.obj.name in t then t else t[row.obj.name := row]
  }

  /** UPDATE ... WHERE name AND deleted. */
  function Revive<S>(t: Table<S>, row: Row<S>): Table<S> {
    if row.obj.name in t && t[row.obj.name].deleted then t[row.obj.name := row] else t
  }

  /** The base version a patch expects; None when it does not parse or is below one. */
  function Expected<S>(base: Object<S>): Option<int> {
    var v := Parse(base.version);
    if v.Some? && v.value >= 1 then v else None
  }

  predicate WellFormedPatch<S>(o: Object<S>, base: Object<S>) {
    o.name != "" && o.name == base.name && Expected(base).Some?
  }

  /** UPDATE ... WHERE name AND NOT deleted AND resource_version = expected. */
  predicate PatchHits<S>(t: Table<S>, o: Object<S>, base: Object<S>) {
    WellFormedPatch(o, base) && Live(t, o.name) && t[o.name].version == Expected(base).value
  }

  function Patched<S(==)>(t: Table<S>, o: Object<S>, base: Object<S>): Table<S> {
    if PatchHits(t, o, base) then
      var v := Expected(base).value;
      t[o.name := Row(Replacement(o, base, v), v + 1, false)]
    else t
  }

  function Deleted<S>(t: Table<S>, n: string): Table<S> {
    if Live(t, n) then t[n := Row(t[n].obj, t[n].version + 1, true)] else t
  }

  datatype Event<S> =
    | Seeding(row: Row<S>)                      // Seed's insert
    | Inserting(row: Row<S>)                    // Create's insert
    | Reviving(row: Row<S>)                     // Create's update of a tombstone
    | Patching(obj: Object<S>, base: Object<S>)
    | Deleting(name: string)

  function Step<S(==)>(t: Table<S>, e: Event<S>): Table<S> {
    match e
    case Seeding(row) => InsertIfAbsent(t, row)
    case Inserting(row) => InsertIfAbsent(t, row)
    case Reviving(row) => Revive(t, row)
    case Patching(obj, base) => Patched(t, obj, base)
    case Deleting(name) => Deleted(t, name)
  }

  /** The table after the first i statements. */
  function At<S(==)>(start: Table<S>, run: seq<Event<S>>, i: nat): Table<S>
    requires i <= |run|
  {
    if i == 0 then start else Step(At(start, run, i - 1), run[i - 1])
  }

  /** What Create and Patch hand back is what a read returns afterwards; a created object has a
      version, a generation, a creation time and a uid, its own where it brought them. */
  lemma PublishedIsRead<S>(o: Object<S>, base: Object<S>, stamp: Stamp, expected: int)
    requires stamp.uid != "" && stamp.now != 0
    ensures FromRecord(NewRow(o, stamp)) == Prepared(o, stamp)
    ensures FromRecord(Row(Replacement(o, base, expected), expected + 1, false)) == Replacement(o, base, expected)
    ensures var p := Prepared(o, stamp);
            && p.name == o.name && p.labels == o.labels && p.spec == o.spec
            && Parse(p.version) == Some(1) && p.generation != 0 && p.created != 0 && p.uid != ""
            && (o.generation != 0 ==> p.generation == o.generation)
            && (o.created != 0 ==> p.created == o.created) && (o.uid != "" ==> p.uid == o.uid)
  {
    ParseFormat(1);
    assert Format(1) == "1";
  }

  /** A read after a successful patch returns the patch's own name, labels, uid and spec, under the next
      version. */
  lemma PatchIsRead<S>(t: Table<S>, o: Object<S>, base: Object<S>)
    requires PatchHits(t, o, base)
    ensures var t' := Patched(t, o, base);
            && Live(t', o.name)
            && var read := FromRecord(t'[o.name]);
               && read.name == o.name && read.labels == o.labels && read.uid == o.uid && read.spec == o.spec
               && read.version == Format(t[o.name].version + 1)
  {
  }

  /** The name a statement is about. */
  function Subject<S>(e: Event<S>): string {
    match e
    case Seeding(row) => row.obj.name
    case Inserting(row) => row.obj.name
    case Reviving(row) => row.obj.name
    case Patching(obj, _) => obj.name
    case Deleting(name) => name
  }

  /** Every statement leaves the other names alone; what it does to its own depends on what is there. An
      insert fills a name that never existed, a revival a tombstone, and nothing else; a delete turns a
      live row into a tombstone of the next version. */
  lemma StatementEffects<S>(t: Table<S>, e: Event<S>, n: string)
    ensures n != Subject(e) ==> (n in Step(t, e) <==> n in t) && (n in t ==> Step(t, e)[n] == t[n])
    ensures (e.Seeding? || e.Inserting?) && n == Subject(e) ==>
              n in Step(t, e) && Step(t, e)[n] == if n in t then t[n] else e.row
    ensures e.Reviving? && n == Subject(e) && n in t ==> Step(t, e)[n] == if t[n].deleted then e.row else t[n]
    ensures e.Reviving? && n == Subject(e) && n !in t ==> n !in Step(t, e)
    ensures e.Deleting? && n == Subject(e) && Live(t, n) ==>
              n in Step(t, e) && !Live(Step(t, e), n) && Step(t, e)[n].obj == t[n].obj && Step(t, e)[n].version == t[n].version + 1
    ensures e.Deleting? && n == Subject(e) && !Live(t, n) ==> Step(t, e) == t
  {
  }

  // ---- Tombstones -----------------------------------------------------------------------------------

  /** Rows never vanish. */
  lemma {:induction false} RowsStay<S>(start: Table<S>, run: seq<Event<S>>, i: nat, j: nat, n: string)
    requires i <= j <= |run| && n in At(start, run, i)
    ensures n in At(start, run, j)
    decreases j
  {
    if i < j { RowsStay(start, run, i, j - 1, n); }
  }

  /** Seeding never changes an existing row, live or deleted. */
  lemma SeedLeavesRows<S>(t: Table<S>, row: Row<S>, n: string)
    requires n in t
    ensures n in Step(t, Seeding(row)) && Step(t, Seeding(row))[n] == t[n]
  {
  }

  /** A deleted name is live again only if, in between, a Create revived it: no number of
      restarts seeding the same bootstrap objects brings it back. */
  lemma {:induction false} OnlyCreateRevives<S>(start: Table<S>, run: seq<Event<S>>, i: nat, j: nat, n: string) returns (k: nat)
    requires i <= j <= |run| && n in At(start, run, i) && At(start, run, i)[n].deleted && Live(At(start, run, j), n)
    ensures i <= k < j && run[k].Reviving? && run[k].row.obj.name == n
    decreases j
  {
    RowsStay(start, run, i, j - 1, n);
    if Live(At(start, run, j - 1), n) {
      k := OnlyCreateRevives(start, run, i, j - 1, n);
    } else {
      k := j - 1;
    }
  }

  // ---- Optimistic concurrency -------------------------------------------------------------------------

  /** From i to j the name stays in one incarnation: live at i, and no delete reaches it. */
  ghost predicate OneLife<S>(start: Table<S>, run: seq<Event<S>>, n: string, i: nat, j: nat) {
    && i <= j <= |run| && Live(At(start, run, i), n)
    && (forall k | i <= k < j :: run[k] != Deleting(n))
  }

  /** Statement k is a successful patch of the name. */
  predicate Succeeds<S(==)>(start: Table<S>, run: seq<Event<S>>, n: string, k: nat)
    requires k < |run|
  {
    run[k].Patching? && run[k].obj.name == n && PatchHits(At(start, run, k), run[k].obj, run[k].base)
  }

  function Successes<S(==)>(start: Table<S>, run: seq<Event<S>>, n: string, i: nat, j: nat): nat
    requires i <= j <= |run|
    decreases j
  {
    if i == j then 0 else Successes(start, run, n, i, j - 1) + if Succeeds(start, run, n, j - 1) then 1 else 0
  }

  /** In one incarnation a statement changes the row exactly when it is a successful patch, which
      raises the version by one; a stale patch leaves the row as it is. */
  lemma LifeStep<S>(start: Table<S>, run: seq<Event<S>>, n: string, k: nat)
    requires k < |run| && Live(At(start, run, k), n) && run[k] != Deleting(n)
    ensures Live(At(start, run, k + 1), n)
    ensures var before, after := At(start, run, k)[n], At(start, run, k + 1)[n];
            if Succeeds(start, run, n, k)
            then after == Row(Replacement(run[k].obj, run[k].base, before.version), before.version + 1, false)
            else after == before
  {
  }

  /** Successful patches form a single chain: over any stretch of one incarnation the version rises
      by exactly the number of successful patches, and without one the row does not change. */
  lemma {:induction false} VersionCountsPatches<S>(start: Table<S>, run: seq<Event<S>>, n: string, i: nat, j: nat)
    requires OneLife(start, run, n, i, j)
    ensures Live(At(start, run, j), n)
    ensures At(start, run, j)[n].version == At(start, run, i)[n].version + Successes(start, run, n, i, j)
    ensures Successes(start, run, n, i, j) == 0 ==> At(start, run, j)[n] == At(start, run, i)[n]
    decreases j
  {
    if i < j {
      VersionCountsPatches(start, run, n, i, j - 1);
      LifeStep(start, run, n, j - 1);
    }
  }

  /** At most one patch per base version succeeds: of two successful ones the later expects more. */
  lemma OnePatchPerBase<S>(start: Table<S>, run: seq<Event<S>>, n: string, i: nat, j: nat, k: nat, l: nat)
    requires OneLife(start, run, n, i, j) && i <= k < l < j
    requires Succeeds(start, run, n, k) && Succeeds(start, run, n, l)
    ensures Expected(run[k].base).value < Expected(run[l].base).value
  {
    VersionCountsPatches(start, run, n, i, k);
    LifeStep(start, run, n, k);
    VersionCountsPatches(start, run, n, k + 1, l);
  }

  /** The base was read from the row at point r of the run. */
  ghost predicate ReadAt<S>(start: Table<S>, run: seq<Event<S>>, n: string, base: Object<S>, r: nat) {
    r <= |run| && Live(At(start, run, r), n) && Fits64(At(start, run, r)[n].version) &&
    base == FromRecord(At(start, run, r)[n])
  }

  /** No lost update: if a patch whose base was read in this incarnation succeeds, the row it
      replaces is exactly the row that was read. */
  lemma NoLostUpdate<S>(start: Table<S>, run: seq<Event<S>>, n: string, i: nat, j: nat, r: nat, k: nat)
    requires OneLife(start, run, n, i, j) && i <= r <= k < j
    requires Succeeds(start, run, n, k) && ReadAt(start, run, n, run[k].base, r)
    ensures At(start, run, k)[n] == At(start, run, r)[n]
  {
    VersionCountsPatches(start, run, n, i, r);
    VersionCountsPatches(start, run, n, r, k);
    ParseFormat(At(start, run, r)[n].version);
  }

  /** The patch at point k was computed from a base read since point i. */
  ghost predicate Informed<S>(start: Table<S>, run: seq<Event<S>>, n: string, i: nat, k: nat) {
    k < |run| && run[k].Patching? && exists r: nat :: i <= r <= k && ReadAt(start, run, n, run[k].base, r)
  }

  /** The base of a successful informed patch is the object it replaces. */
  lemma BaseIsCurrent<S>(start: Table<S>, run: seq<Event<S>>, n: string, i: nat, j: nat, k: nat)
    requires OneLife(start, run, n, i, j) && i <= k < j && Succeeds(start, run, n, k) && Informed(start, run, n, i, k)
    ensures Live(At(start, run, k), n) && run[k].base == FromRecord(At(start, run, k)[n])
  {
    var r: nat :| i <= r <= k && ReadAt(start, run, n, run[k].base, r);
    NoLostUpdate(start, run, n, i, j, r, k);
  }

  /** Statement k changes the stored spec. */
  ghost predicate ChangesSpec<S>(start: Table<S>, run: seq<Event<S>>, n: string, k: nat)
    requires k < |run|
  {
    var before, after := At(start, run, k), At(start, run, k + 1);
    n in before && n in after && before[n].obj.spec != after[n].obj.spec
  }

  ghost function SpecChanges<S>(start: Table<S>, run: seq<Event<S>>, n: string, i: nat, j: nat): nat
    requires i <= j <= |run|
    decreases j
  {
    if i == j then 0
    else SpecChanges(start, run, n, i, j - 1) + if ChangesSpec(start, run, n, j - 1) then 1 else 0
  }

  /** One statement raises the generation exactly when it changes the spec. */
  lemma GenerationStep<S>(start: Table<S>, run: seq<Event<S>>, n: string, i: nat, j: nat, k: nat)
    requires OneLife(start, run, n, i, j) && i <= k < j && Live(At(start, run, k), n)
    requires Succeeds(start, run, n, k) ==> Informed(start, run, n, i, k)
    ensures Live(At(start, run, k + 1), n)
    ensures At(start, run, k + 1)[n].obj.generation ==
            At(start, run, k)[n].obj.generation + if ChangesSpec(start, run, n, k) then 1 else 0
  {
    LifeStep(start, run, n, k);
    if Succeeds(start, run, n, k) { BaseIsCurrent(start, run, n, i, j, k); }
  }

  /** Every successful patch of the stretch is informed. */
  ghost predicate AllInformed<S>(start: Table<S>, run: seq<Event<S>>, n: string, i: nat, j: nat)
    requires i <= j <= |run|
    decreases j
  {
    i == j || (AllInformed(start, run, n, i, j - 1) &&
               (Succeeds(start, run, n, j - 1) ==> Informed(start, run, n, i, j - 1)))
  }

  /** The generation counts exactly the changes of the spec, when every successful patch was
      computed from a base read in this incarnation. */
  lemma {:induction false} GenerationCountsSpecChanges<S>(start: Table<S>, run: seq<Event<S>>, n: string, i: nat, j: nat)
    requires OneLife(start, run, n, i, j) && AllInformed(start, run, n, i, j)
    ensures Live(At(start, run, j), n)
    ensures At(start, run, j)[n].obj.generation ==
            At(start, run, i)[n].obj.generation + SpecChanges(start, run, n, i, j)
    decreases j
  {
    if i < j {
      GenerationCountsSpecChanges(start, run, n, i, j - 1);
      GenerationStep(start, run, n, i, j, j - 1);
    }
  }

  /** The patched object carries no creation time or its base's. */
  predicate CarriesCreation<S>(e: Event<S>) {
    e.Patching? && (e.obj.created == 0 || e.obj.created == e.base.created)
  }

  ghost predicate AllCarryCreation<S>(start: Table<S>, run: seq<Event<S>>, n: string, i: nat, j: nat)
    requires i <= j <= |run|
    decreases j
  {
    i == j || (AllCarryCreation(start, run, n, i, j - 1) &&
               (Succeeds(start, run, n, j - 1) ==> CarriesCreation(run[j - 1])))
  }

  /** The creation time survives patches whose base was read and whose object carries none or the
      same one. */
  lemma {:induction false} CreationTimeStays<S>(start: Table<S>, run: seq<Event<S>>, n: string, i: nat, j: nat)
    requires OneLife(start, run, n, i, j) && AllInformed(start, run, n, i, j) && AllCarryCreation(start, run, n, i, j)
    ensures Live(At(start, run, j), n) && At(start, run, j)[n].obj.created == At(start, run, i)[n].obj.created
    decreases j
  {
    if i < j {
      CreationTimeStays(start, run, n, i, j - 1);
      LifeStep(start, run, n, j - 1);
      if Succeeds(start, run, n, j - 1) { BaseIsCurrent(start, run, n, i, j, j - 1); }
    }
  }

  // ---- Where the guarantee stops ------------------------------------------------------------------------

  /** Exactly which patches succeed in one incarnation: those that expect the version it started
      with plus one for every success since. A revived name starts at one. */
  lemma SucceedsIff<S>(start: Table<S>, run: seq<Event<S>>, n: string, i: nat, k: nat)
    requires OneLife(start, run, n, i, k) && k < |run| && run[k].Patching? && run[k].obj.name == n
    ensures Succeeds(start, run, n, k) <==>
            WellFormedPatch(run[k].obj, run[k].base) &&
            Expected(run[k].base).value == At(start, run, i)[n].version + Successes(start, run, n, i, k)
  {
    VersionCountsPatches(start, run, n, i, k);
  }

  /** Whatever happens from now on, a patch computed from the row as it is now either fails or
      replaces exactly this row. With `deletes`, the name may be deleted meanwhile. */
  ghost predicate BaseStaysGood<S(!new)>(t: Table<S>, n: string, deletes: bool)
    requires n in t
  {
    forall run: seq<Event<S>>, k: nat |
      k < |run| && (deletes || Deleting(n) !in run) && Succeeds(t, run, n, k) && run[k].base == FromRecord(t[n]) ::
      n in At(t, run, k) && At(t, run, k)[n] == t[n]
  }

  lemma {:induction false} AtPrefix<S>(start: Table<S>, run: seq<Event<S>>, more: seq<Event<S>>, i: nat)
    requires i <= |run|
    ensures At(start, run + more, i) == At(start, run, i)
  {
    if i > 0 {
      AtPrefix(start, run, more, i - 1);
      assert (run + more)[i - 1] == run[i - 1];
    }
  }

  lemma AtSnoc<S>(start: Table<S>, run: seq<Event<S>>, e: Event<S>)
    ensures At(start, run + [e], |run| + 1) == Step(At(start, run, |run|), e)
  {
    AtPrefix(start, run, [e], |run|);
    assert (run + [e])[|run|] == e;
  }

  /** Delete the name, create it again as o, and patch it m times. */
  function Rebuilt<S(==)>(o: Object<S>, m: nat): seq<Event<S>> {
    if m == 0 then [Deleting(o.name), Reviving(NewRow(o, Stamp("", 0)))]
    else Rebuilt(o, m - 1) + [Patching(o, o.(version := Format(m)))]
  }

  /** The row of incarnation o at this version. */
  predicate Holds<S>(t: Table<S>, o: Object<S>, version: int) {
    Live(t, o.name) && t[o.name].version == version && t[o.name].obj.uid == o.uid
  }

  lemma RecreatedRow<S>(t: Table<S>, o: Object<S>)
    requires Live(t, o.name) && o.uid != ""
    ensures Holds(At(t, Rebuilt(o, 0), 2), o, 1)
  {
    var run := Rebuilt(o, 0);
    assert At(t, run, 1) == Deleted(At(t, run, 0), o.name);
    assert At(t, run, 2) == Revive(At(t, run, 1), run[1].row);
  }

  lemma PatchedOnce<S>(t: Table<S>, o: Object<S>, m: nat)
    requires Holds(t, o, m) && o.name != "" && 1 <= m && Fits64(m)
    ensures Holds(Patched(t, o, o.(version := Format(m))), o, m + 1)
  {
    ParseFormat(m);
  }

  lemma {:induction false} RebuiltRow<S>(t: Table<S>, o: Object<S>, m: nat)
    requires Live(t, o.name) && o.name != "" && o.uid != "" && Fits64(m)
    ensures Holds(At(t, Rebuilt(o, m), |Rebuilt(o, m)|), o, m + 1)
  {
    if m == 0 {
      RecreatedRow(t, o);
    } else {
      RebuiltRow(t, o, m - 1);
      var before := Rebuilt(o, m - 1);
      AtSnoc(t, before, Patching(o, o.(version := Format(m))));
      PatchedOnce(At(t, before, |before|), o, m);
    }
  }

  /** A successor of the object: another incarnation, told apart by its uid. */
  function Other<S>(o: Object<S>): Object<S> { o.(uid := o.uid + "'") }

  lemma RebuiltFoolsPatch<S>(t: Table<S>, n: string, o: Object<S>)
    requires Live(t, n) && n != "" && t[n].obj.name == n && 1 <= t[n].version && Fits64(t[n].version) && o.name == n
    ensures var run := Rebuilt(Other(t[n].obj), t[n].version - 1) + [Patching(o, FromRecord(t[n]))];
            var k := |run| - 1;
            Succeeds(t, run, n, k) && n in At(t, run, k) && At(t, run, k)[n].obj.uid != t[n].obj.uid
  {
    var other, last := Other(t[n].obj), Patching(o, FromRecord(t[n]));
    var before := Rebuilt(other, t[n].version - 1);
    RebuiltRow(t, other, t[n].version - 1);
    AtPrefix(t, before, [last], |before|);
    ParseFormat(t[n].version);
  }

  /** Versions restart at one when a deleted name is created again. So a base read from any live row
      stays good exactly as long as the name is not deleted: after a deletion another object can
      reach the same version, and the old base overwrites it. */
  lemma BaseStaysGoodIff<S(!new)>(t: Table<S>, n: string, deletes: bool)
    requires Live(t, n) && n != "" && t[n].obj.name == n && 1 <= t[n].version && Fits64(t[n].version)
    ensures BaseStaysGood(t, n, deletes) <==> !deletes
  {
    if deletes {
      RebuiltFoolsPatch(t, n, t[n].obj);
    } else {
      forall run: seq<Event<S>>, k: nat |
        k < |run| && Deleting(n) !in run && Succeeds(t, run, n, k) && run[k].base == FromRecord(t[n])
        ensures n in At(t, run, k) && At(t, run, k)[n] == t[n]
      {
        NoLostUpdate(t, run, n, 0, |run|, 0, k);
      }
    }
  }
}
