/** The store objects over the versioned table, one request at a time: the ResourcePool store and the
    Tenant store (axisml-standalone/resourcepool_store.go, tenant_store.go) differ in what they
    validate, when, and in whether they provision volumes before publishing. */
module Stores {
  import opened Options
  import opened Decimal
  import opened VersionedStore

  /** The checks of newResourcePoolRecord and newTenantRecord. */
  function Accepts<S>(valid: (string, S) -> bool, o: Option<Object<S>>): Reply {
    if o.None? || o.value.name == "" then BadRequest
    else if !valid(o.value.name, o.value.spec) then Invalid else Ok
  }

  predicate NamesMatch<S>(o: Option<Object<S>>, base: Option<Object<S>>) {
    o.Some? && base.Some? && o.value.name != "" && o.value.name == base.value.name
  }

  /** A patch that gets as far as its statement: its base has a version, its object passes the
      checks the store makes, and provisioning succeeds. */
  predicate Reaches<S(==)>(valid: (string, S) -> bool, checksPatches: bool, provisions: Object<S> -> bool,
                           o: Option<Object<S>>, base: Option<Object<S>>)
  {
    && NamesMatch(o, base) && Expected(base.value).Some?
    && (checksPatches ==> valid(o.value.name, o.value.spec))
    && provisions(Replacement(o.value, base.value, Expected(base.value).value))
  }

  class Store<S(==)> {
    const valid: (string, S) -> bool     // the validation of a name and its spec
    const checksPatches: bool            // the pool store validates patches, the tenant store does not
    const provisions: Object<S> -> bool  // whether materialize succeeds; always, for the pool store
    var rows: Table<S>

    constructor (valid: (string, S) -> bool, checksPatches: bool, provisions: Object<S> -> bool, rows: Table<S>)
      ensures this.valid == valid && this.checksPatches == checksPatches && this.provisions == provisions
      ensures this.rows == rows
    {
      this.valid, this.checksPatches, this.provisions, this.rows := valid, checksPatches, provisions, rows;
    }

    /** Every row is filed under its object's name. */
    ghost predicate Filed()
      reads this
    {
      forall n | n in rows :: rows[n].obj.name == n
    }

    ghost predicate AllValid()
      reads this
    {
      forall n | n in rows :: valid(n, rows[n].obj.spec)
    }

    function Acceptable(o: Option<Object<S>>): Reply { Accepts(valid, o) }

    /** Every row that was not there before is an acceptable one of the first k objects, as new. */
    ghost predicate Imported(before: Table<S>, after: Table<S>, objs: seq<Option<Object<S>>>, stamps: seq<Stamp>, k: nat)
      requires k <= |objs| == |stamps|
    {
      forall n | n in after && n !in before ::
        exists i :: 0 <= i < k && Acceptable(objs[i]) == Ok && objs[i].value.name == n &&
                    after[n] == NewRow(objs[i].value, stamps[i])
    }

    lemma ImportOne(before: Table<S>, t: Table<S>, objs: seq<Option<Object<S>>>, stamps: seq<Stamp>, k: nat)
      requires k < |objs| == |stamps| && Imported(before, t, objs, stamps, k) && Acceptable(objs[k]) == Ok
      ensures Imported(before, InsertIfAbsent(t, NewRow(objs[k].value, stamps[k])), objs, stamps, k + 1)
    {
      var row := NewRow(objs[k].value, stamps[k]);
      var after := InsertIfAbsent(t, row);
      forall n | n in after && n !in before
        ensures exists i :: 0 <= i < k + 1 && Acceptable(objs[i]) == Ok && objs[i].value.name == n &&
                            after[n] == NewRow(objs[i].value, stamps[i])
      {
        if n in t {
          var i :| 0 <= i < k && Acceptable(objs[i]) == Ok && objs[i].value.name == n &&
                   t[n] == NewRow(objs[i].value, stamps[i]);
          assert after[n] == NewRow(objs[i].value, stamps[i]);
        } else {
          assert after[n] == NewRow(objs[k].value, stamps[k]);
        }
      }
    }

    /** Where Seed stands after k objects: nothing that was there has changed, the new rows come from
        acceptable objects, and every object so far has a row. */
    ghost predicate Seeding(before: Table<S>, t: Table<S>, objs: seq<Option<Object<S>>>, stamps: seq<Stamp>, k: nat)
      requires k <= |objs| == |stamps|
    {
      && (forall n | n in before :: n in t && t[n] == before[n])
      && Imported(before, t, objs, stamps, k)
      && (forall i | 0 <= i < k :: Acceptable(objs[i]) == Ok && objs[i].value.name in t)
    }

    lemma SeedOne(before: Table<S>, t: Table<S>, objs: seq<Option<Object<S>>>, stamps: seq<Stamp>, k: nat)
      requires k < |objs| == |stamps| && Seeding(before, t, objs, stamps, k) && Acceptable(objs[k]) == Ok
      ensures Seeding(before, InsertIfAbsent(t, NewRow(objs[k].value, stamps[k])), objs, stamps, k + 1)
    {
      ImportOne(before, t, objs, stamps, k);
    }

    /** Seeding files and validates. */
    lemma SeededRow(before: Table<S>, t: Table<S>, objs: seq<Option<Object<S>>>, stamps: seq<Stamp>, k: nat, n: string)
      requires k <= |objs| == |stamps| && Seeding(before, t, objs, stamps, k) && n in t
      ensures n in before || (t[n].obj.name == n && valid(n, t[n].obj.spec))
    {
      if n !in before {
        var i :| 0 <= i < k && Acceptable(objs[i]) == Ok && objs[i].value.name == n &&
                 t[n] == NewRow(objs[i].value, stamps[i]);
      }
    }

    /** Seed: imports an object only when its name has never existed, and stops at the first
        unacceptable one, with its error. `done` objects come before it: each has a row afterwards, and
        what is new comes from them alone. Existing rows, tombstones included, stay as they are. */
    method Seed(objs: seq<Option<Object<S>>>, stamps: seq<Stamp>) returns (reply: Reply, done: nat)
      requires Filed() && |stamps| == |objs|
      modifies this`rows
      ensures Filed() && (old(AllValid()) ==> AllValid())
      ensures forall n | n in old(rows) :: n in rows && rows[n] == old(rows)[n]
      ensures done <= |objs| && forall i | 0 <= i < done :: Acceptable(objs[i]) == Ok && objs[i].value.name in rows
      ensures reply == if done == |objs| then Ok else Acceptable(objs[done])
      ensures done < |objs| ==> reply != Ok
      ensures Imported(old(rows), rows, objs, stamps, done)
    {
      reply := Ok;
      done := 0;
      while done < |objs| && reply == Ok
        invariant done <= |objs| && Seeding(old(rows), rows, objs, stamps, done)
        invariant reply != Ok ==> done < |objs| && Acceptable(objs[done]) == reply
        decreases |objs| - done, reply == Ok
      {
        reply := Acceptable(objs[done]);
        if reply == Ok {
          SeedOne(old(rows), rows, objs, stamps, done);
          rows := InsertIfAbsent(rows, NewRow(objs[done].value, stamps[done]));
          done := done + 1;
        }
      }
      forall n | n in rows
        ensures n in old(rows) || (rows[n].obj.name == n && valid(n, rows[n].obj.spec))
      {
        SeededRow(old(rows), rows, objs, stamps, done, n);
      }
    }

    method Get(name: string) returns (found: Option<Object<S>>)
      ensures found == if Live(rows, name) then Some(FromRecord(rows[name])) else None
    {
      if name in rows && !rows[name].deleted {
        return Some(FromRecord(rows[name]));
      }
      return None;
    }

    /** Create: publishes the object as version one, whether its name is new or a tombstone, and
        only after provisioning succeeded. */
    method Create(o: Option<Object<S>>, stamp: Stamp) returns (reply: Reply, published: Option<Object<S>>)
      requires Filed()
      modifies this`rows
      ensures Filed() && (old(AllValid()) ==> AllValid())
      ensures Acceptable(o) != Ok ==> reply == Acceptable(o)
      ensures Acceptable(o) == Ok ==>
                && (reply == AlreadyExists <==> Live(old(rows), o.value.name))
                && (reply == NotProvisioned <==> !Live(old(rows), o.value.name) && !provisions(Prepared(o.value, stamp)))
                && reply in {Ok, AlreadyExists, NotProvisioned}
      ensures reply == Ok ==>
                && provisions(Prepared(o.value, stamp)) && published == Some(Prepared(o.value, stamp))
                && rows == old(rows)[o.value.name := NewRow(o.value, stamp)]
      ensures reply != Ok ==> rows == old(rows) && published == None
    {
      published := None;
      reply := Acceptable(o);
      if reply != Ok {
        return;
      }
      var prepared, row := Prepared(o.value, stamp), NewRow(o.value, stamp);
      var existing := Get(prepared.name);
      if existing.Some? {
        return AlreadyExists, None;
      }
      if !provisions(prepared) {
        return NotProvisioned, None;
      }
      if row.obj.name !in rows {
        rows := InsertIfAbsent(rows, row);
      } else {
        rows := Revive(rows, row);
      }
      return Ok, Some(prepared);
    }

    /** Patch: replaces the row the base was read from, or changes nothing. Each reply says exactly
        what was the matter. */
    method Patch(o: Option<Object<S>>, base: Option<Object<S>>) returns (reply: Reply, published: Option<Object<S>>)
      requires Filed()
      modifies this`rows
      ensures Filed() && (checksPatches && old(AllValid()) ==> AllValid())
      ensures reply == BadRequest <==> !NamesMatch(o, base)
      ensures reply == Invalid <==> NamesMatch(o, base) && Expected(base.value).Some? && checksPatches && !valid(o.value.name, o.value.spec)
      ensures reply == NotProvisioned <==>
              && NamesMatch(o, base) && Expected(base.value).Some? && (checksPatches ==> valid(o.value.name, o.value.spec))
              && !provisions(Replacement(o.value, base.value, Expected(base.value).value))
      ensures reply == NotFound <==> Reaches(valid, checksPatches, provisions, o, base) && !Live(old(rows), o.value.name)
      ensures reply == Conflict <==>
              NamesMatch(o, base) && (Expected(base.value).None? ||
                                      (Reaches(valid, checksPatches, provisions, o, base) && Live(old(rows), o.value.name) &&
                                       old(rows)[o.value.name].version != Expected(base.value).value))
      ensures reply == Ok <==> Reaches(valid, checksPatches, provisions, o, base) && PatchHits(old(rows), o.value, base.value)
      ensures reply == Ok ==> rows == Patched(old(rows), o.value, base.value) && published == Some(rows[o.value.name].obj)
      ensures reply != Ok ==> rows == old(rows) && published == None
    {
      published := None;
      if o.None? || base.None? || o.value.name == "" || o.value.name != base.value.name {
        return BadRequest, None;
      }
      var expected := Expected(base.value);
      if expected.None? {
        return Conflict, None;
      }
      if checksPatches && !valid(o.value.name, o.value.spec) {
        return Invalid, None;
      }
      var next := Replacement(o.value, base.value, expected.value);
      if !provisions(next) {
        return NotProvisioned, None;
      }
      if !PatchHits(rows, o.value, base.value) {
        var current := Get(o.value.name);
        return if current.None? then NotFound else Conflict, None;
      }
      rows := Patched(rows, o.value, base.value);
      return Ok, Some(next);
    }

    method Delete(name: string) returns (reply: Reply)
      requires Filed()
      modifies this`rows
      ensures Filed() && (old(AllValid()) ==> AllValid())
      ensures rows == Deleted(old(rows), name) && !Live(rows, name)
      ensures reply == if Live(old(rows), name) then Ok else NotFound
    {
      if !Live(rows, name) {
        return NotFound;
      }
      rows := Deleted(rows, name);
      return Ok;
    }
  }

  // ---- Validity over whole runs --------------------------------------------------------------------------

  /** A Create between its checks and its statements. */
  datatype Pending<S> = ToInsert(row: Row<S>) | ToRevive(row: Row<S>)

  datatype Server<S> = Server(rows: Table<S>, pending: map<nat, Pending<S>>)

  /** The steps of any number of requests in any order, restarts included: a restart seeds its
      objects again, and the requests it cuts off are abandoned. */
  datatype Request<S> =
    | Import(o: Option<Object<S>>, stamp: Stamp)                                   // one object of Seed
    | BeginCreate(id: nat, o: Option<Object<S>>, stamp: Stamp, provisioned: bool)  // up to the insert
    | InsertRow(id: nat)
    | ReviveRow(id: nat)
    | PatchRow(o: Option<Object<S>>, base: Option<Object<S>>, provisioned: bool)
    | DeleteRow(name: string)
    | Abandon(id: nat)

  /** The statement the step sends to the database, if its checks let it. */
  function Statement<S(==)>(valid: (string, S) -> bool, checksPatches: bool, s: Server<S>, r: Request<S>): Option<Event<S>> {
    match r
    case Import(o, stamp) => if Accepts(valid, o) == Ok then Some(Seeding(NewRow(o.value, stamp))) else None
    case InsertRow(id) => if id in s.pending && s.pending[id].ToInsert? then Some(Inserting(s.pending[id].row)) else None
    case ReviveRow(id) => if id in s.pending && s.pending[id].ToRevive? then Some(Reviving(s.pending[id].row)) else None
    case PatchRow(o, base, provisioned) =>
      if Reaches(valid, checksPatches, _ => provisioned, o, base) then Some(Patching(o.value, base.value)) else None
    case DeleteRow(name) => Some(Deleting(name))
    case _ => None
  }

  function PendingAfter<S(==)>(valid: (string, S) -> bool, s: Server<S>, r: Request<S>): map<nat, Pending<S>> {
    match r
    case BeginCreate(id, o, stamp, provisioned) =>
      if id !in s.pending && Accepts(valid, o) == Ok && !Live(s.rows, o.value.name) && provisioned
      then s.pending[id := ToInsert(NewRow(o.value, stamp))] else s.pending
    case InsertRow(id) =>
      if id in s.pending && s.pending[id].ToInsert? && s.pending[id].row.obj.name in s.rows
      then s.pending[id := ToRevive(s.pending[id].row)] else s.pending - {id}
    case ReviveRow(id) => s.pending - {id}
    case Abandon(id) => s.pending - {id}
    case _ => s.pending
  }

  function Serve<S(==)>(valid: (string, S) -> bool, checksPatches: bool, s: Server<S>, r: Request<S>): Server<S> {
    var e := Statement(valid, checksPatches, s, r);
    Server(if e.Some? then Step(s.rows, e.value) else s.rows, PendingAfter(valid, s, r))
  }

  function ServeAll<S(==)>(valid: (string, S) -> bool, checksPatches: bool, start: Table<S>, requests: seq<Request<S>>): Server<S> {
    if requests == [] then Server(start, map[])
    else Serve(valid, checksPatches, ServeAll(valid, checksPatches, start, requests[..|requests| - 1]), requests[|requests| - 1])
  }

  /** The row a statement writes is one the store accepts. */
  ghost predicate Checked<S>(e: Event<S>, valid: (string, S) -> bool, checksPatches: bool) {
    match e
    case Seeding(row) => valid(row.obj.name, row.obj.spec)
    case Inserting(row) => valid(row.obj.name, row.obj.spec)
    case Reviving(row) => valid(row.obj.name, row.obj.spec)
    case Patching(obj, _) => checksPatches ==> valid(obj.name, obj.spec)
    case Deleting(_) => true
  }

  ghost predicate PendingChecked<S>(valid: (string, S) -> bool, s: Server<S>) {
    forall id | id in s.pending :: valid(s.pending[id].row.obj.name, s.pending[id].row.obj.spec)
  }

  /** Whatever the requests carry and however their steps interleave, they send the database only
      accepted rows; so what is proved of runs of statements holds of runs of requests. */
  lemma {:induction false} RequestsSendStatements<S>(valid: (string, S) -> bool, checksPatches: bool, start: Table<S>, requests: seq<Request<S>>)
    returns (run: seq<Event<S>>)
    ensures var s := ServeAll(valid, checksPatches, start, requests);
            s.rows == At(start, run, |run|) && PendingChecked(valid, s)
    ensures forall k | 0 <= k < |run| :: Checked(run[k], valid, checksPatches)
  {
    if requests == [] {
      run := [];
    } else {
      var m := |requests| - 1;
      var s, r := ServeAll(valid, checksPatches, start, requests[..m]), requests[m];
      run := RequestsSendStatements(valid, checksPatches, start, requests[..m]);
      StepSendsChecked(valid, checksPatches, s, r);
      var e := Statement(valid, checksPatches, s, r);
      if e.Some? {
        AtSnoc(start, run, e.value);
        run := run + [e.value];
      }
    }
  }

  lemma StepSendsChecked<S>(valid: (string, S) -> bool, checksPatches: bool, s: Server<S>, r: Request<S>)
    requires PendingChecked(valid, s)
    ensures PendingChecked(valid, Serve(valid, checksPatches, s, r))
    ensures var e := Statement(valid, checksPatches, s, r); e.Some? ==> Checked(e.value, valid, checksPatches)
  {
  }

  lemma {:induction false} CheckedRunStaysValid<S>(start: Table<S>, run: seq<Event<S>>, valid: (string, S) -> bool, i: nat, n: string)
    requires i <= |run| && forall m | m in start :: valid(m, start[m].obj.spec)
    requires forall k | 0 <= k < |run| :: Checked(run[k], valid, true)
    requires n in At(start, run, i)
    ensures valid(n, At(start, run, i)[n].obj.spec)
  {
    if i > 0 {
      if n in At(start, run, i - 1) { CheckedRunStaysValid(start, run, valid, i - 1, n); }
    }
  }

  /** Every object ever stored by a store that checks its patches is valid, over every interleaving
      of requests and restarts. */
  lemma AlwaysValid<S>(valid: (string, S) -> bool, start: Table<S>, requests: seq<Request<S>>, n: string)
    requires forall m | m in start :: valid(m, start[m].obj.spec)
    requires n in ServeAll(valid, true, start, requests).rows
    ensures valid(n, ServeAll(valid, true, start, requests).rows[n].obj.spec)
  {
    var run := RequestsSendStatements(valid, true, start, requests);
    CheckedRunStaysValid(start, run, valid, |run|, n);
  }

  // ---- A request by itself -----------------------------------------------------------------------------

  lemma AcceptsIff<S>(valid: (string, S) -> bool, o: Option<Object<S>>)
    ensures Accepts(valid, o) == Ok <==> o.Some? && o.value.name != "" && valid(o.value.name, o.value.spec)
    ensures Accepts(valid, o) == BadRequest <==> o.None? || o.value.name == ""
  {
  }

  /** Served alone, an import, a patch and a delete do what their statements do, exactly when the store
      lets them. */
  lemma ServedAlone<S>(valid: (string, S) -> bool, checksPatches: bool, s: Server<S>, r: Request<S>)
    ensures r.Import? ==>
              Serve(valid, checksPatches, s, r).rows ==
              if r.o.Some? && r.o.value.name != "" && valid(r.o.value.name, r.o.value.spec) && r.o.value.name !in s.rows
              then s.rows[r.o.value.name := NewRow(r.o.value, r.stamp)] else s.rows
    ensures r.PatchRow? ==>
              Serve(valid, checksPatches, s, r).rows ==
              if r.o.Some? && r.base.Some? && PatchHits(s.rows, r.o.value, r.base.value) && r.provisioned &&
                 (checksPatches ==> valid(r.o.value.name, r.o.value.spec))
              then Patched(s.rows, r.o.value, r.base.value) else s.rows
    ensures r.DeleteRow? ==> Serve(valid, checksPatches, s, r).rows == Deleted(s.rows, r.name)
    ensures r.BeginCreate? || r.Abandon? ==> Serve(valid, checksPatches, s, r).rows == s.rows
  {
  }

  /** A creation whose steps are served one after the other publishes the new row exactly when the object
      is acceptable, its name is not in use, and provisioning succeeds: an insert for a new name, and a
      revival for a tombstone. */
  lemma CreatedAlone<S>(valid: (string, S) -> bool, checksPatches: bool, s: Server<S>, id: nat, o: Option<Object<S>>, stamp: Stamp, provisioned: bool)
    requires id !in s.pending
    ensures var s1 := Serve(valid, checksPatches, s, BeginCreate(id, o, stamp, provisioned));
            var s2 := Serve(valid, checksPatches, s1, InsertRow(id));
            var s3 := Serve(valid, checksPatches, s2, ReviveRow(id));
            && s3.pending == s.pending
            && s3.rows == if o.Some? && o.value.name != "" && valid(o.value.name, o.value.spec) && !Live(s.rows, o.value.name) && provisioned
                          then s.rows[o.value.name := NewRow(o.value, stamp)] else s.rows
  {
    var s1 := Serve(valid, checksPatches, s, BeginCreate(id, o, stamp, provisioned));
    var s2 := Serve(valid, checksPatches, s1, InsertRow(id));
    assert s1.pending - {id} == s.pending;
    assert s2.pending - {id} == s.pending;
  }
}
