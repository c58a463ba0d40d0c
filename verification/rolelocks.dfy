/** Every interleaving of guarded membership transactions under the admin-row locks
    (guardLastAdminTx in store/roles.go), statement by statement as READ COMMITTED runs them. */
module RoleLocks {
  import opened Roles

  /** A guarded transaction holding the row locks of the admin rows it saw. */
  datatype Tx = Tx(user: string, tenant: string, role: string, seen: set<string>, passed: bool)

  datatype State = State(rows: Table, txs: map<nat, Tx>)

  /** Lock's `seen` is what the locking read returned, Check's `cur` the role of the row that the
      unlocked read returned, and Commit's `hit` the rows that the DELETE removed. A statement that
      waits for a row which is then replaced skips it and does not see the replacement, so `seen` and
      `hit` are some part of the current rows. */
  datatype Event =
    | Lock(id: nat, user: string, tenant: string, role: string, seen: set<string>)
    | Check(id: nat, cur: string)
    | Commit(id: nat, hit: Table)
    | Abort(id: nat)
    | Insert(user: string, tenant: string, role: string) // AddMember's Set: the pair has no row

  /** Another transaction holds the lock on this user's admin row. */
  predicate LockedByOther(s: State, id: nat, user: string, tenant: string) {
    exists o :: o in s.txs && o != id && s.txs[o].tenant == tenant && user in s.txs[o].seen
  }

  /** guardLastAdminTx on what the transaction saw and read. */
  predicate Passes(rows: Table, t: Tx, cur: string) {
    RowsOf(rows, t.user, t.tenant) != {} && !(cur == ADMIN && t.role != ADMIN && |t.seen| <= 1)
  }

  /** The DELETE removes rows of the pair that nobody else has locked, among them the one this
      transaction has locked; the INSERT must not meet a row with the same key. */
  ghost predicate Hits(s: State, id: nat, hit: Table)
    requires id in s.txs
  {
    var t := s.txs[id];
    && hit <= RowsOf(s.rows, t.user, t.tenant)
    && (t.user in t.seen ==> Binding(t.user, t.tenant, ADMIN) in hit)
    && (Binding(t.user, t.tenant, ADMIN) in hit ==> !LockedByOther(s, id, t.user, t.tenant))
    && (t.role == "" || Binding(t.user, t.tenant, t.role) !in s.rows - hit)
  }

  ghost predicate Enabled(s: State, e: Event) {
    match e
    case Lock(id, user, tenant, role, seen) =>
      id !in s.txs && seen <= Admins(s.rows, tenant) && forall u | u in seen :: !LockedByOther(s, id, u, tenant)
    case Check(id, cur) =>
      id in s.txs && !s.txs[id].passed &&
      (RowsOf(s.rows, s.txs[id].user, s.txs[id].tenant) == {} || Binding(s.txs[id].user, s.txs[id].tenant, cur) in s.rows)
    case Commit(id, hit) => id in s.txs && s.txs[id].passed && Hits(s, id, hit)
    case Abort(id) => id in s.txs
    case Insert(user, tenant, role) => RowsOf(s.rows, user, tenant) == {} && role != ""
  }

  /** The rows after the two statements. */
  function Replaced(rows: Table, t: Tx, hit: Table): Table {
    rows - hit + if t.role == "" then {} else {Binding(t.user, t.tenant, t.role)}
  }

  ghost function Step(s: State, e: Event): State {
    if !Enabled(s, e) then s else
    match e
    case Lock(id, user, tenant, role, seen) => s.(txs := s.txs[id := Tx(user, tenant, role, seen, false)])
    case Check(id, cur) =>
      var t := s.txs[id];
      s.(txs := if Passes(s.rows, t, cur) then s.txs[id := t.(passed := true)] else s.txs - {id})
    case Commit(id, hit) => State(Replaced(s.rows, s.txs[id], hit), s.txs - {id})
    case Abort(id) => s.(txs := s.txs - {id})
    case Insert(user, tenant, role) => s.(rows := s.rows + {Binding(user, tenant, role)})
  }

  // ---- What the locks keep ----------------------------------------------------------------------

  /** Locked rows are still admin rows, and no two transactions have locked the same one. */
  ghost predicate Inv(s: State) {
    && (forall id | id in s.txs :: s.txs[id].seen <= Admins(s.rows, s.txs[id].tenant))
    && (forall i, j | i in s.txs && j in s.txs && i != j && s.txs[i].tenant == s.txs[j].tenant ::
          s.txs[i].seen !! s.txs[j].seen)
  }

  lemma AdminsAre(rows: Table, tenant: string, u: string)
    ensures u in Admins(rows, tenant) <==> Binding(u, tenant, ADMIN) in rows
  {
  }

  /** Replacing rows of one pair takes at most that user out of that tenant's admins. */
  lemma ReplacedAdmins(rows: Table, t: Tx, hit: Table, tenant: string, u: string)
    requires hit <= RowsOf(rows, t.user, t.tenant) && u in Admins(rows, tenant)
    requires u == t.user && tenant == t.tenant ==> Binding(u, tenant, ADMIN) !in hit
    ensures u in Admins(Replaced(rows, t, hit), tenant)
  {
    AdminsAre(rows, tenant, u);
    AdminsAre(Replaced(rows, t, hit), tenant, u);
  }

  lemma CommitKeepsSeen(s: State, id: nat, hit: Table, o: nat)
    requires Inv(s) && Enabled(s, Commit(id, hit)) && o in s.txs && o != id
    ensures s.txs[o].seen <= Admins(Step(s, Commit(id, hit)).rows, s.txs[o].tenant)
  {
    forall u | u in s.txs[o].seen
      ensures u in Admins(Step(s, Commit(id, hit)).rows, s.txs[o].tenant)
    {
      ReplacedAdmins(s.rows, s.txs[id], hit, s.txs[o].tenant, u);
    }
  }

  lemma StepKeepsInv(s: State, e: Event)
    requires Inv(s)
    ensures Inv(Step(s, e))
  {
    var s' := Step(s, e);
    forall id | id in s'.txs
      ensures s'.txs[id].seen <= Admins(s'.rows, s'.txs[id].tenant)
    {
      if e.Commit? && Enabled(s, e) {
        CommitKeepsSeen(s, e.id, e.hit, id);
      } else if id in s.txs {
        assert Admins(s.rows, s.txs[id].tenant) <= Admins(s'.rows, s.txs[id].tenant);
      }
    }
  }

  // ---- When the tenant keeps an admin -------------------------------------------------------------

  /** The locking read returned another user's admin row, or the change makes an admin. */
  predicate Sighted(t: Tx) { t.role == ADMIN || t.seen - {t.user} != {} }

  /** What the guard is for: on a pair with one role, a transaction that saw any admin row at all and
      passes is sighted. */
  lemma GuardGivesSight(rows: Table, t: Tx, cur: string)
    requires OneRole(rows) && Binding(t.user, t.tenant, cur) in rows && t.seen <= Admins(rows, t.tenant)
    requires t.seen != {} && Passes(rows, t, cur)
    ensures Sighted(t)
  {
    AdminsAre(rows, t.tenant, t.user);
    if t.user in t.seen {
      SingletonBySize(t.seen, t.user);
    } else {
      assert t.seen - {t.user} == t.seen;
    }
  }

  /** A sighted transaction's commit leaves an admin: the one it makes, or one it kept locked. */
  lemma SightedCommitIsSafe(s: State, id: nat, hit: Table)
    requires Inv(s) && Enabled(s, Commit(id, hit)) && Sighted(s.txs[id])
    ensures Admins(Step(s, Commit(id, hit)).rows, s.txs[id].tenant) != {}
  {
    var t := s.txs[id];
    if t.role == ADMIN {
      AdminsAre(Step(s, Commit(id, hit)).rows, t.tenant, t.user);
    } else {
      var u :| u in t.seen - {t.user};
      ReplacedAdmins(s.rows, t, hit, t.tenant, u);
    }
  }

  ghost predicate SafeEvent(s: State, e: Event) {
    e.Commit? && e.id in s.txs ==> Sighted(s.txs[e.id])
  }

  lemma StepKeepsAdmin(s: State, e: Event, tenant: string)
    requires Inv(s) && SafeEvent(s, e) && Admins(s.rows, tenant) != {}
    ensures Admins(Step(s, e).rows, tenant) != {}
  {
    if e.Commit? && Enabled(s, e) {
      if s.txs[e.id].tenant == tenant {
        SightedCommitIsSafe(s, e.id, e.hit);
      } else {
        var u :| u in Admins(s.rows, tenant);
        ReplacedAdmins(s.rows, s.txs[e.id], e.hit, tenant, u);
      }
    } else {
      assert Admins(s.rows, tenant) <= Admins(Step(s, e).rows, tenant);
    }
  }

  ghost predicate AllSafe(s: State, events: seq<Event>)
    decreases |events|
  {
    events == [] || (SafeEvent(s, events[0]) && AllSafe(Step(s, events[0]), events[1..]))
  }

  ghost function Exec(s: State, events: seq<Event>): State
    decreases |events|
  {
    if events == [] then s else Exec(Step(s, events[0]), events[1..])
  }

  /** Every interleaving in which each committing transaction is sighted keeps an admin in every
      tenant that had one. */
  lemma {:induction false} InterleavingKeepsAdmin(s: State, events: seq<Event>, tenant: string)
    requires Inv(s) && AllSafe(s, events) && Admins(s.rows, tenant) != {}
    ensures Admins(Exec(s, events).rows, tenant) != {}
    decreases |events|
  {
    if events != [] {
      StepKeepsInv(s, events[0]);
      StepKeepsAdmin(s, events[0], tenant);
      InterleavingKeepsAdmin(Step(s, events[0]), events[1..], tenant);
    }
  }

  /** A transaction that has passed the guard is safe to commit in every state its locks allow,
      whatever its DELETE hits, exactly when it is sighted. */
  lemma CommitSafeIffSighted(id: nat, t: Tx)
    requires t.passed
    ensures Sighted(t) <==>
            forall s: State, hit: Table ::
              Inv(s) && id in s.txs && s.txs[id] == t && Enabled(s, Commit(id, hit)) && Admins(s.rows, t.tenant) != {} ==>
                Admins(Step(s, Commit(id, hit)).rows, t.tenant) != {}
  {
    if Sighted(t) {
      forall s: State, hit: Table | Inv(s) && id in s.txs && s.txs[id] == t && Enabled(s, Commit(id, hit))
        ensures Admins(Step(s, Commit(id, hit)).rows, t.tenant) != {}
      {
        SightedCommitIsSafe(s, id, hit);
      }
    } else {
      var row := Binding(t.user, t.tenant, ADMIN);
      var s := State({row}, map[id := t]);
      AdminsAre(s.rows, t.tenant, t.user);
      assert row in RowsOf(s.rows, t.user, t.tenant);
      assert forall u | u in t.seen :: u !in t.seen - {t.user} ==> u == t.user;
      assert t.seen <= {t.user};
      assert Inv(s) && Enabled(s, Commit(id, {row}));
      assert Admins(Step(s, Commit(id, {row})).rows, t.tenant) == {};
    }
  }

  // ---- Two runs that lose the last admin ------------------------------------------------------------

  /** Some run leads from s to t. */
  ghost predicate Leads(s: State, t: State) { exists events :: Exec(s, events) == t }

  lemma LeadsHere(s: State)
    ensures Leads(s, s)
  {
    assert Exec(s, []) == s;
  }

  lemma LeadsOn(s: State, e: Event, t: State)
    requires Leads(Step(s, e), t)
    ensures Leads(s, t)
  {
    var rest :| Exec(Step(s, e), rest) == t;
    assert ([e] + rest)[1..] == rest;
    assert Exec(s, [e] + rest) == t;
  }

  lemma Locks(s: State, id: nat, t: Tx)
    requires id !in s.txs && !t.passed && t.seen <= Admins(s.rows, t.tenant)
    requires forall u | u in t.seen :: !LockedByOther(s, id, u, t.tenant)
    ensures Step(s, Lock(id, t.user, t.tenant, t.role, t.seen)) == s.(txs := s.txs[id := t])
  {
  }

  lemma Checks(s: State, id: nat, cur: string)
    requires id in s.txs && !s.txs[id].passed && Binding(s.txs[id].user, s.txs[id].tenant, cur) in s.rows
    requires !(cur == ADMIN && s.txs[id].role != ADMIN && |s.txs[id].seen| <= 1)
    ensures Step(s, Check(id, cur)) == s.(txs := s.txs[id := s.txs[id].(passed := true)])
  {
    assert Binding(s.txs[id].user, s.txs[id].tenant, cur) in RowsOf(s.rows, s.txs[id].user, s.txs[id].tenant);
  }

  /** Lock and check of one transaction. */
  lemma Begins(s: State, id: nat, t: Tx, cur: string, end: State)
    requires id !in s.txs && !t.passed && t.seen <= Admins(s.rows, t.tenant)
    requires forall u | u in t.seen :: !LockedByOther(s, id, u, t.tenant)
    requires Binding(t.user, t.tenant, cur) in s.rows && !(cur == ADMIN && t.role != ADMIN && |t.seen| <= 1)
    requires Leads(s.(txs := s.txs[id := t.(passed := true)]), end)
    ensures Leads(s, end)
  {
    Locks(s, id, t);
    var s1 := s.(txs := s.txs[id := t]);
    Checks(s1, id, cur);
    assert s1.txs[id := t.(passed := true)] == s.txs[id := t.(passed := true)];
    LeadsOn(s1, Check(id, cur), end);
    LeadsOn(s, Lock(id, t.user, t.tenant, t.role, t.seen), end);
  }

  /** A whole transaction while every other one in flight has locked nothing. */
  lemma Runs(s: State, id: nat, t: Tx, cur: string, end: State)
    requires id !in s.txs && !t.passed && t.seen <= Admins(s.rows, t.tenant) && (forall o | o in s.txs :: s.txs[o].seen == {})
    requires Binding(t.user, t.tenant, cur) in s.rows && !(cur == ADMIN && t.role != ADMIN && |t.seen| <= 1)
    requires Leads(s.(rows := Rebind(s.rows, t.user, t.tenant, t.role)), end)
    ensures Leads(s, end)
  {
    var s2 := s.(txs := s.txs[id := t.(passed := true)]);
    var hit := RowsOf(s.rows, t.user, t.tenant);
    AdminsAre(s.rows, t.tenant, t.user);
    assert Enabled(s2, Commit(id, hit));
    assert Step(s2, Commit(id, hit)) == s.(rows := Rebind(s.rows, t.user, t.tenant, t.role)) by {
      assert s2.txs - {id} == s.txs;
    }
    LeadsOn(s2, Commit(id, hit), end);
    Begins(s, id, t, cur, end);
  }

  function Pair(tenant: string, a: string, u: string): Table { {Binding("a", tenant, a), Binding("u", tenant, u)} }

  const WAITING: nat := 1

  /** The removal of "u" whose locking read came back empty. */
  function Blind(tenant: string): Tx { Tx("u", tenant, "", {}, true) }

  /** The waiting removal commits after "u" has become the only admin. */
  lemma BlindCommit(tenant: string)
    ensures Leads(State(Pair(tenant, "user", ADMIN), map[WAITING := Blind(tenant)]), State({Binding("a", tenant, "user")}, map[]))
  {
    var row := Binding("u", tenant, ADMIN);
    var s := State(Pair(tenant, "user", ADMIN), map[WAITING := Blind(tenant)]);
    var end := State({Binding("a", tenant, "user")}, map[]);
    assert row in RowsOf(s.rows, "u", tenant);
    assert Enabled(s, Commit(WAITING, {row})) && Step(s, Commit(WAITING, {row})) == end by {
      assert s.rows - {row} == end.rows && s.txs - {WAITING} == map[];
    }
    LeadsHere(end);
    LeadsOn(s, Commit(WAITING, {row}), end);
  }

  /** While it waits, "u" is promoted and "a" demoted, each by a transaction that the guard lets by. */
  lemma BlindWaits(tenant: string)
    ensures Leads(State(Pair(tenant, ADMIN, "user"), map[WAITING := Blind(tenant)]), State({Binding("a", tenant, "user")}, map[]))
  {
    var waiting, end := map[WAITING := Blind(tenant)], State({Binding("a", tenant, "user")}, map[]);
    var s1, s2 := State(Pair(tenant, ADMIN, "user"), waiting), State(Pair(tenant, ADMIN, ADMIN), waiting);
    BlindCommit(tenant);
    PairAdmins(tenant, ADMIN, ADMIN);
    assert Rebind(s2.rows, "a", tenant, "user") == Pair(tenant, "user", ADMIN) && |{"a", "u"}| == 2;
    Runs(s2, 3, Tx("a", tenant, "user", {"a", "u"}, false), ADMIN, end);
    PairAdmins(tenant, ADMIN, "user");
    assert Rebind(s1.rows, "u", tenant, ADMIN) == s2.rows;
    Runs(s1, 2, Tx("u", tenant, ADMIN, {"a"}, false), "user", end);
  }

  lemma PairAdmins(tenant: string, a: string, u: string)
    ensures Admins(Pair(tenant, a, u), tenant) == (if a == ADMIN then {"a"} else {}) + (if u == ADMIN then {"u"} else {})
  {
    forall x
      ensures x in Admins(Pair(tenant, a, u), tenant) <==> (a == ADMIN && x == "a") || (u == ADMIN && x == "u")
    {
      AdminsAre(Pair(tenant, a, u), tenant, x);
    }
  }

  /** Without sight the guard is not enough. A transaction re-grants "a" the admin role, which replaces
      its row while the removal of "u" waits for that row: the locking read of the removal comes back
      empty. The member's own row is read without a lock, so the removal finds a plain member, passes,
      and commits after that member has become the only admin. */
  lemma UnsightedRunLosesAdmin(tenant: string)
    ensures var s, end := State(Pair(tenant, ADMIN, "user"), map[]), State({Binding("a", tenant, "user")}, map[]);
            Inv(s) && Leads(s, end) && Admins(s.rows, tenant) == {"a"} && Admins(end.rows, tenant) == {}
  {
    var s, end := State(Pair(tenant, ADMIN, "user"), map[]), State({Binding("a", tenant, "user")}, map[]);
    PairAdmins(tenant, ADMIN, "user");
    BlindWaits(tenant);
    Begins(s, WAITING, Tx("u", tenant, "", {}, false), "user", end);
    assert Rebind(s.rows, "a", tenant, ADMIN) == s.rows;
    Runs(s, 0, Tx("a", tenant, ADMIN, {"a"}, false), ADMIN, end);
  }

  // ---- A pair with two rows -------------------------------------------------------------------------

  /** "u" with two rows, beside "a". */
  function Split(tenant: string, a: string): Table {
    {Binding("a", tenant, a), Binding("u", tenant, ADMIN), Binding("u", tenant, "user")}
  }

  lemma SplitAdmins(tenant: string, a: string)
    ensures Admins(Split(tenant, a), tenant) == {"u"} + if a == ADMIN then {"a"} else {}
  {
    forall x
      ensures x in Admins(Split(tenant, a), tenant) <==> x == "u" || (a == ADMIN && x == "a")
    {
      AdminsAre(Split(tenant, a), tenant, x);
    }
  }

  /** On a split pair the guard can read the wrong row: it lets the only admin be removed although the
      transaction saw, and locked, that admin's row. */
  lemma SplitFoolsGuard(tenant: string)
    ensures Leads(State(Split(tenant, "user"), map[]), State({Binding("a", tenant, "user")}, map[]))
  {
    var s, end := State(Split(tenant, "user"), map[]), State({Binding("a", tenant, "user")}, map[]);
    SplitAdmins(tenant, "user");
    LeadsHere(end);
    assert Rebind(s.rows, "u", tenant, "") == end.rows;
    Runs(s, 4, Tx("u", tenant, "", {"u"}, false), "user", end);
  }

  /** Two changes of one member, both sighted: the promotion replaces the row while the other's DELETE
      waits for it, so that DELETE hits nothing and its INSERT adds a second row. */
  lemma SplitHappens(tenant: string, end: State)
    requires Leads(State(Split(tenant, ADMIN), map[]), end)
    ensures Leads(State(Pair(tenant, ADMIN, "user"), map[]), end)
  {
    var up, same := Tx("u", tenant, ADMIN, {}, true), Tx("u", tenant, "user", {"a"}, true);
    var s1 := State(Pair(tenant, ADMIN, "user"), map[1 := up]);
    var s2 := State(Pair(tenant, ADMIN, "user"), map[1 := up, 2 := same]);
    var s3 := State(Pair(tenant, ADMIN, ADMIN), map[2 := same]);
    var row := Binding("u", tenant, "user");
    assert Enabled(s3, Commit(2, {})) && Step(s3, Commit(2, {})) == State(Split(tenant, ADMIN), map[]) by {
      assert s3.txs - {2} == map[];
    }
    LeadsOn(s3, Commit(2, {}), end);
    assert row in RowsOf(s2.rows, "u", tenant) && s2.rows - {row} + {Binding("u", tenant, ADMIN)} == s3.rows;
    assert Enabled(s2, Commit(1, {row})) && Step(s2, Commit(1, {row})) == s3 by {
      assert s2.txs - {1} == s3.txs;
    }
    LeadsOn(s2, Commit(1, {row}), end);
    PairAdmins(tenant, ADMIN, "user");
    assert s1.txs[2 := same] == s2.txs;
    Begins(s1, 2, same.(passed := false), "user", end);
    Begins(State(Pair(tenant, ADMIN, "user"), map[]), 1, up.(passed := false), "user", end);
  }

  /** So seeing some admin row is not enough either: with one pair split, every transaction but the
      last is sighted, the last saw the only admin's own row, and no admin is left. */
  lemma SplitPairLosesAdmin(tenant: string)
    ensures var s, end := State(Pair(tenant, ADMIN, "user"), map[]), State({Binding("a", tenant, "user")}, map[]);
            Leads(s, end) && Admins(end.rows, tenant) == {}
  {
    var end := State({Binding("a", tenant, "user")}, map[]);
    SplitFoolsGuard(tenant);
    SplitAdmins(tenant, ADMIN);
    assert Rebind(Split(tenant, ADMIN), "a", tenant, "user") == Split(tenant, "user") && |{"a", "u"}| == 2;
    Runs(State(Split(tenant, ADMIN), map[]), 3, Tx("a", tenant, "user", {"a", "u"}, false), ADMIN, end);
    SplitHappens(tenant, end);
  }
}
