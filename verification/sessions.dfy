/** The Redis-fronted session allowlist (cache/session.go over store/sessions.go): how long an
    ended session can still read as active, over every interleaving of requests, Redis failures,
    crashes, purges and user deletions. */
module Sessions {
  import opened Options

  /** ttl: the cache backstop (a non-positive ttl stores entries without expiry);
      lag: the longest time between a request's database step and its own cache write. */
  datatype Config = Config(ttl: int, lag: nat)

  datatype Row = Row(user: string, expiresAt: int, revoked: bool)

  type Rows = map<string, Row>

  /** A cached positive answer, by its expiry instant; None never expires. */
  type Entries = map<string, Option<int>>

  /** SessionRepo.IsActive: known, unrevoked, unexpired. */
  predicate Active(rows: Rows, jti: string, now: int) {
    jti in rows && !rows[jti].revoked && now <= rows[jti].expiresAt
  }

  predicate Hit(entries: Entries, jti: string, now: int) {
    jti in entries && (entries[jti].Some? ==> now < entries[jti].value)
  }

  function Cached(cfg: Config, entries: Entries, jti: string, now: int): Entries {
    entries[jti := if cfg.ttl > 0 then Some(now + cfg.ttl) else None]
  }

  function Revoked(rows: Rows, jtis: set<string>): Rows {
    map j | j in rows :: if j in jtis then rows[j].(revoked := true) else rows[j]
  }

  /** The rows the Pluck of RevokeAllForUser returns. */
  function OpenOf(rows: Rows, user: string): set<string> {
    set j | j in rows && rows[j].user == user && !rows[j].revoked
  }

  // ---- The serial decorator -------------------------------------------------------------------

  class SessionCache {
    const cfg: Config
    var rows: Rows
    var entries: Entries
    var now: int

    constructor (cfg: Config, rows: Rows, now: int)
      ensures this.cfg == cfg && this.rows == rows && entries == map[] && Coherent()
    {
      this.cfg := cfg;
      this.rows := rows;
      this.now := now;
      entries := map[];
    }

    /** No revoked or deleted session is cached as active. */
    predicate Coherent()
      reads this
    {
      forall j | j in entries :: j in rows && !rows[j].revoked
    }

    method Create(jti: string, user: string, expiresAt: int, setOk: bool) returns (ok: bool)
      requires Coherent()
      modifies this`rows, this`entries
      ensures Coherent() && ok == (jti !in old(rows))
      ensures rows == if ok then old(rows)[jti := Row(user, expiresAt, false)] else old(rows)
      ensures entries == if ok && setOk then Cached(cfg, old(entries), jti, now) else old(entries)
    {
      if jti in rows {
        return false; // primary key violation
      }
      rows := rows[jti := Row(user, expiresAt, false)];
      if setOk {
        entries := Cached(cfg, entries, jti, now);
      }
      return true;
    }

    /** Redis first, then the table; a hit or an active row answers true, so a session that was
        revoked or deleted never reads active. */
    method IsActive(jti: string, getOk: bool, setOk: bool) returns (active: bool)
      requires Coherent()
      modifies this`entries
      ensures Coherent()
      ensures active ==> jti in rows && !rows[jti].revoked
      ensures Active(rows, jti, now) ==> active
      ensures active == ((getOk && Hit(old(entries), jti, now)) || Active(rows, jti, now))
    {
      if getOk && Hit(entries, jti, now) {
        return true;
      }
      active := Active(rows, jti, now);
      if active && setOk {
        entries := Cached(cfg, entries, jti, now);
      }
    }

    /** Revokes the row and drops the entry. Exactly a lost Del of a cached entry breaks coherence. */
    method Revoke(jti: string, dbOk: bool, delOk: bool) returns (ok: bool)
      requires Coherent()
      modifies this`rows, this`entries
      ensures ok == dbOk && (Coherent() <==> !dbOk || delOk || jti !in old(entries))
      ensures rows == if dbOk then Revoked(old(rows), {jti}) else old(rows)
      ensures entries == if dbOk && delOk then old(entries) - {jti} else old(entries)
    {
      if !dbOk {
        return false;
      }
      rows := Revoked(rows, {jti});
      if delOk {
        entries := entries - {jti};
      } else if jti in entries {
        assert jti in rows && rows[jti].revoked;
      }
      return true;
    }

    /** Revokes every open session of the user and drops each cached entry; `lost` are the sessions
        whose Del fails. Exactly a lost Del of a cached entry breaks coherence. */
    method RevokeAllForUser(user: string, dbOk: bool, lost: set<string>) returns (jtis: Option<set<string>>)
      requires Coherent()
      modifies this`rows, this`entries
      ensures jtis == if dbOk then Some(OpenOf(old(rows), user)) else None
      ensures jtis == None ==> rows == old(rows) && entries == old(entries)
      ensures jtis.Some? ==>
                && rows == Revoked(old(rows), jtis.value) && OpenOf(rows, user) == {}
                && entries == old(entries) - (jtis.value - lost)
                && (Coherent() <==> jtis.value * lost * old(entries).Keys == {})
    {
      if !dbOk {
        return None;
      }
      var open := OpenOf(rows, user);
      if open == {} {
        return Some({});
      }
      rows := Revoked(rows, open);
      var todo := open;
      while todo != {}
        invariant todo <= open && entries == old(entries) - (open - todo - lost)
        invariant rows == Revoked(old(rows), open)
      {
        var j :| j in todo;
        if j !in lost {
          entries := entries - {j};
        }
        todo := todo - {j};
      }
      RevokedCoherence(old(rows), rows, old(entries), entries, open, lost);
      return Some(open);
    }

    /** DeleteUser's session part: revoke and drop first, then let the row deletion cascade. With no
        Del lost, neither rows nor entries of the user are left. */
    method DeleteSessionsOf(user: string, revokeOk: bool, lost: set<string>, deleteOk: bool) returns (ok: bool)
      requires Coherent()
      modifies this`rows, this`entries
      ensures ok == (revokeOk && deleteOk)
      ensures ok ==> forall j | j in old(rows) && old(rows)[j].user == user :: j !in rows && (j in entries ==> j in lost)
      ensures ok && lost == {} ==> Coherent()
      ensures forall j | j in old(rows) && old(rows)[j].user != user :: j in rows && rows[j] == old(rows)[j]
      ensures !revokeOk ==> rows == old(rows) && entries == old(entries)
    {
      var jtis := RevokeAllForUser(user, revokeOk, lost);
      if jtis.None? || !deleteOk {
        return false;
      }
      assert forall j | j in entries && rows[j].user == user :: j in lost;
      rows := map j | j in rows && rows[j].user != user :: rows[j];
      return true;
    }
  }

  /** Which entries a bulk revocation leaves behind. */
  lemma RevokedCoherence(rows: Rows, rows': Rows, entries: Entries, entries': Entries, open: set<string>, lost: set<string>)
    requires forall j | j in entries :: j in rows && !rows[j].revoked
    requires open <= rows.Keys && rows' == Revoked(rows, open) && entries' == entries - (open - lost)
    ensures (forall j | j in entries' :: j in rows' && !rows'[j].revoked) <==> open * lost * entries.Keys == {}
  {
    if j :| j in open * lost * entries.Keys {
      assert j in entries' && rows'[j].revoked;
    } else {
      forall j | j in entries'
        ensures j in rows' && !rows'[j].revoked
      {
        assert j !in open * lost * entries.Keys;
      }
    }
  }

  // ---- Every interleaving ---------------------------------------------------------------------

  /** A request between two of its steps. */
  datatype Flight =
    | Writing(jti: string, readAt: int, answers: bool)  // row created or read active; cache Set to come
    | Reading(jti: string)                              // cache missed or failed; row read to come
    | Plucked(user: string, jtis: set<string>)          // jtis read; bulk update to come
    | Dropping(jtis: set<string>)                       // rows revoked; cache Dels to come

  datatype State = State(
    now: int, rows: Rows, issued: set<string>, entries: Entries, flights: map<nat, Flight>)

  datatype Event =
    | Tick(to: int)
    | CreateRow(id: nat, jti: string, user: string, expiresAt: int)
    | SetEntry(id: nat, ok: bool)
    | GetHit(jti: string)
    | GetMiss(id: nat, jti: string)                     // a miss, or any Redis error
    | ReadRow(id: nat)
    | RevokeRow(id: nat, jti: string)
    | Pluck(id: nat, user: string)
    | RevokePlucked(id: nat)
    | DelEntry(id: nat, jti: string, ok: bool)
    | Abandon(id: nat)                                  // the request dies or its database step errs
    | Purge                                             // DeleteExpired
    | CascadeUser(user: string)                         // the user row is deleted
    | Evict(jti: string)

  const Start := State(0, map[], {}, map[], map[])

  predicate Enabled(cfg: Config, s: State, e: Event) {
    match e
    case Tick(to) => s.now <= to
    case CreateRow(id, jti, _, expiresAt) => id !in s.flights && jti !in s.issued && s.now <= expiresAt
    case SetEntry(id, _) => id in s.flights && s.flights[id].Writing? && s.now <= s.flights[id].readAt + cfg.lag
    case GetHit(jti) => Hit(s.entries, jti, s.now)
    case GetMiss(id, _) => id !in s.flights
    case ReadRow(id) => id in s.flights && s.flights[id].Reading?
    case RevokeRow(id, _) => id !in s.flights
    case Pluck(id, _) => id !in s.flights
    case RevokePlucked(id) => id in s.flights && s.flights[id].Plucked?
    case DelEntry(id, jti, _) => id in s.flights && s.flights[id].Dropping? && jti in s.flights[id].jtis
    case Abandon(id) => id in s.flights
    case Purge => true
    case CascadeUser(_) => true
    case Evict(_) => true
  }

  function Step(cfg: Config, s: State, e: Event): State {
    if !Enabled(cfg, s, e) then s else
    match e
    case Tick(to) => s.(now := to)
    case CreateRow(id, jti, user, expiresAt) =>
      s.(rows := s.rows[jti := Row(user, expiresAt, false)], issued := s.issued + {jti},
         flights := s.flights[id := Writing(jti, s.now, false)])
    case SetEntry(id, ok) =>
      s.(entries := if ok then Cached(cfg, s.entries, s.flights[id].jti, s.now) else s.entries,
         flights := s.flights - {id})
    case GetHit(_) => s
    case GetMiss(id, jti) => s.(flights := s.flights[id := Reading(jti)])
    case ReadRow(id) =>
      var jti := s.flights[id].jti;
      s.(flights := if Active(s.rows, jti, s.now) then s.flights[id := Writing(jti, s.now, true)]
                    else s.flights - {id})
    case RevokeRow(id, jti) =>
      s.(rows := Revoked(s.rows, {jti}), flights := s.flights[id := Dropping({jti})])
    case Pluck(id, user) =>
      if OpenOf(s.rows, user) == {} then s
      else s.(flights := s.flights[id := Plucked(user, OpenOf(s.rows, user))])
    case RevokePlucked(id) =>
      var f := s.flights[id];
      s.(rows := Revoked(s.rows, OpenOf(s.rows, f.user)), flights := s.flights[id := Dropping(f.jtis)])
    case DelEntry(id, jti, ok) =>
      s.(entries := if ok then s.entries - {jti} else s.entries,
         flights := s.flights[id := Dropping(s.flights[id].jtis - {jti})])
    case Abandon(id) => s.(flights := s.flights - {id})
    case Purge => s.(rows := map j | j in s.rows && s.now <= s.rows[j].expiresAt :: s.rows[j])
    case CascadeUser(user) => s.(rows := map j | j in s.rows && s.rows[j].user != user :: s.rows[j])
    case Evict(jti) => s.(entries := s.entries - {jti})
  }

  /** The step makes some IsActive call return true for this session. */
  predicate SaysActive(cfg: Config, s: State, e: Event, jti: string) {
    Enabled(cfg, s, e) &&
    match e
    case GetHit(j) => j == jti
    case SetEntry(id, _) => s.flights[id].answers && s.flights[id].jti == jti
    case _ => false
  }

  /** The state after the first i events of a run. */
  function At(cfg: Config, run: seq<Event>, i: nat): State
    requires i <= |run|
  {
    if i == 0 then Start else Step(cfg, At(cfg, run, i - 1), run[i - 1])
  }

  /** At some earlier point of the run, no earlier than `since`, the table had the session active. */
  ghost predicate WasActive(cfg: Config, run: seq<Event>, i: nat, jti: string, since: int)
    requires i <= |run|
  {
    exists j: nat :: j <= i && since <= At(cfg, run, j).now && At(cfg, run, j).now <= At(cfg, run, i).now &&
                     Active(At(cfg, run, j).rows, jti, At(cfg, run, j).now)
  }

  /** Every cached entry, and every cache write still to come, goes back to a recent instant at
      which the session really was active. */
  ghost predicate Backed(cfg: Config, run: seq<Event>, i: nat)
    requires i <= |run|
  {
    var s := At(cfg, run, i);
    && (forall jti | jti in s.entries ::
          s.entries[jti].Some? && WasActive(cfg, run, i, jti, s.entries[jti].value - cfg.ttl - cfg.lag))
    && (forall id | id in s.flights && s.flights[id].Writing? ::
          WasActive(cfg, run, i, s.flights[id].jti, s.flights[id].readAt))
  }

  // ---- Bounded staleness ----------------------------------------------------------------------

  lemma TimeAdvances(cfg: Config, run: seq<Event>, i: nat, j: nat)
    requires i <= j <= |run|
    ensures At(cfg, run, i).now <= At(cfg, run, j).now
    decreases j
  {
    if i < j { TimeAdvances(cfg, run, i, j - 1); }
  }

  lemma WasActiveLater(cfg: Config, run: seq<Event>, i: nat, k: nat, jti: string, since: int, later: int)
    requires i <= k <= |run| && later <= since && WasActive(cfg, run, i, jti, since)
    ensures WasActive(cfg, run, k, jti, later)
  {
    TimeAdvances(cfg, run, i, k);
  }

  lemma IsActiveNow(cfg: Config, run: seq<Event>, i: nat, jti: string)
    requires i <= |run| && Active(At(cfg, run, i).rows, jti, At(cfg, run, i).now)
    ensures WasActive(cfg, run, i, jti, At(cfg, run, i).now)
  {
  }

  /** Where a request that is about to write the cache comes from: it was about to before, or this
      step created or read its row. */
  lemma WritingComesFrom(cfg: Config, s: State, e: Event, id: nat)
    requires id in Step(cfg, s, e).flights && Step(cfg, s, e).flights[id].Writing?
    ensures var s' := Step(cfg, s, e);
            var f := s'.flights[id];
            || (id in s.flights && s.flights[id] == f)
            || (f.readAt == s'.now && Active(s'.rows, f.jti, s'.now))
  {
  }

  lemma FlightsStayBacked(cfg: Config, run: seq<Event>, i: nat, id: nat)
    requires cfg.ttl > 0 && i < |run| && Backed(cfg, run, i)
    requires id in At(cfg, run, i + 1).flights && At(cfg, run, i + 1).flights[id].Writing?
    ensures var f := At(cfg, run, i + 1).flights[id];
            WasActive(cfg, run, i + 1, f.jti, f.readAt)
  {
    AtNext(cfg, run, i);
    var s, f := At(cfg, run, i), At(cfg, run, i + 1).flights[id];
    WritingComesFrom(cfg, s, run[i], id);
    if id in s.flights && s.flights[id] == f {
      WasActiveLater(cfg, run, i, i + 1, f.jti, f.readAt, f.readAt);
    } else {
      IsActiveNow(cfg, run, i + 1, f.jti);
    }
  }

  lemma EntriesStayBacked(cfg: Config, run: seq<Event>, i: nat, jti: string)
    requires cfg.ttl > 0 && i < |run| && Backed(cfg, run, i)
    requires jti in At(cfg, run, i + 1).entries
    ensures var x := At(cfg, run, i + 1).entries[jti];
            x.Some? && WasActive(cfg, run, i + 1, jti, x.value - cfg.ttl - cfg.lag)
  {
    var s, e, s' := At(cfg, run, i), run[i], At(cfg, run, i + 1);
    if jti in s.entries && s'.entries[jti] == s.entries[jti] {
      var since := s.entries[jti].value - cfg.ttl - cfg.lag;
      WasActiveLater(cfg, run, i, i + 1, jti, since, since);
    } else {
      assert e.SetEntry? && Enabled(cfg, s, e);
      var f := s.flights[e.id];
      WasActiveLater(cfg, run, i, i + 1, jti, f.readAt, s.now - cfg.lag);
    }
  }

  lemma {:induction false} AlwaysBacked(cfg: Config, run: seq<Event>, i: nat)
    requires cfg.ttl > 0 && i <= |run|
    ensures Backed(cfg, run, i)
  {
    if i > 0 {
      AlwaysBacked(cfg, run, i - 1);
      var s := At(cfg, run, i);
      forall jti | jti in s.entries
        ensures s.entries[jti].Some? && WasActive(cfg, run, i, jti, s.entries[jti].value - cfg.ttl - cfg.lag)
      {
        EntriesStayBacked(cfg, run, i - 1, jti);
      }
      forall id | id in s.flights && s.flights[id].Writing?
        ensures WasActive(cfg, run, i, s.flights[id].jti, s.flights[id].readAt)
      {
        FlightsStayBacked(cfg, run, i - 1, id);
      }
    }
  }

  /** In every interleaving, whenever IsActive answers true the table had that session active at
      some instant of the last ttl + lag. */
  lemma TrueMeansRecentlyActive(cfg: Config, run: seq<Event>, i: nat, jti: string)
    requires cfg.ttl > 0 && i < |run| && SaysActive(cfg, At(cfg, run, i), run[i], jti)
    ensures WasActive(cfg, run, i, jti, At(cfg, run, i).now - cfg.ttl - cfg.lag)
  {
    AlwaysBacked(cfg, run, i);
    var s, e := At(cfg, run, i), run[i];
    if e.GetHit? {
      WasActiveLater(cfg, run, i, i, jti, s.entries[jti].value - cfg.ttl - cfg.lag, s.now - cfg.ttl - cfg.lag);
    } else {
      WasActiveLater(cfg, run, i, i, jti, s.flights[e.id].readAt, s.now - cfg.ttl - cfg.lag);
    }
  }

  /** The session was issued and has been revoked, deleted, purged or has expired. */
  predicate Ended(s: State, jti: string) { jti in s.issued && !Active(s.rows, jti, s.now) }

  /** Session ids are never reused, so an ended session stays ended. */
  lemma {:induction false} EndedForGood(cfg: Config, run: seq<Event>, i: nat, j: nat, jti: string)
    requires i <= j <= |run| && Ended(At(cfg, run, i), jti)
    ensures Ended(At(cfg, run, j), jti)
    decreases j
  {
    if i < j { EndedForGood(cfg, run, i, j - 1, jti); }
  }

  /** No run has IsActive answer true more than `bound` after the session ended. */
  ghost predicate StalenessBounded(cfg: Config, bound: int) {
    forall run: seq<Event>, i: nat, k: nat, jti: string |
      i <= k < |run| && Ended(At(cfg, run, i), jti) && SaysActive(cfg, At(cfg, run, k), run[k], jti) ::
      At(cfg, run, k).now - At(cfg, run, i).now <= bound
  }

  lemma EndedSessionsFade(cfg: Config)
    requires cfg.ttl > 0
    ensures StalenessBounded(cfg, cfg.ttl + cfg.lag)
  {
    forall run: seq<Event>, i: nat, k: nat, jti: string |
      i <= k < |run| && Ended(At(cfg, run, i), jti) && SaysActive(cfg, At(cfg, run, k), run[k], jti)
      ensures At(cfg, run, k).now - At(cfg, run, i).now <= cfg.ttl + cfg.lag
    {
      TrueMeansRecentlyActive(cfg, run, k, jti);
      var since := At(cfg, run, k).now - cfg.ttl - cfg.lag;
      var j: nat :| j <= k && since <= At(cfg, run, j).now &&
                    Active(At(cfg, run, j).rows, jti, At(cfg, run, j).now);
      if i <= j {
        EndedForGood(cfg, run, i, j, jti);
      } else {
        TimeAdvances(cfg, run, j, i);
      }
    }
  }

  // ---- What ends a session ----------------------------------------------------------------------

  /** The step revokes or deletes this session, said of the rows before it: a revocation of the session
      itself, the update of a bulk revocation of its user, whether or not the session was there when the
      ids were plucked, or the deletion of its user. */
  predicate EndsIt(cfg: Config, s: State, e: Event, jti: string) {
    Enabled(cfg, s, e) && jti in s.rows &&
    match e
    case RevokeRow(_, j) => j == jti
    case RevokePlucked(id) => s.flights[id].user == s.rows[jti].user
    case CascadeUser(user) => user == s.rows[jti].user
    case _ => false
  }

  lemma {:induction false} RowsAreIssued(cfg: Config, run: seq<Event>, i: nat)
    requires i <= |run|
    ensures At(cfg, run, i).rows.Keys <= At(cfg, run, i).issued
  {
    if i > 0 { RowsAreIssued(cfg, run, i - 1); }
  }

  /** An active session is active after the step exactly when the step does not end it and its time has
      not run out. */
  lemma StaysActiveIff(cfg: Config, s: State, e: Event, jti: string)
    requires Active(s.rows, jti, s.now) && jti in s.issued
    ensures var s' := Step(cfg, s, e);
            Active(s'.rows, jti, s'.now) <==> !EndsIt(cfg, s, e, jti) && s'.now <= s.rows[jti].expiresAt
  {
  }

  /** What ends a session ends it at once. */
  lemma RevocationEnds(cfg: Config, run: seq<Event>, i: nat, jti: string)
    requires i < |run| && EndsIt(cfg, At(cfg, run, i), run[i], jti)
    ensures Ended(At(cfg, run, i + 1), jti)
  {
    AtNext(cfg, run, i);
    RowsAreIssued(cfg, run, i);
  }

  /** Hence no IsActive answers true for it later than ttl + lag after that step. */
  lemma RevokedFades(cfg: Config, run: seq<Event>, i: nat, k: nat, jti: string)
    requires cfg.ttl > 0 && i < k < |run| && EndsIt(cfg, At(cfg, run, i), run[i], jti)
    requires SaysActive(cfg, At(cfg, run, k), run[k], jti)
    ensures At(cfg, run, k).now - At(cfg, run, i).now <= cfg.ttl + cfg.lag
  {
    RevocationEnds(cfg, run, i, jti);
    EndedSessionsFade(cfg);
    AtNext(cfg, run, i);
  }

  /** Ended, not cached, and no request about to cache it. */
  ghost predicate Silent(s: State, jti: string) {
    && Ended(s, jti) && jti !in s.entries
    && (forall id | id in s.flights && s.flights[id].Writing? :: s.flights[id].jti != jti)
  }

  lemma SilentStays(cfg: Config, s: State, e: Event, jti: string)
    requires Silent(s, jti)
    ensures Silent(Step(cfg, s, e), jti) && !SaysActive(cfg, s, e, jti)
  {
  }

  /** Once the entry is dropped after the end and no request is still to write it, IsActive never answers
      true again, ttl or not. */
  lemma {:induction false} SilentForGood(cfg: Config, run: seq<Event>, i: nat, k: nat, jti: string)
    requires i <= k < |run| && Silent(At(cfg, run, i), jti)
    ensures Silent(At(cfg, run, k), jti) && !SaysActive(cfg, At(cfg, run, k), run[k], jti)
    decreases k
  {
    if i < k {
      SilentForGood(cfg, run, i, k - 1, jti);
      SilentStays(cfg, At(cfg, run, k - 1), run[k - 1], jti);
    }
    SilentStays(cfg, At(cfg, run, k), run[k], jti);
  }

  /** What the other steps are for: a new session is active, a Del that works drops the entry, and a
      request that reads an active row, and only such a one, goes on to answer true. */
  lemma StepEffects(cfg: Config, s: State, e: Event)
    requires Enabled(cfg, s, e)
    ensures e.CreateRow? ==>
              Step(cfg, s, e).rows == s.rows[e.jti := Row(e.user, e.expiresAt, false)] && Active(Step(cfg, s, e).rows, e.jti, s.now)
    ensures e.DelEntry? && e.ok ==> Step(cfg, s, e).entries == s.entries - {e.jti}
    ensures e.ReadRow? ==>
              var jti := s.flights[e.id].jti;
              (e.id in Step(cfg, s, e).flights && Step(cfg, s, e).flights[e.id] == Writing(jti, s.now, true)) <==>
              jti in s.rows && !s.rows[jti].revoked && s.now <= s.rows[jti].expiresAt
    ensures e.SetEntry? && e.ok ==>
              s.flights[e.id].jti in Step(cfg, s, e).entries && Hit(Step(cfg, s, e).entries, s.flights[e.id].jti, s.now)
  {
  }

  /** One lost Del and no expiry: the revoked session reads active after any wait. */
  function LostDel(wait: nat): seq<Event> {
    [CreateRow(0, "t", "u", wait + 1), SetEntry(0, true), RevokeRow(1, "t"), DelEntry(1, "t", false),
     Tick(wait), GetHit("t")]
  }

  lemma AtNext(cfg: Config, run: seq<Event>, i: nat)
    requires i < |run|
    ensures At(cfg, run, 0) == Start && At(cfg, run, i + 1) == Step(cfg, At(cfg, run, i), run[i])
  {
  }

  lemma LostDelStates(cfg: Config, wait: nat)
    requires cfg.ttl <= 0
    ensures var s3, s5 := At(cfg, LostDel(wait), 3), At(cfg, LostDel(wait), 5);
            && s3.now == 0 && "t" in s3.issued && "t" in s3.rows && s3.rows["t"].revoked
            && s5.now == wait && s5.entries == map["t" := None]
  {
    var run := LostDel(wait);
    AtNext(cfg, run, 0);
    AtNext(cfg, run, 1);
    assert At(cfg, run, 2).entries == map["t" := None] && At(cfg, run, 2).now == 0;
    AtNext(cfg, run, 2);
    AtNext(cfg, run, 3);
    AtNext(cfg, run, 4);
  }

  lemma NoExpiryNeverFades(cfg: Config, bound: int)
    requires cfg.ttl <= 0
    ensures !StalenessBounded(cfg, bound)
  {
    var wait: nat := if bound < 0 then 0 else bound + 1;
    var run := LostDel(wait);
    LostDelStates(cfg, wait);
    var s3, s5 := At(cfg, run, 3), At(cfg, run, 5);
    assert Ended(s3, "t") && SaysActive(cfg, s5, run[5], "t");
    assert s5.now - s3.now > bound;
  }

  /** Exactly a positive ttl bounds how long an ended session can read as active. */
  lemma FadesIffTtlPositive(cfg: Config)
    ensures cfg.ttl > 0 <==> exists bound: int :: StalenessBounded(cfg, bound)
  {
    if cfg.ttl > 0 {
      EndedSessionsFade(cfg);
    } else {
      forall bound: int ensures !StalenessBounded(cfg, bound) { NoExpiryNeverFades(cfg, bound); }
    }
  }
}
