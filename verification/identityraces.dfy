/** How old an identity can be that the Redis-fronted identity cache returns (cache/identity.go over
    store/identity.go), over every interleaving of loads, table changes, invalidations and Redis
    failures. */
module IdentityRaces {
  import opened Options

  /** ttl: the cache backstop (a non-positive ttl stores entries without expiry); lag: the longest time
      between a load's first read and its cache write; snapshot: whether the two reads of a load see
      the same tables. The store reads the account and the bindings in two queries of their own, so
      for it `snapshot` is false. */
  datatype Config = Config(ttl: int, lag: nat, snapshot: bool)

  datatype Account = Account(username: string, isSystemAdmin: bool, mustChangePassword: bool, disabled: bool)

  type Bindings = map<string, string>

  /** What the two queries read: the account row, and the bindings by tenant. */
  datatype Tables = Tables(accounts: map<string, Account>, bindings: map<string, Bindings>)

  datatype Identity = Identity(account: Account, bindings: Bindings)

  predicate HasAccount(t: Tables, user: string, account: Account) {
    user in t.accounts && t.accounts[user] == account && !account.disabled
  }

  function BindingsOf(t: Tables, user: string): Bindings { if user in t.bindings then t.bindings[user] else map[] }

  /** The identity the tables give at one instant. */
  predicate HasIdentity(t: Tables, user: string, identity: Identity) {
    HasAccount(t, user, identity.account) && BindingsOf(t, user) == identity.bindings
  }

  /** A cached identity and its expiry instant; None never expires. */
  datatype Entry = Entry(identity: Identity, expires: Option<int>)

  /** A load between two of its steps. */
  datatype Flight =
    | Missed(user: string)
    | Half(user: string, account: Account, since: int)
    | Whole(user: string, identity: Identity, since: int)

  datatype State = State(now: int, tables: Tables, entries: map<string, Entry>, flights: map<nat, Flight>)

  datatype Event =
    | Tick(to: int)
    | Change(tables: Tables)          // any operation on users or roles commits
    | GetHit(user: string)
    | GetMiss(id: nat, user: string)  // a miss, a Redis error, or an entry that does not decode
    | ReadAccount(id: nat)
    | ReadBindings(id: nat)
    | SetEntry(id: nat, ok: bool)     // the load answers, whether or not the Set works
    | Drop(user: string)              // an invalidation that works, or an eviction
    | Abandon(id: nat)

  const Start := State(0, Tables(map[], map[]), map[], map[])

  predicate Hit(s: State, user: string) {
    user in s.entries && (s.entries[user].expires.Some? ==> s.now < s.entries[user].expires.value)
  }

  predicate Enabled(cfg: Config, s: State, e: Event) {
    match e
    case Tick(to) => s.now <= to
    case Change(_) => true
    case GetHit(user) => Hit(s, user)
    case GetMiss(id, _) => id !in s.flights
    case ReadAccount(id) => id in s.flights && s.flights[id].Missed?
    case ReadBindings(id) => id in s.flights && s.flights[id].Half?
    case SetEntry(id, _) => id in s.flights && s.flights[id].Whole? && s.now <= s.flights[id].since + cfg.lag
    case Drop(_) => true
    case Abandon(id) => id in s.flights
  }

  /** What the first read makes of a load: an error, the account, or everything at once. */
  function AfterAccount(cfg: Config, s: State, id: nat): map<nat, Flight>
    requires id in s.flights && s.flights[id].Missed?
  {
    var user := s.flights[id].user;
    if user !in s.tables.accounts || s.tables.accounts[user].disabled then s.flights - {id}
    else
      var account := s.tables.accounts[user];
      s.flights[id := if cfg.snapshot then Whole(user, Identity(account, BindingsOf(s.tables, user)), s.now)
                      else Half(user, account, s.now)]
  }

  function Step(cfg: Config, s: State, e: Event): State {
    if !Enabled(cfg, s, e) then s else
    match e
    case Tick(to) => s.(now := to)
    case Change(tables) => s.(tables := tables)
    case GetHit(_) => s
    case GetMiss(id, user) => s.(flights := s.flights[id := Missed(user)])
    case ReadAccount(id) => s.(flights := AfterAccount(cfg, s, id))
    case ReadBindings(id) =>
      var f := s.flights[id];
      s.(flights := s.flights[id := Whole(f.user, Identity(f.account, BindingsOf(s.tables, f.user)), f.since)])
    case SetEntry(id, ok) =>
      var f := s.flights[id];
      var expires := if cfg.ttl > 0 then Some(s.now + cfg.ttl) else None;
      s.(flights := s.flights - {id}, entries := if ok then s.entries[f.user := Entry(f.identity, expires)] else s.entries)
    case Drop(user) => s.(entries := s.entries - {user})
    case Abandon(id) => s.(flights := s.flights - {id})
  }

  /** The step makes a LoadIdentity of this user return this identity. */
  predicate Answers(cfg: Config, s: State, e: Event, user: string, identity: Identity) {
    Enabled(cfg, s, e) &&
    match e
    case GetHit(u) => u == user && s.entries[u].identity == identity
    case SetEntry(id, _) => s.flights[id].user == user && s.flights[id].identity == identity
    case _ => false
  }

  /** The state after the first i events of a run. */
  function At(cfg: Config, run: seq<Event>, i: nat): State
    requires i <= |run|
  {
    if i == 0 then Start else Step(cfg, At(cfg, run, i - 1), run[i - 1])
  }

  lemma AtNext(cfg: Config, run: seq<Event>, i: nat)
    requires i < |run|
    ensures At(cfg, run, 0) == Start && At(cfg, run, i + 1) == Step(cfg, At(cfg, run, i), run[i])
  {
  }

  // ---- Recently true ------------------------------------------------------------------------------

  ghost predicate HadAccount(cfg: Config, run: seq<Event>, i: nat, user: string, account: Account, since: int)
    requires i <= |run|
  {
    exists j: nat :: j <= i && since <= At(cfg, run, j).now && HasAccount(At(cfg, run, j).tables, user, account)
  }

  ghost predicate HadBindings(cfg: Config, run: seq<Event>, i: nat, user: string, bindings: Bindings, since: int)
    requires i <= |run|
  {
    exists j: nat :: j <= i && since <= At(cfg, run, j).now && BindingsOf(At(cfg, run, j).tables, user) == bindings
  }

  ghost predicate HadIdentity(cfg: Config, run: seq<Event>, i: nat, user: string, identity: Identity, since: int)
    requires i <= |run|
  {
    exists j: nat :: j <= i && since <= At(cfg, run, j).now && HasIdentity(At(cfg, run, j).tables, user, identity)
  }

  /** Both parts of the identity, and with snapshot reads the whole of it, were true since then. */
  ghost predicate Backs(cfg: Config, run: seq<Event>, i: nat, user: string, identity: Identity, since: int)
    requires i <= |run|
  {
    && HadAccount(cfg, run, i, user, identity.account, since)
    && HadBindings(cfg, run, i, user, identity.bindings, since)
    && (cfg.snapshot ==> HadIdentity(cfg, run, i, user, identity, since))
  }

  lemma BacksLater(cfg: Config, run: seq<Event>, i: nat, k: nat, user: string, identity: Identity, since: int, later: int)
    requires i <= k <= |run| && later <= since && Backs(cfg, run, i, user, identity, since)
    ensures Backs(cfg, run, k, user, identity, later)
  {
  }

  /** What a load in flight has read goes back to when it read it. */
  ghost predicate FlightBacked(cfg: Config, run: seq<Event>, i: nat, f: Flight)
    requires i <= |run|
  {
    match f
    case Missed(_) => true
    case Half(user, account, since) =>
      !cfg.snapshot && since <= At(cfg, run, i).now && HadAccount(cfg, run, i, user, account, since)
    case Whole(user, identity, since) => Backs(cfg, run, i, user, identity, since)
  }

  /** What is cached goes back to at most lag before it was written. */
  ghost predicate EntryBacked(cfg: Config, run: seq<Event>, i: nat, user: string, x: Entry)
    requires i <= |run|
  {
    x.expires.Some? && Backs(cfg, run, i, user, x.identity, x.expires.value - cfg.ttl - cfg.lag)
  }

  ghost predicate Backed(cfg: Config, run: seq<Event>, i: nat)
    requires i <= |run|
  {
    var s := At(cfg, run, i);
    && (forall id | id in s.flights :: FlightBacked(cfg, run, i, s.flights[id]))
    && (forall user | user in s.entries :: EntryBacked(cfg, run, i, user, s.entries[user]))
  }

  lemma FlightLater(cfg: Config, run: seq<Event>, i: nat, f: Flight)
    requires i < |run| && FlightBacked(cfg, run, i, f)
    ensures FlightBacked(cfg, run, i + 1, f)
  {
    AtNext(cfg, run, i);
    if f.Whole? { BacksLater(cfg, run, i, i + 1, f.user, f.identity, f.since, f.since); }
  }

  /** Where a load in flight comes from: it was there before, it has just missed, or it has just read. */
  lemma FlightComesFrom(cfg: Config, s: State, e: Event, id: nat)
    requires id in Step(cfg, s, e).flights
    ensures var f := Step(cfg, s, e).flights[id];
            || (id in s.flights && s.flights[id] == f)
            || f.Missed?
            || (f.Half? && !cfg.snapshot && f.since == s.now && HasAccount(s.tables, f.user, f.account))
            || (f.Whole? && cfg.snapshot && f.since == s.now && HasIdentity(s.tables, f.user, f.identity))
            || (f.Whole? && id in s.flights && s.flights[id] == Half(f.user, f.identity.account, f.since) &&
                BindingsOf(s.tables, f.user) == f.identity.bindings)
  {
  }

  lemma FlightsStayBacked(cfg: Config, run: seq<Event>, i: nat, id: nat)
    requires i < |run| && Backed(cfg, run, i) && id in At(cfg, run, i + 1).flights
    ensures FlightBacked(cfg, run, i + 1, At(cfg, run, i + 1).flights[id])
  {
    AtNext(cfg, run, i);
    var s, f := At(cfg, run, i), At(cfg, run, i + 1).flights[id];
    FlightComesFrom(cfg, s, run[i], id);
    if id in s.flights && s.flights[id] == f {
      FlightLater(cfg, run, i, f);
    } else if f.Half? {
      assert HadAccount(cfg, run, i + 1, f.user, f.account, f.since);
    } else if f.Whole? {
      if cfg.snapshot {
        assert HasIdentity(s.tables, f.user, f.identity);
      } else {
        FlightLater(cfg, run, i, s.flights[id]);
        assert HadBindings(cfg, run, i + 1, f.user, f.identity.bindings, f.since);
      }
    }
  }

  /** An entry was there before, or has just been written by a load. */
  lemma EntryComesFrom(cfg: Config, s: State, e: Event, user: string)
    requires cfg.ttl > 0 && user in Step(cfg, s, e).entries
    ensures var x := Step(cfg, s, e).entries[user];
            || (user in s.entries && s.entries[user] == x)
            || (exists id :: id in s.flights && s.flights[id].Whole? && s.flights[id].user == user &&
                             s.flights[id].identity == x.identity && s.now <= s.flights[id].since + cfg.lag &&
                             x.expires == Some(s.now + cfg.ttl))
  {
    if e.SetEntry? && Enabled(cfg, s, e) { assert e.id in s.flights; }
  }

  lemma EntriesStayBacked(cfg: Config, run: seq<Event>, i: nat, user: string)
    requires cfg.ttl > 0 && i < |run| && Backed(cfg, run, i) && user in At(cfg, run, i + 1).entries
    ensures EntryBacked(cfg, run, i + 1, user, At(cfg, run, i + 1).entries[user])
  {
    AtNext(cfg, run, i);
    var s, x := At(cfg, run, i), At(cfg, run, i + 1).entries[user];
    EntryComesFrom(cfg, s, run[i], user);
    if user in s.entries && s.entries[user] == x {
      assert EntryBacked(cfg, run, i, user, x);
      var since := x.expires.value - cfg.ttl - cfg.lag;
      BacksLater(cfg, run, i, i + 1, user, x.identity, since, since);
    } else {
      var id :| id in s.flights && s.flights[id].Whole? && s.flights[id].user == user &&
                s.flights[id].identity == x.identity && s.now <= s.flights[id].since + cfg.lag &&
                x.expires == Some(s.now + cfg.ttl);
      assert FlightBacked(cfg, run, i, s.flights[id]);
      BacksLater(cfg, run, i, i + 1, user, x.identity, s.flights[id].since, s.now - cfg.lag);
    }
  }

  lemma {:induction false} AlwaysBacked(cfg: Config, run: seq<Event>, i: nat)
    requires cfg.ttl > 0 && i <= |run|
    ensures Backed(cfg, run, i)
  {
    if i > 0 {
      AlwaysBacked(cfg, run, i - 1);
      forall id | id in At(cfg, run, i).flights
        ensures FlightBacked(cfg, run, i, At(cfg, run, i).flights[id])
      {
        FlightsStayBacked(cfg, run, i - 1, id);
      }
      forall user | user in At(cfg, run, i).entries
        ensures EntryBacked(cfg, run, i, user, At(cfg, run, i).entries[user])
      {
        EntriesStayBacked(cfg, run, i - 1, user);
      }
    }
  }

  /** Whatever LoadIdentity returns, its account and its bindings were each what the tables held at some
      instant of the last ttl + lag; with snapshot reads, both at the same one. */
  lemma AnswersAreRecent(cfg: Config, run: seq<Event>, i: nat, user: string, identity: Identity)
    requires cfg.ttl > 0 && i < |run| && Answers(cfg, At(cfg, run, i), run[i], user, identity)
    ensures Backs(cfg, run, i, user, identity, At(cfg, run, i).now - cfg.ttl - cfg.lag)
  {
    AlwaysBacked(cfg, run, i);
    var s, e := At(cfg, run, i), run[i];
    var since := s.now - cfg.ttl - cfg.lag;
    if e.GetHit? {
      assert EntryBacked(cfg, run, i, user, s.entries[user]);
      BacksLater(cfg, run, i, i, user, identity, s.entries[user].expires.value - cfg.ttl - cfg.lag, since);
    } else {
      assert FlightBacked(cfg, run, i, s.flights[e.id]);
      BacksLater(cfg, run, i, i, user, identity, s.flights[e.id].since, since);
    }
  }

  // ---- Exactly when the whole identity is recent ------------------------------------------------------

  /** Every identity that is ever returned was the tables' identity at some instant of the last `bound`. */
  ghost predicate WholeRecent(cfg: Config, bound: int) {
    forall run: seq<Event>, i: nat, user: string, identity: Identity |
      i < |run| && Answers(cfg, At(cfg, run, i), run[i], user, identity) ::
      HadIdentity(cfg, run, i, user, identity, At(cfg, run, i).now - bound)
  }

  function Person(admin: bool): Account { Account("u", admin, false, false) }

  /** An administrator without tenants becomes a plain member of one between the two reads. */
  function Torn(): seq<Event> {
    [Change(Tables(map["u" := Person(true)], map[])), GetMiss(0, "u"), ReadAccount(0),
     Change(Tables(map["u" := Person(false)], map["u" := map["t" := "user"]])), ReadBindings(0), SetEntry(0, true)]
  }

  /** The load returns the administrator with the member's binding: an identity nobody ever had. */
  lemma TornIdentity(cfg: Config, bound: int)
    requires !cfg.snapshot
    ensures !WholeRecent(cfg, bound)
  {
    var run, both := Torn(), Identity(Person(true), map["t" := "user"]);
    TornStates(cfg);
    assert Answers(cfg, At(cfg, run, 5), run[5], "u", both);
    assert !HadIdentity(cfg, run, 5, "u", both, At(cfg, run, 5).now - bound);
  }

  lemma TornStates(cfg: Config)
    requires !cfg.snapshot
    ensures var run, both := Torn(), Identity(Person(true), map["t" := "user"]);
            && Answers(cfg, At(cfg, run, 5), run[5], "u", both)
            && forall j: nat | j <= 5 :: !HasIdentity(At(cfg, run, j).tables, "u", both)
  {
    var run := Torn();
    AtNext(cfg, run, 0);
    AtNext(cfg, run, 1);
    AtNext(cfg, run, 2);
    assert At(cfg, run, 3).flights == map[0 := Half("u", Person(true), 0)] && At(cfg, run, 3).now == 0;
    AtNext(cfg, run, 3);
    AtNext(cfg, run, 4);
    var member: Bindings := map["t" := "user"];
    assert "t" in member;
    forall j: nat | j <= 5
      ensures !HasIdentity(At(cfg, run, j).tables, "u", Identity(Person(true), map["t" := "user"]))
    {
      assert j == 0 || j == 1 || j == 2 || j == 3 || j == 4 || j == 5;
    }
  }

  /** The account is deleted, the invalidation is lost, and the entry never expires. */
  function Kept(wait: nat): seq<Event> {
    [Change(Tables(map["u" := Person(true)], map[])), GetMiss(0, "u"), ReadAccount(0), ReadBindings(0),
     SetEntry(0, true), Tick(1), Change(Tables(map[], map[])), Tick(wait + 1), GetHit("u")]
  }

  lemma KeptForever(cfg: Config, wait: nat)
    requires cfg.ttl <= 0
    ensures var run := Kept(wait);
            && At(cfg, run, 8).now == wait + 1 && Answers(cfg, At(cfg, run, 8), run[8], "u", Identity(Person(true), map[]))
            && forall j: nat | j <= 8 && At(cfg, run, j).now > 1 :: "u" !in At(cfg, run, j).tables.accounts
  {
    var run := Kept(wait);
    AtNext(cfg, run, 0);
    AtNext(cfg, run, 1);
    AtNext(cfg, run, 2);
    AtNext(cfg, run, 3);
    assert At(cfg, run, 4).flights == map[0 := Whole("u", Identity(Person(true), map[]), 0)] && At(cfg, run, 4).now == 0;
    AtNext(cfg, run, 4);
    assert At(cfg, run, 5).entries == map["u" := Entry(Identity(Person(true), map[]), None)];
    AtNext(cfg, run, 5);
    AtNext(cfg, run, 6);
    AtNext(cfg, run, 7);
    forall j: nat | j <= 8 && At(cfg, run, j).now > 1
      ensures "u" !in At(cfg, run, j).tables.accounts
    {
      assert j == 0 || j == 1 || j == 2 || j == 3 || j == 4 || j == 5 || j == 6 || j == 7 || j == 8;
    }
  }

  /** The identities that are returned are bounded in age exactly when the ttl is positive and the two
      reads of a load see the same tables. The store's reads do not: there the parts are recent and
      the whole may never have been. */
  lemma WholeRecentIff(cfg: Config)
    ensures (exists bound: int :: WholeRecent(cfg, bound)) <==> cfg.ttl > 0 && cfg.snapshot
  {
    if cfg.ttl > 0 && cfg.snapshot {
      forall run: seq<Event>, i: nat, user: string, identity: Identity |
        i < |run| && Answers(cfg, At(cfg, run, i), run[i], user, identity)
        ensures HadIdentity(cfg, run, i, user, identity, At(cfg, run, i).now - (cfg.ttl + cfg.lag))
      {
        AnswersAreRecent(cfg, run, i, user, identity);
      }
      assert WholeRecent(cfg, cfg.ttl + cfg.lag);
    } else if !cfg.snapshot {
      forall bound: int ensures !WholeRecent(cfg, bound) { TornIdentity(cfg, bound); }
    } else {
      forall bound: int ensures !WholeRecent(cfg, bound) { KeptTooLong(cfg, bound); }
    }
  }

  lemma KeptTooLong(cfg: Config, bound: int)
    requires cfg.ttl <= 0
    ensures !WholeRecent(cfg, bound)
  {
    var wait: nat := if bound < 0 then 1 else bound + 1;
    var run, who := Kept(wait), Identity(Person(true), map[]);
    KeptForever(cfg, wait);
    assert Answers(cfg, At(cfg, run, 8), run[8], "u", who);
    assert !HadIdentity(cfg, run, 8, "u", who, At(cfg, run, 8).now - bound);
  }

  // ---- What an invalidation is for ------------------------------------------------------------------

  /** Nothing of the user is cached or being loaded. */
  ghost predicate Clear(s: State, user: string) {
    user !in s.entries && forall id | id in s.flights :: s.flights[id].user != user
  }

  /** A working invalidation drops the entry, and nobody else's. */
  lemma DropEffect(cfg: Config, s: State, user: string)
    ensures Step(cfg, s, Drop(user)) == s.(entries := s.entries - {user})
  {
  }

  ghost predicate AccountSince(cfg: Config, run: seq<Event>, i: nat, k: nat, user: string, account: Account)
    requires k <= |run|
  {
    exists j: nat :: i <= j <= k && HasAccount(At(cfg, run, j).tables, user, account)
  }

  ghost predicate BindingsSince(cfg: Config, run: seq<Event>, i: nat, k: nat, user: string, bindings: Bindings)
    requires k <= |run|
  {
    exists j: nat :: i <= j <= k && BindingsOf(At(cfg, run, j).tables, user) == bindings
  }

  /** Both parts were true at points of the run from i to k. */
  ghost predicate TrueSince(cfg: Config, run: seq<Event>, i: nat, k: nat, user: string, identity: Identity)
    requires k <= |run|
  {
    AccountSince(cfg, run, i, k, user, identity.account) && BindingsSince(cfg, run, i, k, user, identity.bindings)
  }

  ghost predicate FlightSince(cfg: Config, run: seq<Event>, i: nat, k: nat, f: Flight)
    requires k <= |run|
  {
    match f
    case Missed(_) => true
    case Half(user, account, _) => AccountSince(cfg, run, i, k, user, account)
    case Whole(user, identity, _) => TrueSince(cfg, run, i, k, user, identity)
  }

  /** Whatever is cached or being loaded of the user has been read since i. */
  ghost predicate ReadSince(cfg: Config, run: seq<Event>, i: nat, k: nat, user: string)
    requires k <= |run|
  {
    var s := At(cfg, run, k);
    && (forall id | id in s.flights && s.flights[id].user == user :: FlightSince(cfg, run, i, k, s.flights[id]))
    && (user in s.entries ==> TrueSince(cfg, run, i, k, user, s.entries[user].identity))
  }

  lemma FlightsReadSince(cfg: Config, run: seq<Event>, i: nat, k: nat, user: string, id: nat)
    requires i <= k < |run| && ReadSince(cfg, run, i, k, user)
    requires id in At(cfg, run, k + 1).flights && At(cfg, run, k + 1).flights[id].user == user
    ensures FlightSince(cfg, run, i, k + 1, At(cfg, run, k + 1).flights[id])
  {
    AtNext(cfg, run, k);
    var s, f := At(cfg, run, k), At(cfg, run, k + 1).flights[id];
    FlightComesFrom(cfg, s, run[k], id);
    if id in s.flights && s.flights[id] == f {
      assert FlightSince(cfg, run, i, k, f);
    } else if f.Half? {
      assert AccountSince(cfg, run, i, k + 1, user, f.account);
    } else if f.Whole? {
      if id in s.flights && s.flights[id] == Half(user, f.identity.account, f.since) {
        assert FlightSince(cfg, run, i, k, s.flights[id]);
      } else {
        assert HasIdentity(s.tables, user, f.identity);
      }
      assert BindingsSince(cfg, run, i, k + 1, user, f.identity.bindings);
    }
  }

  lemma EntryReadSince(cfg: Config, run: seq<Event>, i: nat, k: nat, user: string)
    requires i <= k < |run| && ReadSince(cfg, run, i, k, user) && user in At(cfg, run, k + 1).entries
    ensures TrueSince(cfg, run, i, k + 1, user, At(cfg, run, k + 1).entries[user].identity)
  {
    AtNext(cfg, run, k);
    var s, e := At(cfg, run, k), run[k];
    if !(user in s.entries && s.entries[user] == At(cfg, run, k + 1).entries[user]) {
      assert e.SetEntry? && Enabled(cfg, s, e) && s.flights[e.id].user == user;
      assert FlightSince(cfg, run, i, k, s.flights[e.id]);
    }
  }

  lemma {:induction false} StaysReadSince(cfg: Config, run: seq<Event>, i: nat, k: nat, user: string)
    requires i <= k <= |run| && Clear(At(cfg, run, i), user)
    ensures ReadSince(cfg, run, i, k, user)
    decreases k
  {
    if i < k {
      StaysReadSince(cfg, run, i, k - 1, user);
      var s := At(cfg, run, k);
      forall id | id in s.flights && s.flights[id].user == user
        ensures FlightSince(cfg, run, i, k, s.flights[id])
      {
        FlightsReadSince(cfg, run, i, k - 1, user, id);
      }
      if user in s.entries { EntryReadSince(cfg, run, i, k - 1, user); }
    }
  }

  /** Once an invalidation has worked and no load of the user is under way, no load ever again returns an
      account or bindings from before, ttl or not. */
  lemma NothingOlderIsReturned(cfg: Config, run: seq<Event>, i: nat, k: nat, user: string, identity: Identity)
    requires i <= k < |run| && Clear(At(cfg, run, i), user) && Answers(cfg, At(cfg, run, k), run[k], user, identity)
    ensures TrueSince(cfg, run, i, k, user, identity)
  {
    StaysReadSince(cfg, run, i, k, user);
    if run[k].SetEntry? { assert FlightSince(cfg, run, i, k, At(cfg, run, k).flights[run[k].id]); }
  }
}
