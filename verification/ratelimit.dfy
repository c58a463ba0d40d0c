/** The login token-bucket limiter (auth/ratelimit.go): lazy refill, clamping and opportunistic
    pruning, against a limiter that never drops a bucket. Times are integer nanoseconds of a
    clock that does not run backwards; float64 token counts are modelled as reals. */
module RateLimit {

  const SECOND := 1_000_000_000
  const PRUNE_ABOVE := 10000

  /** `capacity` is the int given to NewRateLimiter, `refill` the tokens per second. */
  datatype Config = Config(capacity: int, refill: real) {
    const cap := capacity as real
  }

  datatype Bucket = Bucket(tokens: real, lastSeen: int)

  type Buckets = map<string, Bucket>

  datatype Call = Call(key: string, at: int)

  // ---- One call ----------------------------------------------------------------------------

  /** Tokens gained over a span of nanoseconds. */
  function Gain(cfg: Config, span: int): real {
    span as real / SECOND as real * cfg.refill
  }

  function Min(x: real, y: real): real { if x < y then x else y }

  /** Go's conversion of a float to an integer: towards zero. */
  function Trunc(x: real): int { if x < 0.0 then -((-x).Floor) else x.Floor }

  /** How long a bucket must idle before pruning drops it: whole seconds only. */
  function Full(cfg: Config): int {
    if cfg.refill > 0.0 then Trunc(cfg.cap / cfg.refill) * SECOND else 0
  }

  /** The bucket a call finds: a fresh one, or the kept one brought up to date. */
  function Visit(cfg: Config, buckets: Buckets, key: string, now: int): Bucket {
    if key !in buckets then Bucket(cfg.cap, now)
    else Bucket(Min(cfg.cap, buckets[key].tokens + Gain(cfg, now - buckets[key].lastSeen)), now)
  }

  predicate Grants(b: Bucket) { b.tokens >= 1.0 }

  function Spend(b: Bucket): Bucket { if Grants(b) then b.(tokens := b.tokens - 1.0) else b }

  function Pruned(cfg: Config, buckets: Buckets, now: int): Buckets {
    map k | k in buckets && now - buckets[k].lastSeen <= Full(cfg) :: buckets[k]
  }

  /** The buckets after one call; with `pruning` off, the limiter that never forgets. */
  function After(cfg: Config, buckets: Buckets, call: Call, pruning: bool): Buckets {
    var kept := if pruning && call.key !in buckets && |buckets| > PRUNE_ABOVE
                then Pruned(cfg, buckets, call.at) else buckets;
    kept[call.key := Spend(Visit(cfg, buckets, call.key, call.at))]
  }

  class RateLimiter {
    const cfg: Config
    var buckets: Buckets

    constructor (capacity: int, refillPerSecond: real)
      ensures cfg == Config(capacity, refillPerSecond) && buckets == map[]
    {
      cfg := Config(capacity, refillPerSecond);
      buckets := map[];
    }

    /** `allow`: reports whether the key may proceed, spending a token when it can. */
    method Allow(key: string, now: int) returns (ok: bool)
      modifies this
      ensures ok == Grants(Visit(cfg, old(buckets), key, now))
      ensures buckets == After(cfg, old(buckets), Call(key, now), true)
    {
      var b: Bucket;
      if key !in buckets {
        if |buckets| > PRUNE_ABOVE {
          PruneLocked(now);
        }
        b := Bucket(cfg.cap, now);
      } else {
        b := buckets[key];
        var elapsed := (now - b.lastSeen) as real / SECOND as real;
        b := b.(tokens := b.tokens + elapsed * cfg.refill);
        if b.tokens > cfg.cap {
          b := b.(tokens := cfg.cap);
        }
        b := b.(lastSeen := now);
      }
      assert b == Visit(cfg, old(buckets), key, now);
      if b.tokens < 1.0 {
        buckets := buckets[key := b];
        return false;
      }
      buckets := buckets[key := b.(tokens := b.tokens - 1.0)];
      return true;
    }

    /** `pruneLocked`: drops every bucket idle for longer than the refill time. */
    method PruneLocked(now: int)
      modifies this
      ensures buckets == Pruned(cfg, old(buckets), now)
    {
      var full := 0;
      if cfg.refill > 0.0 {
        full := Trunc(cfg.cap / cfg.refill) * SECOND;
      }
      var todo := buckets.Keys;
      while todo != {}
        invariant todo <= buckets.Keys <= old(buckets).Keys
        invariant forall k | k in old(buckets) ::
                    k in buckets <==> k in todo || now - old(buckets)[k].lastSeen <= full
        invariant forall k | k in buckets :: buckets[k] == old(buckets)[k]
      {
        var k :| k in todo;
        todo := todo - {k};
        if now - buckets[k].lastSeen > full {
          buckets := buckets - {k};
        }
      }
    }
  }

  // ---- Whole runs --------------------------------------------------------------------------

  /** The buckets after the first i calls of a run from an empty limiter. */
  function State(cfg: Config, calls: seq<Call>, i: nat, pruning: bool): Buckets
    requires i <= |calls|
  {
    if i == 0 then map[] else After(cfg, State(cfg, calls, i - 1, pruning), calls[i - 1], pruning)
  }

  /** Whether call number i of a run is let through. */
  function Answer(cfg: Config, calls: seq<Call>, i: nat, pruning: bool): bool
    requires i < |calls|
  {
    Grants(Visit(cfg, State(cfg, calls, i, pruning), calls[i].key, calls[i].at))
  }

  ghost predicate Ordered(calls: seq<Call>) {
    forall i, j | 0 <= i < j < |calls| :: calls[i].at <= calls[j].at
  }

  /** Pruning cannot be observed: every run gets the same answers with and without it. */
  ghost predicate Transparent(cfg: Config) {
    forall calls: seq<Call>, i: nat | Ordered(calls) && i < |calls| ::
      Answer(cfg, calls, i, true) == Answer(cfg, calls, i, false)
  }

  /** By the first instant at which pruning may drop an empty bucket, it would be full again. */
  predicate RefilledWhenPruned(cfg: Config) { Gain(cfg, Full(cfg) + 1) >= cfg.cap }

  // ---- Token arithmetic --------------------------------------------------------------------

  lemma GainAdds(cfg: Config, a: int, b: int)
    ensures Gain(cfg, a + b) == Gain(cfg, a) + Gain(cfg, b)
  {
    var x, y := a as real / SECOND as real, b as real / SECOND as real;
    assert (a + b) as real / SECOND as real == x + y;
    assert (x + y) * cfg.refill == x * cfg.refill + y * cfg.refill;
  }

  lemma GainMonotone(cfg: Config, a: int, b: int)
    requires a <= b && cfg.refill >= 0.0
    ensures Gain(cfg, a) <= Gain(cfg, b)
  {
    var x, y := a as real / SECOND as real, b as real / SECOND as real;
    assert x <= y;
    assert (y - x) * cfg.refill >= 0.0;
  }

  lemma GainZero(cfg: Config)
    ensures Gain(cfg, 0) == 0.0
  {
  }

  /** A limiter that refills in time has a positive rate. */
  lemma RefilledNeedsRate(cfg: Config)
    requires cfg.capacity >= 1 && RefilledWhenPruned(cfg)
    ensures cfg.refill > 0.0 && Full(cfg) >= 0
  {
    var tick := 1.0 / SECOND as real;
    assert cfg.refill <= 0.0 ==> tick * cfg.refill <= 0.0;
    assert cfg.refill <= 0.0 ==> Gain(cfg, Full(cfg) + 1) == tick * cfg.refill;
    assert cfg.cap / cfg.refill >= 0.0;
  }

  /** The idle time before pruning: the refill time, less any fraction of a second. */
  lemma FullIsWholeSeconds(cfg: Config)
    requires cfg.capacity >= 0
    ensures cfg.refill <= 0.0 ==> Full(cfg) == 0
    ensures cfg.refill > 0.0 ==>
              exists k: nat :: Full(cfg) == k * 1_000_000_000 && k as real <= cfg.cap / cfg.refill < k as real + 1.0
  {
    if cfg.refill > 0.0 {
      assert cfg.cap / cfg.refill >= 0.0;
      var k: nat := (cfg.cap / cfg.refill).Floor;
      assert Full(cfg) == k * 1_000_000_000;
    }
  }

  /** Nothing is dropped while there are at most ten thousand buckets, nor for a key that has one. */
  lemma NothingDropped(cfg: Config, buckets: Buckets, call: Call)
    requires |buckets| <= 10000 || call.key in buckets
    ensures After(cfg, buckets, call, true) == After(cfg, buckets, call, false)
    ensures forall k | k in buckets && k != call.key :: k in After(cfg, buckets, call, true) && After(cfg, buckets, call, true)[k] == buckets[k]
  {
  }

  /** The documented case: a refill time of a whole number of seconds, such as 10 / 0.2. */
  lemma WholeSecondsSuffice(cfg: Config, seconds: nat)
    requires cfg.refill > 0.0 && cfg.cap == seconds as real * cfg.refill
    ensures RefilledWhenPruned(cfg)
  {
    assert cfg.cap / cfg.refill == seconds as real;
    assert Full(cfg) == seconds * SECOND;
    assert Gain(cfg, seconds * SECOND) == seconds as real * cfg.refill by {
      assert (seconds * SECOND) as real / SECOND as real == seconds as real;
    }
    GainMonotone(cfg, seconds * SECOND, seconds * SECOND + 1);
  }

  lemma DeployedLimitsSuffice()
    ensures RefilledWhenPruned(Config(10, 0.2))
  {
    WholeSecondsSuffice(Config(10, 0.2), 50);
  }

  // ---- Pruning is unobservable when buckets refill in time ----------------------------------

  ghost predicate InRange(cfg: Config, buckets: Buckets, now: int) {
    forall k | k in buckets :: 0.0 <= buckets[k].tokens <= cfg.cap && buckets[k].lastSeen <= now
  }

  /** The pruning limiter holds a part of the other's buckets; every bucket it lacks has had
      time to become full. */
  ghost predicate Simulates(cfg: Config, pruned: Buckets, whole: Buckets, now: int) {
    && InRange(cfg, whole, now)
    && (forall k | k in pruned :: k in whole && pruned[k] == whole[k])
    && (forall k | k in whole && k !in pruned ::
          whole[k].tokens + Gain(cfg, now - whole[k].lastSeen) >= cfg.cap)
  }

  lemma SimulationAges(cfg: Config, pruned: Buckets, whole: Buckets, t: int, now: int)
    requires cfg.refill >= 0.0 && t <= now && Simulates(cfg, pruned, whole, t)
    ensures Simulates(cfg, pruned, whole, now)
  {
    forall k | k in whole && k !in pruned
      ensures whole[k].tokens + Gain(cfg, now - whole[k].lastSeen) >= cfg.cap
    {
      GainMonotone(cfg, t - whole[k].lastSeen, now - whole[k].lastSeen);
    }
  }

  lemma SimulationPrunes(cfg: Config, pruned: Buckets, whole: Buckets, now: int)
    requires cfg.refill > 0.0 && RefilledWhenPruned(cfg) && Simulates(cfg, pruned, whole, now)
    ensures Simulates(cfg, Pruned(cfg, pruned, now), whole, now)
  {
    forall k | k in pruned && now - pruned[k].lastSeen > Full(cfg)
      ensures whole[k].tokens + Gain(cfg, now - whole[k].lastSeen) >= cfg.cap
    {
      GainMonotone(cfg, Full(cfg) + 1, now - whole[k].lastSeen);
    }
  }

  lemma SimulationUpdates(cfg: Config, pruned: Buckets, whole: Buckets, key: string, b: Bucket)
    requires Simulates(cfg, pruned, whole, b.lastSeen) && 0.0 <= b.tokens <= cfg.cap
    ensures Simulates(cfg, pruned[key := b], whole[key := b], b.lastSeen)
  {
  }

  /** Both limiters find the same bucket: a dropped one had become full. */
  lemma SameVisit(cfg: Config, pruned: Buckets, whole: Buckets, key: string, now: int)
    requires cfg.refill >= 0.0 && cfg.capacity >= 1 && Simulates(cfg, pruned, whole, now)
    ensures Visit(cfg, pruned, key, now) == Visit(cfg, whole, key, now)
    ensures 0.0 <= Visit(cfg, whole, key, now).tokens <= cfg.cap
  {
    if key in whole {
      GainMonotone(cfg, 0, now - whole[key].lastSeen);
      GainZero(cfg);
    }
  }

  lemma SimulationSteps(cfg: Config, pruned: Buckets, whole: Buckets, call: Call)
    requires cfg.capacity >= 1 && RefilledWhenPruned(cfg) && Simulates(cfg, pruned, whole, call.at)
    ensures Visit(cfg, pruned, call.key, call.at) == Visit(cfg, whole, call.key, call.at)
    ensures Simulates(cfg, After(cfg, pruned, call, true), After(cfg, whole, call, false), call.at)
  {
    RefilledNeedsRate(cfg);
    SimulationPrunes(cfg, pruned, whole, call.at);
    SameVisit(cfg, pruned, whole, call.key, call.at);
    var b := Spend(Visit(cfg, whole, call.key, call.at));
    SimulationUpdates(cfg, pruned, whole, call.key, b);
    SimulationUpdates(cfg, Pruned(cfg, pruned, call.at), whole, call.key, b);
  }

  /** Nothing among the first i calls happens after `now`. */
  ghost predicate Before(calls: seq<Call>, i: nat, now: int) {
    i <= |calls| && (i > 0 ==> calls[i - 1].at <= now)
  }

  lemma {:induction false} RunSimulates(cfg: Config, calls: seq<Call>, i: nat, now: int)
    requires cfg.capacity >= 1 && RefilledWhenPruned(cfg) && Ordered(calls) && Before(calls, i, now)
    ensures Simulates(cfg, State(cfg, calls, i, true), State(cfg, calls, i, false), now)
  {
    RefilledNeedsRate(cfg);
    if i > 0 {
      var last := calls[i - 1];
      RunSimulates(cfg, calls, i - 1, last.at);
      SimulationSteps(cfg, State(cfg, calls, i - 1, true), State(cfg, calls, i - 1, false), last);
      SimulationAges(cfg, State(cfg, calls, i, true), State(cfg, calls, i, false), last.at, now);
    }
  }

  /** With no room for a single token nobody is ever let through. */
  lemma NoCapacityNoEntry(cfg: Config, buckets: Buckets, key: string, now: int)
    requires cfg.capacity < 1
    ensures !Grants(Visit(cfg, buckets, key, now))
  {
  }

  // ---- Bursts ------------------------------------------------------------------------------

  /** n calls by one key at one instant, from number `from` on. */
  ghost predicate HasBurst(calls: seq<Call>, from: nat, key: string, at: int, n: nat) {
    from + n <= |calls| && forall i | from <= i < from + n :: calls[i] == Call(key, at)
  }

  /** A repeated call at the same instant finds what the previous one left. */
  lemma RepeatedVisit(cfg: Config, buckets: Buckets, key: string, at: int)
    requires key in buckets && buckets[key].lastSeen == at && buckets[key].tokens <= cfg.cap
    ensures Visit(cfg, buckets, key, at) == buckets[key]
  {
    GainZero(cfg);
  }

  /** What n calls by one key at one instant make of the buckets: the tokens the first call
      finds are spent one each, then nothing is left to spend; the other buckets are as the
      first call left them. */
  ghost predicate Spent(cfg: Config, start: Buckets, key: string, at: int, n: nat, pruning: bool, s: Buckets) {
    var found := Visit(cfg, start, key, at).tokens;
    && key in s && s[key].lastSeen == at && s[key].tokens <= cfg.cap
    && s == After(cfg, start, Call(key, at), pruning)[key := s[key]]
    && (n as real <= found ==> s[key].tokens == found - n as real)
    && (found < n as real ==> s[key].tokens < 1.0)
  }

  lemma SpendOne(cfg: Config, start: Buckets, key: string, at: int, pruning: bool)
    requires cfg.capacity >= 1
    ensures Spent(cfg, start, key, at, 1, pruning, After(cfg, start, Call(key, at), pruning))
  {
  }

  lemma SpendAnother(cfg: Config, start: Buckets, key: string, at: int, n: nat, pruning: bool, s: Buckets)
    requires Spent(cfg, start, key, at, n, pruning, s)
    ensures Spent(cfg, start, key, at, n + 1, pruning, After(cfg, s, Call(key, at), pruning))
  {
    RepeatedVisit(cfg, s, key, at);
    var s' := After(cfg, s, Call(key, at), pruning);
    assert s' == s[key := s'[key]];
  }

  lemma {:induction false} BurstSpends(cfg: Config, calls: seq<Call>, from: nat, key: string, at: int, n: nat, pruning: bool)
    requires n >= 1 && cfg.capacity >= 1 && HasBurst(calls, from, key, at, n)
    ensures Spent(cfg, State(cfg, calls, from, pruning), key, at, n, pruning, State(cfg, calls, from + n, pruning))
  {
    var start := State(cfg, calls, from, pruning);
    if n == 1 {
      SpendOne(cfg, start, key, at, pruning);
    } else {
      BurstSpends(cfg, calls, from, key, at, n - 1, pruning);
      SpendAnother(cfg, start, key, at, n - 1, pruning, State(cfg, calls, from + n - 1, pruning));
    }
  }

  /** Whether the last call of a burst is let through: the first call's tokens must cover it. */
  lemma LastOfBurst(cfg: Config, calls: seq<Call>, from: nat, key: string, at: int, n: nat, pruning: bool)
    requires n >= 1 && cfg.capacity >= 1 && HasBurst(calls, from, key, at, n)
    ensures Answer(cfg, calls, from + n - 1, pruning) <==>
            n as real <= Visit(cfg, State(cfg, calls, from, pruning), key, at).tokens
  {
    if n > 1 {
      BurstSpends(cfg, calls, from, key, at, n - 1, pruning);
      RepeatedVisit(cfg, State(cfg, calls, from + n - 1, pruning), key, at);
    }
  }

  // ---- The run that exposes early pruning ---------------------------------------------------

  function Name(n: nat): string { seq(n, _ => 'a') }

  /** Spend a whole bucket, crowd the map with keys that are all different and none empty, let one
      new key trigger a prune as early as it can happen, then spend a whole bucket again. */
  function ExposingCall(cfg: Config, i: nat): Call
    requires cfg.capacity >= 1
  {
    if i < cfg.capacity then Call("", 0)
    else if i < cfg.capacity + PRUNE_ABOVE then Call(Name(i - cfg.capacity + 1), 0)
    else if i == cfg.capacity + PRUNE_ABOVE then Call(Name(PRUNE_ABOVE + 1), Full(cfg) + 1)
    else Call("", Full(cfg) + 1)
  }

  function Exposing(cfg: Config): (calls: seq<Call>)
    requires cfg.capacity >= 1
    ensures |calls| == 2 * cfg.capacity + PRUNE_ABOVE + 1
    ensures forall i | 0 <= i < |calls| :: calls[i] == ExposingCall(cfg, i)
  {
    seq(2 * cfg.capacity + PRUNE_ABOVE + 1, i requires i >= 0 => ExposingCall(cfg, i))
  }

  /** Where the second burst starts. */
  function Again(cfg: Config): int { cfg.capacity + PRUNE_ABOVE + 1 }

  lemma FullNonNegative(cfg: Config)
    requires cfg.capacity >= 1
    ensures Full(cfg) >= 0
  {
    if cfg.refill > 0.0 { assert cfg.cap / cfg.refill >= 0.0; }
  }

  lemma ExposingIsOrdered(cfg: Config)
    requires cfg.capacity >= 1
    ensures Ordered(Exposing(cfg))
    ensures HasBurst(Exposing(cfg), 0, "", 0, cfg.capacity)
    ensures HasBurst(Exposing(cfg), Again(cfg), "", Full(cfg) + 1, cfg.capacity)
  {
    FullNonNegative(cfg);
  }

  /** The crowd fills the map up to the pruning threshold without triggering it. */
  ghost predicate Crowded(s: Buckets, n: nat) {
    && |s| == n + 1 && "" in s && s[""] == Bucket(0.0, 0)
    && (forall k | k in s :: s[k].lastSeen == 0 && |k| <= n)
  }

  lemma CrowdGrows(cfg: Config, s: Buckets, n: nat, pruning: bool)
    requires n < PRUNE_ABOVE && Crowded(s, n)
    ensures Crowded(After(cfg, s, Call(Name(n + 1), 0), pruning), n + 1)
  {
    var k := Name(n + 1);
    assert |k| == n + 1;
    var s' := After(cfg, s, Call(k, 0), pruning);
    assert s'.Keys == s.Keys + {k} && |s'.Keys| == |s'| && |s.Keys| == |s|;
  }

  /** A burst that empties a full bucket from the start. */
  lemma FirstBurst(cfg: Config, s: Buckets, pruning: bool)
    requires cfg.capacity >= 1 && Spent(cfg, map[], "", 0, cfg.capacity, pruning, s)
    ensures Crowded(s, 0)
  {
    assert s == map["" := Bucket(0.0, 0)];
    assert |s| == 1;
  }

  lemma {:induction false} CrowdFills(cfg: Config, n: nat, pruning: bool)
    requires cfg.capacity >= 1 && n <= PRUNE_ABOVE
    ensures Crowded(State(cfg, Exposing(cfg), cfg.capacity + n, pruning), n)
  {
    var calls := Exposing(cfg);
    if n == 0 {
      ExposingIsOrdered(cfg);
      BurstSpends(cfg, calls, 0, "", 0, cfg.capacity, pruning);
      FirstBurst(cfg, State(cfg, calls, cfg.capacity, pruning), pruning);
    } else {
      CrowdFills(cfg, n - 1, pruning);
      assert calls[cfg.capacity + n - 1] == Call(Name(n), 0);
      CrowdGrows(cfg, State(cfg, calls, cfg.capacity + n - 1, pruning), n - 1, pruning);
    }
  }

  /** One more key at the first instant at which the crowd may be dropped. */
  lemma PruningForgets(cfg: Config, s: Buckets, c: Call)
    requires cfg.capacity >= 1 && Crowded(s, PRUNE_ABOVE) && |c.key| == PRUNE_ABOVE + 1 && c.at == Full(cfg) + 1
    ensures "" !in After(cfg, s, c, true)
    ensures "" in After(cfg, s, c, false) && After(cfg, s, c, false)[""] == Bucket(0.0, 0)
  {
    assert c.key !in s && Pruned(cfg, s, c.at) == map[];
  }

  /** Before the second burst the pruning limiter has forgotten the spent bucket; the other has not. */
  lemma AfterSetup(cfg: Config)
    requires cfg.capacity >= 1
    ensures "" !in State(cfg, Exposing(cfg), Again(cfg), true)
    ensures var s := State(cfg, Exposing(cfg), Again(cfg), false); "" in s && s[""] == Bucket(0.0, 0)
  {
    var i := cfg.capacity + PRUNE_ABOVE;
    var c := Exposing(cfg)[i];
    assert c == Call(Name(PRUNE_ABOVE + 1), Full(cfg) + 1) && |c.key| == PRUNE_ABOVE + 1;
    CrowdFills(cfg, PRUNE_ABOVE, true);
    CrowdFills(cfg, PRUNE_ABOVE, false);
    PruningForgets(cfg, State(cfg, Exposing(cfg), i, true), c);
    PruningForgets(cfg, State(cfg, Exposing(cfg), i, false), c);
  }

  /** Pruning too early is observable: the last call of this run is let through only by the
      limiter that pruned. */
  lemma EarlyPruningShows(cfg: Config)
    requires cfg.capacity >= 1 && !RefilledWhenPruned(cfg)
    ensures var last := |Exposing(cfg)| - 1;
            Answer(cfg, Exposing(cfg), last, true) && !Answer(cfg, Exposing(cfg), last, false)
  {
    AfterSetup(cfg);
    ExposingIsOrdered(cfg);
    LastOfBurst(cfg, Exposing(cfg), Again(cfg), "", Full(cfg) + 1, cfg.capacity, true);
    LastOfBurst(cfg, Exposing(cfg), Again(cfg), "", Full(cfg) + 1, cfg.capacity, false);
  }

  /** Exactly when pruning cannot be observed: capacity below one, or a bucket is always full
      again by the first instant pruning may drop it. */
  lemma TransparentIff(cfg: Config)
    ensures Transparent(cfg) <==> cfg.capacity < 1 || RefilledWhenPruned(cfg)
  {
    if cfg.capacity < 1 {
      forall calls: seq<Call>, i: nat | Ordered(calls) && i < |calls|
        ensures Answer(cfg, calls, i, true) == Answer(cfg, calls, i, false)
      {
        NoCapacityNoEntry(cfg, State(cfg, calls, i, true), calls[i].key, calls[i].at);
        NoCapacityNoEntry(cfg, State(cfg, calls, i, false), calls[i].key, calls[i].at);
      }
    } else if RefilledWhenPruned(cfg) {
      forall calls: seq<Call>, i: nat | Ordered(calls) && i < |calls|
        ensures Answer(cfg, calls, i, true) == Answer(cfg, calls, i, false)
      {
        SameAnswer(cfg, calls, i);
      }
    } else {
      ExposingIsOrdered(cfg);
      EarlyPruningShows(cfg);
    }
  }

  lemma SameAnswer(cfg: Config, calls: seq<Call>, i: nat)
    requires cfg.capacity >= 1 && RefilledWhenPruned(cfg) && Ordered(calls) && i < |calls|
    ensures Answer(cfg, calls, i, true) == Answer(cfg, calls, i, false)
  {
    RefilledNeedsRate(cfg);
    RunSimulates(cfg, calls, i, calls[i].at);
    SameVisit(cfg, State(cfg, calls, i, true), State(cfg, calls, i, false), calls[i].key, calls[i].at);
  }

  // ---- The rate bound ------------------------------------------------------------------------

  /** How many of the key's calls numbered from i up to j (not included) are let through. */
  function Allowed(cfg: Config, calls: seq<Call>, key: string, i: nat, j: nat, pruning: bool): nat
    requires i <= j <= |calls|
    decreases j
  {
    if i == j then 0
    else Allowed(cfg, calls, key, i, j - 1, pruning) +
         if calls[j - 1].key == key && Answer(cfg, calls, j - 1, pruning) then 1 else 0
  }

  /** In every run, over every stretch of it, a key gets at most a full bucket plus what is
      refilled between the stretch's first and last call. */
  ghost predicate RateBounded(cfg: Config) {
    forall calls: seq<Call>, key: string, i: nat, j: nat | Ordered(calls) && i < j <= |calls| ::
      Allowed(cfg, calls, key, i, j, true) as real <= cfg.cap + Gain(cfg, calls[j - 1].at - calls[i].at)
  }

  /** The tokens the key would find at time t. */
  function Held(cfg: Config, buckets: Buckets, key: string, t: int): real { Visit(cfg, buckets, key, t).tokens }

  /** With or without pruning, tokens stay between zero and capacity. */
  lemma {:induction false} StateInRange(cfg: Config, calls: seq<Call>, i: nat, now: int, pruning: bool)
    requires cfg.capacity >= 1 && cfg.refill >= 0.0 && Ordered(calls) && Before(calls, i, now)
    ensures InRange(cfg, State(cfg, calls, i, pruning), now)
  {
    if i > 0 {
      var last, s := calls[i - 1], State(cfg, calls, i - 1, pruning);
      StateInRange(cfg, calls, i - 1, last.at, pruning);
      assert Simulates(cfg, s, s, last.at);
      SameVisit(cfg, s, s, last.key, last.at);
    }
  }

  /** Waiting adds at most the refill of the wait. */
  lemma HeldGrows(cfg: Config, buckets: Buckets, key: string, t: int, now: int)
    requires cfg.refill >= 0.0 && t <= now
    ensures Held(cfg, buckets, key, now) <= Held(cfg, buckets, key, t) + Gain(cfg, now - t)
  {
    GainMonotone(cfg, 0, now - t);
    GainZero(cfg);
    if key in buckets {
      GainAdds(cfg, t - buckets[key].lastSeen, now - t);
    }
  }

  lemma HeldBetween(cfg: Config, buckets: Buckets, key: string, start: int, t: int, now: int)
    requires cfg.refill >= 0.0 && t <= now
    ensures Held(cfg, buckets, key, now) - Gain(cfg, now - start) <= Held(cfg, buckets, key, t) - Gain(cfg, t - start)
  {
    HeldGrows(cfg, buckets, key, t, now);
    GainAdds(cfg, t - start, now - t);
  }

  /** Each call let through takes its token from what the key holds. */
  lemma HeldPays(cfg: Config, buckets: Buckets, call: Call, key: string)
    requires cfg.capacity >= 1 && cfg.refill >= 0.0
    ensures var paid := if call.key == key && Grants(Visit(cfg, buckets, key, call.at)) then 1.0 else 0.0;
            Held(cfg, After(cfg, buckets, call, false), key, call.at) + paid == Held(cfg, buckets, key, call.at)
  {
    if call.key == key { RepeatedVisit(cfg, After(cfg, buckets, call, false), key, call.at); }
  }

  lemma {:induction false} TokensPayForCalls(cfg: Config, calls: seq<Call>, key: string, i: nat, j: nat)
    requires cfg.capacity >= 1 && cfg.refill >= 0.0 && Ordered(calls) && i < j <= |calls|
    ensures Allowed(cfg, calls, key, i, j, false) as real + Held(cfg, State(cfg, calls, j, false), key, calls[j - 1].at)
            <= cfg.cap + Gain(cfg, calls[j - 1].at - calls[i].at)
    decreases j
  {
    var s := State(cfg, calls, j - 1, false);
    HeldPays(cfg, s, calls[j - 1], key);
    if j == i + 1 {
      GainZero(cfg);
    } else {
      TokensPayForCalls(cfg, calls, key, i, j - 1);
      HeldBetween(cfg, s, key, calls[i].at, calls[j - 2].at, calls[j - 1].at);
    }
  }

  lemma {:induction false} SameAllowed(cfg: Config, calls: seq<Call>, key: string, i: nat, j: nat)
    requires cfg.capacity >= 1 && RefilledWhenPruned(cfg) && Ordered(calls) && i <= j <= |calls|
    ensures Allowed(cfg, calls, key, i, j, true) == Allowed(cfg, calls, key, i, j, false)
    decreases j
  {
    if i < j {
      SameAllowed(cfg, calls, key, i, j - 1);
      SameAnswer(cfg, calls, j - 1);
    }
  }

  /** Every call of a burst that the first call's tokens cover is counted. */
  lemma {:induction false} BurstAllowed(cfg: Config, calls: seq<Call>, from: nat, key: string, at: int, n: nat)
    requires cfg.capacity >= 1 && HasBurst(calls, from, key, at, n)
    requires n as real <= Visit(cfg, State(cfg, calls, from, true), key, at).tokens
    ensures Allowed(cfg, calls, key, 0, from + n, true) == Allowed(cfg, calls, key, 0, from, true) + n
  {
    if n > 0 {
      BurstAllowed(cfg, calls, from, key, at, n - 1);
      LastOfBurst(cfg, calls, from, key, at, n, true);
    }
  }

  lemma {:induction false} AllowedGrows(cfg: Config, calls: seq<Call>, key: string, j: nat, k: nat)
    requires j <= k <= |calls|
    ensures Allowed(cfg, calls, key, 0, j, true) <= Allowed(cfg, calls, key, 0, k, true)
    decreases k
  {
    if j < k { AllowedGrows(cfg, calls, key, j, k - 1); }
  }

  lemma FirstFullBucket(cfg: Config)
    requires cfg.capacity >= 1
    ensures Allowed(cfg, Exposing(cfg), "", 0, cfg.capacity, true) == cfg.capacity
  {
    ExposingIsOrdered(cfg);
    BurstAllowed(cfg, Exposing(cfg), 0, "", 0, cfg.capacity);
  }

  lemma SecondFullBucket(cfg: Config)
    requires cfg.capacity >= 1
    ensures var again := Again(cfg);
            Allowed(cfg, Exposing(cfg), "", 0, again + cfg.capacity, true) ==
            Allowed(cfg, Exposing(cfg), "", 0, again, true) + cfg.capacity
  {
    ExposingIsOrdered(cfg);
    AfterSetup(cfg);
    BurstAllowed(cfg, Exposing(cfg), Again(cfg), "", Full(cfg) + 1, cfg.capacity);
  }

  /** Around the prune one key gets two full buckets. */
  lemma TwoFullBuckets(cfg: Config)
    requires cfg.capacity >= 1
    ensures Allowed(cfg, Exposing(cfg), "", 0, |Exposing(cfg)|, true) >= 2 * cfg.capacity
  {
    FirstFullBucket(cfg);
    AllowedGrows(cfg, Exposing(cfg), "", cfg.capacity, Again(cfg));
    SecondFullBucket(cfg);
  }

  /** Early pruning hands out two full buckets in less than a refill. */
  lemma EarlyPruningExceeds(cfg: Config)
    requires cfg.capacity >= 1 && !RefilledWhenPruned(cfg)
    ensures !RateBounded(cfg)
  {
    TwoFullBuckets(cfg);
    ExposingIsOrdered(cfg);
    var calls := Exposing(cfg);
    assert calls[0] == Call("", 0) && calls[|calls| - 1] == Call("", Full(cfg) + 1);
    assert Allowed(cfg, calls, "", 0, |calls|, true) as real > cfg.cap + Gain(cfg, calls[|calls| - 1].at - calls[0].at);
  }

  lemma {:induction false} NothingAllowed(cfg: Config, calls: seq<Call>, key: string, i: nat, j: nat)
    requires cfg.capacity < 1 && i <= j <= |calls|
    ensures Allowed(cfg, calls, key, i, j, true) == 0
    decreases j
  {
    if i < j {
      NothingAllowed(cfg, calls, key, i, j - 1);
      NoCapacityNoEntry(cfg, State(cfg, calls, j - 1, true), calls[j - 1].key, calls[j - 1].at);
    }
  }

  /** Below one token nothing is allowed, so only the bound itself can fall short. */
  lemma NoCapacityBoundedIff(cfg: Config)
    requires cfg.capacity < 1
    ensures RateBounded(cfg) <==> cfg.capacity == 0 && cfg.refill >= 0.0
  {
    forall calls: seq<Call>, key: string, i: nat, j: nat | i <= j <= |calls|
      ensures Allowed(cfg, calls, key, i, j, true) == 0
    {
      NothingAllowed(cfg, calls, key, i, j);
    }
    GainZero(cfg);
    if cfg.capacity == 0 && cfg.refill >= 0.0 {
      forall calls: seq<Call>, key: string, i: nat, j: nat | Ordered(calls) && i < j <= |calls|
        ensures Allowed(cfg, calls, key, i, j, true) as real <= cfg.cap + Gain(cfg, calls[j - 1].at - calls[i].at)
      {
        GainMonotone(cfg, 0, calls[j - 1].at - calls[i].at);
      }
    } else {
      var calls := [Call("", 0), Call("", SECOND)];
      assert Gain(cfg, calls[1].at - calls[0].at) == cfg.refill;
      assert Allowed(cfg, calls, "", 0, 1, true) == 0 && Allowed(cfg, calls, "", 0, 2, true) == 0;
    }
  }

  /** The limiter meets its rate exactly when its buckets refill before they may be pruned. */
  lemma RateBoundedIff(cfg: Config)
    ensures RateBounded(cfg) <==>
            if cfg.capacity >= 1 then RefilledWhenPruned(cfg) else cfg.capacity == 0 && cfg.refill >= 0.0
  {
    if cfg.capacity < 1 {
      NoCapacityBoundedIff(cfg);
    } else if RefilledWhenPruned(cfg) {
      PrunedRunsPay(cfg);
    } else {
      EarlyPruningExceeds(cfg);
    }
  }

  lemma PrunedRunsPay(cfg: Config)
    requires cfg.capacity >= 1 && RefilledWhenPruned(cfg)
    ensures RateBounded(cfg)
  {
    RefilledNeedsRate(cfg);
    forall calls: seq<Call>, key: string, i: nat, j: nat | Ordered(calls) && i < j <= |calls|
      ensures Allowed(cfg, calls, key, i, j, true) as real <= cfg.cap + Gain(cfg, calls[j - 1].at - calls[i].at)
    {
      SameAllowed(cfg, calls, key, i, j);
      TokensPayForCalls(cfg, calls, key, i, j);
      StateInRange(cfg, calls, j, calls[j - 1].at, false);
      var s := State(cfg, calls, j, false);
      assert Simulates(cfg, s, s, calls[j - 1].at);
      SameVisit(cfg, s, s, key, calls[j - 1].at);
    }
  }
}
