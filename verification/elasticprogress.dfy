/** What the ElasticQuota controller achieves when it is left alone: from any state it can be in, a
    quota's status becomes the exact usage of the pods, and its key comes to rest. */
module ElasticProgress {
  import opened Chains
  import opened Resources
  import opened ElasticQuota

  /** The controller's own steps, and the watch delivering what the API server holds. A write is only
      refused where the API server refuses it. */
  ghost predicate Calm(s: State, e: Event) {
    match e
    case WatchQuota(key, eq) => key in s.api && s.api[key] == eq
    case Handle(_) => true
    case DelayElapsed(_) => true
    case Get(_) => true
    case ReadQuota(_) => true
    case ReadPods(_) => true
    case Write(_) => true
    case WriteFails(key, applied) => !applied && !Enabled(s, Write(key))
    case Done(_) => true
    case _ => false
  }

  /** Some calm step leads from s to t. */
  ghost predicate Moves(s: State, t: State) { exists e :: Enabled(s, e) && Calm(s, e) && Step(s, e) == t }

  /** Calm steps lead from s to t. */
  ghost predicate Undisturbed(s: State, t: State) { Chained(Moves, s, t) }

  lemma Here(s: State)
    ensures Undisturbed(s, s)
  {
    ChainedHere(Moves, s);
  }

  lemma Join(s: State, t: State, u: State)
    requires Undisturbed(s, t) && Undisturbed(t, u)
    ensures Undisturbed(s, u)
  {
    ChainedThen(Moves, s, t, u);
  }

  lemma One(s: State, e: Event, t: State)
    requires Enabled(s, e) && Calm(s, e) && t == Step(s, e)
    ensures Undisturbed(s, t)
  {
    assert Moves(s, t);
    ChainedOne(Moves, s, t);
  }

  /** One more calm step, which keeps the invariant. */
  lemma Then(s: State, t: State, e: Event)
    requires Undisturbed(s, t) && Inv(t) && Enabled(t, e) && Calm(t, e)
    ensures Undisturbed(s, Step(t, e)) && Inv(Step(t, e))
  {
    One(t, e, Step(t, e));
    Join(s, t, Step(t, e));
    StepKeepsInv(t, e);
  }

  lemma MoveLeads(s: State, s': State, t: State)
    requires Moves(s, s') && Leads(s', t)
    ensures Leads(s, t)
  {
    var e :| Enabled(s, e) && Calm(s, e) && Step(s, e) == s';
    LeadsOn(s, e, t);
  }

  /** An undisturbed stretch is a run like any other. */
  lemma UndisturbedIsRun(s: State, t: State)
    requires Undisturbed(s, t)
    ensures Leads(s, t)
  {
    var n: nat :| Chain(Moves, s, t, n);
    var good := (a: State) => Leads(a, t);
    LeadsHere(t);
    forall a, b | Moves(a, b) && good(b)
      ensures good(a)
    {
      MoveLeads(a, b, t);
    }
    HandedBack(Moves, good, s, t, n);
  }

  /** The pods, and every other quota as the API server holds it, are as before. */
  ghost predicate Spares(s: State, t: State, key: string) {
    && t.pods == s.pods && key in t.api
    && (forall k | k != key :: (k in t.api <==> k in s.api) && (k in s.api ==> t.api[k] == s.api[k]))
  }

  // ---- Finishing what is in progress ------------------------------------------------------------

  lemma FinishDone(s: State, key: string) returns (t: State)
    requires Inv(s) && key in s.api && key in s.work && s.work[key].Finished?
    ensures Undisturbed(s, t) && Inv(t) && Spares(s, t, key) && key !in t.work
  {
    t := Step(s, Done(key));
    Here(s);
    Then(s, s, Done(key));
  }

  lemma FinishWrite(s: State, key: string) returns (t: State)
    requires Inv(s) && key in s.api && key in s.work && s.work[key].HasUsage?
    ensures Undisturbed(s, t) && Inv(t) && Spares(s, t, key) && key !in t.work
  {
    var e := if Enabled(s, Write(key)) then Write(key) else WriteFails(key, false);
    Here(s);
    Then(s, s, e);
    var s1 := Step(s, e);
    t := FinishDone(s1, key);
    Join(s, s1, t);
  }

  lemma FinishPods(s: State, key: string) returns (t: State)
    requires Inv(s) && key in s.api && key in s.work && s.work[key].HasQuota?
    ensures Undisturbed(s, t) && Inv(t) && Spares(s, t, key) && key !in t.work
  {
    Here(s);
    Then(s, s, ReadPods(key));
    var s1 := Step(s, ReadPods(key));
    t := FinishWrite(s1, key);
    Join(s, s1, t);
  }

  lemma FinishWork(s: State, key: string) returns (t: State)
    requires Inv(s) && key in s.api && key in s.work
    ensures Undisturbed(s, t) && Inv(t) && Spares(s, t, key) && key !in t.work
  {
    match s.work[key] {
      case Started =>
        Here(s);
        Then(s, s, ReadQuota(key));
        var s1 := Step(s, ReadQuota(key));
        if key in s.lister { t := FinishPods(s1, key); } else { t := FinishDone(s1, key); }
        Join(s, s1, t);
      case HasQuota(_) => t := FinishPods(s, key);
      case HasUsage(_, _) => t := FinishWrite(s, key);
      case Finished => t := FinishDone(s, key);
    }
  }

  // ---- Getting to the front of the queue ----------------------------------------------------------

  /** Only the queue moves. */
  ghost predicate SameStores(s: State, t: State) { t.pods == s.pods && t.lister == s.lister && t.api == s.api }

  /** The current version is delivered and announced. */
  lemma Deliver(s: State, key: string) returns (t: State)
    requires Inv(s) && key in s.api && ValidKey(key) && key !in s.work
    ensures Undisturbed(s, t) && Inv(t) && key !in t.work && key in t.inbox
    ensures t.pods == s.pods && t.api == s.api && t.lister == s.lister[key := s.api[key]]
  {
    Here(s);
    Then(s, s, WatchQuota(key, s.api[key]));
    t := Step(s, WatchQuota(key, s.api[key]));
  }

  lemma HandleEffect(s: State, key: string)
    requires key in s.inbox
    ensures var t := Step(s, Handle(key));
            && SameStores(s, t) && t.work == s.work && t.delayed == s.delayed && key in t.dirty
            && t.inbox[key] == s.inbox[key] - 1
  {
  }

  lemma HandleOne(s: State, key: string) returns (t: State)
    requires Inv(s) && key !in s.work && key in s.inbox
    ensures Undisturbed(s, t) && Inv(t) && SameStores(s, t) && key !in t.work && key in t.dirty
    ensures t.inbox[key] == s.inbox[key] - 1 && t.delayed == s.delayed
  {
    Here(s);
    HandleEffect(s, key);
    Then(s, s, Handle(key));
    t := Step(s, Handle(key));
  }

  /** Every announcement of the key is handled. */
  lemma {:induction false} HandleAll(s: State, key: string) returns (t: State)
    requires Inv(s) && key !in s.work && key in s.inbox
    ensures Undisturbed(s, t) && Inv(t) && SameStores(s, t) && key !in t.work && key in t.dirty
    ensures key !in t.inbox && t.delayed == s.delayed
    decreases s.inbox[key]
  {
    t := HandleOne(s, key);
    if key in t.inbox {
      var s1 := t;
      t := HandleAll(s1, key);
      Join(s, s1, t);
    }
  }

  /** The key waits in the queue and nowhere else. */
  ghost predicate Queued(s: State, key: string) {
    key in s.queue && key in s.dirty && key !in s.work && key !in s.inbox && key !in s.delayed
  }

  lemma Drain(s: State, key: string) returns (t: State)
    requires Inv(s) && key !in s.work && key in s.inbox
    ensures Undisturbed(s, t) && Inv(t) && SameStores(s, t) && Queued(t, key)
  {
    t := HandleAll(s, key);
    if key in t.delayed {
      var s1 := t;
      Then(s, s1, DelayElapsed(key));
      t := Step(s1, DelayElapsed(key));
    }
  }

  /** The keys before it are taken by other workers. */
  lemma {:induction false} ToFront(s: State, key: string) returns (t: State)
    requires Inv(s) && Queued(s, key)
    ensures Undisturbed(s, t) && Inv(t) && SameStores(s, t) && Queued(t, key) && t.queue[0] == key
    decreases |s.queue|
  {
    Here(s);
    t := s;
    if s.queue[0] != key {
      var other := s.queue[0];
      Then(s, s, Get(other));
      var s1 := Step(s, Get(other));
      assert s.queue == [other] + s.queue[1..];
      t := ToFront(s1, key);
      Join(s, s1, t);
    }
  }

  // ---- One pass of the worker ------------------------------------------------------------------------

  /** The worker holds the key in this stage, and nothing else is pending on it. */
  ghost predicate Holds(s: State, key: string, w: Work) {
    key in s.work && s.work[key] == w && !Signalled(s, key) && key !in s.delayed
  }

  lemma Take(s: State, key: string) returns (t: State)
    requires Inv(s) && Queued(s, key) && s.queue[0] == key && key in s.lister
    ensures Undisturbed(s, t) && Inv(t) && SameStores(s, t) && Holds(t, key, HasQuota(s.lister[key]))
  {
    Here(s);
    Then(s, s, Get(key));
    var s1 := Step(s, Get(key));
    Then(s, s1, ReadQuota(key));
    t := Step(s1, ReadQuota(key));
  }

  lemma Compute(s: State, key: string, eq: Quota) returns (t: State)
    requires Inv(s) && Holds(s, key, HasQuota(eq))
    ensures Undisturbed(s, t) && Inv(t) && SameStores(s, t) && Holds(t, key, HasUsage(eq, Expected(s.pods, key)))
  {
    Here(s);
    Then(s, s, ReadPods(key));
    t := Step(s, ReadPods(key));
  }

  lemma WriteEffect(s: State, key: string, eq: Quota, used: ResourceList)
    requires Holds(s, key, HasUsage(eq, used)) && key in s.api && s.api[key] == eq
    ensures Enabled(s, Write(key))
    ensures var t := Step(s, Write(key));
            && Spares(s, t, key) && t.lister == s.lister && Holds(t, key, Finished)
            && t.api[key].used == used && (eq.used == used ==> t.api == s.api)
  {
  }

  lemma DoneEffect(s: State, key: string)
    requires Holds(s, key, Finished)
    ensures var t := Step(s, Done(key)); SameStores(s, t) && !Pending(t, key)
  {
  }

  /** The status is written, or is right already, and the worker lets go of the key. */
  lemma Publish(s: State, key: string, eq: Quota, used: ResourceList) returns (t: State)
    requires Inv(s) && Holds(s, key, HasUsage(eq, used)) && key in s.api && s.api[key] == eq
    ensures Undisturbed(s, t) && Inv(t) && Spares(s, t, key) && t.lister == s.lister && !Pending(t, key)
    ensures t.api[key].used == used && (eq.used == used ==> t.api == s.api)
  {
    Here(s);
    WriteEffect(s, key, eq, used);
    Then(s, s, Write(key));
    var s1 := Step(s, Write(key));
    DoneEffect(s1, key);
    Then(s, s1, Done(key));
    t := Step(s1, Done(key));
  }

  /** One pass over a key whose informer copy is current. */
  lemma Pass(s: State, key: string) returns (t: State)
    requires Inv(s) && Queued(s, key) && key in s.lister && key in s.api && s.api[key] == s.lister[key]
    ensures Undisturbed(s, t) && Inv(t) && Spares(s, t, key) && t.lister == s.lister && !Pending(t, key)
    ensures t.api[key].used == Expected(s.pods, key)
    ensures s.lister[key].used == Expected(s.pods, key) ==> t.api == s.api
  {
    var s1 := ToFront(s, key);
    var s2 := Take(s1, key);
    Join(s, s1, s2);
    var s3 := Compute(s2, key, s.lister[key]);
    Join(s, s2, s3);
    t := Publish(s3, key, s.lister[key], Expected(s.pods, key));
    Join(s, s3, t);
  }

  /** Delivery, then a pass. */
  lemma Round(s: State, key: string) returns (t: State)
    requires Inv(s) && key in s.api && ValidKey(key) && key !in s.work
    ensures Undisturbed(s, t) && Inv(t) && Spares(s, t, key) && !Pending(t, key)
    ensures key in t.lister && t.lister[key] == s.api[key] && t.api[key].used == Expected(s.pods, key)
    ensures s.api[key].used == Expected(s.pods, key) ==> t.api[key] == s.api[key]
  {
    var s1 := Deliver(s, key);
    var s2 := Drain(s1, key);
    Join(s, s1, s2);
    t := Pass(s2, key);
    Join(s, s2, t);
  }

  /** The quota's status is exact on the API server and in the informer, and nothing is left to do. */
  ghost predicate AtRest(s: State, key: string) {
    && key in s.api && s.api[key].used == Expected(s.pods, key)
    && key in s.lister && s.lister[key] == s.api[key] && !Pending(s, key)
  }

  /** From every state the controller can be in, whatever is wrong with the status and wherever its key
      is, an undisturbed stretch publishes the exact usage and brings the key to rest: a pass that
      writes, and one that finds nothing to do. The pods and the other quotas stay as they are. */
  lemma ComesToRest(s: State, key: string) returns (t: State)
    requires Inv(s) && key in s.api && ValidKey(key)
    ensures Undisturbed(s, t) && Leads(s, t) && Inv(t) && Spares(s, t, key) && AtRest(t, key)
  {
    var s1 := s;
    Here(s);
    if key in s.work { s1 := FinishWork(s, key); }
    var s2 := Round(s1, key);
    Join(s, s1, s2);
    t := Round(s2, key);
    Join(s, s2, t);
    UndisturbedIsRun(s, t);
  }

  /** In particular after every run from an empty controller. */
  lemma EveryRunCanSettle(s: State, events: seq<Event>, key: string) returns (t: State)
    requires Empty(s) && Admissible(s, events) && key in Exec(s, events).api && ValidKey(key)
    ensures Undisturbed(Exec(s, events), t) && Spares(Exec(s, events), t, key) && AtRest(t, key)
  {
    RunKeepsInv(s, events);
    t := ComesToRest(Exec(s, events), key);
  }
}
