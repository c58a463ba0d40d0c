/** Run-name allocation (rundef/runner.go): Trigger lists the runs that carry a definition's
    grouping label, names the next run `<def>-<max+1>`, and retries on a name conflict, while other
    clients create and delete runs. */
module Runner {
  import opened Options
  import opened Decimal

  const ATTEMPTS := 5

  /** A tenant's runs in the compute service: name to labels. */
  type Runs = map<string, map<string, string>>

  datatype Event = Created(name: string, labels: map<string, string>) | Deleted(name: string)

  /** The runs after the first i events of what other clients do. */
  function RunsAt(start: Runs, history: seq<Event>, i: nat): Runs
    requires i <= |history|
  {
    if i == 0 then start else
      var before := RunsAt(start, history, i - 1);
      match history[i - 1]
      case Created(name, labels) => before[name := labels]
      case Deleted(name) => before - {name}
  }

  /** What the label selector `<labelKey>=<def>` lists. */
  function Listed(runs: Runs, labelKey: string, def: string): set<string> {
    set name | name in runs && labelKey in runs[name] && runs[name][labelKey] == def
  }

  function RunName(def: string, n: int): string { def + "-" + Format(n) }

  /** The number in a run's name, when it has the definition's prefix and the rest parses. */
  function Number(name: string, def: string): Option<int> {
    if def + "-" <= name then Parse(name[|def| + 1..]) else None
  }

  lemma NumberOfRunName(def: string, n: int)
    requires Fits64(n)
    ensures Number(RunName(def, n), def) == Some(n)
  {
    assert RunName(def, n)[|def| + 1..] == Format(n);
    ParseFormat(n);
  }

  /** m is the highest number among the names, or zero when there is no positive one. */
  ghost predicate IsHighest(names: set<string>, def: string, m: int) {
    && 0 <= m
    && (forall name | name in names && Number(name, def).Some? :: Number(name, def).value <= m)
    && (m == 0 || exists name :: name in names && Number(name, def) == Some(m))
  }

  lemma {:induction false} HighestExists(names: set<string>, def: string) returns (m: int)
    ensures IsHighest(names, def, m)
    decreases |names|
  {
    if names == {} {
      m := 0;
    } else {
      var name :| name in names;
      m := HighestExists(names - {name}, def);
      var k := Number(name, def);
      if k.Some? && k.value > m {
        m := k.value;
      }
    }
  }

  ghost function Highest(names: set<string>, def: string): (m: int)
    ensures IsHighest(names, def, m)
  {
    assert exists m :: IsHighest(names, def, m) by { var m := HighestExists(names, def); }
    var m :| IsHighest(names, def, m);
    m
  }

  /** nextRunNumber's loop; the final addition wraps around at 64 bits. */
  method NextRunNumber(names: set<string>, def: string) returns (n: int)
    ensures n == Successor(Highest(names, def))
  {
    var max, todo := 0, names;
    while todo != {}
      invariant todo <= names && IsHighest(names - todo, def, max)
    {
      var name :| name in todo;
      ghost var done := names - todo;
      todo := todo - {name};
      assert names - todo == done + {name};
      var k := Number(name, def);
      if k.Some? && k.value > max {
        max := k.value;
        assert name in names - todo;
      } else if max != 0 {
        ghost var w :| w in done && Number(w, def) == Some(max);
        assert w in names - todo;
      }
    }
    assert names - todo == names;
    HighestUnique(names, def, max, Highest(names, def));
    n := Successor(max);
  }

  lemma HighestUnique(names: set<string>, def: string, m: int, m': int)
    requires IsHighest(names, def, m) && IsHighest(names, def, m')
    ensures m == m'
  {
  }

  /** Every run whose name reads as `<def>-<number>` carries the grouping label. */
  ghost predicate Grouped(runs: Runs, labelKey: string, def: string) {
    forall name | name in runs && Number(name, def).Some? :: name in Listed(runs, labelKey, def)
  }

  /** Grouped, and the number space is not used up. */
  ghost predicate Roomy(runs: Runs, labelKey: string, def: string) {
    Grouped(runs, labelKey, def) && forall name | name in runs :: Number(name, def) != Some(MAX64)
  }

  /** The name Trigger derives from a listing of these runs. */
  ghost function NextName(runs: Runs, labelKey: string, def: string): string {
    RunName(def, Successor(Highest(Listed(runs, labelKey, def), def)))
  }

  /** The name derived from a listing belongs to no run that existed then, unless the numbers
      have reached the 64-bit maximum and wrapped around onto an existing run. */
  lemma NextNameIsFreeIff(runs: Runs, labelKey: string, def: string)
    requires Grouped(runs, labelKey, def)
    ensures NextName(runs, labelKey, def) !in runs <==>
            Highest(Listed(runs, labelKey, def), def) < MAX64 || RunName(def, MIN64) !in runs
  {
    var m := Highest(Listed(runs, labelKey, def), def);
    assert Fits64(m);
    NumberOfRunName(def, Successor(m));
  }

  /** A name that is taken later but was free earlier was created in between. */
  lemma {:induction false} TakenMeansCreated(start: Runs, history: seq<Event>, i: nat, j: nat, name: string) returns (e: nat)
    requires i <= j <= |history|
    requires name !in RunsAt(start, history, i) && name in RunsAt(start, history, j)
    ensures i <= e < j && history[e].Created? && history[e].name == name
    decreases j
  {
    if name in RunsAt(start, history, j - 1) {
      e := TakenMeansCreated(start, history, i, j - 1, name);
    } else {
      e := j - 1;
    }
  }

  /** One attempt: the runs there are when its listing is answered and when its creation is,
      and whether those calls get an answer at all. */
  datatype Attempt = Attempt(listed: Runs, existing: Runs, listOk: bool, createOk: bool)

  datatype Result = Started(name: string, labels: map<string, string>) | Suspended | Failed | NameConflict

  /** The attempt's creation meets an existing run of the name its listing led to. */
  ghost predicate Conflicts(t: Attempt, labelKey: string, def: string) {
    t.listOk && t.createOk && NextName(t.listed, labelKey, def) in t.existing
  }

  /** The attempt is answered and the name it leads to is free. */
  ghost predicate Goes(t: Attempt, labelKey: string, def: string) {
    t.listOk && t.createOk && NextName(t.listed, labelKey, def) !in t.existing
  }

  /** The body of Trigger's loop: None asks for another attempt, which exactly a conflict does; exactly
      an unanswered call fails; and otherwise the run is started. */
  method TryOnce(t: Attempt, labelKey: string, def: string, overrides: map<string, string>)
    returns (result: Option<Result>)
    ensures result == None <==> Conflicts(t, labelKey, def)
    ensures result == Some(Failed) <==> !t.listOk || !t.createOk
    ensures Goes(t, labelKey, def) <==>
            result == Some(Started(NextName(t.listed, labelKey, def), map[labelKey := def] + overrides))
  {
    if !t.listOk {
      return Some(Failed);
    }
    var n := NextRunNumber(Listed(t.listed, labelKey, def), def);
    var runName := RunName(def, n);
    if !t.createOk {
      return Some(Failed);
    }
    if runName in t.existing {
      return None;
    }
    return Some(Started(runName, map[labelKey := def] + overrides));
  }

  /** Every attempt runs into a conflict. */
  ghost predicate GivesUp(tries: seq<Attempt>, labelKey: string, def: string) {
    forall a | 0 <= a < |tries| :: Conflicts(tries[a], labelKey, def)
  }

  /** Attempt a is the first without a conflict. */
  ghost predicate FirstAnswered(tries: seq<Attempt>, labelKey: string, def: string, a: nat) {
    a < |tries| && !Conflicts(tries[a], labelKey, def) && forall b | 0 <= b < a :: Conflicts(tries[b], labelKey, def)
  }

  /** There is a first attempt without a conflict, and it is answered (or not). */
  ghost predicate FirstGoes(tries: seq<Attempt>, labelKey: string, def: string, goes: bool) {
    exists a: nat :: FirstAnswered(tries, labelKey, def, a) && Goes(tries[a], labelKey, def) == goes
  }

  lemma FirstDecides(tries: seq<Attempt>, labelKey: string, def: string, a: nat)
    requires FirstAnswered(tries, labelKey, def, a)
    ensures !GivesUp(tries, labelKey, def)
    ensures FirstGoes(tries, labelKey, def, true) <==> Goes(tries[a], labelKey, def)
    ensures FirstGoes(tries, labelKey, def, false) <==> !Goes(tries[a], labelKey, def)
  {
    FirstIsUnique(tries, labelKey, def, a);
  }

  /** Trigger: at most five attempts, a new listing each. A suspended tenant gets none; it gives up
      exactly when every attempt runs into a conflict; otherwise the first that does not decides: the
      run is started, with the name that was free and the requested labels, or a call failed. */
  method Trigger(active: bool, tries: seq<Attempt>, labelKey: string, def: string, overrides: map<string, string>)
    returns (result: Result, used: nat)
    requires |tries| == 5
    ensures result == Suspended <==> !active
    ensures result == NameConflict <==> active && GivesUp(tries, labelKey, def)
    ensures active && !GivesUp(tries, labelKey, def) ==> used >= 1 && FirstAnswered(tries, labelKey, def, used - 1)
    ensures result == Failed <==> active && FirstGoes(tries, labelKey, def, false)
    ensures result.Started? <==> active && FirstGoes(tries, labelKey, def, true)
    ensures result.Started? ==>
              used >= 1 && result == Started(NextName(tries[used - 1].listed, labelKey, def), map[labelKey := def] + overrides)
  {
    used := 0;
    if !active {
      return Suspended, 0;
    }
    while used < ATTEMPTS
      invariant used <= ATTEMPTS
      invariant forall a | 0 <= a < used :: Conflicts(tries[a], labelKey, def)
    {
      var a := used;
      var outcome := TryOnce(tries[a], labelKey, def, overrides);
      used := used + 1;
      if outcome.Some? {
        assert FirstAnswered(tries, labelKey, def, a);
        FirstDecides(tries, labelKey, def, a);
        return outcome.value, used;
      }
    }
    result := NameConflict;
  }

  lemma FirstIsUnique(tries: seq<Attempt>, labelKey: string, def: string, a: nat)
    requires FirstAnswered(tries, labelKey, def, a)
    ensures forall b: nat | FirstAnswered(tries, labelKey, def, b) :: b == a
  {
  }

  /** Serially, the first attempt goes through exactly when the numbers have not run out. */
  lemma SerialFirstAttempt(runs: Runs, labelKey: string, def: string)
    requires Grouped(runs, labelKey, def)
    ensures Goes(Attempt(runs, runs, true, true), labelKey, def) <==>
            Highest(Listed(runs, labelKey, def), def) < MAX64 || RunName(def, MIN64) !in runs
  {
    NextNameIsFreeIff(runs, labelKey, def);
  }

  /** A serial Trigger on an active tenant with room starts the run on its first attempt, under the
      definition's name with the number after the highest. */
  method TriggerAlone(runs: Runs, labelKey: string, def: string, overrides: map<string, string>)
    returns (result: Result, used: nat)
    requires Grouped(runs, labelKey, def) && Highest(Listed(runs, labelKey, def), def) < MAX64
    ensures used == 1 && result.Started? && result.name !in runs
    ensures result.name == def + "-" + Format(Highest(Listed(runs, labelKey, def), def) + 1)
    ensures result.labels == map[labelKey := def] + overrides
  {
    SerialFirstAttempt(runs, labelKey, def);
    var tries := seq(ATTEMPTS, _ => Attempt(runs, runs, true, true));
    assert FirstAnswered(tries, labelKey, def, 0);
    FirstDecides(tries, labelKey, def, 0);
    FirstIsUnique(tries, labelKey, def, 0);
    result, used := Trigger(true, tries, labelKey, def, overrides);
  }

  /** The attempt whose listing and creation are answered at these points of the history. */
  function AttemptAt(start: Runs, history: seq<Event>, at: (nat, nat)): Attempt
    requires at.0 <= |history| && at.1 <= |history|
  {
    Attempt(RunsAt(start, history, at.0), RunsAt(start, history, at.1), true, true)
  }

  /** An attempt that listed a tenant in order and still met a conflict. */
  ghost predicate Unlucky(start: Runs, history: seq<Event>, at: (nat, nat), labelKey: string, def: string) {
    && at.0 <= at.1 <= |history|
    && Roomy(RunsAt(start, history, at.0), labelKey, def)
    && Conflicts(AttemptAt(start, history, at), labelKey, def)
  }

  /** The point of the history is a creation between the attempt's listing and its creation. */
  predicate ChargedTo(history: seq<Event>, at: (nat, nat), e: nat) {
    at.0 <= e < at.1 <= |history| && history[e].Created?
  }

  /** Some creation of the very name the attempt tried. */
  ghost function Charge(start: Runs, history: seq<Event>, at: (nat, nat), labelKey: string, def: string): (e: nat)
    requires Unlucky(start, history, at, labelKey, def)
    ensures ChargedTo(history, at, e) && history[e].name == NextName(RunsAt(start, history, at.0), labelKey, def)
  {
    var runs := RunsAt(start, history, at.0);
    assert exists e: nat :: ChargedTo(history, at, e) && history[e].name == NextName(runs, labelKey, def) by {
      assert Highest(Listed(runs, labelKey, def), def) < MAX64;
      NextNameIsFreeIff(runs, labelKey, def);
      var e := TakenMeansCreated(start, history, at.0, at.1, NextName(runs, labelKey, def));
    }
    var e: nat :| ChargedTo(history, at, e) && history[e].name == NextName(runs, labelKey, def);
    e
  }

  /** Each conflict is charged to a run some other client created after that attempt's listing.
      The attempts follow each other, so giving up after five means five different creations. */
  lemma ConflictsAreCharged(start: Runs, history: seq<Event>, at: seq<(nat, nat)>, labelKey: string, def: string)
    returns (charged: seq<nat>)
    requires forall a | 0 <= a < |at| :: Unlucky(start, history, at[a], labelKey, def)
    requires forall a, b | 0 <= a < b < |at| :: at[a].1 <= at[b].0
    ensures |charged| == |at|
    ensures forall a | 0 <= a < |at| :: ChargedTo(history, at[a], charged[a])
    ensures forall a, b | 0 <= a < b < |at| :: charged[a] < charged[b]
  {
    charged := seq(|at|, a requires 0 <= a < |at| => Charge(start, history, at[a], labelKey, def));
    forall a, b | 0 <= a < b < |at|
      ensures charged[a] < charged[b]
    {
      assert ChargedTo(history, at[a], charged[a]) && ChargedTo(history, at[b], charged[b]);
    }
  }

  /** The attempts of a Trigger against what other clients do. */
  function AttemptsAt(start: Runs, history: seq<Event>, at: seq<(nat, nat)>): (tries: seq<Attempt>)
    requires forall a | 0 <= a < |at| :: at[a].0 <= |history| && at[a].1 <= |history|
    ensures |tries| == |at| && forall a | 0 <= a < |at| :: tries[a] == AttemptAt(start, history, at[a])
  {
    seq(|at|, a requires 0 <= a < |at| => AttemptAt(start, history, at[a]))
  }

  /** The attempts follow each other, and each lists a tenant whose numbered runs carry the label. */
  ghost predicate InOrder(start: Runs, history: seq<Event>, at: seq<(nat, nat)>, labelKey: string, def: string) {
    && (forall a | 0 <= a < |at| :: at[a].0 <= at[a].1 <= |history| && Roomy(RunsAt(start, history, at[a].0), labelKey, def))
    && (forall a, b | 0 <= a < b < |at| :: at[a].1 <= at[b].0)
  }

  /** When Trigger gives up, other clients have created five runs meanwhile: the five conflicts are
      charged to five different creations, in order. */
  lemma GivingUpIsCharged(start: Runs, history: seq<Event>, at: seq<(nat, nat)>, labelKey: string, def: string)
    returns (charged: seq<nat>)
    requires |at| == ATTEMPTS && InOrder(start, history, at, labelKey, def)
    requires GivesUp(AttemptsAt(start, history, at), labelKey, def)
    ensures |charged| == ATTEMPTS
    ensures forall a | 0 <= a < ATTEMPTS :: at[0].0 <= charged[a] < at[ATTEMPTS - 1].1 && history[charged[a]].Created?
    ensures forall a, b | 0 <= a < b < ATTEMPTS :: charged[a] < charged[b]
  {
    forall a | 0 <= a < |at|
      ensures Unlucky(start, history, at[a], labelKey, def)
    {
      assert Conflicts(AttemptsAt(start, history, at)[a], labelKey, def);
    }
    charged := ConflictsAreCharged(start, history, at, labelKey, def);
    forall a | 0 <= a < ATTEMPTS
      ensures at[0].0 <= charged[a] < at[ATTEMPTS - 1].1 && history[charged[a]].Created?
    {
      assert ChargedTo(history, at[a], charged[a]);
      assert a == 0 || at[0].1 <= at[a].0;
      assert a == ATTEMPTS - 1 || at[a].1 <= at[ATTEMPTS - 1].0;
    }
  }

  /** A label override takes the grouping label away from the run that Trigger starts. As long as that
      run exists and the labelled runs stay the same, every listing leads to its name again, and every
      Trigger gives up although nobody else creates anything. */
  lemma OverrideBlocksTheName(runs: Runs, labelKey: string, def: string, overrides: map<string, string>, later: Runs)
    requires labelKey in overrides && overrides[labelKey] != def && NextName(runs, labelKey, def) !in runs
    requires var started := runs[NextName(runs, labelKey, def) := map[labelKey := def] + overrides];
             Listed(later, labelKey, def) == Listed(started, labelKey, def) && NextName(runs, labelKey, def) in later
    ensures GivesUp(seq(ATTEMPTS, _ => Attempt(later, later, true, true)), labelKey, def)
  {
    var started := runs[NextName(runs, labelKey, def) := map[labelKey := def] + overrides];
    assert Listed(started, labelKey, def) == Listed(runs, labelKey, def);
  }

  /** Such a run exists: the first run of a definition, started with an override. */
  lemma OverrideStarts(labelKey: string, def: string, other: string)
    requires other != def
    ensures NextName(map[], labelKey, def) == RunName(def, 1)
    ensures !Grouped(map[RunName(def, 1) := map[labelKey := other]], labelKey, def)
  {
    assert Listed(map[], labelKey, def) == {};
    HighestUnique({}, def, 0, Highest({}, def));
    NumberOfRunName(def, 1);
    var runs: Runs := map[RunName(def, 1) := map[labelKey := other]];
    assert RunName(def, 1) in runs;
  }
}
