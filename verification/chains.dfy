/** Chains of steps of any kind. */
module Chains {

  /** n steps lead from s to t. */
  ghost predicate Chain<S(!new)>(steps: (S, S) -> bool, s: S, t: S, n: nat)
    decreases n
  {
    if n == 0 then s == t else exists s' :: steps(s, s') && Chain(steps, s', t, n - 1)
  }

  ghost predicate Chained<S(!new)>(steps: (S, S) -> bool, s: S, t: S) { exists n: nat :: Chain(steps, s, t, n) }

  lemma {:induction false} ChainThen<S(!new)>(steps: (S, S) -> bool, s: S, t: S, n: nat, u: S, m: nat)
    requires Chain(steps, s, t, n) && Chain(steps, t, u, m)
    ensures Chain(steps, s, u, n + m)
    decreases n
  {
    if n > 0 {
      var s' :| steps(s, s') && Chain(steps, s', t, n - 1);
      ChainThen(steps, s', t, n - 1, u, m);
    }
  }

  lemma ChainedHere<S(!new)>(steps: (S, S) -> bool, s: S)
    ensures Chained(steps, s, s)
  {
    assert Chain(steps, s, s, 0);
  }

  lemma ChainedOne<S(!new)>(steps: (S, S) -> bool, s: S, t: S)
    requires steps(s, t)
    ensures Chained(steps, s, t)
  {
    assert Chain(steps, t, t, 0);
    assert Chain(steps, s, t, 1);
  }

  lemma ChainedThen<S(!new)>(steps: (S, S) -> bool, s: S, t: S, u: S)
    requires Chained(steps, s, t) && Chained(steps, t, u)
    ensures Chained(steps, s, u)
  {
    var n: nat :| Chain(steps, s, t, n);
    var m: nat :| Chain(steps, t, u, m);
    ChainThen(steps, s, t, n, u, m);
  }

  /** What holds at the end and is handed back over every step holds at the start. */
  lemma {:induction false} HandedBack<S(!new)>(steps: (S, S) -> bool, good: S -> bool, s: S, t: S, n: nat)
    requires Chain(steps, s, t, n) && good(t) && forall a, b :: steps(a, b) && good(b) ==> good(a)
    ensures good(s)
    decreases n
  {
    if n > 0 {
      var s' :| steps(s, s') && Chain(steps, s', t, n - 1);
      HandedBack(steps, good, s', t, n - 1);
    }
  }
}
