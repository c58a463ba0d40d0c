/** Finite directed graphs over names, as a map from a node to its successors. A node that is not in
    the map has none. */
module Graphs {

  type Edges = map<string, set<string>>

  ghost predicate Closed(edges: Edges, names: set<string>) {
    forall n | n in names && n in edges :: edges[n] <= names
  }

  /** The least set that contains the seed and is closed under the edges. */
  ghost predicate IsClosure(edges: Edges, seed: set<string>, names: set<string>) {
    && seed <= names
    && Closed(edges, names)
    && (forall other | seed <= other && Closed(edges, other) :: names <= other)
  }

  lemma ClosureUnique(edges: Edges, seed: set<string>, a: set<string>, b: set<string>)
    requires IsClosure(edges, seed, a) && IsClosure(edges, seed, b)
    ensures a == b
  {
  }

  function Targets(edges: Edges): set<string> {
    set n, r | n in edges && r in edges[n] :: r
  }

  function Grown(edges: Edges, names: set<string>): set<string> {
    names + set n, r | n in names && n in edges && r in edges[n] :: r
  }

  lemma GrownIsForced(edges: Edges, names: set<string>)
    ensures names <= Grown(edges, names) <= names + Targets(edges)
    ensures Grown(edges, names) == names ==> Closed(edges, names)
    ensures forall other | names <= other && Closed(edges, other) :: Grown(edges, names) <= other
  {
    var next := Grown(edges, names);
    forall n | next == names && n in names && n in edges
      ensures edges[n] <= names
    {
      assert forall r | r in edges[n] :: r in next;
    }
  }

  /** The nodes reachable from the seed, the seed included. */
  ghost function Reach(edges: Edges, seed: set<string>): (names: set<string>)
    ensures IsClosure(edges, seed, names)
    decreases Targets(edges) - seed
  {
    var next := Grown(edges, seed);
    GrownIsForced(edges, seed);
    if next == seed then seed
    else
      assert exists r :: r in next && r !in seed;
      Reach(edges, next)
  }

  /** The nodes reachable from n in one or more steps. */
  ghost function Below(edges: Edges, n: string): set<string> {
    if n in edges then Reach(edges, edges[n]) else {}
  }

  ghost predicate Acyclic(edges: Edges) {
    forall n | n in edges :: n !in Below(edges, n)
  }

  lemma LeafBelow(edges: Edges, n: string)
    requires n in edges && edges[n] == {}
    ensures Below(edges, n) == {}
  {
    assert Closed(edges, {});
  }

  lemma ChainBelow(edges: Edges, n: string, m: string)
    requires n in edges && edges[n] == {m} && m in edges && edges[m] == {}
    ensures Below(edges, n) == {m}
  {
    assert Closed(edges, {m});
  }

  /** Without cycles, every step leads to a node with strictly less below it: the count of nodes
      below is a rank that recursion along the edges decreases. */
  lemma StepsDescend(edges: Edges, n: string, m: string)
    requires Acyclic(edges) && n in edges && m in edges[n]
    ensures Below(edges, m) <= Below(edges, n) && m in Below(edges, n)
    ensures |Below(edges, m)| < |Below(edges, n)|
  {
    var all := Below(edges, n);
    if m in edges {
      assert edges[m] <= all;
      assert Below(edges, m) <= all;
    }
    assert m !in Below(edges, m);
    ProperSubset(Below(edges, m), all, m);
  }

  // ---- When a recursion along the edges ends --------------------------------------------------

  /** The recursion from n along the edges comes back within this depth. */
  predicate Ends(edges: Edges, n: string, depth: nat)
    decreases depth
  {
    depth > 0 && (n in edges ==> forall m | m in edges[n] :: Ends(edges, m, depth - 1))
  }

  lemma {:induction false} EndsDeeper(edges: Edges, n: string, depth: nat, more: nat)
    requires Ends(edges, n, depth) && depth <= more
    ensures Ends(edges, n, more)
    decreases depth
  {
    if n in edges {
      forall m | m in edges[n]
        ensures Ends(edges, m, more - 1)
      {
        EndsDeeper(edges, m, depth - 1, more - 1);
      }
    }
  }

  lemma BelowStep(edges: Edges, n: string, m: string)
    requires n in edges && (m in edges[n] || m in Below(edges, n))
    ensures m in Below(edges, n) && Below(edges, m) <= Below(edges, n)
  {
    if m in edges { assert edges[m] <= Below(edges, n); }
  }

  /** Everything below a node comes back sooner. */
  lemma EndsBelow(edges: Edges, n: string, depth: nat, m: string)
    requires Ends(edges, n, depth) && m in Below(edges, n)
    ensures depth > 1 && Ends(edges, m, depth - 1)
  {
    var soon := set x | x in Targets(edges) && Ends(edges, x, depth - 1);
    forall x, y | x in soon && x in edges && y in edges[x]
      ensures y in soon
    {
      EndsDeeper(edges, y, depth - 2, depth - 1);
    }
    assert edges[n] <= soon && Closed(edges, soon);
  }

  lemma {:induction false} EndsOffCycle(edges: Edges, n: string, depth: nat)
    requires Ends(edges, n, depth)
    ensures n !in Below(edges, n)
    decreases depth
  {
    if n in Below(edges, n) {
      EndsBelow(edges, n, depth, n);
      EndsOffCycle(edges, n, depth - 1);
    }
  }

  /** Numbers that drop along every edge. */
  ghost predicate IsRanking(edges: Edges, ranks: map<string, nat>) {
    && edges.Keys <= ranks.Keys
    && (forall n, m | n in edges && m in edges[n] :: m in ranks && ranks[m] < ranks[n])
  }

  lemma RankingExists(edges: Edges)
    requires Acyclic(edges)
    ensures exists ranks :: IsRanking(edges, ranks)
  {
    var ranks: map<string, nat> := map n | n in edges.Keys + Targets(edges) :: |Below(edges, n)|;
    forall n, m | n in edges && m in edges[n]
      ensures m in ranks && ranks[m] < ranks[n]
    {
      StepsDescend(edges, n, m);
    }
    assert IsRanking(edges, ranks);
  }

  lemma ProperSubset(a: set<string>, b: set<string>, x: string)
    requires a <= b && x in b && x !in a
    ensures |a| < |b|
  {
    assert a <= b - {x};
    SubsetSize(a, b - {x});
  }

  lemma {:induction false} SubsetSize(a: set<string>, b: set<string>)
    requires a <= b
    ensures |a| <= |b|
    decreases a
  {
    if a != {} {
      var x :| x in a;
      SubsetSize(a - {x}, b - {x});
    }
  }
}
