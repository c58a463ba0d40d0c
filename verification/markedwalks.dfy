/** A recursion over a graph with two kinds of edges: it follows the open ones as they are, and the
    guarded ones only to nodes that are not marked, marking each on the way down. */
module MarkedWalks {
  import opened Graphs

  function Succ(edges: Edges, n: string): set<string> { if n in edges then edges[n] else {} }

  /** The walk from n comes back within this depth. */
  ghost predicate Walks(open: Edges, guarded: Edges, marks: set<string>, n: string, depth: nat)
    decreases depth
  {
    && depth > 0
    && (forall m | m in Succ(open, n) :: Walks(open, guarded, marks, m, depth - 1))
    && (forall m | m in Succ(guarded, n) && m !in marks :: Walks(open, guarded, marks + {m}, m, depth - 1))
  }

  ghost predicate Returns(open: Edges, guarded: Edges, marks: set<string>, n: string) {
    exists depth: nat :: Walks(open, guarded, marks, n, depth)
  }

  /** Both kinds of edges. */
  function Both(open: Edges, guarded: Edges): Edges {
    map n | n in open.Keys + guarded.Keys :: Succ(open, n) + Succ(guarded, n)
  }

  /** No node that can be reached at all lies on a cycle of open edges. */
  ghost predicate NoOpenCycle(open: Edges, guarded: Edges, n: string) {
    forall x | x in Reach(Both(open, guarded), {n}) :: x !in Below(open, x)
  }

  // ---- A walk that comes back has met no open cycle ---------------------------------------------

  /** The walk meets x. */
  ghost predicate Meets(open: Edges, guarded: Edges, marks: set<string>, n: string, depth: nat, x: string)
    decreases depth
  {
    depth > 0 &&
    (|| x == n
     || (exists m :: m in Succ(open, n) && Meets(open, guarded, marks, m, depth - 1, x))
     || (exists m :: m in Succ(guarded, n) && m !in marks && Meets(open, guarded, marks + {m}, m, depth - 1, x)))
  }

  /** What the start leads to is met, unless it was marked before. */
  lemma NextIsMet(open: Edges, guarded: Edges, marks: set<string>, n: string, depth: nat, y: string)
    requires Walks(open, guarded, marks, n, depth) && y in Succ(open, n) + Succ(guarded, n) && y !in marks
    ensures Meets(open, guarded, marks, n, depth, y)
  {
    if y in Succ(open, n) {
      assert Meets(open, guarded, marks, y, depth - 1, y);
    } else {
      assert Meets(open, guarded, marks + {y}, y, depth - 1, y);
    }
  }

  /** What a met node leads to is met too, unless it was marked before. */
  lemma {:induction false} MetIsClosed(open: Edges, guarded: Edges, marks: set<string>, n: string, depth: nat, x: string, y: string)
    requires Walks(open, guarded, marks, n, depth) && Meets(open, guarded, marks, n, depth, x)
    requires y in Succ(open, x) + Succ(guarded, x) && y !in marks
    ensures Meets(open, guarded, marks, n, depth, y)
    decreases depth
  {
    if x == n {
      NextIsMet(open, guarded, marks, n, depth, y);
    } else if m :| m in Succ(open, n) && Meets(open, guarded, marks, m, depth - 1, x) {
      MetIsClosed(open, guarded, marks, m, depth - 1, x, y);
    } else {
      var m :| m in Succ(guarded, n) && m !in marks && Meets(open, guarded, marks + {m}, m, depth - 1, x);
      if y == m {
        NextIsMet(open, guarded, marks, n, depth, m);
      } else {
        MetIsClosed(open, guarded, marks + {m}, m, depth - 1, x, y);
      }
    }
  }

  lemma {:induction false} WalkEnds(open: Edges, guarded: Edges, marks: set<string>, n: string, depth: nat)
    requires Walks(open, guarded, marks, n, depth)
    ensures Ends(open, n, depth)
    decreases depth
  {
    if n in open {
      forall m | m in open[n]
        ensures Ends(open, m, depth - 1)
      {
        assert m in Succ(open, n);
        WalkEnds(open, guarded, marks, m, depth - 1);
      }
    }
  }

  /** Every met node is where some part of the walk, which comes back, starts. */
  lemma {:induction false} MetEnds(open: Edges, guarded: Edges, marks: set<string>, n: string, depth: nat, x: string) returns (d: nat)
    requires Walks(open, guarded, marks, n, depth) && Meets(open, guarded, marks, n, depth, x)
    ensures Ends(open, x, d)
    decreases depth
  {
    if x == n {
      WalkEnds(open, guarded, marks, n, depth);
      d := depth;
    } else if m :| m in Succ(open, n) && Meets(open, guarded, marks, m, depth - 1, x) {
      d := MetEnds(open, guarded, marks, m, depth - 1, x);
    } else {
      var m :| m in Succ(guarded, n) && m !in marks && Meets(open, guarded, marks + {m}, m, depth - 1, x);
      d := MetEnds(open, guarded, marks + {m}, m, depth - 1, x);
    }
  }

  lemma EverythingIsMet(open: Edges, guarded: Edges, marks: set<string>, n: string, depth: nat, x: string)
    requires marks <= {n} && Walks(open, guarded, marks, n, depth) && x in Reach(Both(open, guarded), {n})
    ensures Meets(open, guarded, marks, n, depth, x)
  {
    var both := Both(open, guarded);
    var met := set y | y in {n} + Targets(both) && Meets(open, guarded, marks, n, depth, y);
    forall y, z | y in met && y in both && z in both[y]
      ensures z in met
    {
      assert z in Targets(both);
      if z != n { MetIsClosed(open, guarded, marks, n, depth, y, z); }
    }
    assert Closed(both, met);
  }

  lemma ReturnMeetsNoCycle(open: Edges, guarded: Edges, marks: set<string>, n: string, depth: nat)
    requires marks <= {n} && Walks(open, guarded, marks, n, depth)
    ensures NoOpenCycle(open, guarded, n)
  {
    forall x | x in Reach(Both(open, guarded), {n})
      ensures x !in Below(open, x)
    {
      EverythingIsMet(open, guarded, marks, n, depth, x);
      var d := MetEnds(open, guarded, marks, n, depth, x);
      EndsOffCycle(open, x, d);
    }
  }

  // ---- Without an open cycle it comes back -------------------------------------------------------

  /** Numbers up to `top` that drop along every open edge between these nodes, which both kinds of
      edges do not leave. */
  ghost predicate Falls(open: Edges, guarded: Edges, heights: map<string, nat>, top: nat) {
    forall x | x in heights ::
      && heights[x] <= top && Succ(guarded, x) <= heights.Keys
      && forall m | m in Succ(open, x) :: m in heights && heights[m] < heights[x]
  }

  lemma BelowAreTargets(edges: Edges, n: string)
    ensures Below(edges, n) <= Targets(edges) && |Below(edges, n)| <= |Targets(edges)|
  {
    assert Closed(edges, Targets(edges));
    SubsetSize(Below(edges, n), Targets(edges));
  }

  lemma OffCycleDrops(open: Edges, n: string, m: string)
    requires m in Succ(open, n) && m !in Below(open, m)
    ensures |Below(open, m)| < |Below(open, n)|
  {
    BelowStep(open, n, m);
    ProperSubset(Below(open, m), Below(open, n), m);
  }

  lemma HeightsExist(open: Edges, guarded: Edges, n: string) returns (heights: map<string, nat>)
    requires NoOpenCycle(open, guarded, n)
    ensures n in heights && Falls(open, guarded, heights, |Targets(open)|)
  {
    var both := Both(open, guarded);
    var all := Reach(both, {n});
    heights := map x | x in all :: |Below(open, x)|;
    forall x | x in heights
      ensures heights[x] <= |Targets(open)| && Succ(guarded, x) <= heights.Keys
      ensures forall m | m in Succ(open, x) :: m in heights && heights[m] < heights[x]
    {
      BelowAreTargets(open, x);
      BothStay(open, guarded, n, x);
      forall m | m in Succ(open, x)
        ensures m in heights && heights[m] < heights[x]
      {
        OffCycleDrops(open, x, m);
      }
    }
  }

  lemma BothStay(open: Edges, guarded: Edges, n: string, x: string)
    requires x in Reach(Both(open, guarded), {n})
    ensures Succ(open, x) + Succ(guarded, x) <= Reach(Both(open, guarded), {n})
  {
    if x in open.Keys + guarded.Keys { assert Both(open, guarded)[x] == Succ(open, x) + Succ(guarded, x); }
  }

  /** Deep enough: a full descent along open edges for every node still to be marked. */
  function Budget(unmarked: nat, top: nat, height: nat): nat {
    height + 1 + if unmarked == 0 then 0 else Budget(unmarked - 1, top, top)
  }

  function Unmarked(guarded: Edges, marks: set<string>): set<string> { Targets(guarded) - marks }

  lemma MarkingShrinks(guarded: Edges, marks: set<string>, n: string, m: string)
    requires m in Succ(guarded, n) && m !in marks
    ensures |Unmarked(guarded, marks + {m})| == |Unmarked(guarded, marks)| - 1
  {
    var left := Unmarked(guarded, marks);
    assert m in left && Unmarked(guarded, marks + {m}) == left - {m};
  }

  lemma StepFits(unmarked: nat, top: nat, height: nat, height': nat, depth: nat)
    requires Budget(unmarked, top, height) <= depth
    ensures depth > 0
    ensures height' < height ==> Budget(unmarked, top, height') <= depth - 1
    ensures unmarked > 0 && height' <= top ==> Budget(unmarked - 1, top, height') <= depth - 1
  {
  }

  lemma {:induction false} WalksWithinBudget(open: Edges, guarded: Edges, heights: map<string, nat>, top: nat, marks: set<string>, n: string, depth: nat)
    requires n in heights && Falls(open, guarded, heights, top)
    requires Budget(|Unmarked(guarded, marks)|, top, heights[n]) <= depth
    ensures Walks(open, guarded, marks, n, depth)
    decreases depth
  {
    StepFits(|Unmarked(guarded, marks)|, top, heights[n], 0, depth);
    forall m | m in Succ(open, n)
      ensures Walks(open, guarded, marks, m, depth - 1)
    {
      StepFits(|Unmarked(guarded, marks)|, top, heights[n], heights[m], depth);
      WalksWithinBudget(open, guarded, heights, top, marks, m, depth - 1);
    }
    forall m | m in Succ(guarded, n) && m !in marks
      ensures Walks(open, guarded, marks + {m}, m, depth - 1)
    {
      MarkingShrinks(guarded, marks, n, m);
      StepFits(|Unmarked(guarded, marks)|, top, heights[n], heights[m], depth);
      WalksWithinBudget(open, guarded, heights, top, marks + {m}, m, depth - 1);
    }
  }

  /** The walk, started with nothing or its own start marked, comes back exactly when nothing it can
      reach, marks or not, lies on an open cycle. */
  lemma ReturnsIff(open: Edges, guarded: Edges, marks: set<string>, n: string)
    requires marks <= {n}
    ensures Returns(open, guarded, marks, n) <==> NoOpenCycle(open, guarded, n)
  {
    if Returns(open, guarded, marks, n) {
      var depth: nat :| Walks(open, guarded, marks, n, depth);
      ReturnMeetsNoCycle(open, guarded, marks, n, depth);
    }
    if NoOpenCycle(open, guarded, n) {
      var heights := HeightsExist(open, guarded, n);
      var top := |Targets(open)|;
      WalksWithinBudget(open, guarded, heights, top, marks, n, Budget(|Unmarked(guarded, marks)|, top, heights[n]));
      assert Returns(open, guarded, marks, n);
    }
  }
}
