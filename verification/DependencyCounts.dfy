/** For which packages the propagated dependency count is the number of distinct dependencies. */
module DependencyCounts {
  import opened Graphs
  import opened TopologicalSort
  import opened TrustRun
  import opened TrustRecurrence
  import opened DependencyPaths
  import opened WeakestLink

  /** Whatever the leaves-first order, the count is the number of distinct dependencies. */
  ghost predicate AlwaysCounts(inputs: Inputs, p: Purl) {
    forall order: seq<Purl> :: LeavesFirst(inputs.Scored(), order) ==>
      CountIs(inputs, order, p, |AllDependencies(inputs, p)|)
  }

  ghost predicate CountIs(inputs: Inputs, order: seq<Purl>, p: Purl, n: int) {
    p in Run(inputs, order).depCounts && Run(inputs, order).depCounts[p] == n
  }

  lemma CountedInTurn(inputs: Inputs, order: seq<Purl>, i: nat)
    requires Distinct(order) && i < |order|
    ensures CountIs(inputs, order, order[i], DepCountAt(inputs, Run(inputs, order[..i]), order[i]))
  {
    assert order[..i + 1][..i] == order[..i];
    RunKeeps(inputs, order, i + 1, order[i]);
  }

  // ---------- where the order does not matter ----------

  lemma CountedBefore(inputs: Inputs, order: seq<Purl>, i: nat, d: Purl)
    requires NoDuplicateEdges(inputs) && LeavesFirst(inputs.Scored(), order) && i < |order|
    requires d in Deps(inputs.Scored(), order[i]) && Grounded(inputs, d) && Steady(inputs, d)
    ensures CountOf(Run(inputs, order[..i]).depCounts, d) == |Paths(inputs, d)|
  {
    FinalBefore(inputs.Scored(), order, i, d);
    RunKeeps(inputs, order, i, d);
    RunSettlesAll(inputs, order);
    CountIsPaths(inputs, Run(inputs, order), d);
  }

  lemma BelowCounted(inputs: Inputs, order: seq<Purl>, i: nat)
    requires NoDuplicateEdges(inputs) && LeavesFirst(inputs.Scored(), order) && i < |order| && Steady(inputs, order[i])
    ensures CountsBelow(inputs, Run(inputs, order[..i]).depCounts, order[i])
  {
    RunKeys(inputs, order[..i]);
    forall d | d in Deps(inputs.Scored(), order[i]) && d != order[i]
      ensures Steady(inputs, d) && CountOf(Run(inputs, order[..i]).depCounts, d) == |Paths(inputs, d)|
    {
      GroundedIsSteady(inputs, d);
      CountedBefore(inputs, order, i, d);
    }
  }

  /** The count of a steady package is that of its simple paths. */
  lemma SteadyCount(inputs: Inputs, order: seq<Purl>, p: Purl)
    requires NoDuplicateEdges(inputs) && LeavesFirst(inputs.Scored(), order) && Steady(inputs, p)
    ensures CountIs(inputs, order, p, |Paths(inputs, p)|)
  {
    var i :| 0 <= i < |order| && order[i] == p;
    BelowCounted(inputs, order, i);
    CountAtIsPaths(inputs, Run(inputs, order[..i]), p);
    CountedInTurn(inputs, order, i);
  }

  // ---------- where it does ----------

  ghost predicate NoneNegative(counts: map<Purl, int>) {
    forall q :: q in counts ==> counts[q] >= 0
  }

  lemma {:induction false} CountAllAtLeast(counts: map<Purl, int>, ds: seq<Purl>)
    requires NoneNegative(counts)
    ensures CountAll(counts, ds) >= |ds|
  {
    if ds != [] {
      CountAllAtLeast(counts, ds[..|ds| - 1]);
    }
  }

  /** Every count is at least the number of listed dependencies. */
  lemma {:induction false} RunCounts(inputs: Inputs, order: seq<Purl>)
    ensures NoneNegative(Run(inputs, order).depCounts)
    ensures forall q :: q in order ==>
      q in Run(inputs, order).depCounts && Run(inputs, order).depCounts[q] >= |Deps(inputs.Scored(), q)|
  {
    if order != [] {
      var front, last := order[..|order| - 1], order[|order| - 1];
      assert order == front + [last];
      RunCounts(inputs, front);
      CountAllAtLeast(Run(inputs, front).depCounts, Deps(inputs.Scored(), last));
    }
  }

  lemma {:induction false} CountAllGrows(a: map<Purl, int>, b: map<Purl, int>, ds: seq<Purl>, d: Purl)
    requires forall e :: e in ds ==> CountOf(a, e) <= CountOf(b, e)
    requires CountOf(a, d) < CountOf(b, d)
    ensures CountAll(a, ds) + (if d in ds then 1 else 0) <= CountAll(b, ds)
  {
    if ds != [] {
      var front, last := ds[..|ds| - 1], ds[|ds| - 1];
      assert ds == front + [last];
      CountAllGrows(a, b, front, d);
    }
  }

  lemma HasDeps(g: Graph<Purl>, d: Purl)
    requires ReachesCycle(g, d)
    ensures Deps(g, d) != []
  {
    var c :| Reaches(g, d, c) && OnCycle(g, c);
    if c == d {
      var k: nat :| k > 0 && Steps(g, c, c, k);
      var m := FirstStep(g, c, c, k);
    } else {
      ReachesSplit(g, d, c);
    }
  }

  /** Two orders agree on a package that reaches no cycle, once both are past it. */
  lemma SameBefore(inputs: Inputs, first: seq<Purl>, k: nat, order: seq<Purl>, i: nat, e: Purl)
    requires LeavesFirst(inputs.Scored(), first) && LeavesFirst(inputs.Scored(), order) && Grounded(inputs, e)
    requires k < |first| && i < |order| && e in first[..k] && e in order[..i]
    ensures CountOf(Run(inputs, first[..k]).depCounts, e) == CountOf(Run(inputs, order[..i]).depCounts, e)
  {
    RunKeeps(inputs, first, k, e);
    RunKeeps(inputs, order, i, e);
    OrderIrrelevant(inputs, first, order, e);
  }

  /** In an order that comes to p first of those that reach a cycle, p counts no more below a dependency than
      in any order at all. */
  lemma FirstCountsLeast(inputs: Inputs, front: seq<Purl>, p: Purl, rest: seq<Purl>, order: seq<Purl>, i: nat, e: Purl)
    requires LeavesFirst(inputs.Scored(), front + [p] + rest) && LeavesFirst(inputs.Scored(), order)
    requires forall n :: n in front ==> n in inputs.direct && !ReachesCycle(inputs.Scored(), n)
    requires i < |order| && order[i] == p && e in Deps(inputs.Scored(), p)
    ensures CountOf(Run(inputs, front).depCounts, e) <= CountOf(Run(inputs, order[..i]).depCounts, e)
  {
    var first := front + [p] + rest;
    assert first[..|front|] == front;
    if e in front {
      FinalBefore(inputs.Scored(), order, i, e);
      SameBefore(inputs, first, |front|, order, i, e);
    } else {
      RunKeys(inputs, front);
      RunCounts(inputs, order[..i]);
    }
  }

  /** And strictly less once the order has been at a dependency that reaches a cycle. */
  lemma FirstCountsLess(inputs: Inputs, front: seq<Purl>, p: Purl, rest: seq<Purl>, order: seq<Purl>, i: nat, d: Purl)
    requires LeavesFirst(inputs.Scored(), front + [p] + rest) && LeavesFirst(inputs.Scored(), order)
    requires forall n :: n in front ==> n in inputs.direct && !ReachesCycle(inputs.Scored(), n)
    requires i < |order| && order[i] == p && d in Deps(inputs.Scored(), p)
    requires ReachesCycle(inputs.Scored(), d) && d in order[..i]
    ensures DepCountAt(inputs, Run(inputs, front), p) < DepCountAt(inputs, Run(inputs, order[..i]), p)
  {
    var a, b := Run(inputs, front).depCounts, Run(inputs, order[..i]).depCounts;
    forall e | e in Deps(inputs.Scored(), p)
      ensures CountOf(a, e) <= CountOf(b, e)
    {
      FirstCountsLeast(inputs, front, p, rest, order, i, e);
    }
    RunKeys(inputs, front);
    RunCounts(inputs, order[..i]);
    HasDeps(inputs.Scored(), d);
    CountAllGrows(a, b, Deps(inputs.Scored(), p), d);
  }

  /** If a further dependency reaches a cycle, p's count varies with the order. */
  lemma CountVaries(inputs: Inputs, p: Purl, d: Purl) returns (first: seq<Purl>, second: seq<Purl>, m: int, n: int)
    requires p in inputs.direct && d in Deps(inputs.Scored(), p) && d != p && ReachesCycle(inputs.Scored(), d)
    ensures LeavesFirst(inputs.Scored(), first) && LeavesFirst(inputs.Scored(), second)
    ensures CountIs(inputs, first, p, m) && CountIs(inputs, second, p, n) && m < n
  {
    var g := inputs.Scored();
    ReachesChild(g, p, d);
    ReachesCycleVia(g, p, d);
    var front, rest := OrderWithFirst(g, p);
    first := front + [p] + rest;
    var i;
    second, i := OrderAfter(g, p, d);
    FirstCountsLess(inputs, front, p, rest, second, i, d);
    assert first[..|front|] == front && first[|front|] == p;
    CountedInTurn(inputs, first, |front|);
    CountedInTurn(inputs, second, i);
    m, n := DepCountAt(inputs, Run(inputs, front), p), DepCountAt(inputs, Run(inputs, second[..i]), p);
  }

  /** A leaves-first order that comes to p after d. */
  lemma OrderAfter(g: Graph<Purl>, p: Purl, d: Purl) returns (order: seq<Purl>, i: nat)
    requires p in g.nodes && d in g.nodes && ReachesCycle(g, p) && ReachesCycle(g, d) && p != d
    ensures LeavesFirst(g, order) && i < |order| && order[i] == p && d in order[..i]
  {
    var front, rest := OrderWithFirst(g, d);
    order := front + [d] + rest;
    assert order[|front|] == d;
    i :| 0 <= i < |order| && order[i] == p;
    assert i > |front|;
    assert order[..i][|front|] == d;
  }

  // ---------- exactly ----------

  lemma SameCount(inputs: Inputs, p: Purl, first: seq<Purl>, second: seq<Purl>, m: int, n: int)
    requires AlwaysCounts(inputs, p) && LeavesFirst(inputs.Scored(), first) && LeavesFirst(inputs.Scored(), second)
    requires CountIs(inputs, first, p, m) && CountIs(inputs, second, p, n)
    ensures m == n
  {
    assert CountIs(inputs, first, p, |AllDependencies(inputs, p)|);
    assert CountIs(inputs, second, p, |AllDependencies(inputs, p)|);
  }

  lemma AlwaysSteady(inputs: Inputs, p: Purl)
    requires p in inputs.direct && AlwaysCounts(inputs, p)
    ensures Steady(inputs, p)
  {
    if !Steady(inputs, p) {
      var d :| d in Deps(inputs.Scored(), p) && d != p && !Grounded(inputs, d);
      var first, second, m, n := CountVaries(inputs, p, d);
      SameCount(inputs, p, first, second, m, n);
    }
  }

  /** The count of p is the number of its distinct dependencies in every leaves-first order if and only if p
      reaches no cycle but itself and no dependency along two simple paths. */
  lemma CountsExactly(inputs: Inputs, p: Purl)
    requires p in inputs.direct && NoDuplicateEdges(inputs)
    ensures AlwaysCounts(inputs, p) <==> Steady(inputs, p) && SinglePaths(inputs, p)
  {
    if AlwaysCounts(inputs, p) {
      AlwaysSteady(inputs, p);
      var order := SomeOrder(inputs.Scored());
      SteadyCount(inputs, order, p);
      PathsAgainstPackages(inputs, p);
      assert CountIs(inputs, order, p, |AllDependencies(inputs, p)|);
    } else {
      var order :| LeavesFirst(inputs.Scored(), order) && !CountIs(inputs, order, p, |AllDependencies(inputs, p)|);
      if Steady(inputs, p) {
        SteadyCount(inputs, order, p);
        PathsAgainstPackages(inputs, p);
      }
    }
  }

  /** The counts of steady packages, against their distinct dependencies. */
  ghost predicate CountsExact(inputs: Inputs, s: Scores) {
    NoDuplicateEdges(inputs) ==>
      forall p :: Steady(inputs, p) ==>
        && p in s.depCounts && s.depCounts[p] >= |AllDependencies(inputs, p)|
        && (s.depCounts[p] == |AllDependencies(inputs, p)| <==> SinglePaths(inputs, p))
  }

  /** The recorded count is never below the number of distinct dependencies, and it equals that number exactly
      when no dependency is reached along two simple paths. */
  lemma CountAgainstPackages(inputs: Inputs, order: seq<Purl>, p: Purl)
    requires NoDuplicateEdges(inputs) && LeavesFirst(inputs.Scored(), order) && Steady(inputs, p)
    ensures var counts := Run(inputs, order).depCounts;
            && p in counts && counts[p] >= |AllDependencies(inputs, p)|
            && (counts[p] == |AllDependencies(inputs, p)| <==> SinglePaths(inputs, p))
  {
    SteadyCount(inputs, order, p);
    PathsAgainstPackages(inputs, p);
  }

  lemma RunCountsExact(inputs: Inputs, order: seq<Purl>)
    requires LeavesFirst(inputs.Scored(), order)
    ensures CountsExact(inputs, Run(inputs, order))
  {
    if NoDuplicateEdges(inputs) {
      forall p | Steady(inputs, p)
        ensures var counts := Run(inputs, order).depCounts;
                && p in counts && counts[p] >= |AllDependencies(inputs, p)|
                && (counts[p] == |AllDependencies(inputs, p)| <==> SinglePaths(inputs, p))
      {
        CountAgainstPackages(inputs, order, p);
      }
    }
  }
}
