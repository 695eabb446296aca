/** Where the weakest-link score falls short of its description: packages on or above a cycle. */
module TrustLimits {
  import opened Graphs
  import opened TopologicalSort
  import opened TrustRun
  import opened TrustRecurrence
  import opened WeakestLink

  /** Two packages that depend on each other, one of which also depends on a third. */
  function Loop(a: Purl, b: Purl, c: Purl): Graph<Purl> {
    Graph({a, b, c}, map[a := [b], b := [a, c]])
  }

  ghost predicate Three(a: Purl, b: Purl, c: Purl) {
    a != b && b != c && a != c
  }

  lemma {:induction false} KeepAll<N(!new)>(xs: seq<N>, s: set<N>)
    requires forall x :: x in xs ==> x in s
    ensures Keep(xs, s) == xs
  {
    if xs != [] {
      KeepAll(xs[..|xs| - 1], s);
    }
  }

  lemma LoopDeps(a: Purl, b: Purl, c: Purl)
    requires Three(a, b, c)
    ensures var g := Loop(a, b, c); Deps(g, a) == [b] && Deps(g, b) == [a, c] && Deps(g, c) == []
  {
    KeepAll([b], {a, b, c});
    KeepAll([a, c], {a, b, c});
  }

  /** c is reached through b, which reaches a cycle. */
  lemma LoopUnheard(a: Purl, b: Purl, c: Purl)
    requires Three(a, b, c)
    ensures Reaches(Loop(a, b, c), a, c) && !HeardOf(Loop(a, b, c), a, c)
  {
    var g := Loop(a, b, c);
    LoopDeps(a, b, c);
    ReachesChild(g, a, b);
    ReachesChild(g, b, c);
    ReachesCompose(g, a, b, c);
    assert HasDepIn(g, a, {a, b}) && HasDepIn(g, b, {a, b});
    StuckReachesCycle(g, {a, b}, b);
  }

  /** Scores and an order for which package a never hears of c, although c is reachable and the weakest. */
  lemma WeakestLinkMissesBehindCycle(a: Purl, b: Purl, c: Purl) returns (inputs: Inputs, order: seq<Purl>)
    requires Three(a, b, c)
    ensures inputs.Scored() == Loop(a, b, c) && inputs.InRange() && LeavesFirst(Loop(a, b, c), order)
    ensures IsWeakest(inputs, a, 0.0) && a in Run(inputs, order).minPath && Run(inputs, order).minPath[a] == 10.0
  {
    LoopUnheard(a, b, c);
    inputs, order := UnheardIsMissed(Loop(a, b, c), a, c);
  }
}
