/** For which packages the weakest-link score is always exact: a condition on the dependency graph. */
module WeakestLink {
  import opened Graphs
  import opened Rounding
  import opened TopologicalSort
  import opened TrustRun
  import opened TrustRecurrence

  /** When p is processed, q has been heard of: it is p itself, a dependency of p, or reached through a
      dependency whose scores are final. */
  ghost predicate HeardOf(g: Graph<Purl>, p: Purl, q: Purl) {
    q == p || q in Deps(g, p) || exists d :: d in Deps(g, p) && !ReachesCycle(g, d) && Reaches(g, d, q)
  }

  ghost predicate HearsAll(g: Graph<Purl>, p: Purl) {
    forall q :: q in g.nodes && Reaches(g, p, q) ==> HeardOf(g, p, q)
  }

  /** p's weakest-link score is m, rounded once p has any dependency. */
  ghost predicate LinkIs(inputs: Inputs, s: Scores, p: Purl, m: real) {
    p in s.minPath && s.minPath[p] == if Deps(inputs.Scored(), p) == [] then m else Round2(m)
  }

  /** Whatever the scores and the leaves-first order, p's score is the least among all it reaches. */
  ghost predicate AlwaysExact(g: Graph<Purl>, p: Purl) {
    forall inputs: Inputs, order: seq<Purl>, m: real ::
      inputs.Scored() == g && inputs.InRange() && LeavesFirst(g, order) && IsWeakest(inputs, p, m) ==>
        LinkIs(inputs, Run(inputs, order), p, m)
  }

  // ---------- where everything is heard of ----------

  /** No recorded link is above the package's own score, up to rounding. */
  lemma {:induction false} LinkAtMostOwn(inputs: Inputs, order: seq<Purl>, q: Purl)
    requires q in inputs.direct && q in Run(inputs, order).minPath
    ensures Round2(Run(inputs, order).minPath[q]) <= Round2(inputs.direct[q])
  {
    var front, last := order[..|order| - 1], order[|order| - 1];
    if last == q {
      OwnAtMost(inputs, Run(inputs, front), q);
    } else {
      LinkAtMostOwn(inputs, front, q);
    }
  }

  lemma OwnAtMost(inputs: Inputs, s: Scores, q: Purl)
    requires q in inputs.direct
    ensures Round2(MinPathAt(inputs, s, q)) <= Round2(inputs.direct[q])
  {
    var ds := Deps(inputs.Scored(), q);
    if ds != [] {
      var low := Least(inputs.direct[q], KnownAll(inputs, s.minPath, ds));
      Round2Idempotent(low);
      Round2Monotone(low, inputs.direct[q]);
    }
  }

  /** What is recorded for p is what was computed when its turn came. */
  lemma RecordedInTurn(inputs: Inputs, order: seq<Purl>, i: nat)
    requires Distinct(order) && i < |order|
    ensures order[i] in Run(inputs, order).minPath
    ensures Run(inputs, order).minPath[order[i]] == MinPathAt(inputs, Run(inputs, order[..i]), order[i])
  {
    assert order[..i + 1][..i] == order[..i];
    RunKeeps(inputs, order, i + 1, order[i]);
  }

  /** A dependency that reaches no cycle is processed before p. */
  lemma FinalBefore(g: Graph<Purl>, order: seq<Purl>, i: nat, d: Purl)
    requires LeavesFirst(g, order) && i < |order| && d in Deps(g, order[i]) && !ReachesCycle(g, d)
    ensures d in order[..i]
  {
    if ReachesCycle(g, order[i]) {
      var j :| 0 <= j < |order| && order[j] == d;
      assert j < i;
    } else {
      assert DepsBefore(g, order, i);
    }
  }

  /** What p finds recorded or given for a package it hears q of is no more than q's score. */
  lemma HeardIsKnown(inputs: Inputs, order: seq<Purl>, i: nat, q: Purl, m: real) returns (k: nat)
    requires LeavesFirst(inputs.Scored(), order) && i < |order| && IsWeakest(inputs, order[i], m)
    requires q in inputs.direct && inputs.direct[q] == m && q != order[i] && HeardOf(inputs.Scored(), order[i], q)
    ensures var ms := KnownAll(inputs, Run(inputs, order[..i]).minPath, Deps(inputs.Scored(), order[i]));
            k < |ms| && Round2(ms[k]) <= Round2(m)
  {
    var g, p, s := inputs.Scored(), order[i], Run(inputs, order[..i]);
    var ds := Deps(g, p);
    if q in ds {
      k :| 0 <= k < |ds| && ds[k] == q;
      if q in s.minPath {
        LinkAtMostOwn(inputs, order[..i], q);
      }
    } else {
      var d :| d in ds && !ReachesCycle(g, d) && Reaches(g, d, q);
      k :| 0 <= k < |ds| && ds[k] == d;
      FinalBefore(g, order, i, d);
      WeakestBelow(inputs, p, d, q, m);
      RunKeeps(inputs, order, i, d);
      RunSettlesAll(inputs, order);
      RunWeakestLink(inputs, order);
      SettledWeakestLink(inputs, Run(inputs, order), d, m);
      Round2Idempotent(m);
    }
  }

  /** A package that hears of all it reaches has an exact score. */
  lemma HeardIsExact(inputs: Inputs, order: seq<Purl>, p: Purl, m: real)
    requires LeavesFirst(inputs.Scored(), order) && p in inputs.direct && HearsAll(inputs.Scored(), p)
    requires IsWeakest(inputs, p, m)
    ensures LinkIs(inputs, Run(inputs, order), p, m)
  {
    var i :| 0 <= i < |order| && order[i] == p;
    var q :| q in inputs.direct && Reaches(inputs.Scored(), p, q) && inputs.direct[q] == m;
    var ds := Deps(inputs.Scored(), p);
    RecordedInTurn(inputs, order, i);
    ReachesSplit(inputs.Scored(), p, q);
    if ds != [] {
      var ms := KnownAll(inputs, Run(inputs, order[..i]).minPath, ds);
      var low := Least(inputs.direct[p], ms);
      RunWeakestLink(inputs, order);
      Round2Idempotent(low);
      WeakestIsLower(inputs, p, m, Round2(low));
      if q == p {
        Round2Monotone(low, m);
      } else {
        var k := HeardIsKnown(inputs, order, i, q, m);
        Round2Monotone(low, ms[k]);
      }
    }
  }

  /** A package that reaches no cycle hears of all it reaches. */
  lemma GroundedHearsAll(inputs: Inputs, p: Purl)
    requires Grounded(inputs, p)
    ensures HearsAll(inputs.Scored(), p)
  {
    GroundedDeps(inputs, p);
    forall q | q in inputs.direct && Reaches(inputs.Scored(), p, q)
      ensures HeardOf(inputs.Scored(), p, q)
    {
      ReachesSplit(inputs.Scored(), p, q);
    }
  }

  // ---------- an order that comes to p first ----------

  ghost predicate DepsFirst(g: Graph<Purl>, order: seq<Purl>) {
    && Distinct(order)
    && (forall n :: n in order ==> n in g.nodes && !ReachesCycle(g, n))
    && forall i :: 0 <= i < |order| ==> DepsBefore(g, order, i)
  }

  ghost function Acyclics(g: Graph<Purl>): set<Purl> {
    set n | n in g.nodes && !ReachesCycle(g, n)
  }

  /** Of the nodes that reach no cycle and are left, one depends on none of the others. */
  lemma NextAcyclic(g: Graph<Purl>, left: set<Purl>) returns (n: Purl)
    requires left != {} && left <= Acyclics(g)
    ensures n in left && !HasDepIn(g, n, left)
  {
    if forall x :: x in left ==> HasDepIn(g, x, left) {
      var x :| x in left;
      StuckReachesCycle(g, left, x);
      assert false;
    }
    n :| n in left && !HasDepIn(g, n, left);
  }

  lemma {:induction false} AcyclicOrder(g: Graph<Purl>, done: seq<Purl>, left: set<Purl>) returns (order: seq<Purl>)
    requires DepsFirst(g, done) && left == Acyclics(g) - set n | n in done
    ensures DepsFirst(g, order) && forall n :: n in order <==> n in Acyclics(g)
    decreases |left|
  {
    if left == {} {
      order := done;
    } else {
      var n := NextAcyclic(g, left);
      AcyclicChildren(g, n);
      DepsFirstNext(g, done, n);
      assert left - {n} == Acyclics(g) - set m | m in done + [n];
      SmallerSet(left - {n}, left);
      order := AcyclicOrder(g, done + [n], left - {n});
    }
  }

  lemma DepsFirstNext(g: Graph<Purl>, done: seq<Purl>, n: Purl)
    requires DepsFirst(g, done) && n in g.nodes && !ReachesCycle(g, n) && n !in done
    requires forall d :: d in Deps(g, n) ==> d in done
    ensures DepsFirst(g, done + [n])
  {
    var order := done + [n];
    forall i | 0 <= i < |order|
      ensures DepsBefore(g, order, i)
    {
      assert order[..i] == done[..i];
      if i < |done| {
        assert DepsBefore(g, done, i);
      } else {
        assert order[..i] == done;
      }
    }
  }

  lemma {:induction false} Enumerate(s: set<Purl>) returns (order: seq<Purl>)
    ensures IsEnumeration(s, order)
  {
    order := [];
    if s != {} {
      var x :| x in s;
      var rest := Enumerate(s - {x});
      order := [x] + rest;
    }
  }

  /** A leaves-first order that comes to p first of all packages that reach a cycle. */
  lemma OrderWithFirst(g: Graph<Purl>, p: Purl) returns (front: seq<Purl>, rest: seq<Purl>)
    requires p in g.nodes && ReachesCycle(g, p)
    ensures LeavesFirst(g, front + [p] + rest)
    ensures forall n :: n in front ==> n in g.nodes && !ReachesCycle(g, n)
    ensures p !in front
  {
    front := AcyclicOrder(g, [], Acyclics(g));
    rest := Enumerate(g.nodes - Acyclics(g) - {p});
    FrontFirst(g, front, [p] + rest);
    assert front + ([p] + rest) == front + [p] + rest;
  }

  /** There always is some leaves-first order. */
  lemma SomeOrder(g: Graph<Purl>) returns (order: seq<Purl>)
    ensures LeavesFirst(g, order)
  {
    var front := AcyclicOrder(g, [], Acyclics(g));
    var rest := Enumerate(g.nodes - Acyclics(g));
    FrontFirst(g, front, rest);
    order := front + rest;
  }

  lemma FrontFirst(g: Graph<Purl>, front: seq<Purl>, rest: seq<Purl>)
    requires DepsFirst(g, front) && forall n :: n in front <==> n in Acyclics(g)
    requires IsEnumeration(g.nodes - Acyclics(g), rest)
    ensures LeavesFirst(g, front + rest)
  {
    var order := front + rest;
    forall i | 0 <= i < |order|
      ensures !ReachesCycle(g, order[i]) <==> i < |front|
    {
      if i < |front| {
        assert order[i] in front;
      } else {
        assert order[i] in rest;
      }
    }
    forall i | 0 <= i < |front|
      ensures DepsBefore(g, order, i)
    {
      assert DepsBefore(g, front, i) && order[..i] == front[..i];
    }
    assert forall n :: n in order <==> n in front || n in rest;
  }

  // ---------- where something is not heard of ----------

  /** Full scores for all packages but q. */
  function AllButOne(g: Graph<Purl>, q: Purl): Inputs {
    Inputs(map n | n in g.nodes :: if n == q then 0.0 else 10.0, g.children, 0.4, 0.8)
  }

  lemma TenStaysTen(xs: seq<real>)
    requires forall i :: 0 <= i < |xs| ==> xs[i] == 10.0
    ensures Round2(Least(10.0, xs)) == 10.0 && Round2(10.0) == 10.0 && Round2(0.0) == 0.0
  {
    Round2Within(10.0, 10, 10);
    Round2Within(0.0, 0, 0);
  }

  /** At its turn p knows full scores only. */
  lemma OnlyFullScores(g: Graph<Purl>, p: Purl, q: Purl, front: seq<Purl>, d: Purl)
    requires p in g.nodes && q in g.nodes && !HeardOf(g, p, q) && d in Deps(g, p)
    requires forall n :: n in front ==> n in g.nodes && !ReachesCycle(g, n)
    ensures var inputs := AllButOne(g, q); Known(inputs, Run(inputs, front).minPath, d) == 10.0
  {
    var inputs := AllButOne(g, q);
    assert inputs.Scored() == g;
    RunKeys(inputs, front);
    if d in front {
      RunWeakestLink(inputs, front);
      TenStaysTen([]);
      var r :| r in inputs.direct && Reaches(g, d, r) &&
               (Run(inputs, front).minPath[d] == inputs.direct[r] ||
                 Run(inputs, front).minPath[d] == Round2(inputs.direct[r]));
      assert r != q;
    }
  }

  lemma FirstMisses(g: Graph<Purl>, p: Purl, q: Purl, front: seq<Purl>)
    requires p in g.nodes && q in g.nodes && !HeardOf(g, p, q)
    requires forall n :: n in front ==> n in g.nodes && !ReachesCycle(g, n)
    ensures var inputs := AllButOne(g, q); MinPathAt(inputs, Run(inputs, front), p) == 10.0
  {
    var inputs := AllButOne(g, q);
    forall d | d in Deps(g, p)
      ensures Known(inputs, Run(inputs, front).minPath, d) == 10.0
    {
      OnlyFullScores(g, p, q, front, d);
    }
    assert inputs.Scored() == g;
    LeastOfFull(inputs, Run(inputs, front), p);
  }

  lemma LeastOfFull(inputs: Inputs, s: Scores, p: Purl)
    requires DirectOf(inputs, p) == 10.0 &&
      forall d :: d in Deps(inputs.Scored(), p) ==> Known(inputs, s.minPath, d) == 10.0
    ensures MinPathAt(inputs, s, p) == 10.0
  {
    TenStaysTen(KnownAll(inputs, s.minPath, Deps(inputs.Scored(), p)));
  }

  lemma UnheardReachesCycle(g: Graph<Purl>, p: Purl, q: Purl)
    requires Reaches(g, p, q) && !HeardOf(g, p, q)
    ensures ReachesCycle(g, p) && Deps(g, p) != []
  {
    ReachesSplit(g, p, q);
    var d :| d in Deps(g, p) && Reaches(g, d, q);
    ReachesChild(g, p, d);
    ReachesCycleVia(g, p, d);
  }

  /** A package that p reaches and does not hear of can be the weakest without p noticing. */
  lemma UnheardIsMissed(g: Graph<Purl>, p: Purl, q: Purl) returns (inputs: Inputs, order: seq<Purl>)
    requires p in g.nodes && q in g.nodes && Reaches(g, p, q) && !HeardOf(g, p, q)
    ensures inputs.Scored() == g && inputs.InRange() && LeavesFirst(g, order)
    ensures IsWeakest(inputs, p, 0.0) && p in Run(inputs, order).minPath && Run(inputs, order).minPath[p] == 10.0
  {
    UnheardReachesCycle(g, p, q);
    var front, rest := OrderWithFirst(g, p);
    inputs, order := AllButOne(g, q), front + [p] + rest;
    assert inputs.Scored() == g && order[|front|] == p && order[..|front|] == front;
    RecordedInTurn(inputs, order, |front|);
    FirstMisses(g, p, q, front);
  }

  /** The weakest-link score of p is exact for all scores and all leaves-first orders if and only if p
      hears of every package it reaches. */
  lemma WeakestLinkExactly(g: Graph<Purl>, p: Purl)
    requires p in g.nodes
    ensures AlwaysExact(g, p) <==> HearsAll(g, p)
  {
    if HearsAll(g, p) {
      forall inputs: Inputs, order: seq<Purl>, m: real |
        inputs.Scored() == g && inputs.InRange() && LeavesFirst(g, order) && IsWeakest(inputs, p, m)
        ensures LinkIs(inputs, Run(inputs, order), p, m)
      {
        HeardIsExact(inputs, order, p, m);
      }
    } else {
      var q :| q in g.nodes && Reaches(g, p, q) && !HeardOf(g, p, q);
      var inputs, order := UnheardIsMissed(g, p, q);
      TenStaysTen([]);
      UnheardReachesCycle(g, p, q);
      assert !LinkIs(inputs, Run(inputs, order), p, 0.0);
    }
  }
}
