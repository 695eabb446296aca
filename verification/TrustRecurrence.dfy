/** The scores of packages that reach no cycle: one recurrence, whatever the processing order. */
module TrustRecurrence {
  import opened Graphs
  import opened Rounding
  import opened TopologicalSort
  import opened TrustRun

  /** p is a scored package whose dependencies form a finite tree of choices. */
  ghost predicate Grounded(inputs: Inputs, p: Purl) {
    p in inputs.direct && !ReachesCycle(inputs.Scored(), p)
  }

  lemma GroundedDeps(inputs: Inputs, p: Purl)
    requires Grounded(inputs, p)
    ensures forall d :: d in Deps(inputs.Scored(), p) ==>
              Grounded(inputs, d) && ReachSet(inputs.Scored(), d) < ReachSet(inputs.Scored(), p)
  {
    AcyclicChildren(inputs.Scored(), p);
  }

  // ---------- the processing order does not matter ----------

  /** The scores recorded for p are what processing p yields from the final scores of its
      dependencies. */
  ghost predicate Settled(inputs: Inputs, s: Scores, p: Purl) {
    && p in s.effective && s.effective[p] == EffectiveAt(inputs, s, p)
    && p in s.inherited && s.inherited[p] == InheritedAt(inputs, s, p)
    && p in s.minPath && s.minPath[p] == MinPathAt(inputs, s, p)
    && p in s.depCounts && s.depCounts[p] == DepCountAt(inputs, s, p)
  }

  /** s and t record the same about p. */
  ghost predicate SameAt(s: Scores, t: Scores, p: Purl) {
    && p in s.effective && p in t.effective && s.effective[p] == t.effective[p]
    && p in s.inherited && p in t.inherited && s.inherited[p] == t.inherited[p]
    && p in s.minPath && p in t.minPath && s.minPath[p] == t.minPath[p]
    && p in s.depCounts && p in t.depCounts && s.depCounts[p] == t.depCounts[p]
  }

  lemma {:induction false} RunKeeps(inputs: Inputs, order: seq<Purl>, k: nat, p: Purl)
    requires k <= |order| && p in order[..k] && p !in order[k..]
    ensures SameAt(Run(inputs, order[..k]), Run(inputs, order), p)
    decreases |order|
  {
    if k == |order| {
      assert order[..k] == order;
      RunKeys(inputs, order);
    } else {
      var front := order[..|order| - 1];
      assert front[..k] == order[..k] && order[k..] == front[k..] + [order[|order| - 1]];
      RunKeeps(inputs, front, k, p);
    }
  }

  lemma {:induction false} CountAllSame(s: map<Purl, int>, t: map<Purl, int>, ds: seq<Purl>)
    requires forall d :: d in ds ==> CountOf(s, d) == CountOf(t, d)
    ensures CountAll(s, ds) == CountAll(t, ds)
  {
    if ds != [] {
      CountAllSame(s, t, ds[..|ds| - 1]);
    }
  }

  lemma VisitDependsOnDeps(inputs: Inputs, s: Scores, t: Scores, p: Purl)
    requires forall d :: d in Deps(inputs.Scored(), p) ==> SameAt(s, t, d)
    ensures EffectiveAt(inputs, s, p) == EffectiveAt(inputs, t, p)
    ensures InheritedAt(inputs, s, p) == InheritedAt(inputs, t, p)
    ensures MinPathAt(inputs, s, p) == MinPathAt(inputs, t, p)
    ensures DepCountAt(inputs, s, p) == DepCountAt(inputs, t, p)
  {
    var ds := Deps(inputs.Scored(), p);
    assert forall i :: 0 <= i < |ds| ==> SameAt(s, t, ds[i]);
    assert KnownAll(inputs, s.effective, ds) == KnownAll(inputs, t.effective, ds);
    assert KnownAll(inputs, s.minPath, ds) == KnownAll(inputs, t.minPath, ds);
    CountAllSame(s.depCounts, t.depCounts, ds);
  }

  lemma VisitSettles(inputs: Inputs, before: Scores, final: Scores, p: Purl)
    requires forall d :: d in Deps(inputs.Scored(), p) ==> SameAt(before, final, d)
    requires SameAt(Visit(inputs, before, p), final, p)
    ensures Settled(inputs, final, p)
  {
    VisitDependsOnDeps(inputs, before, final, p);
  }

  /** A leaves-first order settles every package that reaches no cycle. */
  lemma RunSettles(inputs: Inputs, order: seq<Purl>, p: Purl)
    requires LeavesFirst(inputs.Scored(), order) && Grounded(inputs, p)
    ensures Settled(inputs, Run(inputs, order), p)
  {
    var i :| 0 <= i < |order| && order[i] == p;
    assert DepsBefore(inputs.Scored(), order, i);
    forall d | d in Deps(inputs.Scored(), p)
      ensures SameAt(Run(inputs, order[..i]), Run(inputs, order), d)
    {
      RunKeeps(inputs, order, i, d);
    }
    assert order[..i + 1][..i] == order[..i];
    RunKeeps(inputs, order, i + 1, p);
    VisitSettles(inputs, Run(inputs, order[..i]), Run(inputs, order), p);
  }

  ghost predicate AllSettled(inputs: Inputs, s: Scores) {
    forall q {:trigger Settled(inputs, s, q)} :: Grounded(inputs, q) ==> Settled(inputs, s, q)
  }

  lemma RunSettlesAll(inputs: Inputs, order: seq<Purl>)
    requires LeavesFirst(inputs.Scored(), order)
    ensures AllSettled(inputs, Run(inputs, order))
  {
    forall q | Grounded(inputs, q)
      ensures Settled(inputs, Run(inputs, order), q)
    {
      RunSettles(inputs, order, q);
    }
  }

  /** All scores settled for the packages below p are determined by the inputs alone. */
  lemma {:induction false} SettledUnique(inputs: Inputs, s: Scores, t: Scores, p: Purl)
    requires Grounded(inputs, p)
    requires AllSettled(inputs, s) && AllSettled(inputs, t)
    ensures SameAt(s, t, p)
    decreases ReachSet(inputs.Scored(), p)
  {
    assert Settled(inputs, s, p) && Settled(inputs, t, p);
    GroundedDeps(inputs, p);
    forall d | d in Deps(inputs.Scored(), p)
      ensures SameAt(s, t, d)
    {
      SettledUnique(inputs, s, t, d);
    }
    VisitDependsOnDeps(inputs, s, t, p);
  }

  /** Two leaves-first orders give every package that reaches no cycle the same four values. */
  lemma OrderIrrelevant(inputs: Inputs, order: seq<Purl>, order': seq<Purl>, p: Purl)
    requires LeavesFirst(inputs.Scored(), order) && LeavesFirst(inputs.Scored(), order') && Grounded(inputs, p)
    ensures SameAt(Run(inputs, order), Run(inputs, order'), p)
  {
    RunSettlesAll(inputs, order);
    RunSettlesAll(inputs, order');
    SettledUnique(inputs, Run(inputs, order), Run(inputs, order'), p);
  }

  // ---------- the recurrence ----------

  function Stored(rounded: bool, x: real): real {
    if rounded then Round2(x) else x
  }

  /** The effective score as a recurrence over the dependencies: a leaf has its own score; any other
      package blends its own score with the mean of its dependencies' effective scores. */
  ghost function Effective(inputs: Inputs, p: Purl, rounded: bool): real
    requires Grounded(inputs, p)
    decreases ReachSet(inputs.Scored(), p), 1
  {
    if Deps(inputs.Scored(), p) == [] then inputs.direct[p]
    else
      var inherited := Inherit(inputs.decay, EffectiveBelow(inputs, p, rounded));
      Stored(rounded, Blend(inputs.alpha, inputs.direct[p], inherited))
  }

  /** The effective scores of p's dependencies, one for each listing. */
  ghost function EffectiveBelow(inputs: Inputs, p: Purl, rounded: bool): (xs: seq<real>)
    requires Grounded(inputs, p)
    ensures |xs| == |Deps(inputs.Scored(), p)|
    decreases ReachSet(inputs.Scored(), p), 0
  {
    GroundedDeps(inputs, p);
    var ds := Deps(inputs.Scored(), p);
    seq(|ds|, i requires 0 <= i < |ds| => assert ds[i] in ds; Effective(inputs, ds[i], rounded))
  }

  /** Settled scores are the rounded recurrence. */
  lemma {:induction false} SettledIsRecurrence(inputs: Inputs, s: Scores, p: Purl)
    requires Grounded(inputs, p)
    requires AllSettled(inputs, s)
    ensures p in s.effective && s.effective[p] == Effective(inputs, p, true)
    ensures p in s.inherited && s.inherited[p] == if Deps(inputs.Scored(), p) == [] then 0.0
                              else Round2(Inherit(inputs.decay, EffectiveBelow(inputs, p, true)))
    decreases ReachSet(inputs.Scored(), p)
  {
    assert Settled(inputs, s, p);
    GroundedDeps(inputs, p);
    var ds := Deps(inputs.Scored(), p);
    forall i | 0 <= i < |ds|
      ensures Known(inputs, s.effective, ds[i]) == EffectiveBelow(inputs, p, true)[i]
    {
      assert ds[i] in ds;
      SettledIsRecurrence(inputs, s, ds[i]);
    }
    assert KnownAll(inputs, s.effective, ds) == EffectiveBelow(inputs, p, true);
  }

  /** The propagation refines the recurrence. */
  lemma RunIsRecurrence(inputs: Inputs, order: seq<Purl>, p: Purl)
    requires LeavesFirst(inputs.Scored(), order) && Grounded(inputs, p)
    ensures var s := Run(inputs, order);
            && p in s.effective && s.effective[p] == Effective(inputs, p, true)
            && p in s.inherited
            && s.inherited[p] == (if Deps(inputs.Scored(), p) == [] then 0.0
                                  else Round2(Inherit(inputs.decay, EffectiveBelow(inputs, p, true))))
  {
    RunSettlesAll(inputs, order);
    SettledIsRecurrence(inputs, Run(inputs, order), p);
  }

  /** Any two positive decays give the same scores: every dependency carries the same weight. */
  lemma {:induction false} DecayIrrelevant(a: Inputs, b: Inputs, p: Purl, rounded: bool)
    requires a.decay > 0.0 && b == a.(decay := b.decay) && b.decay > 0.0
    requires Grounded(a, p)
    ensures Grounded(b, p) && Effective(a, p, rounded) == Effective(b, p, rounded)
    decreases ReachSet(a.Scored(), p)
  {
    assert a.Scored() == b.Scored();
    GroundedDeps(a, p);
    var ds := Deps(a.Scored(), p);
    forall i | 0 <= i < |ds|
      ensures EffectiveBelow(a, p, rounded)[i] == EffectiveBelow(b, p, rounded)[i]
    {
      assert ds[i] in ds;
      DecayIrrelevant(a, b, ds[i], rounded);
    }
    assert EffectiveBelow(a, p, rounded) == EffectiveBelow(b, p, rounded);
  }

  // ---------- rounding does not accumulate ----------

  /** |x - y| <= e */
  predicate Within(x: real, y: real, e: real) {
    -e <= x - y <= e
  }

  ghost predicate AllWithin(xs: seq<real>, ys: seq<real>, e: real) {
    |xs| == |ys| && forall i :: 0 <= i < |xs| ==> Within(xs[i], ys[i], e)
  }

  lemma InheritClose(decay: real, xs: seq<real>, ys: seq<real>, e: real)
    requires xs != [] && ys != [] && e >= 0.0 && AllWithin(xs, ys, e)
    ensures Within(Inherit(decay, xs), Inherit(decay, ys), e)
  {
    assert forall i :: 0 <= i < |xs| ==> Within(xs[i], ys[i], e) && xs[i] <= ys[i] + e && ys[i] <= xs[i] + e;
    MeanShift(xs, ys, e);
    MeanShift(ys, xs, e);
  }

  lemma BlendClose(alpha: real, own: real, own': real, inh: real, inh': real, d: real, e: real)
    requires 0.0 <= alpha <= 1.0 && Within(own, own', d) && Within(inh, inh', e)
    ensures Within(Blend(alpha, own, inh), Blend(alpha, own', inh'), alpha * d + (1.0 - alpha) * e)
  {
    BlendShift(alpha, own, own', inh, inh', d, e);
    BlendShift(alpha, own', own, inh', inh, d, e);
  }

  lemma ErrorBudget(alpha: real)
    requires 0.0 < alpha <= 1.0
    ensures 0.005 + (1.0 - alpha) * (0.005 / alpha) == 0.005 / alpha
  {
    assert alpha * (0.005 / alpha) == 0.005;
  }

  lemma WithinTriangle(x: real, y: real, z: real, d: real, e: real)
    requires Within(x, y, d) && Within(y, z, e)
    ensures Within(x, z, d + e)
  {
  }

  lemma RoundedBlendClose(alpha: real, own: real, inh: real, inh': real)
    requires 0.0 < alpha <= 1.0 && Within(inh, inh', 0.005 / alpha)
    ensures Within(Round2(Blend(alpha, own, inh)), Blend(alpha, own, inh'), 0.005 / alpha)
  {
    var x, y := Blend(alpha, own, inh), Blend(alpha, own, inh');
    var e := (1.0 - alpha) * (0.005 / alpha);
    assert Within(x, y, e) by {
      BlendClose(alpha, own, own, inh, inh', 0.0, 0.005 / alpha);
    }
    assert Within(Round2(x), x, 0.005) by {
      Round2Error(x);
    }
    WithinTriangle(Round2(x), x, y, 0.005, e);
    ErrorBudget(alpha);
  }

  /** However deep the graph, a stored effective score is within 0.005/alpha of the exact one. */
  lemma {:induction false} RoundingDoesNotAccumulate(inputs: Inputs, p: Purl)
    requires Grounded(inputs, p) && 0.0 < inputs.alpha <= 1.0
    ensures Within(Effective(inputs, p, true), Effective(inputs, p, false), 0.005 / inputs.alpha)
    decreases ReachSet(inputs.Scored(), p)
  {
    GroundedDeps(inputs, p);
    var ds := Deps(inputs.Scored(), p);
    if ds != [] {
      var xs, ys := EffectiveBelow(inputs, p, true), EffectiveBelow(inputs, p, false);
      forall i | 0 <= i < |ds|
        ensures Within(xs[i], ys[i], 0.005 / inputs.alpha)
      {
        assert ds[i] in ds;
        RoundingDoesNotAccumulate(inputs, ds[i]);
      }
      InheritClose(inputs.decay, xs, ys, 0.005 / inputs.alpha);
      RoundedBlendClose(inputs.alpha, inputs.direct[p], Inherit(inputs.decay, xs), Inherit(inputs.decay, ys));
    }
  }

  // ---------- influence ----------

  function Power(x: real, n: nat): real {
    if n == 0 then 1.0 else x * Power(x, n - 1)
  }

  /** b is a except for the direct score of q. */
  ghost predicate DiffersAt(a: Inputs, b: Inputs, q: Purl) {
    && q in a.direct && a.direct.Keys == b.direct.Keys
    && b == a.(direct := b.direct)
    && forall p :: p in a.direct && p != q ==> a.direct[p] == b.direct[p]
  }

  /** No path from p to q has fewer than n edges. */
  ghost predicate AtLeastApart(g: Graph<Purl>, p: Purl, q: Purl, n: nat) {
    forall k: nat :: k < n ==> !Steps(g, p, q, k)
  }

  lemma ApartBelow(g: Graph<Purl>, p: Purl, d: Purl, q: Purl, n: nat)
    requires AtLeastApart(g, p, q, n) && n > 0 && d in Deps(g, p)
    ensures AtLeastApart(g, d, q, n - 1)
  {
    forall k: nat | k < n - 1
      ensures !Steps(g, d, q, k)
    {
      if Steps(g, d, q, k) {
        StepFirst(g, p, d, q, k + 1);
      }
    }
  }

  /** A package no path leads to has no influence at all, rounded or not. */
  lemma {:induction false} UnreachableHasNoInfluence(a: Inputs, b: Inputs, p: Purl, q: Purl, rounded: bool)
    requires DiffersAt(a, b, q) && Grounded(a, p) && !Reaches(a.Scored(), p, q)
    ensures Grounded(b, p) && Effective(a, p, rounded) == Effective(b, p, rounded)
    decreases ReachSet(a.Scored(), p)
  {
    assert a.Scored() == b.Scored();
    ReachesSelf(a.Scored(), p);
    GroundedDeps(a, p);
    var ds := Deps(a.Scored(), p);
    forall i | 0 <= i < |ds|
      ensures EffectiveBelow(a, p, rounded)[i] == EffectiveBelow(b, p, rounded)[i]
    {
      assert ds[i] in ds;
      ReachesSplit(a.Scored(), p, q);
      UnreachableHasNoInfluence(a, b, ds[i], q, rounded);
    }
    assert EffectiveBelow(a, p, rounded) == EffectiveBelow(b, p, rounded);
  }

  lemma PowerStep(x: real, n: nat, delta: real)
    requires n > 0
    ensures x * (Power(x, n - 1) * delta) == Power(x, n) * delta
  {
  }

  lemma {:induction false} PowerNonNegative(x: real, n: nat)
    requires x >= 0.0
    ensures Power(x, n) >= 0.0
  {
    if n > 0 {
      PowerNonNegative(x, n - 1);
    }
  }

  /** Changing q's own score leaves everything below q alone. */
  lemma BelowSelfUnaffected(a: Inputs, b: Inputs, q: Purl)
    requires DiffersAt(a, b, q) && Grounded(a, q)
    ensures Grounded(b, q) && Deps(a.Scored(), q) == Deps(b.Scored(), q)
    ensures EffectiveBelow(a, q, false) == EffectiveBelow(b, q, false)
  {
    assert a.Scored() == b.Scored();
    GroundedDeps(a, q);
    var ds := Deps(a.Scored(), q);
    forall i | 0 <= i < |ds|
      ensures EffectiveBelow(a, q, false)[i] == EffectiveBelow(b, q, false)[i]
    {
      assert ds[i] in ds;
      AcyclicChild(a.Scored(), q, ds[i]);
      UnreachableHasNoInfluence(a, b, ds[i], q, false);
    }
  }

  lemma OwnShift(alpha: real, own: real, own': real, inh: real, delta: real)
    requires 0.0 <= alpha <= 1.0 && Within(own, own', delta)
    ensures Within(Blend(alpha, own, inh), Blend(alpha, own', inh), delta)
  {
    BlendClose(alpha, own, own', inh, inh, delta, 0.0);
    assert alpha * delta <= delta;
  }

  /** At q itself the change counts with weight alpha, or in full for a leaf. */
  lemma InfluenceOnSelf(a: Inputs, b: Inputs, q: Purl, delta: real)
    requires DiffersAt(a, b, q) && Grounded(a, q) && 0.0 <= a.alpha <= 1.0
    requires Within(a.direct[q], b.direct[q], delta)
    ensures Grounded(b, q)
    ensures Within(Effective(a, q, false), Effective(b, q, false), delta)
  {
    BelowSelfUnaffected(a, b, q);
    if Deps(a.Scored(), q) != [] {
      OwnShift(a.alpha, a.direct[q], b.direct[q], Inherit(a.decay, EffectiveBelow(a, q, false)), delta);
    }
  }

  /** Above q the change passes through the inherited part only. */
  lemma InfluenceStep(alpha: real, own: real, inh: real, inh': real, n: nat, delta: real)
    requires 0.0 <= alpha <= 1.0 && delta >= 0.0
    requires Within(inh, inh', Power(1.0 - alpha, if n == 0 then 0 else n - 1) * delta)
    ensures Within(Blend(alpha, own, inh), Blend(alpha, own, inh'), Power(1.0 - alpha, n) * delta)
  {
    var e := Power(1.0 - alpha, if n == 0 then 0 else n - 1) * delta;
    BlendClose(alpha, own, own, inh, inh', 0.0, e);
    if n > 0 {
      PowerStep(1.0 - alpha, n, delta);
    } else {
      assert (1.0 - alpha) * delta <= delta;
    }
  }

  /** Influence attenuates with distance: changing the direct score of q by at most delta moves the
      exact effective score of a package n or more edges above it by at most (1 - alpha)^n * delta. */
  lemma {:induction false} InfluenceAttenuates(a: Inputs, b: Inputs, p: Purl, q: Purl, n: nat, delta: real)
    requires DiffersAt(a, b, q) && Grounded(a, p) && 0.0 <= a.alpha <= 1.0
    requires Within(a.direct[q], b.direct[q], delta)
    requires AtLeastApart(a.Scored(), p, q, n)
    ensures Grounded(b, p)
    ensures Within(Effective(a, p, false), Effective(b, p, false), Power(1.0 - a.alpha, n) * delta)
    decreases ReachSet(a.Scored(), p), 1
  {
    assert a.Scored() == b.Scored();
    if p == q {
      assert Steps(a.Scored(), p, q, 0);
      InfluenceOnSelf(a, b, p, delta);
    } else if Deps(a.Scored(), p) != [] {
      var e := Power(1.0 - a.alpha, if n == 0 then 0 else n - 1) * delta;
      PowerNonNegative(1.0 - a.alpha, if n == 0 then 0 else n - 1);
      assert e >= 0.0;
      InfluenceBelow(a, b, p, q, n, delta, e);
      InfluenceCombine(a, b, p, EffectiveBelow(a, p, false), EffectiveBelow(b, p, false), n, delta, e);
    } else {
      PowerNonNegative(1.0 - a.alpha, n);
    }
  }

  lemma InfluenceCombine(a: Inputs, b: Inputs, p: Purl, xs: seq<real>, ys: seq<real>, n: nat, delta: real, e: real)
    requires b == a.(direct := b.direct) && p in a.direct && p in b.direct && a.direct[p] == b.direct[p]
    requires 0.0 <= a.alpha <= 1.0 && delta >= 0.0 && e >= 0.0
    requires e == Power(1.0 - a.alpha, if n == 0 then 0 else n - 1) * delta
    requires xs != [] && ys != [] && AllWithin(xs, ys, e)
    ensures Within(Blend(a.alpha, a.direct[p], Inherit(a.decay, xs)), Blend(b.alpha, b.direct[p], Inherit(b.decay, ys)),
                   Power(1.0 - a.alpha, n) * delta)
  {
    InheritClose(a.decay, xs, ys, e);
    InfluenceStep(a.alpha, a.direct[p], Inherit(a.decay, xs), Inherit(b.decay, ys), n, delta);
  }

  lemma {:induction false} InfluenceBelow(a: Inputs, b: Inputs, p: Purl, q: Purl, n: nat, delta: real, e: real)
    requires DiffersAt(a, b, q) && Grounded(a, p) && 0.0 <= a.alpha <= 1.0
    requires Within(a.direct[q], b.direct[q], delta)
    requires AtLeastApart(a.Scored(), p, q, n)
    requires e == Power(1.0 - a.alpha, if n == 0 then 0 else n - 1) * delta
    ensures Grounded(b, p) && Deps(a.Scored(), p) == Deps(b.Scored(), p)
    ensures AllWithin(EffectiveBelow(a, p, false), EffectiveBelow(b, p, false), e)
    decreases ReachSet(a.Scored(), p), 0
  {
    assert a.Scored() == b.Scored();
    GroundedDeps(a, p);
    var ds := Deps(a.Scored(), p);
    var xs, ys := EffectiveBelow(a, p, false), EffectiveBelow(b, p, false);
    forall i | 0 <= i < |ds|
      ensures Within(xs[i], ys[i], e)
    {
      assert ds[i] in ds;
      if n > 0 {
        ApartBelow(a.Scored(), p, ds[i], q, n);
      }
      InfluenceAttenuates(a, b, ds[i], q, if n == 0 then 0 else n - 1, delta);
    }
  }

  // ---------- the weakest link, exactly ----------

  /** m is the least direct score among the packages reachable from p. */
  ghost predicate IsWeakest(inputs: Inputs, p: Purl, m: real) {
    && (exists q :: q in inputs.direct && Reaches(inputs.Scored(), p, q) && inputs.direct[q] == m)
    && (forall q :: q in inputs.direct && Reaches(inputs.Scored(), p, q) ==> m <= inputs.direct[q])
  }

  /** Where no cycle is reachable the weakest-link score is the least direct score of all packages
      reachable from p, rounded once p has any dependency. */
  lemma {:induction false} SettledWeakestLink(inputs: Inputs, s: Scores, p: Purl, m: real)
    requires Grounded(inputs, p) && IsWeakest(inputs, p, m)
    requires AllSettled(inputs, s)
    requires LinksSound(inputs, s.minPath)
    ensures p in s.minPath && s.minPath[p] == if Deps(inputs.Scored(), p) == [] then m else Round2(m)
    decreases ReachSet(inputs.Scored(), p)
  {
    var q :| q in inputs.direct && Reaches(inputs.Scored(), p, q) && inputs.direct[q] == m;
    var ds := Deps(inputs.Scored(), p);
    ReachesSplit(inputs.Scored(), p, q);
    assert Settled(inputs, s, p);
    if ds != [] {
      var ms := KnownAll(inputs, s.minPath, ds);
      var low := Least(inputs.direct[p], ms);
      Round2Idempotent(low);
      WeakestIsLower(inputs, p, m, s.minPath[p]);
      if p != q {
        GroundedDeps(inputs, p);
        var d :| d in ds && Reaches(inputs.Scored(), d, q);
        var i :| 0 <= i < |ds| && ds[i] == d;
        WeakestBelow(inputs, p, d, q, m);
        SettledWeakestLink(inputs, s, d, m);
        LeastRoundsDown(low, ms[i], m);
      } else {
        LeastRoundsDown(low, m, m);
      }
    }
  }

  lemma LeastRoundsDown(low: real, x: real, m: real)
    requires low <= x && (x == m || x == Round2(m))
    ensures Round2(low) <= Round2(m)
  {
    Round2Monotone(low, x);
    Round2Idempotent(m);
  }

  lemma WeakestBelow(inputs: Inputs, p: Purl, d: Purl, q: Purl, m: real)
    requires IsWeakest(inputs, p, m) && d in Deps(inputs.Scored(), p)
    requires q in inputs.direct && Reaches(inputs.Scored(), d, q) && inputs.direct[q] == m
    ensures IsWeakest(inputs, d, m)
  {
    var g := inputs.Scored();
    ReachesChild(g, p, d);
    forall r | r in inputs.direct && Reaches(g, d, r)
      ensures m <= inputs.direct[r]
    {
      ReachesCompose(g, p, d, r);
    }
  }

  /** A sound stored link, once rounded, is no lower than the rounded weakest one. */
  lemma WeakestIsLower(inputs: Inputs, p: Purl, m: real, x: real)
    requires IsWeakest(inputs, p, m) && IsScoreBelow(inputs, p, x) && Round2(x) == x
    ensures Round2(m) <= x
  {
    var q :| q in inputs.direct && Reaches(inputs.Scored(), p, q) &&
      (x == inputs.direct[q] || x == Round2(inputs.direct[q]));
    Round2Monotone(m, inputs.direct[q]);
  }

  // ---------- stored scores ----------

  lemma WithinChain(x: real, x': real, y: real, y': real, e: real, d: real)
    requires Within(x, x', e) && Within(x', y', d) && Within(y, y', e)
    ensures Within(x, y, d + (e + e))
  {
  }

  /** The two bounds together, for stored scores: the change of one direct score by at most delta
      shows up n edges above by at most its attenuated part plus two rounding budgets. */
  lemma StoredInfluence(a: Inputs, b: Inputs, p: Purl, q: Purl, n: nat, delta: real)
    requires DiffersAt(a, b, q) && Grounded(a, p) && 0.0 < a.alpha <= 1.0
    requires Within(a.direct[q], b.direct[q], delta)
    requires AtLeastApart(a.Scored(), p, q, n)
    ensures Grounded(b, p)
    ensures Within(Effective(a, p, true), Effective(b, p, true),
                   Power(1.0 - a.alpha, n) * delta + (0.005 / a.alpha + 0.005 / a.alpha))
  {
    InfluenceAttenuates(a, b, p, q, n, delta);
    RoundingDoesNotAccumulate(a, p);
    RoundingDoesNotAccumulate(b, p);
    WithinChain(Effective(a, p, true), Effective(a, p, false), Effective(b, p, true), Effective(b, p, false),
                0.005 / a.alpha, Power(1.0 - a.alpha, n) * delta);
  }
}
