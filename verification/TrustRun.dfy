/** One pass of the trust-score propagation along a given processing order, and what holds of it
    for every order and every graph, cyclic or not. */
module TrustRun {
  import opened Graphs
  import opened Rounding

  type Purl = string

  /** What the propagation reads: direct scores, dependency lists and the two weights. */
  datatype Inputs = Inputs(direct: map<Purl, real>, children: map<Purl, seq<Purl>>, alpha: real, decay: real) {
    /** The dependency graph between packages that have a direct score. */
    function Scored(): Graph<Purl> {
      Graph(direct.Keys, children)
    }

    /** The documented ranges: scores out of ten, alpha a proportion, a positive decay. */
    ghost predicate InRange() {
      && (forall p :: p in direct ==> 0.0 <= direct[p] <= 10.0)
      && 0.0 <= alpha <= 1.0
      && decay > 0.0
    }
  }

  /** The four dictionaries the propagation fills. */
  datatype Scores = Scores(effective: map<Purl, real>, inherited: map<Purl, real>, minPath: map<Purl, real>,
                           depCounts: map<Purl, int>)

  const NO_SCORES := Scores(map[], map[], map[], map[])

  /** direct_scores.get(p, 5.0) */
  function DirectOf(inputs: Inputs, p: Purl): real {
    if p in inputs.direct then inputs.direct[p] else 5.0
  }

  /** m.get(p, direct_scores.get(p, 5.0)) */
  function Known(inputs: Inputs, m: map<Purl, real>, p: Purl): real {
    if p in m then m[p] else DirectOf(inputs, p)
  }

  function KnownAll(inputs: Inputs, m: map<Purl, real>, ps: seq<Purl>): seq<real> {
    seq(|ps|, i requires 0 <= i < |ps| => Known(inputs, m, ps[i]))
  }

  /** dep_counts.get(p, 0) */
  function CountOf(counts: map<Purl, int>, p: Purl): int {
    if p in counts then counts[p] else 0
  }

  /** One for each listed dependency plus everything counted below it. */
  function CountAll(counts: map<Purl, int>, ps: seq<Purl>): int {
    if ps == [] then 0 else CountAll(counts, ps[..|ps| - 1]) + (1 + CountOf(counts, ps[|ps| - 1]))
  }

  /** Equal weights cancel: what a package inherits is the plain mean. */
  function Inherit(decay: real, xs: seq<real>): real
    requires xs != []
  {
    if decay > 0.0 then Mean(xs) else 0.0
  }

  /** What p gets, given the scores known so far. */
  function EffectiveAt(inputs: Inputs, s: Scores, p: Purl): real {
    var ds := Deps(inputs.Scored(), p);
    if ds == [] then DirectOf(inputs, p)
    else Round2(Blend(inputs.alpha, DirectOf(inputs, p), Inherit(inputs.decay, KnownAll(inputs, s.effective, ds))))
  }

  function InheritedAt(inputs: Inputs, s: Scores, p: Purl): real {
    var ds := Deps(inputs.Scored(), p);
    if ds == [] then 0.0 else Round2(Inherit(inputs.decay, KnownAll(inputs, s.effective, ds)))
  }

  function MinPathAt(inputs: Inputs, s: Scores, p: Purl): real {
    var ds := Deps(inputs.Scored(), p);
    if ds == [] then DirectOf(inputs, p) else Round2(Least(DirectOf(inputs, p), KnownAll(inputs, s.minPath, ds)))
  }

  function DepCountAt(inputs: Inputs, s: Scores, p: Purl): int {
    CountAll(s.depCounts, Deps(inputs.Scored(), p))
  }

  /** The scores after processing p. */
  function Visit(inputs: Inputs, s: Scores, p: Purl): Scores {
    Scores(s.effective[p := EffectiveAt(inputs, s, p)],
           s.inherited[p := InheritedAt(inputs, s, p)],
           s.minPath[p := MinPathAt(inputs, s, p)],
           s.depCounts[p := DepCountAt(inputs, s, p)])
  }

  /** The scores after processing a whole order. */
  function Run(inputs: Inputs, order: seq<Purl>): Scores {
    if order == [] then NO_SCORES else Visit(inputs, Run(inputs, order[..|order| - 1]), order[|order| - 1])
  }

  lemma {:induction false} RunKeys(inputs: Inputs, order: seq<Purl>)
    ensures var s := Run(inputs, order);
            forall p :: (p in s.effective <==> p in order) && (p in s.inherited <==> p in order) &&
                        (p in s.minPath <==> p in order) && (p in s.depCounts <==> p in order)
  {
    if order != [] {
      RunKeys(inputs, order[..|order| - 1]);
      assert order == order[..|order| - 1] + [order[|order| - 1]];
    }
  }

  // ---------- range ----------

  /** Every stored score stays on the 0..10 scale, and no package looks safer along its weakest
      path than it does overall. */
  ghost predicate Sane(inputs: Inputs, s: Scores) {
    && s.minPath.Keys == s.effective.Keys == s.inherited.Keys
    && (forall p :: p in s.effective ==> 0.0 <= s.effective[p] <= 10.0)
    && (forall p :: p in s.inherited ==> 0.0 <= s.inherited[p] <= 10.0)
    && (forall p :: p in s.minPath ==> 0.0 <= s.minPath[p] <= s.effective[p])
  }

  lemma VisitSane(inputs: Inputs, s: Scores, p: Purl)
    requires inputs.InRange() && Sane(inputs, s)
    ensures 0.0 <= MinPathAt(inputs, s, p) <= EffectiveAt(inputs, s, p) <= 10.0
    ensures 0.0 <= InheritedAt(inputs, s, p) <= 10.0
  {
    var ds := Deps(inputs.Scored(), p);
    if ds != [] {
      SaneFigures(inputs, DirectOf(inputs, p), KnownAll(inputs, s.effective, ds), KnownAll(inputs, s.minPath, ds));
    }
  }

  lemma SaneFigures(inputs: Inputs, own: real, es: seq<real>, ms: seq<real>)
    requires inputs.InRange() && 0.0 <= own <= 10.0 && |es| == |ms| > 0
    requires forall i :: 0 <= i < |es| ==> 0.0 <= ms[i] <= es[i] <= 10.0
    ensures var inh := Inherit(inputs.decay, es);
            && 0.0 <= Round2(inh) <= 10.0
            && 0.0 <= Round2(Least(own, ms)) <= Round2(Blend(inputs.alpha, own, inh)) <= 10.0
  {
    var inh, low := Inherit(inputs.decay, es), Least(own, ms);
    assert low == own || exists i :: 0 <= i < |ms| && low == ms[i];
    assert forall i :: 0 <= i < |es| ==> low <= ms[i] <= es[i];
    MeanWithin(es, low, 10.0);
    BlendWithin(inputs.alpha, own, inh, low, 10.0);
    Round2Within(inh, 0, 10);
    Round2Within(low, 0, 10);
    Round2Within(Blend(inputs.alpha, own, inh), 0, 10);
    Round2Monotone(low, Blend(inputs.alpha, own, inh));
  }

  lemma {:induction false} RunSane(inputs: Inputs, order: seq<Purl>)
    requires inputs.InRange()
    ensures Sane(inputs, Run(inputs, order))
  {
    if order != [] {
      RunSane(inputs, order[..|order| - 1]);
      VisitSane(inputs, Run(inputs, order[..|order| - 1]), order[|order| - 1]);
    }
  }

  // ---------- monotonicity ----------

  /** The same packages, none of them with a lower value. */
  ghost predicate AtLeast(low: map<Purl, real>, high: map<Purl, real>) {
    low.Keys == high.Keys && forall p :: p in low ==> low[p] <= high[p]
  }

  /** The same network of packages, with no direct score lower in b than in a. */
  ghost predicate Raised(a: Inputs, b: Inputs) {
    && a.children == b.children && a.alpha == b.alpha && a.decay == b.decay && 0.0 <= a.alpha <= 1.0
    && AtLeast(a.direct, b.direct)
  }

  ghost predicate NoneLower(s: Scores, t: Scores) {
    AtLeast(s.effective, t.effective) && AtLeast(s.inherited, t.inherited) && AtLeast(s.minPath, t.minPath)
  }

  lemma KnownMonotone(a: Inputs, b: Inputs, s: map<Purl, real>, t: map<Purl, real>, ds: seq<Purl>)
    requires Raised(a, b) && AtLeast(s, t)
    ensures forall i :: 0 <= i < |ds| ==> KnownAll(a, s, ds)[i] <= KnownAll(b, t, ds)[i]
  {
  }

  lemma InheritMonotone(decay: real, xs: seq<real>, ys: seq<real>)
    requires |xs| == |ys| > 0 && forall i :: 0 <= i < |xs| ==> xs[i] <= ys[i]
    ensures Inherit(decay, xs) <= Inherit(decay, ys)
  {
    MeanShift(xs, ys, 0.0);
  }

  lemma LeastMonotone(a: real, b: real, xs: seq<real>, ys: seq<real>)
    requires a <= b && |xs| == |ys| && forall i :: 0 <= i < |xs| ==> xs[i] <= ys[i]
    ensures Least(a, xs) <= Least(b, ys)
  {
    var n := Least(b, ys);
    if n != b {
      var i :| 0 <= i < |ys| && n == ys[i];
      assert Least(a, xs) <= xs[i];
    }
  }

  lemma VisitMonotone(a: Inputs, b: Inputs, s: Scores, t: Scores, p: Purl)
    requires Raised(a, b) && NoneLower(s, t)
    ensures EffectiveAt(a, s, p) <= EffectiveAt(b, t, p)
    ensures InheritedAt(a, s, p) <= InheritedAt(b, t, p)
    ensures MinPathAt(a, s, p) <= MinPathAt(b, t, p)
  {
    assert a.Scored() == b.Scored();
    var ds := Deps(a.Scored(), p);
    if ds != [] {
      KnownMonotone(a, b, s.effective, t.effective, ds);
      KnownMonotone(a, b, s.minPath, t.minPath, ds);
      VisitMonotoneAt(a, b, p, KnownAll(a, s.effective, ds), KnownAll(b, t.effective, ds),
                      KnownAll(a, s.minPath, ds), KnownAll(b, t.minPath, ds));
    }
  }

  lemma VisitMonotoneAt(a: Inputs, b: Inputs, p: Purl, xs: seq<real>, ys: seq<real>, ms: seq<real>, ns: seq<real>)
    requires Raised(a, b)
    requires |xs| == |ys| > 0 && forall i :: 0 <= i < |xs| ==> xs[i] <= ys[i]
    requires |ms| == |ns| && forall i :: 0 <= i < |ms| ==> ms[i] <= ns[i]
    ensures var inh, inh' := Inherit(a.decay, xs), Inherit(b.decay, ys);
            && Round2(inh) <= Round2(inh')
            && Round2(Blend(a.alpha, DirectOf(a, p), inh)) <= Round2(Blend(b.alpha, DirectOf(b, p), inh'))
            && Round2(Least(DirectOf(a, p), ms)) <= Round2(Least(DirectOf(b, p), ns))
  {
    var inh, inh' := Inherit(a.decay, xs), Inherit(b.decay, ys);
    InheritMonotone(a.decay, xs, ys);
    Round2Monotone(inh, inh');
    BlendShift(a.alpha, DirectOf(a, p), DirectOf(b, p), inh, inh', 0.0, 0.0);
    Round2Monotone(Blend(a.alpha, DirectOf(a, p), inh), Blend(b.alpha, DirectOf(b, p), inh'));
    LeastMonotone(DirectOf(a, p), DirectOf(b, p), ms, ns);
    Round2Monotone(Least(DirectOf(a, p), ms), Least(DirectOf(b, p), ns));
  }

  /** Raising direct scores lowers no stored score, for any fixed processing order, even when the
      graph has cycles. */
  lemma {:induction false} RunMonotone(a: Inputs, b: Inputs, order: seq<Purl>)
    requires Raised(a, b)
    ensures NoneLower(Run(a, order), Run(b, order))
  {
    if order != [] {
      var front := order[..|order| - 1];
      RunMonotone(a, b, front);
      VisitMonotone(a, b, Run(a, front), Run(b, front), order[|order| - 1]);
    }
  }

  // ---------- the weakest link ----------

  /** x is the direct score, possibly rounded, of a package reachable from p. */
  ghost predicate IsScoreBelow(inputs: Inputs, p: Purl, x: real) {
    exists q :: q in inputs.direct && Reaches(inputs.Scored(), p, q) &&
                (x == inputs.direct[q] || x == Round2(inputs.direct[q]))
  }

  lemma ScoreBelowDep(inputs: Inputs, p: Purl, d: Purl, x: real)
    requires d in Deps(inputs.Scored(), p) && IsScoreBelow(inputs, d, x)
    ensures IsScoreBelow(inputs, p, x)
  {
    var q :| q in inputs.direct && Reaches(inputs.Scored(), d, q) &&
      (x == inputs.direct[q] || x == Round2(inputs.direct[q]));
    ReachesChild(inputs.Scored(), p, d);
    ReachesCompose(inputs.Scored(), p, d, q);
  }

  lemma ScoreBelowSelf(inputs: Inputs, p: Purl)
    requires p in inputs.direct
    ensures IsScoreBelow(inputs, p, inputs.direct[p])
  {
    ReachesSelf(inputs.Scored(), p);
  }

  lemma ScoreBelowRounded(inputs: Inputs, p: Purl, x: real)
    requires IsScoreBelow(inputs, p, x)
    ensures IsScoreBelow(inputs, p, Round2(x))
  {
    var q :| q in inputs.direct && Reaches(inputs.Scored(), p, q) &&
      (x == inputs.direct[q] || x == Round2(inputs.direct[q]));
    Round2Idempotent(inputs.direct[q]);
  }

  ghost predicate LinksSound(inputs: Inputs, minPath: map<Purl, real>) {
    forall p :: p in minPath ==> IsScoreBelow(inputs, p, minPath[p])
  }

  lemma VisitWeakestLink(inputs: Inputs, s: Scores, p: Purl)
    requires p in inputs.direct && LinksSound(inputs, s.minPath)
    ensures IsScoreBelow(inputs, p, Visit(inputs, s, p).minPath[p])
  {
    var ds := Deps(inputs.Scored(), p);
    ScoreBelowSelf(inputs, p);
    if ds != [] {
      var ms := KnownAll(inputs, s.minPath, ds);
      var low := Least(inputs.direct[p], ms);
      if low != inputs.direct[p] {
        var i :| 0 <= i < |ms| && low == ms[i];
        assert ds[i] in ds;
        if ds[i] !in s.minPath {
          ScoreBelowSelf(inputs, ds[i]);
        }
        ScoreBelowDep(inputs, p, ds[i], low);
      }
      ScoreBelowRounded(inputs, p, low);
    }
  }

  /** The weakest-link score is always the direct score, up to two decimals, of some package that
      can actually be reached. */
  lemma {:induction false} RunWeakestLink(inputs: Inputs, order: seq<Purl>)
    requires forall p :: p in order ==> p in inputs.direct
    ensures LinksSound(inputs, Run(inputs, order).minPath)
  {
    if order != [] {
      var front := order[..|order| - 1];
      RunWeakestLink(inputs, front);
      VisitWeakestLink(inputs, Run(inputs, front), order[|order| - 1]);
    }
  }
}
