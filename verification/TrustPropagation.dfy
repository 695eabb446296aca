/** The propagation job: reading the rows, the bottom-up loop, the records written and the alerts. */
module TrustPropagation {
  import opened Graphs
  import opened Options
  import opened Rounding
  import opened TopologicalSort
  import opened TrustRun
  import opened TrustRecurrence
  import opened DependencyPaths
  import opened DependencyCounts
  import opened WeakestLink

  // ---------- the bottom-up loop ----------

  /** The weakest-link score is exact wherever the package hears of all it reaches. */
  ghost predicate LinksExact(inputs: Inputs, s: Scores) {
    forall p, m :: p in inputs.direct && HearsAll(inputs.Scored(), p) && IsWeakest(inputs, p, m) ==>
      LinkIs(inputs, s, p, m)
  }

  /** What every propagation result satisfies: one entry in each dictionary for each scored package;
      sound, and where no cycle is reachable settled, which makes it the recurrence. */
  ghost predicate Propagated(inputs: Inputs, s: Scores) {
    && s.effective.Keys == s.inherited.Keys == s.minPath.Keys == s.depCounts.Keys == inputs.direct.Keys
    && AllSettled(inputs, s)
    && (forall p :: Grounded(inputs, p) ==> s.effective[p] == Effective(inputs, p, true))
    && LinksSound(inputs, s.minPath) && LinksExact(inputs, s) && CountsExact(inputs, s)
    && (inputs.InRange() ==> Sane(inputs, s))
  }

  lemma RunPropagates(inputs: Inputs, order: seq<Purl>)
    requires LeavesFirst(inputs.Scored(), order)
    ensures Propagated(inputs, Run(inputs, order))
  {
    var s := Run(inputs, order);
    RunKeys(inputs, order);
    assert s.effective.Keys == s.inherited.Keys == s.minPath.Keys == s.depCounts.Keys == inputs.direct.Keys;
    RunSettlesAll(inputs, order);
    RunWeakestLink(inputs, order);
    RunCountsExact(inputs, order);
    forall p | Grounded(inputs, p)
      ensures s.effective[p] == Effective(inputs, p, true)
    {
      SettledIsRecurrence(inputs, s, p);
    }
    forall p, m | p in inputs.direct && HearsAll(inputs.Scored(), p) && IsWeakest(inputs, p, m)
      ensures LinkIs(inputs, s, p, m)
    {
      HeardIsExact(inputs, order, p, m);
    }
    if inputs.InRange() {
      RunSane(inputs, order);
    }
  }

  /** s is what a pass in some leaves-first order gives. */
  ghost predicate PropagatedInOrder(inputs: Inputs, s: Scores) {
    && s.effective.Keys == s.inherited.Keys == s.minPath.Keys == s.depCounts.Keys
    && exists order :: LeavesFirst(inputs.Scored(), order) && s == Run(inputs, order)
  }

  /** The bottom-up pass over the dependency graph, in whatever leaves-first order the sort yields. */
  method Propagate(inputs: Inputs, maxDepth: int) returns (s: Scores)
    ensures PropagatedInOrder(inputs, s) && Propagated(inputs, s)
  {
    var order := ReverseTopologicalSort(inputs.direct.Keys, inputs.children);
    s := ProcessInOrder(inputs, order);
    RunPropagates(inputs, order);
  }

  method ProcessInOrder(inputs: Inputs, order: seq<Purl>) returns (s: Scores)
    ensures s == Run(inputs, order)
  {
    var effective, inherited, minPath, depCounts := map[], map[], map[], map[];
    for i := 0 to |order|
      invariant Scores(effective, inherited, minPath, depCounts) == Run(inputs, order[..i])
    {
      var purl := order[i];
      assert order[..i + 1][..i] == order[..i];
      var ds := DirectOf(inputs, purl);
      var scoredDeps := Keep(Listed(inputs.children, purl), inputs.direct.Keys);
      if scoredDeps == [] {
        effective := effective[purl := ds];
        inherited := inherited[purl := 0.0];
        minPath := minPath[purl := ds];
        depCounts := depCounts[purl := 0];
      } else {
        var inh, localMin, total := Aggregate(inputs, effective, minPath, depCounts, ds, scoredDeps);
        effective := effective[purl := Round2(Blend(inputs.alpha, ds, inh))];
        inherited := inherited[purl := Round2(inh)];
        minPath := minPath[purl := Round2(localMin)];
        depCounts := depCounts[purl := total];
      }
    }
    assert order[..|order|] == order;
    s := Scores(effective, inherited, minPath, depCounts);
  }

  /** What one dependency adds to the weighted sum. */
  function Share(w: real, x: real): real {
    w * x
  }

  /** weighted_sum and weight_total once every score in es has been added with weight w. */
  function WeightedSum(w: real, es: seq<real>): real {
    if es == [] then 0.0 else WeightedSum(w, es[..|es| - 1]) + Share(w, es[|es| - 1])
  }

  function WeightTotal(w: real, n: nat): real {
    if n == 0 then 0.0 else WeightTotal(w, n - 1) + w
  }

  lemma {:induction false} WeightedSumScales(w: real, es: seq<real>)
    ensures WeightedSum(w, es) == w * Sum(es)
    ensures WeightTotal(w, |es|) == w * |es| as real
  {
    if es != [] {
      var front := es[..|es| - 1];
      WeightedSumScales(w, front);
      assert w * (Sum(front) + es[|es| - 1]) == w * Sum(front) + w * es[|es| - 1];
      assert w * |es| as real == w * |front| as real + w;
    }
  }

  lemma WeightsCancel(w: real, es: seq<real>)
    requires es != []
    ensures (if WeightTotal(w, |es|) > 0.0 then WeightedSum(w, es) / WeightTotal(w, |es|) else 0.0) == Inherit(w, es)
  {
    WeightedSumScales(w, es);
    if w > 0.0 {
      assert WeightedSum(w, es) == Mean(es) * WeightTotal(w, |es|);
    }
  }

  lemma WeightedNext(w: real, es: seq<real>, i: nat)
    requires i < |es|
    ensures WeightedSum(w, es[..i + 1]) == WeightedSum(w, es[..i]) + Share(w, es[i])
  {
    assert es[..i + 1][..i] == es[..i];
  }

  /** The least score and the dependency count after i dependencies. */
  ghost predicate Gathered(own: real, ms: seq<real>, depCounts: map<Purl, int>, deps: seq<Purl>, i: nat,
                           localMin: real, total: int)
    requires i <= |ms| == |deps|
  {
    localMin == Least(own, ms[..i]) && total == CountAll(depCounts, deps[..i])
  }

  lemma GatheredStep(own: real, ms: seq<real>, depCounts: map<Purl, int>, deps: seq<Purl>, i: nat,
                     localMin: real, total: int)
    requires i < |ms| == |deps| && Gathered(own, ms, depCounts, deps, i, localMin, total)
    ensures Gathered(own, ms, depCounts, deps, i + 1, Min(localMin, ms[i]), total + (1 + CountOf(depCounts, deps[i])))
  {
    assert ms[..i + 1][..i] == ms[..i] && deps[..i + 1][..i] == deps[..i];
  }

  /** The loop over the scored dependencies of one package. */
  method Gather(inputs: Inputs, effective: map<Purl, real>, minPath: map<Purl, real>, depCounts: map<Purl, int>,
                own: real, deps: seq<Purl>)
    returns (weightedSum: real, weightTotal: real, localMin: real, total: int)
    ensures weightedSum == WeightedSum(inputs.decay, KnownAll(inputs, effective, deps))
    ensures weightTotal == WeightTotal(inputs.decay, |deps|)
    ensures Gathered(own, KnownAll(inputs, minPath, deps), depCounts, deps, |deps|, localMin, total)
  {
    weightedSum, weightTotal, localMin, total := 0.0, 0.0, own, 0;
    ghost var es, ms := KnownAll(inputs, effective, deps), KnownAll(inputs, minPath, deps);
    for i := 0 to |deps|
      invariant weightedSum == WeightedSum(inputs.decay, es[..i]) && weightTotal == WeightTotal(inputs.decay, i)
      invariant Gathered(own, ms, depCounts, deps, i, localMin, total)
    {
      var dep := deps[i];
      var depEff, depMin := Known(inputs, effective, dep), Known(inputs, minPath, dep);
      assert depEff == es[i] && depMin == ms[i];
      GatheredStep(own, ms, depCounts, deps, i, localMin, total);
      WeightedNext(inputs.decay, es, i);
      weightedSum := weightedSum + Share(inputs.decay, depEff);
      weightTotal := weightTotal + inputs.decay;
      localMin := Min(localMin, depMin);
      total := total + (1 + CountOf(depCounts, dep));
    }
    assert es[..|deps|] == es;
  }

  /** The figures of a package with dependencies. Every dependency gets the weight decay, so the
      weighted mean is the plain one. */
  method Aggregate(inputs: Inputs, effective: map<Purl, real>, minPath: map<Purl, real>, depCounts: map<Purl, int>,
                   own: real, deps: seq<Purl>)
    returns (inh: real, localMin: real, total: int)
    requires deps != []
    ensures inh == Inherit(inputs.decay, KnownAll(inputs, effective, deps))
    ensures localMin == Least(own, KnownAll(inputs, minPath, deps))
    ensures total == CountAll(depCounts, deps)
  {
    var weightedSum, weightTotal;
    weightedSum, weightTotal, localMin, total := Gather(inputs, effective, minPath, depCounts, own, deps);
    ghost var ms := KnownAll(inputs, minPath, deps);
    assert ms[..|deps|] == ms && deps[..|deps|] == deps;
    WeightsCancel(inputs.decay, KnownAll(inputs, effective, deps));
    inh := if weightTotal > 0.0 then weightedSum / weightTotal else 0.0;
  }

  // ---------- the whole job ----------

  datatype ScoreRow = ScoreRow(purl: Option<Purl>, directScore: Option<real>)
  datatype EdgeRow = EdgeRow(parent: Option<Purl>, child: Option<Purl>)

  /** What the job writes back for one package. */
  datatype Written = Written(effective: real, inherited: real, minPath: real, depCount: int)

  /** A present, non-empty name. */
  predicate Given(p: Option<Purl>) {
    p.Some? && p.value != ""
  }

  /** The direct scores the rows define; of two rows for a package the later one counts. */
  function DirectScores(rows: seq<ScoreRow>): map<Purl, real> {
    if rows == [] then map[]
    else
      var m, row := DirectScores(rows[..|rows| - 1]), rows[|rows| - 1];
      if Given(row.purl) && row.directScore.Some? then m[row.purl.value := row.directScore.value] else m
  }

  /** The children the edge rows list for p, in row order. */
  function ChildrenIn(rows: seq<EdgeRow>, p: Purl): seq<Purl> {
    if rows == [] then []
    else
      var cs, row := ChildrenIn(rows[..|rows| - 1], p), rows[|rows| - 1];
      if Given(row.parent) && Given(row.child) && row.parent.value == p then cs + [row.child.value] else cs
  }

  lemma {:induction false} ChildrenFromRows(rows: seq<EdgeRow>, p: Purl, c: Purl)
    ensures c in ChildrenIn(rows, p) ==> EdgeRow(Some(p), Some(c)) in rows
  {
    if rows != [] {
      ChildrenFromRows(rows[..|rows| - 1], p, c);
      assert rows == rows[..|rows| - 1] + [rows[|rows| - 1]];
    }
  }

  lemma {:induction false} DistinctRowsDistinctChildren(rows: seq<EdgeRow>, p: Purl)
    requires Distinct(rows)
    ensures Distinct(ChildrenIn(rows, p))
  {
    if rows != [] {
      var front, row := rows[..|rows| - 1], rows[|rows| - 1];
      DistinctRowsDistinctChildren(front, p);
      if Given(row.child) {
        ChildrenFromRows(front, p, row.child.value);
      }
    }
  }

  lemma {:induction false} KeepDistinct<N(!new)>(xs: seq<N>, s: set<N>)
    requires Distinct(xs)
    ensures Distinct(Keep(xs, s))
  {
    if xs != [] {
      KeepDistinct(xs[..|xs| - 1], s);
    }
  }

  method ReadChildren(rows: seq<EdgeRow>) returns (children: map<Purl, seq<Purl>>)
    ensures forall p :: Listed(children, p) == ChildrenIn(rows, p)
  {
    children := map[];
    for i := 0 to |rows|
      invariant forall p :: Listed(children, p) == ChildrenIn(rows[..i], p)
    {
      assert rows[..i + 1][..i] == rows[..i];
      var row := rows[i];
      if Given(row.parent) && Given(row.child) {
        children := children[row.parent.value := Listed(children, row.parent.value) + [row.child.value]];
      }
    }
    assert rows[..|rows|] == rows;
  }

  method ReadDirectScores(rows: seq<ScoreRow>) returns (direct: map<Purl, real>)
    ensures direct == DirectScores(rows)
  {
    direct := map[];
    for i := 0 to |rows|
      invariant direct == DirectScores(rows[..i])
    {
      assert rows[..i + 1][..i] == rows[..i];
      var row := rows[i];
      if Given(row.purl) && row.directScore.Some? {
        direct := direct[row.purl.value := row.directScore.value];
      }
    }
    assert rows[..|rows|] == rows;
  }

  /** What one record says about its package: the recurrence when it reaches no cycle, the paths when it
      reaches none but itself, the weakest link when it hears of all it reaches. */
  ghost predicate RecordIsExact(inputs: Inputs, p: Purl, w: Written) {
    && (Grounded(inputs, p) ==> w.effective == Effective(inputs, p, true))
    && (Steady(inputs, p) && NoDuplicateEdges(inputs) ==>
          && w.depCount >= |AllDependencies(inputs, p)|
          && (w.depCount == |AllDependencies(inputs, p)| <==> SinglePaths(inputs, p)))
    && (HearsAll(inputs.Scored(), p) ==>
          forall m :: IsWeakest(inputs, p, m) ==> w.minPath == if Deps(inputs.Scored(), p) == [] then m else Round2(m))
  }

  /** The records are the scores, one for each package. */
  ghost predicate RecordsAre(s: Scores, written: map<Purl, Written>)
    requires s.effective.Keys == s.inherited.Keys == s.minPath.Keys == s.depCounts.Keys
  {
    && written.Keys == s.effective.Keys
    && forall p :: p in written ==> written[p] == Written(s.effective[p], s.inherited[p], s.minPath[p], s.depCounts[p])
  }

  /** propagate_effective_scores: one record for every package with a direct score, and an alert for
      exactly those whose effective score is below the threshold. */
  method PropagateEffectiveScores(enabled: bool, scoreRows: seq<ScoreRow>, edgeRows: seq<EdgeRow>, alpha: real,
                                  decay: real, maxDepth: int, threshold: real)
    returns (written: map<Purl, Written>, alerts: set<Purl>, ghost children: map<Purl, seq<Purl>>)
    ensures !enabled ==> written == map[] && alerts == {}
    ensures enabled ==> written.Keys == DirectScores(scoreRows).Keys
    ensures forall p :: Listed(children, p) == ChildrenIn(edgeRows, p)
    ensures enabled ==> exists s :: PropagatedInOrder(Inputs(DirectScores(scoreRows), children, alpha, decay), s) &&
                                    RecordsAre(s, written)
    ensures forall p :: p in written ==>
      RecordIsExact(Inputs(DirectScores(scoreRows), children, alpha, decay), p, written[p])
    ensures Distinct(edgeRows) ==> NoDuplicateEdges(Inputs(DirectScores(scoreRows), children, alpha, decay))
    ensures forall p :: p in alerts <==> p in written && written[p].effective < threshold
  {
    var direct := ReadDirectScores(scoreRows);
    var listed := ReadChildren(edgeRows);
    children := listed;
    ghost var inputs := Inputs(direct, listed, alpha, decay);
    if Distinct(edgeRows) {
      forall p
        ensures Distinct(Deps(inputs.Scored(), p))
      {
        DistinctRowsDistinctChildren(edgeRows, p);
        KeepDistinct(Listed(listed, p), direct.Keys);
      }
    }
    if !enabled {
      return map[], {}, children;
    }
    var s := Propagate(Inputs(direct, listed, alpha, decay), maxDepth);
    written, alerts := WriteBack(s, threshold);
    forall p | p in written
      ensures RecordIsExact(inputs, p, written[p])
    {
      SettledRecordIsExact(inputs, s, p);
    }
  }

  method WriteBack(s: Scores, threshold: real) returns (written: map<Purl, Written>, alerts: set<Purl>)
    requires s.effective.Keys == s.inherited.Keys == s.minPath.Keys == s.depCounts.Keys
    ensures RecordsAre(s, written)
    ensures forall p :: p in alerts <==> p in written && written[p].effective < threshold
  {
    written, alerts := map[], {};
    var todo := s.effective.Keys;
    while todo != {}
      invariant todo <= s.effective.Keys && written.Keys == s.effective.Keys - todo
      invariant forall p :: p in written ==>
        written[p] == Written(s.effective[p], s.inherited[p], s.minPath[p], s.depCounts[p])
      invariant forall p :: p in alerts <==> p in written && written[p].effective < threshold
    {
      var p :| p in todo;
      todo := todo - {p};
      written := written[p := Written(s.effective[p], s.inherited[p], s.minPath[p], s.depCounts[p])];
      if s.effective[p] < threshold {
        alerts := alerts + {p};
      }
    }
  }

  lemma SettledRecordIsExact(inputs: Inputs, s: Scores, p: Purl)
    requires AllSettled(inputs, s) && LinksExact(inputs, s) && CountsExact(inputs, s) && p in inputs.direct
    requires p in s.effective && p in s.inherited && p in s.minPath && p in s.depCounts
    ensures RecordIsExact(inputs, p, Written(s.effective[p], s.inherited[p], s.minPath[p], s.depCounts[p]))
  {
    if Grounded(inputs, p) {
      SettledIsRecurrence(inputs, s, p);
    }
    assert forall m :: IsWeakest(inputs, p, m) && HearsAll(inputs.Scored(), p) ==> LinkIs(inputs, s, p, m);
  }
}
