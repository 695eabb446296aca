/** What the propagated dependency count counts: paths, not packages. */
module DependencyPaths {
  import opened Graphs
  import opened TopologicalSort
  import opened TrustRun
  import opened TrustRecurrence

  type Path = seq<Purl>

  /** w lists, in order, the packages met when following one or more dependencies from p. */
  ghost predicate IsPath(g: Graph<Purl>, p: Purl, w: Path)
    decreases |w|
  {
    w != [] && w[0] in Deps(g, p) && (|w| == 1 || IsPath(g, w[0], w[1..]))
  }

  function End(w: Path): Purl {
    if w == [] then "" else w[|w| - 1]
  }

  /** A path that comes back to p at most with its last step. */
  ghost predicate IsSimple(g: Graph<Purl>, p: Purl, w: Path) {
    IsPath(g, p, w) && p !in w[..|w| - 1]
  }

  /** p reaches no cycle, except that it may list itself. */
  ghost predicate Steady(inputs: Inputs, p: Purl) {
    p in inputs.direct && forall d :: d in Deps(inputs.Scored(), p) ==> d == p || Grounded(inputs, d)
  }

  lemma GroundedIsSteady(inputs: Inputs, p: Purl)
    requires Grounded(inputs, p)
    ensures Steady(inputs, p)
  {
    GroundedDeps(inputs, p);
  }

  lemma SteadyDeps(inputs: Inputs, p: Purl)
    requires Steady(inputs, p)
    ensures forall d :: d in Deps(inputs.Scored(), p) && d != p ==>
              Steady(inputs, d) && !Reaches(inputs.Scored(), d, p) &&
              ReachSet(inputs.Scored(), d) < ReachSet(inputs.Scored(), p)
  {
    forall d | d in Deps(inputs.Scored(), p) && d != p
      ensures Steady(inputs, d) && !Reaches(inputs.Scored(), d, p)
      ensures ReachSet(inputs.Scored(), d) < ReachSet(inputs.Scored(), p)
    {
      GroundedIsSteady(inputs, d);
      NoWayBack(inputs.Scored(), p, d);
    }
  }

  lemma NoWayBack(g: Graph<Purl>, p: Purl, d: Purl)
    requires p in g.nodes && d in Deps(g, p) && !ReachesCycle(g, d)
    ensures !Reaches(g, d, p) && ReachSet(g, d) < ReachSet(g, p)
  {
    ReachesChild(g, p, d);
    ReachesSelf(g, p);
    ReachesSelf(g, d);
    if Reaches(g, d, p) {
      var k: nat :| Steps(g, d, p, k);
      StepFirst(g, p, d, d, 1);
      StepsCompose(g, d, p, d, k, 1, k + 1);
    }
    forall q | Reaches(g, d, q)
      ensures Reaches(g, p, q)
    {
      ReachesCompose(g, p, d, q);
    }
    assert p in ReachSet(g, p) && p !in ReachSet(g, d);
  }

  /** The paths that start with d and then stop or go on along one of s. */
  ghost function Through(d: Purl, s: set<Path>): set<Path> {
    {[d]} + set w | w in s :: [d] + w
  }

  /** All simple paths from p. */
  ghost function Paths(inputs: Inputs, p: Purl): set<Path>
    requires Steady(inputs, p)
    decreases ReachSet(inputs.Scored(), p), |Deps(inputs.Scored(), p)| + 1
  {
    PathsVia(inputs, p, |Deps(inputs.Scored(), p)|)
  }

  /** The simple paths from p whose first step is one of its first i dependencies. */
  ghost function PathsVia(inputs: Inputs, p: Purl, i: nat): set<Path>
    requires Steady(inputs, p) && i <= |Deps(inputs.Scored(), p)|
    decreases ReachSet(inputs.Scored(), p), i
  {
    if i == 0 then {}
    else
      SteadyDeps(inputs, p);
      var d := Deps(inputs.Scored(), p)[i - 1];
      assert d in Deps(inputs.Scored(), p);
      PathsVia(inputs, p, i - 1) + Through(d, if d == p then {} else Paths(inputs, d))
  }

  /** Where d cannot reach p, every path goes on from p through d. */
  lemma {:induction false} NoReturn(g: Graph<Purl>, p: Purl, d: Purl, v: Path)
    requires !Reaches(g, d, p) && IsPath(g, d, v)
    ensures p !in v && p != d
    decreases |v|
  {
    ReachesSelf(g, d);
    ReachesChild(g, d, v[0]);
    if |v| > 1 {
      if Reaches(g, v[0], p) {
        ReachesCompose(g, d, v[0], p);
      }
      NoReturn(g, p, v[0], v[1..]);
    }
    assert v == [v[0]] + v[1..];
  }

  /** In particular, all paths from a package that reaches no cycle are simple. */
  lemma GroundedPathIsSimple(inputs: Inputs, d: Purl, v: Path)
    requires Grounded(inputs, d) && IsPath(inputs.Scored(), d, v)
    ensures IsSimple(inputs.Scored(), d, v)
  {
    var g := inputs.Scored();
    GroundedDeps(inputs, d);
    NoWayBack(g, d, v[0]);
    if |v| > 1 {
      NoReturn(g, d, v[0], v[1..]);
    }
    assert v == [v[0]] + v[1..];
    ReachesSelf(g, v[0]);
  }

  lemma ThroughMember(g: Graph<Purl>, p: Purl, d: Purl, s: set<Path>, w: Path)
    requires d in Deps(g, p) && d != p && !Reaches(g, d, p) && forall v :: v in s <==> IsPath(g, d, v)
    ensures w in Through(d, s) <==> IsSimple(g, p, w) && w[0] == d
  {
    if IsPath(g, p, w) && w[0] == d {
      if |w| == 1 {
        assert w == [d];
      } else {
        assert IsPath(g, d, w[1..]) && w == [d] + w[1..];
      }
    }
    if w in Through(d, s) && w != [d] {
      var v :| v in s && w == [d] + v;
      assert w[1..] == v && IsPath(g, d, v);
      NoReturn(g, p, d, v);
      assert p !in w;
    }
  }

  /** Listing itself gives p one simple path. */
  lemma ThroughSelf(g: Graph<Purl>, p: Purl, w: Path)
    requires p in Deps(g, p)
    ensures w in Through(p, {}) <==> IsSimple(g, p, w) && w[0] == p
  {
    if |w| > 1 {
      FirstIsInner(w);
    }
    if IsSimple(g, p, w) && w[0] == p {
      assert w == [w[0]];
    }
  }

  lemma FirstIsInner(w: Path)
    requires |w| > 1
    ensures w[0] in w[..|w| - 1]
  {
    assert w[..|w| - 1][0] == w[0];
  }

  /** Paths(p) holds exactly the simple paths from p, and all paths if p reaches no cycle. */
  lemma {:induction false} PathsComplete(inputs: Inputs, p: Purl, w: Path)
    requires Steady(inputs, p)
    ensures w in Paths(inputs, p) <==> IsSimple(inputs.Scored(), p, w)
    ensures Grounded(inputs, p) ==> (w in Paths(inputs, p) <==> IsPath(inputs.Scored(), p, w))
    decreases ReachSet(inputs.Scored(), p), |Deps(inputs.Scored(), p)| + 1
  {
    PathsViaMember(inputs, p, |Deps(inputs.Scored(), p)|, w);
    if Grounded(inputs, p) && IsPath(inputs.Scored(), p, w) {
      GroundedPathIsSimple(inputs, p, w);
    }
  }

  lemma {:induction false} PathsViaMember(inputs: Inputs, p: Purl, i: nat, w: Path)
    requires Steady(inputs, p) && i <= |Deps(inputs.Scored(), p)|
    ensures w in PathsVia(inputs, p, i) <==> IsSimple(inputs.Scored(), p, w) && w[0] in Deps(inputs.Scored(), p)[..i]
    decreases ReachSet(inputs.Scored(), p), i
  {
    if i > 0 {
      SteadyDeps(inputs, p);
      var ds := Deps(inputs.Scored(), p);
      var d := ds[i - 1];
      assert d in ds && ds[..i] == ds[..i - 1] + [d];
      PathsViaMember(inputs, p, i - 1, w);
      if d == p {
        ThroughSelf(inputs.Scored(), p, w);
      } else {
        forall v
          ensures v in Paths(inputs, d) <==> IsPath(inputs.Scored(), d, v)
        {
          PathsComplete(inputs, d, v);
        }
        ThroughMember(inputs.Scored(), p, d, Paths(inputs, d), w);
      }
    }
  }

  // ---------- counting ----------

  lemma {:induction false} ExtendSize(d: Purl, s: set<Path>)
    ensures |set w | w in s :: [d] + w| == |s|
  {
    var t := set w | w in s :: [d] + w;
    if s == {} {
      assert t == {};
    } else {
      var w :| w in s;
      var rest := set v | v in s - {w} :: [d] + v;
      ExtendSize(d, s - {w});
      assert t == rest + {[d] + w};
      forall v | v in s - {w}
        ensures [d] + v != [d] + w
      {
        assert ([d] + v)[1..] == v && ([d] + w)[1..] == w;
      }
    }
  }

  lemma ThroughSize(d: Purl, s: set<Path>)
    requires [] !in s
    ensures |Through(d, s)| == 1 + |s|
  {
    ExtendSize(d, s);
  }

  /** The graph lists no dependency twice, as the DISTINCT query that builds it ensures. */
  ghost predicate NoDuplicateEdges(inputs: Inputs) {
    forall p :: Distinct(Deps(inputs.Scored(), p))
  }

  /** counts holds, for each dependency of p, the number of its paths; p itself is not counted yet. */
  ghost predicate CountsBelow(inputs: Inputs, counts: map<Purl, int>, p: Purl)
    requires Steady(inputs, p)
  {
    forall d :: d in Deps(inputs.Scored(), p) ==>
      if d == p then p !in counts else Steady(inputs, d) && CountOf(counts, d) == |Paths(inputs, d)|
  }

  lemma {:induction false} CountIsPathsVia(inputs: Inputs, counts: map<Purl, int>, p: Purl, i: nat)
    requires NoDuplicateEdges(inputs) && Steady(inputs, p) && CountsBelow(inputs, counts, p)
    requires i <= |Deps(inputs.Scored(), p)|
    ensures CountAll(counts, Deps(inputs.Scored(), p)[..i]) == |PathsVia(inputs, p, i)|
  {
    if i > 0 {
      var ds := Deps(inputs.Scored(), p);
      var d := ds[i - 1];
      assert d in ds && ds[..i][..i - 1] == ds[..i - 1];
      CountIsPathsVia(inputs, counts, p, i - 1);
      SteadyDeps(inputs, p);
      PathsViaNext(inputs, p, i, d);
    }
  }

  lemma PathsViaNext(inputs: Inputs, p: Purl, i: nat, d: Purl)
    requires Steady(inputs, p) && (d != p ==> Steady(inputs, d)) && Distinct(Deps(inputs.Scored(), p))
    requires 0 < i <= |Deps(inputs.Scored(), p)| && d == Deps(inputs.Scored(), p)[i - 1]
    ensures |PathsVia(inputs, p, i)| ==
            |PathsVia(inputs, p, i - 1)| + (1 + if d == p then 0 else |Paths(inputs, d)|)
  {
    var after := if d == p then {} else Paths(inputs, d);
    if d != p {
      PathsComplete(inputs, d, []);
    }
    ThroughSize(d, after);
    EarlierStepsDiffer(inputs, p, i, d);
    StartElsewhere(d, PathsVia(inputs, p, i - 1), after);
  }

  lemma EarlierStepsDiffer(inputs: Inputs, p: Purl, i: nat, d: Purl)
    requires Steady(inputs, p) && Distinct(Deps(inputs.Scored(), p))
    requires 0 < i <= |Deps(inputs.Scored(), p)| && d == Deps(inputs.Scored(), p)[i - 1]
    ensures forall w :: w in PathsVia(inputs, p, i - 1) ==> |w| > 0 && w[..1] != [d]
  {
    assert d !in Deps(inputs.Scored(), p)[..i - 1];
    forall w | w in PathsVia(inputs, p, i - 1)
      ensures |w| > 0 && w[..1] != [d]
    {
      PathsViaMember(inputs, p, i - 1, w);
      assert w[..1][0] == w[0];
    }
  }

  /** Paths with another first step come on top. */
  lemma StartElsewhere(d: Purl, others: set<Path>, s: set<Path>)
    requires forall w :: w in others ==> |w| > 0 && w[..1] != [d]
    ensures |others + Through(d, s)| == |others| + |Through(d, s)|
  {
    forall w | w in Through(d, s)
      ensures w !in others
    {
      assert w[..1] == [d];
    }
    assert others !! Through(d, s);
  }

  /** What is computed for p from such counts is the number of its simple paths. */
  lemma CountAtIsPaths(inputs: Inputs, s: Scores, p: Purl)
    requires NoDuplicateEdges(inputs) && Steady(inputs, p) && CountsBelow(inputs, s.depCounts, p)
    ensures DepCountAt(inputs, s, p) == |Paths(inputs, p)|
  {
    var ds := Deps(inputs.Scored(), p);
    assert ds[..|ds|] == ds;
    CountIsPathsVia(inputs, s.depCounts, p, |ds|);
  }

  /** The count recorded for a package that reaches no cycle is the number of paths that leave it. */
  lemma {:induction false} CountIsPaths(inputs: Inputs, s: Scores, p: Purl)
    requires NoDuplicateEdges(inputs) && AllSettled(inputs, s) && Grounded(inputs, p) && Steady(inputs, p)
    ensures p in s.depCounts && s.depCounts[p] == |Paths(inputs, p)|
    decreases ReachSet(inputs.Scored(), p)
  {
    assert Settled(inputs, s, p);
    GroundedDeps(inputs, p);
    NoSelf(inputs, p);
    SteadyDeps(inputs, p);
    forall d | d in Deps(inputs.Scored(), p)
      ensures CountOf(s.depCounts, d) == |Paths(inputs, d)|
    {
      CountIsPaths(inputs, s, d);
    }
    CountAtIsPaths(inputs, s, p);
  }

  lemma NoSelf(inputs: Inputs, p: Purl)
    requires Grounded(inputs, p)
    ensures p !in Deps(inputs.Scored(), p)
  {
    if p in Deps(inputs.Scored(), p) {
      GroundedDeps(inputs, p);
      assert false;
    }
  }

  // ---------- paths against packages ----------

  /** The distinct packages p depends on, directly or transitively. */
  ghost function AllDependencies(inputs: Inputs, p: Purl): set<Purl> {
    set x | x in inputs.direct && Below(inputs.Scored(), p, x)
  }

  /** No package is reached from p by two different simple paths. */
  ghost predicate SinglePaths(inputs: Inputs, p: Purl) {
    forall v, w :: IsSimple(inputs.Scored(), p, v) && IsSimple(inputs.Scored(), p, w) && End(v) == End(w) ==> v == w
  }

  ghost predicate OneEndEach(s: set<Path>) {
    forall v, w :: v in s && w in s && End(v) == End(w) ==> v == w
  }

  ghost function Ends(s: set<Path>): set<Purl> {
    set w | w in s :: End(w)
  }

  lemma {:induction false} EndsSize(s: set<Path>)
    ensures |Ends(s)| <= |s|
    ensures |Ends(s)| == |s| <==> OneEndEach(s)
  {
    if s == {} {
      assert Ends(s) == {};
    } else {
      var w :| w in s;
      var rest := s - {w};
      EndsSize(rest);
      assert Ends(s) == Ends(rest) + {End(w)};
      if End(w) in Ends(rest) {
        var v :| v in rest && End(v) == End(w);
        assert v in s && v != w;
        assert Ends(s) == Ends(rest);
      } else {
        assert forall v :: v in rest ==> End(v) in Ends(rest);
      }
    }
  }

  lemma {:induction false} PathLeadsBelow(g: Graph<Purl>, p: Purl, w: Path)
    requires IsPath(g, p, w)
    ensures End(w) in g.nodes && Below(g, p, End(w))
    decreases |w|
  {
    if |w| == 1 {
      ReachesSelf(g, w[0]);
    } else {
      PathLeadsBelow(g, w[0], w[1..]);
      var d :| d in Deps(g, w[0]) && Reaches(g, d, End(w));
      ReachesChild(g, w[0], d);
      ReachesCompose(g, w[0], d, End(w));
    }
  }

  lemma {:induction false} StepsGivePath(g: Graph<Purl>, p: Purl, d: Purl, x: Purl, k: nat) returns (w: Path)
    requires d in Deps(g, p) && Steps(g, d, x, k)
    ensures IsPath(g, p, w) && w[0] == d && End(w) == x
    decreases k
  {
    if k == 0 {
      w := [d];
    } else {
      var m := FirstStep(g, d, x, k);
      var v := StepsGivePath(g, d, m, x, k - 1);
      w := [d] + v;
      assert w[1..] == v;
    }
  }

  /** A path through a dependency that cannot reach p is simple. */
  lemma SimpleThrough(inputs: Inputs, p: Purl, d: Purl, w: Path)
    requires IsPath(inputs.Scored(), p, w) && w[0] == d && d != p && !Reaches(inputs.Scored(), d, p)
    ensures IsSimple(inputs.Scored(), p, w)
  {
    assert w == [d] + w[1..];
    if |w| > 1 {
      NoReturn(inputs.Scored(), p, d, w[1..]);
    }
  }

  /** What p reaches past itself, it reaches through another dependency. */
  lemma {:induction false} LeaveSelf(g: Graph<Purl>, p: Purl, x: Purl, k: nat) returns (d: Purl, j: nat)
    requires x != p && Steps(g, p, x, k)
    ensures d in Deps(g, p) && d != p && Steps(g, d, x, j)
    decreases k
  {
    d := FirstStep(g, p, x, k);
    j := k - 1;
    if d == p {
      d, j := LeaveSelf(g, p, x, k - 1);
    }
  }

  lemma SimplePathTo(inputs: Inputs, p: Purl, x: Purl) returns (w: Path)
    requires Steady(inputs, p) && x in AllDependencies(inputs, p)
    ensures IsSimple(inputs.Scored(), p, w) && End(w) == x
  {
    var g := inputs.Scored();
    SteadyDeps(inputs, p);
    var d :| d in Deps(g, p) && Reaches(g, d, x);
    if x == p {
      assert d == p;
      w := [p];
    } else {
      ReachesChild(g, p, d);
      ReachesCompose(g, p, d, x);
      var k: nat :| Steps(g, p, x, k);
      var e, j := LeaveSelf(g, p, x, k);
      w := StepsGivePath(g, p, e, x, j);
      SimpleThrough(inputs, p, e, w);
    }
  }

  lemma EndsAreDependencies(inputs: Inputs, p: Purl)
    requires Steady(inputs, p)
    ensures Ends(Paths(inputs, p)) == AllDependencies(inputs, p)
  {
    var g := inputs.Scored();
    forall x | x in Ends(Paths(inputs, p))
      ensures x in AllDependencies(inputs, p)
    {
      var w :| w in Paths(inputs, p) && End(w) == x;
      PathsComplete(inputs, p, w);
      PathLeadsBelow(g, p, w);
    }
    forall x | x in AllDependencies(inputs, p)
      ensures x in Ends(Paths(inputs, p))
    {
      var w := SimplePathTo(inputs, p, x);
      PathsComplete(inputs, p, w);
    }
  }

  /** There are no fewer simple paths than distinct dependencies, and as many exactly when no dependency is
      reached along two. */
  lemma PathsAgainstPackages(inputs: Inputs, p: Purl)
    requires Steady(inputs, p)
    ensures |Paths(inputs, p)| >= |AllDependencies(inputs, p)|
    ensures |Paths(inputs, p)| == |AllDependencies(inputs, p)| <==> SinglePaths(inputs, p)
  {
    EndsAreDependencies(inputs, p);
    EndsSize(Paths(inputs, p));
    forall w
      ensures w in Paths(inputs, p) <==> IsSimple(inputs.Scored(), p, w)
    {
      PathsComplete(inputs, p, w);
    }
  }
}
