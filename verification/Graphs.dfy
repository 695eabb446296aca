/** Finite directed graphs given by adjacency lists.

    A graph is a node set together with a dictionary of child lists. Children outside the node
    set are ignored, a node without an entry has no children, and lists may hold duplicates and
    self-loops: nothing about the dictionary is assumed. */
module Graphs {

  datatype Graph<N> = Graph(nodes: set<N>, children: map<N, seq<N>>)

  /** The elements of xs that lie in s, in order and with their multiplicity. */
  function Keep<N(==,!new)>(xs: seq<N>, s: set<N>): (r: seq<N>)
    ensures |r| <= |xs|
    ensures forall x :: x in r <==> x in xs && x in s
  {
    if xs == [] then []
    else
      var rest := Keep(xs[..|xs| - 1], s);
      assert xs == xs[..|xs| - 1] + [xs[|xs| - 1]];
      if xs[|xs| - 1] in s then rest + [xs[|xs| - 1]] else rest
  }

  /** children.get(p, []) */
  function Listed<N(==,!new)>(children: map<N, seq<N>>, p: N): seq<N> {
    if p in children then children[p] else []
  }

  /** The children of p that are nodes of g. */
  function Deps<N(==,!new)>(g: Graph<N>, p: N): (ds: seq<N>)
    ensures forall d :: d in ds <==> d in Listed(g.children, p) && d in g.nodes
  {
    Keep(Listed(g.children, p), g.nodes)
  }

  /** b can be reached from a by following exactly k edges. */
  ghost predicate Steps<N(!new)>(g: Graph<N>, a: N, b: N, k: nat)
    decreases k, 1
  {
    if k == 0 then a == b else exists m :: StepVia(g, a, m, b, k)
  }

  /** The first of the k edges leads to m. */
  ghost predicate StepVia<N(!new)>(g: Graph<N>, a: N, m: N, b: N, k: nat)
    requires k > 0
    decreases k, 0
  {
    m in Deps(g, a) && Steps(g, m, b, k - 1)
  }

  ghost predicate Reaches<N(!new)>(g: Graph<N>, a: N, b: N) {
    exists k: nat :: Steps(g, a, b, k)
  }

  ghost predicate OnCycle<N(!new)>(g: Graph<N>, c: N) {
    exists k: nat :: k > 0 && Steps(g, c, c, k)
  }

  /** p leads, in zero or more edges, to a node that lies on a cycle. */
  ghost predicate ReachesCycle<N(!new)>(g: Graph<N>, p: N) {
    exists c :: Reaches(g, p, c) && OnCycle(g, c)
  }

  /** The nodes of g reachable from p; p itself is one of them. */
  ghost function ReachSet<N(!new)>(g: Graph<N>, p: N): set<N> {
    set q | q in g.nodes && Reaches(g, p, q)
  }

  // ---------- composing steps ----------

  lemma StepFirst<N(!new)>(g: Graph<N>, a: N, m: N, b: N, n: nat)
    requires n > 0 && m in Deps(g, a) && Steps(g, m, b, n - 1)
    ensures Steps(g, a, b, n)
  {
    assert StepVia(g, a, m, b, n);
  }

  lemma {:induction false} StepsCompose<N(!new)>(g: Graph<N>, a: N, b: N, c: N, j: nat, k: nat, n: nat)
    requires Steps(g, a, b, j) && Steps(g, b, c, k) && n == j + k
    ensures Steps(g, a, c, n)
    decreases j
  {
    if j == 0 {
      assert a == b && n == k;
    } else {
      var m := FirstStep(g, a, b, j);
      StepsCompose(g, m, b, c, j - 1, k, n - 1);
      StepFirst(g, a, m, c, n);
    }
  }

  lemma FirstStep<N(!new)>(g: Graph<N>, a: N, b: N, k: nat) returns (m: N)
    requires k > 0 && Steps(g, a, b, k)
    ensures m in Deps(g, a) && Steps(g, m, b, k - 1)
  {
    m :| StepVia(g, a, m, b, k);
  }

  lemma ReachesCompose<N(!new)>(g: Graph<N>, a: N, b: N, c: N)
    requires Reaches(g, a, b) && Reaches(g, b, c)
    ensures Reaches(g, a, c)
  {
    var j: nat :| Steps(g, a, b, j);
    var k: nat :| Steps(g, b, c, k);
    StepsCompose(g, a, b, c, j, k, j + k);
  }

  lemma ReachesSelf<N(!new)>(g: Graph<N>, a: N)
    ensures Reaches(g, a, a)
  {
    assert Steps(g, a, a, 0);
  }

  lemma ReachesChild<N(!new)>(g: Graph<N>, a: N, d: N)
    requires d in Deps(g, a)
    ensures Reaches(g, a, d)
  {
    StepFirst(g, a, d, d, 1);
  }

  /** Reaching something means being there already or going through a child. */
  lemma ReachesSplit<N(!new)>(g: Graph<N>, a: N, b: N)
    ensures Reaches(g, a, b) <==> a == b || exists d :: d in Deps(g, a) && Reaches(g, d, b)
  {
    if Reaches(g, a, b) && a != b {
      var k: nat :| Steps(g, a, b, k);
      var d := FirstStep(g, a, b, k);
    }
    if a == b {
      ReachesSelf(g, a);
    }
    forall d | d in Deps(g, a) && Reaches(g, d, b)
      ensures Reaches(g, a, b)
    {
      ReachesChild(g, a, d);
      ReachesCompose(g, a, d, b);
    }
  }

  // ---------- cycles ----------

  lemma ReachesCycleVia<N(!new)>(g: Graph<N>, a: N, b: N)
    requires Reaches(g, a, b) && ReachesCycle(g, b)
    ensures ReachesCycle(g, a)
  {
    var c :| Reaches(g, b, c) && OnCycle(g, c);
    ReachesCompose(g, a, b, c);
  }

  /** From a node that reaches no cycle, a child reaches strictly less: this is what makes
      recursion over the dependencies well founded. */
  lemma AcyclicChild<N(!new)>(g: Graph<N>, p: N, d: N)
    requires p in g.nodes && d in Deps(g, p) && !ReachesCycle(g, p)
    ensures !ReachesCycle(g, d)
    ensures !Reaches(g, d, p)
    ensures ReachSet(g, d) < ReachSet(g, p)
  {
    ReachesChild(g, p, d);
    if ReachesCycle(g, d) {
      ReachesCycleVia(g, p, d);
    }
    ReachesSelf(g, p);
    if Reaches(g, d, p) {
      var k: nat :| Steps(g, d, p, k);
      StepFirst(g, p, d, p, k + 1);
    }
    forall q | Reaches(g, d, q)
      ensures Reaches(g, p, q)
    {
      ReachesCompose(g, p, d, q);
    }
    assert p in ReachSet(g, p) && p !in ReachSet(g, d);
  }

  lemma AcyclicChildren<N(!new)>(g: Graph<N>, p: N)
    requires p in g.nodes && !ReachesCycle(g, p)
    ensures forall d :: d in Deps(g, p) ==> !ReachesCycle(g, d) && ReachSet(g, d) < ReachSet(g, p)
  {
    forall d | d in Deps(g, p)
      ensures !ReachesCycle(g, d) && ReachSet(g, d) < ReachSet(g, p)
    {
      AcyclicChild(g, p, d);
    }
  }

  ghost predicate HasDepIn<N(!new)>(g: Graph<N>, p: N, s: set<N>) {
    exists d :: d in Deps(g, p) && d in s
  }

  /** s is stuck: from each of its nodes an edge leads back into s. */
  ghost predicate Stuck<N(!new)>(g: Graph<N>, s: set<N>) {
    forall x {:trigger HasDepIn(g, x, s)} :: x in s ==> HasDepIn(g, x, s)
  }

  /** x can be reached from p by following at least one edge. */
  ghost predicate Below<N(!new)>(g: Graph<N>, p: N, x: N) {
    exists d :: d in Deps(g, p) && Reaches(g, d, x)
  }

  lemma BelowSelf<N(!new)>(g: Graph<N>, p: N)
    requires Below(g, p, p)
    ensures OnCycle(g, p)
  {
    var d :| d in Deps(g, p) && Reaches(g, d, p);
    var k: nat :| Steps(g, d, p, k);
    StepFirst(g, p, d, p, k + 1);
  }

  lemma BelowExtend<N(!new)>(g: Graph<N>, p: N, x: N, y: N)
    requires Below(g, p, x) && y in Deps(g, x)
    ensures Below(g, p, y)
  {
    var d :| d in Deps(g, p) && Reaches(g, d, x);
    ReachesChild(g, x, y);
    ReachesCompose(g, d, x, y);
  }

  /** Every node of a finite stuck set reaches a cycle. Either p lies on a cycle itself, or the
      part of s strictly below p is a smaller stuck set. */
  lemma {:induction false} StuckReachesCycle<N(!new)>(g: Graph<N>, s: set<N>, p: N)
    requires Stuck(g, s) && p in s
    ensures ReachesCycle(g, p)
    decreases |s|
  {
    if OnCycle(g, p) {
      ReachesSelf(g, p);
    } else {
      var lower := set x | x in s && Below(g, p, x);
      forall x | x in lower
        ensures HasDepIn(g, x, lower)
      {
        assert HasDepIn(g, x, s);
        var y :| y in Deps(g, x) && y in s;
        BelowExtend(g, p, x, y);
      }
      if p in lower {
        BelowSelf(g, p);
      }
      assert HasDepIn(g, p, s);
      var y :| y in Deps(g, p) && y in s;
      ReachesSelf(g, y);
      SmallerSet(lower, s);
      StuckReachesCycle(g, lower, y);
      ReachesChild(g, p, y);
      ReachesCycleVia(g, p, y);
    }
  }

  lemma SmallerSet<T>(a: set<T>, b: set<T>)
    requires a < b
    ensures |a| < |b|
  {
    var x :| x in b && x !in a;
    SubsetSize(a, b - {x});
  }

  lemma {:induction false} SubsetSize<T>(a: set<T>, b: set<T>)
    requires a <= b
    ensures |a| <= |b|
  {
    if a != {} {
      var x :| x in a;
      SubsetSize(a - {x}, b - {x});
    }
  }
}
