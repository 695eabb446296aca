/** Kahn's worklist over the dependency graph: leaves first, whatever lies on or above a cycle last. */
module TopologicalSort {
  import opened Graphs

  /** No two positions hold the same element. */
  ghost predicate Distinct<T>(s: seq<T>) {
    forall i, j :: 0 <= i < j < |s| ==> s[i] != s[j]
  }

  /** Every dependency of order[i] occurs before position i. */
  ghost predicate DepsBefore<N(!new)>(g: Graph<N>, order: seq<N>, i: nat)
    requires i < |order|
  {
    forall d :: d in Deps(g, order[i]) ==> d in order[..i]
  }

  ghost predicate IsEnumeration<N(!new)>(nodes: set<N>, order: seq<N>) {
    Distinct(order) && forall n :: n in order <==> n in nodes
  }

  /** The order the propagation relies on: an enumeration of the nodes in which a node that reaches
      no cycle comes after all its dependencies and before every node that does reach one. */
  ghost predicate LeavesFirst<N(!new)>(g: Graph<N>, order: seq<N>) {
    && IsEnumeration(g.nodes, order)
    && (forall i :: 0 <= i < |order| && !ReachesCycle(g, order[i]) ==> DepsBefore(g, order, i))
    && (forall i, j :: 0 <= i < j < |order| && !ReachesCycle(g, order[j]) ==> !ReachesCycle(g, order[i]))
  }

  // ---------- counting dependencies ----------

  /** The elements of xs outside s, in order and with their multiplicity. */
  ghost function Outside<N>(xs: seq<N>, s: set<N>): seq<N> {
    if xs == [] then []
    else if xs[|xs| - 1] in s then Outside(xs[..|xs| - 1], s)
    else Outside(xs[..|xs| - 1], s) + [xs[|xs| - 1]]
  }

  /** Putting one more node into s takes its occurrences out of the rest. */
  lemma {:induction false} OutsideInsert<N>(xs: seq<N>, s: set<N>, n: N)
    requires n !in s
    ensures |Outside(xs, s + {n})| + multiset(xs)[n] == |Outside(xs, s)|
  {
    if xs != [] {
      var front := xs[..|xs| - 1];
      OutsideInsert(front, s, n);
      assert xs == front + [xs[|xs| - 1]];
    }
  }

  lemma {:induction false} OutsideEmpty<N>(xs: seq<N>, s: set<N>)
    ensures Outside(xs, s) == [] <==> forall x :: x in xs ==> x in s
  {
    if xs != [] {
      var front := xs[..|xs| - 1];
      OutsideEmpty(front, s);
      assert xs == front + [xs[|xs| - 1]];
    }
  }

  lemma {:induction false} OutsideNothing<N>(xs: seq<N>)
    ensures Outside(xs, {}) == xs
  {
    if xs != [] {
      OutsideNothing(xs[..|xs| - 1]);
    }
  }

  lemma KeepNext<N(!new)>(xs: seq<N>, i: nat, s: set<N>)
    requires i < |xs|
    ensures Keep(xs[..i + 1], s) == Keep(xs[..i], s) + (if xs[i] in s then [xs[i]] else [])
  {
    assert xs[..i + 1][..i] == xs[..i];
  }

  // ---------- the two dictionaries ----------

  /** How often parent occurs in reverse.get(dep, []). */
  ghost function Occurrences<N>(reverse: map<N, seq<N>>, dep: N, parent: N): nat {
    if dep in reverse then multiset(reverse[dep])[parent] else 0
  }

  lemma OccurrencesAfter<N(!new)>(reverse: map<N, seq<N>>, dep: N, parent: N)
    ensures forall d, p :: Occurrences(reverse[dep := Listed(reverse, dep) + [parent]], d, p) ==
                           Occurrences(reverse, d, p) + if d == dep && p == parent then 1 else 0
  {
  }

  /** How often d occurs among the kept elements of xs. */
  ghost function KeptCount<N(!new)>(xs: seq<N>, s: set<N>, d: N): nat {
    multiset(Keep(xs, s))[d]
  }

  lemma KeptCountNext<N(!new)>(xs: seq<N>, i: nat, s: set<N>)
    requires i < |xs|
    ensures forall d :: KeptCount(xs[..i + 1], s, d) == KeptCount(xs[..i], s, d) + if d == xs[i] && d in s then 1 else 0
  {
    KeepNext(xs, i, s);
  }

  /** reverse_children: for each dependency the parents that list it, once per listing. */
  method ReverseChildren<N(==,!new)>(nodes: set<N>, children: map<N, seq<N>>) returns (reverse: map<N, seq<N>>)
    ensures forall d, p :: Occurrences(reverse, d, p) ==
                           if p in nodes then KeptCount(Listed(children, p), nodes, d) else 0
  {
    reverse := map[];
    var todo := children.Keys;
    while todo != {}
      invariant todo <= children.Keys
      invariant forall d, p :: Occurrences(reverse, d, p) ==
                               if p in nodes && p !in todo then KeptCount(Listed(children, p), nodes, d) else 0
    {
      var parent :| parent in todo;
      todo := todo - {parent};
      reverse := AddListings(nodes, reverse, parent, children[parent]);
    }
  }

  method AddListings<N(==,!new)>(nodes: set<N>, before: map<N, seq<N>>, parent: N, deps: seq<N>)
    returns (reverse: map<N, seq<N>>)
    ensures forall d, p :: Occurrences(reverse, d, p) == Occurrences(before, d, p) +
                           if p == parent && parent in nodes then KeptCount(deps, nodes, d) else 0
  {
    reverse := before;
    assert deps[..0] == [] && forall d :: KeptCount(deps[..0], nodes, d) == 0;
    for i := 0 to |deps|
      invariant forall d, p :: Occurrences(reverse, d, p) == Occurrences(before, d, p) +
                               if p == parent && parent in nodes then KeptCount(deps[..i], nodes, d) else 0
    {
      KeptCountNext(deps, i, nodes);
      var dep := deps[i];
      if dep in nodes && parent in nodes {
        OccurrencesAfter(reverse, dep, parent);
        reverse := reverse[dep := Listed(reverse, dep) + [parent]];
      }
    }
    assert deps[..|deps|] == deps;
  }

  /** Counts the dependencies of one node. */
  method CountDeps<N(==,!new)>(nodes: set<N>, deps: seq<N>, parent: N, before: map<N, int>)
    returns (outDegree: map<N, int>)
    requires parent in before && before[parent] == 0
    ensures outDegree == before[parent := |Keep(deps, nodes)|]
  {
    outDegree := before;
    for i := 0 to |deps|
      invariant outDegree == before[parent := |Keep(deps[..i], nodes)|]
    {
      KeepNext(deps, i, nodes);
      if deps[i] in nodes {
        outDegree := outDegree[parent := outDegree[parent] + 1];
      }
    }
    assert deps[..|deps|] == deps;
  }

  /** out_degree: how many listed dependencies each node has inside the node set. */
  method OutDegrees<N(==,!new)>(nodes: set<N>, children: map<N, seq<N>>) returns (outDegree: map<N, int>)
    ensures outDegree.Keys == nodes
    ensures forall p :: p in nodes ==> outDegree[p] == |Deps(Graph(nodes, children), p)|
  {
    outDegree := map n | n in nodes :: 0;
    var todo := nodes;
    while todo != {}
      invariant todo <= nodes && outDegree.Keys == nodes
      invariant forall p :: p in nodes ==>
        outDegree[p] == if p in todo then 0 else |Deps(Graph(nodes, children), p)|
    {
      var parent :| parent in todo;
      todo := todo - {parent};
      outDegree := CountDeps(nodes, Listed(children, parent), parent, outDegree);
    }
  }

  // ---------- what the worklist leaves behind ----------

  /** Following k edges from position i of a dependencies-before order ends at an earlier position. */
  lemma {:induction false} StepsGoBack<N(!new)>(g: Graph<N>, order: seq<N>, i: nat, x: N, k: nat)
    requires forall j :: 0 <= j < |order| ==> DepsBefore(g, order, j)
    requires i < |order| && Steps(g, order[i], x, k)
    ensures exists j :: 0 <= j <= i && order[j] == x && (k > 0 ==> j < i)
    decreases k
  {
    if k > 0 {
      var m := FirstStep(g, order[i], x, k);
      assert DepsBefore(g, order, i);
      var j :| 0 <= j < i && order[j] == m;
      StepsGoBack(g, order, j, x, k - 1);
    }
  }

  lemma OrderedIsAcyclic<N(!new)>(g: Graph<N>, order: seq<N>, i: nat)
    requires Distinct(order) && i < |order|
    requires forall j :: 0 <= j < |order| ==> DepsBefore(g, order, j)
    ensures !ReachesCycle(g, order[i])
  {
    if ReachesCycle(g, order[i]) {
      var c :| Reaches(g, order[i], c) && OnCycle(g, c);
      var k: nat :| Steps(g, order[i], c, k);
      StepsGoBack(g, order, i, c, k);
      var j :| 0 <= j < |order| && order[j] == c;
      var n: nat :| n > 0 && Steps(g, c, c, n);
      StepsGoBack(g, order, j, c, n);
      assert false;
    }
  }

  /** A node no worklist pass could free still waits for another such node. */
  lemma LeftoverReachesCycle<N(!new)>(g: Graph<N>, visited: set<N>, p: N)
    requires p in g.nodes && p !in visited
    requires forall a :: a in g.nodes && a !in visited ==> Outside(Deps(g, a), visited) != []
    ensures ReachesCycle(g, p)
  {
    var left := g.nodes - visited;
    forall a | a in left
      ensures HasDepIn(g, a, left)
    {
      OutsideEmpty(Deps(g, a), visited);
    }
    StuckReachesCycle(g, left, p);
  }

  // ---------- the sort ----------

  ghost predicate Frees<N(!new)>(g: Graph<N>, visited: set<N>, a: N) {
    a in g.nodes && forall d :: d in Deps(g, a) ==> d in visited
  }

  /** Leaves first; the nodes that never become free follow in any order. Iterating over a set or
      over dictionary keys is a choice the method leaves open. */
  method ReverseTopologicalSort<N(==,!new)>(nodes: set<N>, children: map<N, seq<N>>) returns (result: seq<N>)
    ensures LeavesFirst(Graph(nodes, children), result)
  {
    var reverse := ReverseChildren(nodes, children);
    var outDegree := OutDegrees(nodes, children);
    var queue := InitialQueue(nodes, outDegree);
    forall a
      ensures Outside(Deps(Graph(nodes, children), a), {}) == Deps(Graph(nodes, children), a)
    {
      OutsideNothing(Deps(Graph(nodes, children), a));
    }
    ghost var emitted;
    emitted, result := DrainQueue(nodes, children, reverse, queue, outDegree);
    assert forall i :: 0 <= i < |emitted| ==>
      result[..i] == emitted[..i] && DepsBefore(Graph(nodes, children), emitted, i);
  }

  method InitialQueue<N(==,!new)>(nodes: set<N>, outDegree: map<N, int>) returns (queue: seq<N>)
    requires outDegree.Keys == nodes
    ensures forall a :: a in queue <==> a in nodes && outDegree[a] == 0
  {
    queue := [];
    var todo := nodes;
    while todo != {}
      invariant todo <= nodes
      invariant forall a :: a in queue <==> a in nodes - todo && outDegree[a] == 0
    {
      var n :| n in todo;
      todo := todo - {n};
      if outDegree[n] == 0 {
        queue := queue + [n];
      }
    }
  }

  /** The state of the worklist loop: what has been emitted, and what the counts and queue promise. */
  ghost predicate Draining<N(!new)>(g: Graph<N>, visited: set<N>, result: seq<N>, queue: seq<N>,
                                    outDegree: map<N, int>) {
    && visited <= g.nodes && outDegree.Keys == g.nodes
    && IsEnumeration(visited, result)
    && (forall i :: 0 <= i < |result| ==> DepsBefore(g, result, i))
    && (forall a :: a in g.nodes && a !in visited ==> outDegree[a] == |Outside(Deps(g, a), visited)|)
    && (forall a :: a in queue ==> Frees(g, visited, a))
    && (forall a :: a in g.nodes && a !in visited && outDegree[a] == 0 ==> a in queue)
  }

  lemma EmitNode<N(!new)>(g: Graph<N>, result: seq<N>, visited: set<N>, node: N)
    requires IsEnumeration(visited, result) && node !in visited && Frees(g, visited, node)
    requires forall i :: 0 <= i < |result| ==> DepsBefore(g, result, i)
    ensures IsEnumeration(visited + {node}, result + [node])
    ensures forall i :: 0 <= i <= |result| ==> DepsBefore(g, result + [node], i)
  {
    var longer := result + [node];
    forall i | 0 <= i <= |result|
      ensures DepsBefore(g, longer, i)
    {
      assert longer[..i] == result[..i];
      if i < |result| {
        assert DepsBefore(g, result, i);
      } else {
        assert result[..i] == result;
      }
    }
  }

  method DrainQueue<N(==,!new)>(nodes: set<N>, children: map<N, seq<N>>, reverse: map<N, seq<N>>,
                                initialQueue: seq<N>, initialOutDegree: map<N, int>)
    returns (ghost emitted: seq<N>, result: seq<N>)
    requires forall d, p :: Occurrences(reverse, d, p) ==
                            if p in nodes then KeptCount(Listed(children, p), nodes, d) else 0
    requires Draining(Graph(nodes, children), {}, [], initialQueue, initialOutDegree)
    ensures IsEnumeration(nodes, result) && emitted <= result
    ensures forall i :: 0 <= i < |emitted| ==> DepsBefore(Graph(nodes, children), emitted, i)
    ensures forall i :: 0 <= i < |result| ==> (i < |emitted| <==> !ReachesCycle(Graph(nodes, children), result[i]))
  {
    ghost var g := Graph(nodes, children);
    result := [];
    var visited: set<N> := {};
    var queue, outDegree := initialQueue, initialOutDegree;
    while queue != []
      invariant Draining(g, visited, result, queue, outDegree)
      decreases nodes - visited, |queue|
    {
      var node := queue[0];
      assert queue == [node] + queue[1..];
      assert Frees(g, visited, node);
      queue := queue[1..];
      if node !in visited {
        EmitNode(g, result, visited, node);
        queue, outDegree := VisitNode(g, visited, visited + {node}, node, reverse, queue, outDegree);
        visited := visited + {node};
        result := result + [node];
      }
    }
    WorklistIsExact(g, visited, result, outDegree);
    emitted := result;
    result := AppendRest(nodes, visited, result);
  }

  lemma WorklistIsExact<N(!new)>(g: Graph<N>, visited: set<N>, result: seq<N>, outDegree: map<N, int>)
    requires Draining(g, visited, result, [], outDegree)
    ensures forall a :: a in g.nodes ==> (a in visited <==> !ReachesCycle(g, a))
  {
    forall a | a in g.nodes
      ensures a in visited <==> !ReachesCycle(g, a)
    {
      if a in visited {
        var i :| 0 <= i < |result| && result[i] == a;
        OrderedIsAcyclic(g, result, i);
      } else {
        LeftoverReachesCycle(g, visited, a);
      }
    }
  }

  /** The final loop: nodes the worklist never reached. */
  method AppendRest<N(==,!new)>(nodes: set<N>, visited: set<N>, emitted: seq<N>) returns (result: seq<N>)
    requires visited <= nodes && IsEnumeration(visited, emitted)
    ensures IsEnumeration(nodes, result) && emitted <= result
    ensures forall i :: 0 <= i < |result| ==> (i < |emitted| <==> result[i] in visited)
  {
    result := emitted;
    var todo := nodes;
    while todo != {}
      invariant todo <= nodes
      invariant emitted <= result && Distinct(result)
      invariant forall a :: a in result <==> a in visited || a in nodes - todo
      invariant forall i :: 0 <= i < |result| ==> (i < |emitted| <==> result[i] in visited)
    {
      var n :| n in todo;
      todo := todo - {n};
      if n !in visited {
        result := result + [n];
      }
    }
  }

  /** The number of dependencies each node still waits for once node has been visited. */
  lemma OpenCounts<N(!new)>(g: Graph<N>, before: set<N>, visited: set<N>, node: N, reverse: map<N, seq<N>>)
    returns (open: map<N, nat>)
    requires node !in before && visited == before + {node}
    requires forall p :: Occurrences(reverse, node, p) ==
                         if p in g.nodes then KeptCount(Listed(g.children, p), g.nodes, node) else 0
    ensures open.Keys == g.nodes && forall a :: a in Listed(reverse, node) ==> a in g.nodes
    ensures forall a :: a in g.nodes ==> open[a] == |Outside(Deps(g, a), visited)|
    ensures forall a :: a in g.nodes ==>
      |Outside(Deps(g, a), before)| == open[a] + multiset(Listed(reverse, node))[a]
    ensures forall a :: a in g.nodes && open[a] == 0 ==> Frees(g, visited, a)
  {
    open := map a | a in g.nodes :: |Outside(Deps(g, a), visited)|;
    forall a | a in Listed(reverse, node)
      ensures a in g.nodes
    {
      assert Occurrences(reverse, node, a) == multiset(Listed(reverse, node))[a] > 0;
    }
    forall a | a in g.nodes
      ensures open[a] == 0 ==> Frees(g, visited, a)
      ensures |Outside(Deps(g, a), before)| == open[a] + multiset(Listed(reverse, node))[a]
    {
      OutsideEmpty(Deps(g, a), visited);
      OutsideInsert(Deps(g, a), before, node);
      assert Occurrences(reverse, node, a) == multiset(Listed(reverse, node))[a];
    }
  }

  /** One visit: node has just joined visited, and its parents are told. */
  method VisitNode<N(==,!new)>(ghost g: Graph<N>, ghost before: set<N>, visited: set<N>, node: N,
                               reverse: map<N, seq<N>>, queue: seq<N>, outDegree: map<N, int>)
    returns (queue': seq<N>, outDegree': map<N, int>)
    requires node !in before && visited == before + {node} && outDegree.Keys == g.nodes
    requires forall p :: Occurrences(reverse, node, p) ==
                         if p in g.nodes then KeptCount(Listed(g.children, p), g.nodes, node) else 0
    requires forall a :: a in g.nodes && a !in before ==> outDegree[a] == |Outside(Deps(g, a), before)|
    requires forall a :: a in queue ==> Frees(g, before, a)
    requires forall a :: a in g.nodes && a !in visited && outDegree[a] == 0 ==> a in queue
    ensures outDegree'.Keys == g.nodes
    ensures forall a :: a in g.nodes && a !in visited ==> outDegree'[a] == |Outside(Deps(g, a), visited)|
    ensures forall a :: a in queue' ==> Frees(g, visited, a)
    ensures forall a :: a in g.nodes && a !in visited && outDegree'[a] == 0 ==> a in queue'
  {
    ghost var open := OpenCounts(g, before, visited, node, reverse);
    var parents := Listed(reverse, node);
    queue', outDegree' := ReleaseParents(visited, parents, queue, outDegree, open);
  }

  /** The inner loop: each listing by an unvisited parent lowers the parent's out-degree; a parent
      whose count reaches zero joins the queue. `open` counts the dependencies still unvisited. */
  method ReleaseParents<N(==,!new)>(visited: set<N>, parents: seq<N>, queue: seq<N>, outDegree: map<N, int>,
                                    ghost open: map<N, nat>)
    returns (queue': seq<N>, outDegree': map<N, int>)
    requires outDegree.Keys == open.Keys && forall a :: a in parents ==> a in open
    requires forall a :: a in open && a !in visited ==> outDegree[a] == open[a] + multiset(parents)[a]
    requires forall a :: a in open && a !in visited && outDegree[a] == 0 ==> a in queue
    ensures outDegree'.Keys == open.Keys
    ensures forall a :: a in open && a !in visited ==> outDegree'[a] == open[a]
    ensures forall a :: a in queue' ==> a in queue || (a in open && open[a] == 0)
    ensures forall a :: a in open && a !in visited && open[a] == 0 ==> a in queue'
  {
    queue', outDegree' := queue, outDegree;
    assert parents[0..] == parents;
    for i := 0 to |parents|
      invariant outDegree'.Keys == open.Keys
      invariant forall a :: a in open && a !in visited ==> outDegree'[a] == open[a] + multiset(parents[i..])[a]
      invariant forall a :: a in queue' ==> a in queue || (a in open && open[a] == 0)
      invariant forall a :: a in open && a !in visited && outDegree'[a] == 0 ==> a in queue'
    {
      var parent := parents[i];
      assert parents[i..] == [parent] + parents[i + 1..];
      if parent !in visited {
        outDegree' := outDegree'[parent := outDegree'[parent] - 1];
        if outDegree'[parent] <= 0 {
          queue' := queue' + [parent];
        }
      }
    }
  }
}
