/** Spreading application scan ids over a dependency list, and counting degrees. */
module ScanIds {
  import opened Lists
  import opened Options
  import opened Graphs
  import opened TopologicalSort

  datatype Key = Key(group: string, project: string, version: string)

  datatype Dependency = Dependency(from: Key, to: Key)

  class Version {
    const key: Key
    const isApplication: bool
    const scanId: Option<string>
    var scanIds: seq<string>
    var inDegree: nat
    var outDegree: nat

    constructor (key: Key, isApplication: bool, scanId: Option<string>)
      ensures this.key == key && this.isApplication == isApplication && this.scanId == scanId
      ensures scanIds == [] && inDegree == 0 && outDegree == 0
    {
      this.key, this.isApplication, this.scanId := key, isApplication, scanId;
      scanIds, inDegree, outDegree := [], 0, 0;
    }

    /** An application with a scan id to hand on. */
    predicate Spreads() {
      isApplication && scanId.Some? && scanId.value != ""
    }
  }

  // ---------- the dictionaries ----------

  /** {key: v for v in versions}: the last version of a key wins. */
  function VersionMap(versions: seq<Version>): (m: map<Key, Version>)
    ensures forall k :: k in m ==> m[k] in versions && m[k].key == k
    ensures forall v :: v in versions ==> v.key in m
  {
    if versions == [] then map[]
    else
      var last := versions[|versions| - 1];
      assert versions == versions[..|versions| - 1] + [last];
      VersionMap(versions[..|versions| - 1])[last.key := last]
  }

  method BuildVersionMap(versions: seq<Version>) returns (m: map<Key, Version>)
    ensures m == VersionMap(versions)
  {
    m := map[];
    for i := 0 to |versions|
      invariant m == VersionMap(versions[..i])
    {
      assert versions[..i + 1][..i] == versions[..i];
      m := m[versions[i].key := versions[i]];
    }
    assert versions[..|versions|] == versions;
  }

  /** Where the dependencies of k lead, in order. */
  function Targets(deps: seq<Dependency>, k: Key): seq<Key> {
    if deps == [] then []
    else
      var last := deps[|deps| - 1];
      Targets(deps[..|deps| - 1], k) + if last.from == k then [last.to] else []
  }

  method BuildAdjacency(deps: seq<Dependency>) returns (adj: map<Key, seq<Key>>)
    ensures forall k :: Listed(adj, k) == Targets(deps, k)
  {
    adj := map[];
    for i := 0 to |deps|
      invariant forall k :: Listed(adj, k) == Targets(deps[..i], k)
    {
      var d := deps[i];
      assert deps[..i + 1][..i] == deps[..i];
      if d.from !in adj {
        adj := adj[d.from := []];
      }
      adj := adj[d.from := adj[d.from] + [d.to]];
    }
    assert deps[..|deps|] == deps;
  }

  ghost function Endpoints(deps: seq<Dependency>): set<Key> {
    (set d | d in deps :: d.from) + (set d | d in deps :: d.to)
  }

  /** The dependency list as a graph; its endpoints need not be known versions. */
  ghost function GraphOf(deps: seq<Dependency>): Graph<Key> {
    Graph(Endpoints(deps), map k | k in Endpoints(deps) :: Targets(deps, k))
  }

  lemma {:induction false} TargetsAre(deps: seq<Dependency>, k: Key, t: Key)
    ensures t in Targets(deps, k) <==> Dependency(k, t) in deps
  {
    if deps != [] {
      var front, last := deps[..|deps| - 1], deps[|deps| - 1];
      assert deps == front + [last];
      TargetsAre(front, k, t);
    }
  }

  /** The graph has an edge for every dependency and no other. */
  lemma EdgesAreDependencies(deps: seq<Dependency>, k: Key, t: Key)
    ensures t in Deps(GraphOf(deps), k) <==> Dependency(k, t) in deps
    ensures t in Targets(deps, k) <==> Dependency(k, t) in deps
  {
    TargetsAre(deps, k, t);
    if Dependency(k, t) in deps {
      assert k in Endpoints(deps) && t in Endpoints(deps);
    }
  }

  // ---------- breadth-first search ----------

  /** What a visited set is worth: closed under the dependencies of all that is no longer queued. */
  ghost predicate Explored(deps: seq<Dependency>, root: Key, visited: set<Key>, queue: seq<Key>) {
    && root in visited
    && (forall k :: k in queue ==> k in visited)
    && (forall k :: k in visited ==> Reaches(GraphOf(deps), root, k))
    && (forall k, t :: k in visited && k !in queue && t in Targets(deps, k) ==> t in visited)
  }

  lemma {:induction false} ClosedContains(deps: seq<Dependency>, visited: set<Key>, a: Key, b: Key, n: nat)
    requires forall k, t :: k in visited && t in Targets(deps, k) ==> t in visited
    requires a in visited && Steps(GraphOf(deps), a, b, n)
    ensures b in visited
    decreases n
  {
    if n > 0 {
      var m := FirstStep(GraphOf(deps), a, b, n);
      EdgesAreDependencies(deps, a, m);
      ClosedContains(deps, visited, m, b, n - 1);
    }
  }

  lemma ExploredIsReachable(deps: seq<Dependency>, root: Key, visited: set<Key>, k: Key)
    requires Explored(deps, root, visited, [])
    ensures k in visited <==> Reaches(GraphOf(deps), root, k)
  {
    if Reaches(GraphOf(deps), root, k) {
      var n: nat :| Steps(GraphOf(deps), root, k, n);
      ClosedContains(deps, visited, root, k, n);
    }
  }

  /** The keys a search from root can ever visit. */
  ghost function Universe(deps: seq<Dependency>, root: Key): set<Key> {
    Endpoints(deps) + {root}
  }

  ghost function Elements<T>(xs: seq<T>): set<T> {
    set x | x in xs
  }

  /** A queue without repetitions is as long as it has elements. */
  lemma {:induction false} ElementsSize<T>(xs: seq<T>)
    ensures |Elements(xs)| <= |xs|
  {
    if xs != [] {
      var front, last := xs[..|xs| - 1], xs[|xs| - 1];
      ElementsSize(front);
      assert Elements(xs) == Elements(front) + {last};
    }
  }

  /** Visited keys are reachable, queued ones visited; a queued key is counted twice, so that a search
      makes progress by taking keys off the queue. */
  ghost predicate Searching(deps: seq<Dependency>, root: Key, visited: set<Key>, queue: seq<Key>, fuel: int) {
    && (forall k :: k in queue ==> k in visited)
    && (forall k :: k in visited ==> Reaches(GraphOf(deps), root, k) && k in Universe(deps, root))
    && |Elements(queue)| == |queue|
    && |Universe(deps, root) - visited| + |queue| == fuel
  }

  /** Visiting takes nothing back, and only queued keys are new. */
  ghost predicate Extends(visited0: set<Key>, queue0: seq<Key>, visited: set<Key>, queue: seq<Key>) {
    && visited0 <= visited && queue0 <= queue
    && forall k :: k in visited && k !in queue <==> k in visited0 && k !in queue0
  }

  lemma Enqueued(deps: seq<Dependency>, root: Key, current: Key, visited: set<Key>, queue: seq<Key>, fuel: int, t: Key)
    requires Searching(deps, root, visited, queue, fuel) && t !in visited
    requires t in Targets(deps, current) && Reaches(GraphOf(deps), root, current)
    ensures Searching(deps, root, visited + {t}, queue + [t], fuel)
    ensures Extends(visited, queue, visited + {t}, queue + [t])
  {
    TargetReached(deps, root, current, t);
    TakeOut(Universe(deps, root), visited, t);
    assert Elements(queue + [t]) == Elements(queue) + {t};
  }

  /** The visited set and the queue after looking at the targets. */
  function Expanded(targets: seq<Key>, visited: set<Key>, queue: seq<Key>): (set<Key>, seq<Key>) {
    if targets == [] then (visited, queue)
    else
      var last, before := targets[|targets| - 1], Expanded(targets[..|targets| - 1], visited, queue);
      if last in before.0 then before else (before.0 + {last}, before.1 + [last])
  }

  /** for dep in adj.get(current, []): visit and enqueue what is new. */
  method Expand(targets: seq<Key>, visited0: set<Key>, queue0: seq<Key>) returns (visited: set<Key>, queue: seq<Key>)
    ensures (visited, queue) == Expanded(targets, visited0, queue0)
  {
    visited, queue := visited0, queue0;
    for i := 0 to |targets|
      invariant (visited, queue) == Expanded(targets[..i], visited0, queue0)
    {
      assert targets[..i + 1][..i] == targets[..i];
      if targets[i] !in visited {
        visited, queue := visited + {targets[i]}, queue + [targets[i]];
      }
    }
    assert targets[..|targets|] == targets;
  }

  lemma ExtendsOn(v0: set<Key>, q0: seq<Key>, v1: set<Key>, q1: seq<Key>, v2: set<Key>, q2: seq<Key>)
    requires Extends(v0, q0, v1, q1) && Extends(v1, q1, v2, q2)
    ensures Extends(v0, q0, v2, q2)
  {
  }

  lemma {:induction false} ExpandedSearches(deps: seq<Dependency>, root: Key, current: Key, targets: seq<Key>,
                                            visited: set<Key>, queue: seq<Key>, fuel: int)
    requires Searching(deps, root, visited, queue, fuel) && Reaches(GraphOf(deps), root, current)
    requires forall t :: t in targets ==> t in Targets(deps, current)
    ensures var (v, q) := Expanded(targets, visited, queue);
            && Searching(deps, root, v, q, fuel) && Extends(visited, queue, v, q)
            && forall t :: t in targets ==> t in v
  {
    if targets != [] {
      var front, last := targets[..|targets| - 1], targets[|targets| - 1];
      assert targets == front + [last];
      ExpandedSearches(deps, root, current, front, visited, queue, fuel);
      var before := Expanded(front, visited, queue);
      if last !in before.0 {
        Enqueued(deps, root, current, before.0, before.1, fuel, last);
        ExtendsOn(visited, queue, before.0, before.1, before.0 + {last}, before.1 + [last]);
      }
    }
  }

  lemma TargetReached(deps: seq<Dependency>, root: Key, current: Key, t: Key)
    requires t in Targets(deps, current) && Reaches(GraphOf(deps), root, current)
    ensures Reaches(GraphOf(deps), root, t) && t in Universe(deps, root)
  {
    EdgesAreDependencies(deps, current, t);
    ReachesChild(GraphOf(deps), current, t);
    ReachesCompose(GraphOf(deps), root, current, t);
  }

  lemma TakeOut<T>(all: set<T>, seen: set<T>, x: T)
    requires x in all && x !in seen
    ensures |all - (seen + {x})| == |all - seen| - 1
  {
    assert all - (seen + {x}) == (all - seen) - {x};
  }

  lemma ExploredStep(deps: seq<Dependency>, root: Key, visited: set<Key>, current: Key, rest: seq<Key>,
                     visited': set<Key>, queue': seq<Key>, fuel: int)
    requires Explored(deps, root, visited, [current] + rest) && current !in rest
    requires Extends(visited, rest, visited', queue') && Searching(deps, root, visited', queue', fuel)
    requires forall t :: t in Targets(deps, current) ==> t in visited'
    ensures Explored(deps, root, visited', queue')
  {
  }

  /** The visited keys that the search is through with. */
  ghost function Finished(visited: set<Key>, queue: seq<Key>): set<Key> {
    set k | k in visited && k !in queue
  }

  lemma FinishedStep(visited: set<Key>, current: Key, rest: seq<Key>, visited': set<Key>, queue': seq<Key>)
    requires Extends(visited, rest, visited', queue') && current in visited && current !in rest
    ensures Finished(visited', queue') == Finished(visited, [current] + rest) + {current}
  {
  }

  /** The known versions of the finished keys have the id on top of their scan ids, the others do not. */
  ghost predicate Marked(known: map<Key, Version>, base: map<Key, seq<string>>, id: string, finished: set<Key>)
    reads known.Values
  {
    && base.Keys == known.Keys
    && forall k :: k in known ==> known[k].scanIds == if k in finished then With(base[k], id) else base[k]
  }

  /** current_version.scan_ids gets the id unless it has it; an unknown key is passed over. */
  method Mark(known: map<Key, Version>, current: Key, id: string, ghost base: map<Key, seq<string>>,
              ghost finished: set<Key>)
    requires forall k :: k in known ==> known[k].key == k
    requires Marked(known, base, id, finished)
    modifies set k | k in known :: known[k]`scanIds
    ensures Marked(known, base, id, finished + {current})
  {
    if current in known && id !in known[current].scanIds {
      known[current].scanIds := known[current].scanIds + [id];
    }
  }

  lemma SearchStarts(deps: seq<Dependency>, root: Key)
    ensures Explored(deps, root, {root}, [root])
    ensures Searching(deps, root, {root}, [root], |Universe(deps, root) - {root}| + 1)
  {
    ReachesSelf(GraphOf(deps), root);
    assert Elements([root]) == {root};
  }

  lemma TakesNext(deps: seq<Dependency>, root: Key, visited: set<Key>, current: Key, rest: seq<Key>, fuel: int)
    requires Searching(deps, root, visited, [current] + rest, fuel)
    ensures Searching(deps, root, visited, rest, fuel - 1) && current in visited && current !in rest
    ensures Reaches(GraphOf(deps), root, current)
  {
    var queue := [current] + rest;
    assert queue[0] == current && forall k :: k in rest ==> k in queue;
    ElementsSize(rest);
    assert Elements(queue) == Elements(rest) + {current};
  }

  /** One turn of the search: mark the next version, and queue what it depends on. */
  method Visit(known: map<Key, Version>, adj: map<Key, seq<Key>>, deps: seq<Dependency>, ghost root: Key, id: string,
               visited0: set<Key>, queue0: seq<Key>, ghost fuel: int, ghost base: map<Key, seq<string>>)
    returns (visited: set<Key>, queue: seq<Key>)
    requires queue0 != [] && forall k :: k in known ==> known[k].key == k
    requires forall k :: Listed(adj, k) == Targets(deps, k)
    requires Explored(deps, root, visited0, queue0) && Searching(deps, root, visited0, queue0, fuel)
    requires Marked(known, base, id, Finished(visited0, queue0))
    modifies set k | k in known :: known[k]`scanIds
    ensures Explored(deps, root, visited, queue) && Searching(deps, root, visited, queue, fuel - 1)
    ensures Marked(known, base, id, Finished(visited, queue))
  {
    var current, rest := queue0[0], queue0[1..];
    assert queue0 == [current] + rest;
    TakesNext(deps, root, visited0, current, rest, fuel);
    Mark(known, current, id, base, Finished(visited0, queue0));
    visited, queue := Expand(Listed(adj, current), visited0, rest);
    ExpandedSearches(deps, root, current, Targets(deps, current), visited0, rest, fuel - 1);
    ExploredStep(deps, root, visited0, current, rest, visited, queue, fuel - 1);
    FinishedStep(visited0, current, rest, visited, queue);
  }

  lemma SearchEnds(deps: seq<Dependency>, root: Key, visited: set<Key>, known: map<Key, Version>,
                   base: map<Key, seq<string>>, id: string)
    requires Explored(deps, root, visited, []) && Marked(known, base, id, Finished(visited, []))
    ensures forall k :: k in known ==>
      known[k].scanIds == if Reaches(GraphOf(deps), root, k) then With(base[k], id) else base[k]
  {
    forall k | k in known
      ensures k in Finished(visited, []) <==> Reaches(GraphOf(deps), root, k)
    {
      ExploredIsReachable(deps, root, visited, k);
    }
  }

  /** The search from one application: exactly the known versions reachable from it get its scan id,
      each once. */
  method Spread(known: map<Key, Version>, adj: map<Key, seq<Key>>, deps: seq<Dependency>, root: Key, id: string)
    requires forall k :: k in known ==> known[k].key == k
    requires forall k :: Listed(adj, k) == Targets(deps, k)
    modifies set k | k in known :: known[k]`scanIds
    ensures forall k :: k in known ==>
      known[k].scanIds == if Reaches(GraphOf(deps), root, k) then With(old(known[k].scanIds), id)
                          else old(known[k].scanIds)
  {
    ghost var base := map k | k in known :: known[k].scanIds;
    var visited, queue := {root}, [root];
    ghost var fuel: int := |Universe(deps, root) - {root}| + 1;
    SearchStarts(deps, root);
    while queue != []
      invariant Explored(deps, root, visited, queue) && Searching(deps, root, visited, queue, fuel)
      invariant Marked(known, base, id, Finished(visited, queue))
      decreases fuel
    {
      visited, queue := Visit(known, adj, deps, root, id, visited, queue, fuel, base);
      fuel := fuel - 1;
    }
    SearchEnds(deps, root, visited, known, base, id);
  }

  // ---------- all applications ----------

  /** The scan ids of key k after the searches from the applications in versions, in order. */
  ghost function Collected(versions: seq<Version>, deps: seq<Dependency>, k: Key, base: seq<string>): seq<string> {
    if versions == [] then base
    else
      var last, before := versions[|versions| - 1], Collected(versions[..|versions| - 1], deps, k, base);
      if last.Spreads() && Reaches(GraphOf(deps), last.key, k) then With(before, last.scanId.value) else before
  }

  /** Some application with this scan id depends on k, directly or not, or is k. */
  ghost predicate Handed(versions: seq<Version>, deps: seq<Dependency>, k: Key, id: string) {
    exists a :: a in versions && a.Spreads() && a.scanId.value == id && Reaches(GraphOf(deps), a.key, k)
  }

  lemma HandedNext(front: seq<Version>, a: Version, deps: seq<Dependency>, k: Key, id: string)
    ensures Handed(front + [a], deps, k, id) <==>
      Handed(front, deps, k, id) || (a.Spreads() && a.scanId.value == id && Reaches(GraphOf(deps), a.key, k))
  {
    if Handed(front, deps, k, id) {
      var b :| b in front && b.Spreads() && b.scanId.value == id && Reaches(GraphOf(deps), b.key, k);
      assert b in front + [a];
    }
    assert a in front + [a];
  }

  /** Afterwards an id is listed exactly if it was before or some application hands it on; what was
      listed stays in front, and no list gets duplicates. */
  lemma {:induction false} CollectedExactly(versions: seq<Version>, deps: seq<Dependency>, k: Key, base: seq<string>)
    ensures var ids := Collected(versions, deps, k, base);
            && (forall id :: id in ids <==> id in base || Handed(versions, deps, k, id))
            && base <= ids && (Distinct(base) ==> Distinct(ids))
  {
    if versions != [] {
      var front, last := versions[..|versions| - 1], versions[|versions| - 1];
      assert versions == front + [last];
      CollectedExactly(front, deps, k, base);
      forall id
        ensures Handed(versions, deps, k, id) <==>
          Handed(front, deps, k, id) ||
            (last.Spreads() && last.scanId.value == id && Reaches(GraphOf(deps), last.key, k))
      {
        HandedNext(front, last, deps, k, id);
      }
    }
  }

  /** One turn of the outer loop. */
  method SpreadNext(versions: seq<Version>, i: nat, known: map<Key, Version>, adj: map<Key, seq<Key>>,
                    deps: seq<Dependency>, ghost base: map<Key, seq<string>>)
    requires i < |versions| && base.Keys == known.Keys
    requires forall k :: k in known ==> known[k].key == k
    requires forall k :: Listed(adj, k) == Targets(deps, k)
    requires forall k :: k in known ==> known[k].scanIds == Collected(versions[..i], deps, k, base[k])
    modifies set k | k in known :: known[k]`scanIds
    ensures forall k :: k in known ==> known[k].scanIds == Collected(versions[..i + 1], deps, k, base[k])
  {
    assert versions[..i + 1][..i] == versions[..i];
    if versions[i].Spreads() {
      Spread(known, adj, deps, versions[i].key, versions[i].scanId.value);
    }
  }

  /** The outer loop. */
  method SpreadAll(versions: seq<Version>, known: map<Key, Version>, adj: map<Key, seq<Key>>, deps: seq<Dependency>)
    requires forall k :: k in known ==> known[k].key == k
    requires forall k :: Listed(adj, k) == Targets(deps, k)
    modifies set k | k in known :: known[k]`scanIds
    ensures forall k :: k in known ==> known[k].scanIds == Collected(versions, deps, k, old(known[k].scanIds))
  {
    ghost var base := map k | k in known :: known[k].scanIds;
    for i := 0 to |versions|
      invariant forall k :: k in known ==> known[k].scanIds == Collected(versions[..i], deps, k, base[k])
    {
      SpreadNext(versions, i, known, adj, deps, base);
    }
    assert versions[..|versions|] == versions;
  }

  method PropagateScanIds(versions: seq<Version>, deps: seq<Dependency>)
    modifies (set v | v in versions)`scanIds
    ensures var known := VersionMap(versions);
            && (forall k :: k in known ==> known[k].scanIds == Collected(versions, deps, k, old(known[k].scanIds)))
            && (forall v :: v in versions && known[v.key] != v ==> v.scanIds == old(v.scanIds))
  {
    var known := BuildVersionMap(versions);
    var adj := BuildAdjacency(deps);
    SpreadAll(versions, known, adj, deps);
  }

  // ---------- degrees ----------

  function CountFrom(deps: seq<Dependency>, k: Key): nat {
    if deps == [] then 0 else CountFrom(deps[..|deps| - 1], k) + if deps[|deps| - 1].from == k then 1 else 0
  }

  function CountTo(deps: seq<Dependency>, k: Key): nat {
    if deps == [] then 0 else CountTo(deps[..|deps| - 1], k) + if deps[|deps| - 1].to == k then 1 else 0
  }

  /** v counts the dependencies whose endpoints look it up. */
  ghost predicate Counts(v: Version, known: map<Key, Version>, deps: seq<Dependency>)
    reads v
  {
    if v.key in known && known[v.key] == v then
      v.outDegree == CountFrom(deps, v.key) && v.inDegree == CountTo(deps, v.key)
    else v.outDegree == 0 && v.inDegree == 0
  }

  method ResetDegrees(versions: seq<Version>)
    modifies (set v | v in versions)`inDegree, (set v | v in versions)`outDegree
    ensures forall v :: v in versions ==> v.inDegree == 0 && v.outDegree == 0
  {
    for i := 0 to |versions|
      invariant forall j :: 0 <= j < i ==> versions[j].inDegree == 0 && versions[j].outDegree == 0
    {
      versions[i].inDegree, versions[i].outDegree := 0, 0;
    }
  }

  method CountDependency(d: Dependency, known: map<Key, Version>)
    requires forall k :: k in known ==> known[k].key == k
    modifies (set k | k in known :: known[k])`inDegree, (set k | k in known :: known[k])`outDegree
    ensures forall k :: k in known ==>
      && known[k].outDegree == old(known[k].outDegree) + (if d.from == k then 1 else 0)
      && known[k].inDegree == old(known[k].inDegree) + (if d.to == k then 1 else 0)
  {
    if d.from in known {
      known[d.from].outDegree := known[d.from].outDegree + 1;
    }
    if d.to in known {
      known[d.to].inDegree := known[d.to].inDegree + 1;
    }
  }

  lemma CountNext(deps: seq<Dependency>, i: nat, k: Key)
    requires i < |deps|
    ensures CountFrom(deps[..i + 1], k) == CountFrom(deps[..i], k) + if deps[i].from == k then 1 else 0
    ensures CountTo(deps[..i + 1], k) == CountTo(deps[..i], k) + if deps[i].to == k then 1 else 0
  {
    assert deps[..i + 1][..i] == deps[..i];
  }

  method CalculateDegrees(versions: seq<Version>, deps: seq<Dependency>)
    modifies (set v | v in versions)`inDegree, (set v | v in versions)`outDegree
    ensures forall v :: v in versions ==> Counts(v, VersionMap(versions), deps)
  {
    ResetDegrees(versions);
    var known := BuildVersionMap(versions);
    for i := 0 to |deps|
      invariant forall v :: v in versions ==> Counts(v, known, deps[..i])
    {
      forall k
        ensures CountFrom(deps[..i + 1], k) == CountFrom(deps[..i], k) + if deps[i].from == k then 1 else 0
        ensures CountTo(deps[..i + 1], k) == CountTo(deps[..i], k) + if deps[i].to == k then 1 else 0
      {
        CountNext(deps, i, k);
      }
      CountDependency(deps[i], known);
    }
    assert deps[..|deps|] == deps;
  }

  ghost function Total(keys: set<Key>, degree: map<Key, nat>): nat
    requires keys <= degree.Keys
  {
    if keys == {} then 0
    else
      var k :| k in keys;
      degree[k] + Total(keys - {k}, degree)
  }

  lemma {:induction false} TotalTakes(keys: set<Key>, degree: map<Key, nat>, k: Key)
    requires keys <= degree.Keys && k in keys
    ensures Total(keys, degree) == degree[k] + Total(keys - {k}, degree)
  {
    var first :| first in keys && Total(keys, degree) == degree[first] + Total(keys - {first}, degree);
    if first != k {
      TotalTakes(keys - {first}, degree, k);
      TotalTakes(keys - {k}, degree, first);
      assert keys - {first} - {k} == keys - {k} - {first};
    }
  }

  lemma {:induction false} TotalSame(keys: set<Key>, d: map<Key, nat>, e: map<Key, nat>)
    requires keys <= d.Keys && keys <= e.Keys && forall k :: k in keys ==> d[k] == e[k]
    ensures Total(keys, d) == Total(keys, e)
  {
    if keys != {} {
      var k :| k in keys;
      TotalTakes(keys, d, k);
      TotalTakes(keys, e, k);
      TotalSame(keys - {k}, d, e);
    }
  }

  /** How many dependencies have a known start, and a known end. */
  function KnownFrom(deps: seq<Dependency>, keys: set<Key>): nat {
    if deps == [] then 0 else KnownFrom(deps[..|deps| - 1], keys) + if deps[|deps| - 1].from in keys then 1 else 0
  }

  function KnownTo(deps: seq<Dependency>, keys: set<Key>): nat {
    if deps == [] then 0 else KnownTo(deps[..|deps| - 1], keys) + if deps[|deps| - 1].to in keys then 1 else 0
  }

  lemma TotalBump(keys: set<Key>, d: map<Key, nat>, e: map<Key, nat>, k: Key)
    requires keys <= d.Keys && keys <= e.Keys
    requires forall j :: j in keys ==> e[j] == d[j] + if j == k then 1 else 0
    ensures Total(keys, e) == Total(keys, d) + if k in keys then 1 else 0
  {
    if k in keys {
      TotalTakes(keys, d, k);
      TotalTakes(keys, e, k);
      TotalSame(keys - {k}, d, e);
    } else {
      TotalSame(keys, d, e);
    }
  }

  lemma {:induction false} TotalZero(keys: set<Key>, d: map<Key, nat>)
    requires keys <= d.Keys && forall k :: k in keys ==> d[k] == 0
    ensures Total(keys, d) == 0
  {
    if keys != {} {
      var k :| k in keys;
      TotalTakes(keys, d, k);
      TotalZero(keys - {k}, d);
    }
  }

  lemma {:induction false} OutDegreesAddUp(deps: seq<Dependency>, keys: set<Key>, degree: map<Key, nat>)
    requires keys <= degree.Keys && forall k :: k in keys ==> degree[k] == CountFrom(deps, k)
    ensures Total(keys, degree) == KnownFrom(deps, keys)
  {
    if deps == [] {
      TotalZero(keys, degree);
    } else {
      var before := map k | k in keys :: CountFrom(deps[..|deps| - 1], k);
      OutDegreesAddUp(deps[..|deps| - 1], keys, before);
      TotalBump(keys, before, degree, deps[|deps| - 1].from);
    }
  }

  lemma {:induction false} InDegreesAddUp(deps: seq<Dependency>, keys: set<Key>, degree: map<Key, nat>)
    requires keys <= degree.Keys && forall k :: k in keys ==> degree[k] == CountTo(deps, k)
    ensures Total(keys, degree) == KnownTo(deps, keys)
  {
    if deps == [] {
      TotalZero(keys, degree);
    } else {
      var before := map k | k in keys :: CountTo(deps[..|deps| - 1], k);
      InDegreesAddUp(deps[..|deps| - 1], keys, before);
      TotalBump(keys, before, degree, deps[|deps| - 1].to);
    }
  }

  /** The stored degrees of all versions add up to the dependencies whose endpoint is known. */
  lemma DegreesAddUp(versions: seq<Version>, deps: seq<Dependency>)
    requires forall v :: v in versions ==> Counts(v, VersionMap(versions), deps)
    ensures var known := VersionMap(versions);
            && Total(known.Keys, map k | k in known :: known[k].outDegree) == KnownFrom(deps, known.Keys)
            && Total(known.Keys, map k | k in known :: known[k].inDegree) == KnownTo(deps, known.Keys)
  {
    var known := VersionMap(versions);
    OutDegreesAddUp(deps, known.Keys, map k | k in known :: known[k].outDegree);
    InDegreesAddUp(deps, known.Keys, map k | k in known :: known[k].inDegree);
  }
}
