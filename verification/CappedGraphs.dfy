/** Cutting graphs down to a size that can be drawn. */
module CappedGraphs {
  import opened Options
  import opened Graphs

  datatype Node = Node(id: Option<string>, caption: string)

  datatype Edge = Edge(source: Option<string>, target: Option<string>)

  /** A node without an id below the cap is a KeyError. */
  datatype Bounded =
    | Bounded(nodes: seq<Node>, edges: seq<Edge>, truncated: bool, dropped: nat)
    | KeyError

  /** e.get(field, "") */
  function Endpoint(field: Option<string>): string {
    if field.Some? then field.value else ""
  }

  predicate Joins(e: Edge, ids: set<string>) {
    Endpoint(e.source) in ids && Endpoint(e.target) in ids
  }

  predicate IsIn(n: Node, ids: set<string>) {
    n.id.Some? && n.id.value in ids
  }

  /** How many of the nodes carry an id from ids. */
  function CountIn(nodes: seq<Node>, ids: set<string>): nat {
    if nodes == [] then 0 else CountIn(nodes[..|nodes| - 1], ids) + if IsIn(nodes[|nodes| - 1], ids) then 1 else 0
  }

  /** The edges between kept nodes. */
  function Inside(edges: seq<Edge>, ids: set<string>): seq<Edge> {
    if edges == [] then []
    else Inside(edges[..|edges| - 1], ids) + if Joins(edges[|edges| - 1], ids) then [edges[|edges| - 1]] else []
  }

  function Least(a: nat, b: nat): nat {
    if a < b then a else b
  }

  lemma CountNext(nodes: seq<Node>, i: nat, ids: set<string>)
    requires i < |nodes|
    ensures CountIn(nodes[..i + 1], ids) == CountIn(nodes[..i], ids) + if IsIn(nodes[i], ids) then 1 else 0
  {
    assert nodes[..i + 1][..i] == nodes[..i];
  }

  lemma InsideNext(edges: seq<Edge>, i: nat, ids: set<string>)
    requires i < |edges|
    ensures Inside(edges[..i + 1], ids) == Inside(edges[..i], ids) + if Joins(edges[i], ids) then [edges[i]] else []
  {
    assert edges[..i + 1][..i] == edges[..i];
  }

  lemma {:induction false} CountAll(nodes: seq<Node>, ids: set<string>)
    requires forall i :: 0 <= i < |nodes| ==> IsIn(nodes[i], ids)
    ensures CountIn(nodes, ids) == |nodes|
  {
    if nodes != [] {
      CountAll(nodes[..|nodes| - 1], ids);
    }
  }

  ghost predicate HasId(nodes: seq<Node>, id: Option<string>) {
    exists n :: n in nodes && n.id == id
  }

  /** No two kept nodes share an id, all are input nodes, and ids are exactly theirs. */
  ghost predicate Kept(kept: seq<Node>, ids: set<string>, nodes: seq<Node>) {
    && |kept| == |ids|
    && (forall n :: n in kept ==> n in nodes && IsIn(n, ids))
    && (forall id :: id in ids ==> HasId(kept, Some(id)))
  }

  /** The root's node, if there is one. */
  method FindRoot(nodes: seq<Node>, root: Option<string>) returns (kept: seq<Node>, ids: set<string>)
    ensures Kept(kept, ids, nodes)
    ensures ids == if root.Some? && HasId(nodes, root) then {root.value} else {}
  {
    kept, ids := [], {};
    if root.Some? {
      for i := 0 to |nodes|
        invariant forall j :: 0 <= j < i ==> nodes[j].id != root
      {
        if nodes[i].id == root {
          kept, ids := [nodes[i]], {root.value};
          return;
        }
      }
    }
  }

  lemma KeptGrows(kept: seq<Node>, ids: set<string>, nodes: seq<Node>, n: Node)
    requires Kept(kept, ids, nodes) && n in nodes && n.id.Some? && n.id.value !in ids
    ensures Kept(kept + [n], ids + {n.id.value}, nodes)
  {
    forall id | id in ids + {n.id.value}
      ensures HasId(kept + [n], Some(id))
    {
      if id in ids {
        var m :| m in kept && m.id == Some(id);
        assert m in kept + [n];
      } else {
        assert n in kept + [n];
      }
    }
  }

  /** As long as everything so far was kept, keeping one more leaves nothing out. */
  lemma AllCounted(nodes: seq<Node>, i: nat, before: set<string>, after: set<string>)
    requires i < |nodes| && before <= after && IsIn(nodes[i], after)
    requires forall j :: 0 <= j < i ==> IsIn(nodes[j], before)
    ensures CountIn(nodes[..i], before) == i && CountIn(nodes[..i + 1], after) == i + 1
    ensures forall j :: 0 <= j < i + 1 ==> IsIn(nodes[j], after)
  {
    CountAll(nodes[..i], before);
    CountAll(nodes[..i + 1], after);
  }

  /** The first i nodes are dealt with: those without a place are counted, and there are none below the cap. */
  ghost predicate Filled(nodes: seq<Node>, i: nat, kept: seq<Node>, ids: set<string>, dropped: int, maxNodes: nat)
    requires i <= |nodes|
  {
    && Kept(kept, ids, nodes)
    && dropped == i - CountIn(nodes[..i], ids)
    && (|ids| < maxNodes ==> forall j :: 0 <= j < i ==> IsIn(nodes[j], ids))
  }

  lemma FilledKnown(nodes: seq<Node>, i: nat, kept: seq<Node>, ids: set<string>, dropped: int, maxNodes: nat)
    requires i < |nodes| && Filled(nodes, i, kept, ids, dropped, maxNodes) && IsIn(nodes[i], ids)
    ensures Filled(nodes, i + 1, kept, ids, dropped, maxNodes)
  {
    CountNext(nodes, i, ids);
  }

  lemma FilledDropped(nodes: seq<Node>, i: nat, kept: seq<Node>, ids: set<string>, dropped: int, maxNodes: nat)
    requires i < |nodes| && Filled(nodes, i, kept, ids, dropped, maxNodes) && !IsIn(nodes[i], ids) && |ids| >= maxNodes
    ensures Filled(nodes, i + 1, kept, ids, dropped + 1, maxNodes)
  {
    CountNext(nodes, i, ids);
  }

  lemma FilledKept(nodes: seq<Node>, i: nat, kept: seq<Node>, ids: set<string>, dropped: int, maxNodes: nat)
    requires i < |nodes| && Filled(nodes, i, kept, ids, dropped, maxNodes) && |ids| < maxNodes
    requires nodes[i].id.Some? && nodes[i].id.value !in ids
    ensures Filled(nodes, i + 1, kept + [nodes[i]], ids + {nodes[i].id.value}, dropped, maxNodes)
  {
    KeptGrows(kept, ids, nodes, nodes[i]);
    AllCounted(nodes, i, ids, ids + {nodes[i].id.value});
  }

  /** The root's id and those of the first i nodes. */
  function SeenBefore(nodes: seq<Node>, i: nat, root: set<string>): set<string>
    requires i <= |nodes|
  {
    root + Ids(nodes[..i])
  }

  lemma SeenNext(nodes: seq<Node>, i: nat, root: set<string>)
    requires i < |nodes|
    ensures SeenBefore(nodes, i + 1, root) ==
            SeenBefore(nodes, i, root) + if nodes[i].id.Some? then {nodes[i].id.value} else {}
  {
    assert nodes[..i + 1] == nodes[..i] + [nodes[i]];
  }

  /** A node without an id comes while there is still room: fewer than maxNodes ids before it, the root's
      included. */
  ghost predicate MeetsNone(nodes: seq<Node>, root: set<string>, maxNodes: nat) {
    exists i :: 0 <= i < |nodes| && nodes[i].id.None? && |SeenBefore(nodes, i, root)| < maxNodes
  }

  /** The kept ids are among those seen, all of them while there is room; no node without an id came then. */
  ghost predicate Tracks(nodes: seq<Node>, i: nat, ids: set<string>, root: set<string>, maxNodes: nat)
    requires i <= |nodes|
  {
    && ids <= SeenBefore(nodes, i, root)
    && (|ids| < maxNodes ==> ids == SeenBefore(nodes, i, root))
    && forall j :: 0 <= j < i && nodes[j].id.None? ==> |SeenBefore(nodes, j, root)| >= maxNodes
  }

  lemma TracksKnown(nodes: seq<Node>, i: nat, ids: set<string>, root: set<string>, maxNodes: nat)
    requires i < |nodes| && Tracks(nodes, i, ids, root, maxNodes) && IsIn(nodes[i], ids)
    ensures Tracks(nodes, i + 1, ids, root, maxNodes)
  {
    SeenNext(nodes, i, root);
  }

  lemma TracksFull(nodes: seq<Node>, i: nat, ids: set<string>, root: set<string>, maxNodes: nat)
    requires i < |nodes| && Tracks(nodes, i, ids, root, maxNodes) && |ids| >= maxNodes
    ensures Tracks(nodes, i + 1, ids, root, maxNodes)
  {
    SeenNext(nodes, i, root);
    SubsetSize(ids, SeenBefore(nodes, i, root));
  }

  lemma TracksKept(nodes: seq<Node>, i: nat, ids: set<string>, root: set<string>, maxNodes: nat)
    requires i < |nodes| && Tracks(nodes, i, ids, root, maxNodes) && |ids| < maxNodes && nodes[i].id.Some?
    ensures Tracks(nodes, i + 1, ids + {nodes[i].id.value}, root, maxNodes)
  {
    SeenNext(nodes, i, root);
  }

  /** Fills the room that is left after the root. */
  method KeepNodes(nodes: seq<Node>, kept0: seq<Node>, ids0: set<string>, maxNodes: nat)
    returns (found: bool, kept: seq<Node>, ids: set<string>, dropped: nat)
    requires Kept(kept0, ids0, nodes)
    ensures !found <==> MeetsNone(nodes, ids0, maxNodes)
    ensures found ==> Filled(nodes, |nodes|, kept, ids, dropped, maxNodes)
    ensures found ==> ids0 <= ids && kept0 <= kept && (|ids| <= maxNodes || ids == ids0)
  {
    kept, ids, dropped, found := kept0, ids0, 0, true;
    for i := 0 to |nodes|
      invariant Filled(nodes, i, kept, ids, dropped, maxNodes) && Tracks(nodes, i, ids, ids0, maxNodes)
      invariant ids0 <= ids && kept0 <= kept && (|ids| <= maxNodes || ids == ids0)
    {
      if IsIn(nodes[i], ids) {
        FilledKnown(nodes, i, kept, ids, dropped, maxNodes);
        TracksKnown(nodes, i, ids, ids0, maxNodes);
      } else if |ids| >= maxNodes {
        FilledDropped(nodes, i, kept, ids, dropped, maxNodes);
        TracksFull(nodes, i, ids, ids0, maxNodes);
        dropped := dropped + 1;
      } else if nodes[i].id.None? {
        found := false;
        return;
      } else {
        FilledKept(nodes, i, kept, ids, dropped, maxNodes);
        TracksKept(nodes, i, ids, ids0, maxNodes);
        kept := kept + [nodes[i]];
        ids := ids + {nodes[i].id.value};
      }
    }
  }

  /** Edges between kept nodes, as many as there is room for, from the front. */
  method KeepEdges(edges: seq<Edge>, ids: set<string>, maxEdges: nat) returns (kept: seq<Edge>, dropped: nat)
    ensures kept == Inside(edges, ids)[..Least(|Inside(edges, ids)|, maxEdges)]
    ensures |kept| + dropped == |edges|
  {
    kept, dropped := [], 0;
    for i := 0 to |edges|
      invariant kept == Inside(edges[..i], ids)[..Least(|Inside(edges[..i], ids)|, maxEdges)]
      invariant |kept| + dropped == i
    {
      InsideNext(edges, i, ids);
      if !Joins(edges[i], ids) || |kept| >= maxEdges {
        dropped := dropped + 1;
      } else {
        kept := kept + [edges[i]];
      }
    }
    assert edges[..|edges|] == edges;
  }

  lemma {:induction false} InsideJoins(edges: seq<Edge>, ids: set<string>)
    ensures forall e :: e in Inside(edges, ids) ==> e in edges && Joins(e, ids)
  {
    if edges != [] {
      InsideJoins(edges[..|edges| - 1], ids);
      assert edges == edges[..|edges| - 1] + [edges[|edges| - 1]];
    }
  }

  ghost predicate WellFormed(nodes: seq<Node>, edges: seq<Edge>) {
    forall e :: e in edges ==> HasId(nodes, Some(Endpoint(e.source))) && HasId(nodes, Some(Endpoint(e.target)))
  }

  lemma KeptHas(kept: seq<Node>, ids: set<string>, nodes: seq<Node>, n: Node)
    requires Kept(kept, ids, nodes) && IsIn(n, ids)
    ensures HasId(kept, n.id)
  {
    var m :| m in kept && m.id == Some(n.id.value);
  }

  lemma AllHave(kept: seq<Node>, ids: set<string>, nodes: seq<Node>)
    requires Kept(kept, ids, nodes) && forall j :: 0 <= j < |nodes| ==> IsIn(nodes[j], ids)
    ensures forall n :: n in nodes ==> HasId(kept, n.id)
  {
    forall n | n in nodes
      ensures HasId(kept, n.id)
    {
      KeptHas(kept, ids, nodes, n);
    }
  }

  lemma KeptIds(kept: seq<Node>, ids: set<string>, nodes: seq<Node>)
    requires Kept(kept, ids, nodes)
    ensures ids == Ids(kept)
  {
  }

  lemma EdgesStayInside(kept: seq<Node>, ids: set<string>, nodes: seq<Node>, edges: seq<Edge>, keptEdges: seq<Edge>)
    requires Kept(kept, ids, nodes) && keptEdges <= Inside(edges, ids)
    ensures WellFormed(kept, keptEdges)
  {
    InsideJoins(edges, ids);
    forall e | e in keptEdges
      ensures Joins(e, ids)
    {
      assert e in Inside(edges, ids);
    }
  }

  /** Repeated ids among the nodes are neither kept twice nor counted as dropped. */
  function Repeats(nodes: seq<Node>, kept: seq<Node>): int {
    CountIn(nodes, Ids(kept)) - |kept|
  }

  function Ids(nodes: seq<Node>): set<string> {
    set n | n in nodes && n.id.Some? :: n.id.value
  }

  method BoundNodesEdges(nodes: seq<Node>, edges: seq<Edge>, maxNodes: nat, maxEdges: nat, root: Option<string>)
    returns (r: Bounded)
    ensures r.KeyError? <==> MeetsNone(nodes, if root.Some? && HasId(nodes, root) then {root.value} else {}, maxNodes)
    ensures r.Bounded? ==>
      && WellFormed(r.nodes, r.edges)
      && |r.nodes| <= (if root.Some? && maxNodes == 0 then 1 else maxNodes) && |r.edges| <= maxEdges
      && (root.Some? && HasId(nodes, root) ==> HasId(r.nodes, root))
      && (r.truncated <==> r.dropped > 0)
      && (|r.nodes| < maxNodes ==> forall n :: n in nodes ==> HasId(r.nodes, n.id))
      && r.edges == Inside(edges, Ids(r.nodes))[..Least(|Inside(edges, Ids(r.nodes))|, maxEdges)]
      && |r.nodes| + |r.edges| + r.dropped + Repeats(nodes, r.nodes) == |nodes| + |edges|
      && (DistinctIds(nodes) ==> |r.nodes| + |r.edges| + r.dropped == |nodes| + |edges|)
  {
    var first, rootIds := FindRoot(nodes, root);
    var found, kept, ids, droppedNodes := KeepNodes(nodes, first, rootIds, maxNodes);
    if !found {
      return KeyError;
    }
    var keptEdges, droppedEdges := KeepEdges(edges, ids, maxEdges);
    EdgesStayInside(kept, ids, nodes, edges, keptEdges);
    KeptIds(kept, ids, nodes);
    if |kept| < maxNodes {
      AllHave(kept, ids, nodes);
    }
    if root.Some? && HasId(nodes, root) {
      KeptHas(kept, ids, nodes, Node(root, ""));
    }
    assert nodes[..|nodes|] == nodes;
    if DistinctIds(nodes) {
      NothingRepeats(nodes, kept, ids);
    }
    return Bounded(kept, keptEdges, droppedNodes + droppedEdges > 0, droppedNodes + droppedEdges);
  }

  ghost predicate DistinctIds(nodes: seq<Node>) {
    forall i, j :: 0 <= i < j < |nodes| && nodes[i].id.Some? ==> nodes[i].id != nodes[j].id
  }

  lemma {:induction false} DistinctCount(nodes: seq<Node>, ids: set<string>)
    requires DistinctIds(nodes) && forall id :: id in ids ==> HasId(nodes, Some(id))
    ensures CountIn(nodes, ids) == |ids|
  {
    if nodes != [] {
      var front, last := nodes[..|nodes| - 1], nodes[|nodes| - 1];
      assert nodes == front + [last];
      var rest := if last.id.Some? then ids - {last.id.value} else ids;
      DistinctCount(front, rest);
      CountSame(front, rest, ids);
    }
  }

  lemma {:induction false} CountSame(nodes: seq<Node>, a: set<string>, b: set<string>)
    requires forall n :: n in nodes ==> (IsIn(n, a) <==> IsIn(n, b))
    ensures CountIn(nodes, a) == CountIn(nodes, b)
  {
    if nodes != [] {
      assert nodes == nodes[..|nodes| - 1] + [nodes[|nodes| - 1]];
      CountSame(nodes[..|nodes| - 1], a, b);
    }
  }

  /** With distinct ids nothing is lost uncounted. */
  lemma NothingRepeats(nodes: seq<Node>, kept: seq<Node>, ids: set<string>)
    requires DistinctIds(nodes) && Kept(kept, ids, nodes)
    ensures Repeats(nodes, kept) == 0
  {
    KeptIds(kept, ids, nodes);
    forall id | id in ids
      ensures HasId(nodes, Some(id))
    {
      var n :| n in kept && n.id == Some(id);
      assert n in nodes;
    }
    DistinctCount(nodes, ids);
  }
}
