/** Exactly which write sequences may be replayed after a crash. */
module ReplayLimits {
  import opened Options
  import opened MergeStore
  import opened Convergence

  // ---------- sequences with links ----------

  /** Replaying after a crash anywhere gives the graph of one clean run, from every graph and with
      every value the queries may set for their properties. */
  ghost predicate AlwaysReplays(ws: seq<Write>) {
    forall ps: seq<Write>, k: nat, s: Store :: SameShapes(ps, ws) && k <= |ps| && s.Valid() ==>
      Run(ws, Run(ps[..k], s)) == Run(ws, s)
  }

  /** Some crash and some graph show that a replay of ws goes wrong. */
  ghost predicate Diverges(ws: seq<Write>, k: nat, s: Store) {
    k <= |ws| && s.Valid() && Run(ws, Run(ws[..k], s)) != Run(ws, s)
  }

  /** The least node that a pattern matches. */
  function Least(p: Pattern): Node {
    Node(p.labels, p.ident, map[], [])
  }

  /** If an earlier link query looks for the node of a later merge, its other end is a node that the
      merge does not look for, and not given by a purl prefix. */
  ghost predicate EndsFree(e: Write, w: Write)
    requires e.MergeEdge? && w.MergeNode?
  {
    && (Matches(e.source, Blank(w)) ==> e.target.purlPrefix.None? && !Matches(Key(w), Least(e.target)))
    && (Matches(e.target, Blank(w)) ==> e.source.purlPrefix.None? && !Matches(Key(w), Least(e.source)))
  }

  ghost predicate AllEndsFree(ws: seq<Write>) {
    forall i, j :: 0 <= i < j < |ws| && ws[i].MergeEdge? && ws[j].MergeNode? && Novel(ws[..j], ws[j]) ==>
      EndsFree(ws[i], ws[j])
  }

  /** Every node was there from the start or carries the identity some merge asked for. */
  lemma {:induction false} NodesComeFrom(ws: seq<Write>, s: Store, n: nat)
    requires s.Valid() && n in Run(ws, s).nodes
    ensures if n in s.nodes then SameIdentity(Run(ws, s).nodes[n], s.nodes[n])
            else exists w :: w in ws && w.MergeNode? && SameIdentity(Run(ws, s).nodes[n], Blank(w))
  {
    RunGrows(ws, s);
    if n !in s.nodes {
      var t := Since(ws, s, n);
      assert ws[..0] == [];
      assert ws[t - 1] in ws;
    }
  }

  /** A novel merge creates a node if no node from the start is one it looks for. */
  lemma NovelCreates(ws: seq<Write>, j: nat, s: Store) returns (n: nat)
    requires s.Valid() && j < |ws| && ws[j].MergeNode? && Novel(ws[..j], ws[j])
    requires forall m :: m in s.nodes ==> !Matches(Key(ws[j]), s.nodes[m])
    ensures n !in Run(ws[..j], s).nodes && n in Run(ws[..j + 1], s).nodes && n !in s.nodes
    ensures Run(ws[..j + 1], s).Valid() && Grows(s, Run(ws[..j + 1], s))
    ensures SameIdentity(Run(ws[..j + 1], s).nodes[n], Blank(ws[j]))
  {
    var before := Run(ws[..j], s);
    forall m | m in before.nodes
      ensures !Matches(Key(ws[j]), before.nodes[m])
    {
      NodesComeFrom(ws[..j], s, m);
    }
    RunGrows(ws[..j], s);
    RunGrows(ws[..j + 1], s);
    assert ws[..j + 1][..j] == ws[..j];
    n := before.next;
  }

  // ---------- a link that is not made again ----------

  /** Where an edge comes from. */
  lemma {:induction false} EdgeMadeAt(ws: seq<Write>, s: Store, e: Edge) returns (m: nat)
    requires s.Valid() && e in Run(ws, s).edges && e !in s.edges
    ensures m < |ws| && ws[m].MergeEdge? && ws[m].kind == e.kind && e in Links(ws[m], Run(ws[..m], s))
  {
    var front := ws[..|ws| - 1];
    if e in Run(front, s).edges {
      m := EdgeMadeAt(front, s, e);
      assert ws[..m] == front[..m];
    } else {
      m := |ws| - 1;
    }
  }

  /** A link to or from a new node is made by a query after the one that brings the node. */
  lemma LinkFromLater(ws: seq<Write>, j: nat, s: Store, e: Edge, n: nat) returns (m: nat)
    requires s.Valid() && s.edges == {} && j < |ws| && n !in Run(ws[..j], s).nodes && (e.source == n || e.target == n)
    requires e in Run(ws, s).edges
    ensures j <= m < |ws| && ws[m].MergeEdge? && ws[m].kind == e.kind && ws[m] in ws[j..]
    ensures e.source in Run(ws, s).nodes && Matches(ws[m].source, Run(ws, s).nodes[e.source])
    ensures e.target in Run(ws, s).nodes && Matches(ws[m].target, Run(ws, s).nodes[e.target])
  {
    m := EdgeMadeAt(ws, s, e);
    if m < j {
      NodePersists(ws, s, m, j, n);
    }
    NodePersists(ws, s, m, m, e.source);
    NodePersists(ws, s, m, m, e.target);
    assert ws[j..][m - j] == ws[m];
  }

  /** A graph with just the other end of the link, and the node that the novel merge brings to it. */
  lemma WithOtherEnd(ws: seq<Write>, j: nat, p: Pattern) returns (s: Store, n: nat)
    requires j < |ws| && ws[j].MergeNode? && Novel(ws[..j], ws[j]) && !Matches(Key(ws[j]), Least(p))
    ensures s == Store(map[0 := Least(p)], {}, 1) && s.Valid()
    ensures n !in Run(ws[..j], s).nodes && n in Run(ws[..j + 1], s).nodes && 0 in Run(ws[..j + 1], s).nodes
    ensures var t := Run(ws[..j + 1], s);
            t.Valid() && SameIdentity(t.nodes[n], Blank(ws[j])) && SameIdentity(t.nodes[0], Least(p))
    ensures var t := Run(ws, s);
            && n in t.nodes && SameIdentity(t.nodes[n], Blank(ws[j]))
            && 0 in t.nodes && SameIdentity(t.nodes[0], Least(p))
  {
    s := Store(map[0 := Least(p)], {}, 1);
    n := NovelCreates(ws, j, s);
    RunSplit(ws, j + 1, s);
  }

  lemma MatchesLeast(p: Pattern)
    requires p.purlPrefix.None?
    ensures Matches(p, Least(p))
  {
  }

  lemma LeastIsCovered(general: Pattern, special: Pattern)
    requires Matches(general, Least(special))
    ensures Covers(general, special)
  {
  }

  /** No node, or just the end of some link query. */
  ghost predicate OneEnd(ws: seq<Write>, s: Store) {
    s == EMPTY || exists w :: w in ws && w.MergeEdge? && OnlyEnd(w, s)
  }

  ghost predicate OnlyEnd(w: Write, s: Store)
    requires w.MergeEdge?
  {
    s == Store(map[0 := Least(w.source)], {}, 1) || s == Store(map[0 := Least(w.target)], {}, 1)
  }

  /** A link from a new node that no later query makes is made by a replay. */
  lemma LinkFromMissed(ws: seq<Write>, i: nat, j: nat) returns (s: Store)
    requires i < j < |ws| && ws[i].MergeEdge? && ws[j].MergeNode? && Novel(ws[..j], ws[j]) && EndsFree(ws[i], ws[j])
    requires Matches(ws[i].source, Blank(ws[j])) && forall e :: e in ws[j..] ==> !LinksFrom(e, ws[i], Blank(ws[j]))
    ensures Diverges(ws, j + 1, s) && OnlyEnd(ws[i], s)
  {
    var n;
    s, n := WithOtherEnd(ws, j, ws[i].target);
    MatchesLeast(ws[i].target);
    ReplayMakesLink(ws, i, Run(ws[..j + 1], s), n, 0);
    if Edge(n, ws[i].kind, 0) in Run(ws, s).edges {
      var m := LinkFromLater(ws, j, s, Edge(n, ws[i].kind, 0), n);
      LeastIsCovered(ws[m].target, ws[i].target);
      assert LinksFrom(ws[m], ws[i], Blank(ws[j]));
    }
  }

  lemma LinkToMissed(ws: seq<Write>, i: nat, j: nat) returns (s: Store)
    requires i < j < |ws| && ws[i].MergeEdge? && ws[j].MergeNode? && Novel(ws[..j], ws[j]) && EndsFree(ws[i], ws[j])
    requires Matches(ws[i].target, Blank(ws[j])) && forall e :: e in ws[j..] ==> !LinksTo(e, ws[i], Blank(ws[j]))
    ensures Diverges(ws, j + 1, s) && OnlyEnd(ws[i], s)
  {
    var n;
    s, n := WithOtherEnd(ws, j, ws[i].source);
    MatchesLeast(ws[i].source);
    ReplayMakesLink(ws, i, Run(ws[..j + 1], s), 0, n);
    if Edge(0, ws[i].kind, n) in Run(ws, s).edges {
      var m := LinkFromLater(ws, j, s, Edge(0, ws[i].kind, n), n);
      LeastIsCovered(ws[m].source, ws[i].source);
      assert LinksTo(ws[m], ws[i], Blank(ws[j]));
    }
  }

  lemma ReplayMakesLink(ws: seq<Write>, i: nat, s: Store, a: nat, b: nat)
    requires s.Valid() && i < |ws| && ws[i].MergeEdge? && a in s.nodes && b in s.nodes
    requires Matches(ws[i].source, s.nodes[a]) && Matches(ws[i].target, s.nodes[b])
    ensures Edge(a, ws[i].kind, b) in Run(ws, s).edges
  {
    RunGrows(ws[..i], s);
    LinkIsMade(ws, i, s, a, b);
  }

  // ---------- a value that is not set again ----------

  /** A property once set stays set to something. */
  lemma {:induction false} KeysStay(ws: seq<Write>, s: Store, n: nat, key: string)
    requires s.Valid() && n in s.nodes && key in s.nodes[n].data
    ensures n in Run(ws, s).nodes && key in Run(ws, s).nodes[n].data
  {
    if ws != [] {
      KeysStay(ws[..|ws| - 1], s, n, key);
      RunGrows(ws[..|ws| - 1], s);
      KeptIsTouched(ws[|ws| - 1], Run(ws[..|ws| - 1], s), n);
    }
  }

  /** A run over a graph with a node that write i matches sets the values of write i on it. */
  lemma ReplaySets(ws: seq<Write>, i: nat, s: Store, n: nat, key: string)
    requires s.Valid() && i < |ws| && ws[i].MergeNode? && n in s.nodes
    requires Matches(Key(ws[i]), s.nodes[n]) && key in ws[i].data
    ensures n in Run(ws, s).nodes && key in Run(ws, s).nodes[n].data
  {
    RunSplit(ws, i, s);
    ApplySets(ws[i], s, Run(ws[..i], s), n, key);
    assert ws[..i + 1][..i] == ws[..i];
    RunSplit(ws, i + 1, s);
    KeysStay(ws[i + 1..], Run(ws[..i + 1], s), n, key);
  }

  lemma ApplySets(w: Write, s: Store, t: Store, n: nat, key: string)
    requires w.MergeNode? && t.Valid() && Grows(s, t) && n in s.nodes
    requires Matches(Key(w), s.nodes[n]) && key in w.data
    ensures n in Apply(w, t).nodes && key in Apply(w, t).nodes[n].data
  {
    KeptIsTouched(w, t, n);
  }

  lemma ValueMissed(ws: seq<Write>, i: nat, j: nat, key: string)
    requires i < j < |ws| && ws[i].MergeNode? && ws[j].MergeNode? && Novel(ws[..j], ws[j])
    requires Matches(Key(ws[i]), Blank(ws[j])) && key in ws[i].data && !SetBySome(ws[j..], key, Blank(ws[j]))
    ensures Diverges(ws, j + 1, EMPTY)
  {
    var n := NovelCreates(ws, j, EMPTY);
    CreatedValues(ws, EMPTY, j, n);
    OverlaySets(ws[j..], Blank(ws[j]), key);
    ReplaySets(ws, i, Run(ws[..j + 1], EMPTY), n, key);
  }

  /** A write whose effect on a new node is not repeated makes some replay go wrong. */
  lemma UnrepeatedDiverges(ws: seq<Write>, j: nat) returns (s: Store)
    requires j < |ws| && !AgainAt(ws, j) && AllEndsFree(ws)
    ensures Diverges(ws, j + 1, s) && OneEnd(ws, s)
  {
    var n := Blank(ws[j]);
    var v :| v in ws[..j] && !Repeats(v, n, ws[j..]);
    var i :| 0 <= i < j && ws[i] == v;
    if v.MergeNode? {
      var key :| key in v.data && !SetBySome(ws[j..], key, n);
      ValueMissed(ws, i, j, key);
      s := EMPTY;
    } else {
      assert EndsFree(ws[i], ws[j]);
      if Matches(v.source, n) && forall e :: e in ws[j..] ==> !LinksFrom(e, v, n) {
        s := LinkFromMissed(ws, i, j);
      } else {
        s := LinkToMissed(ws, i, j);
      }
    }
  }

  lemma WhereNotAgain(ws: seq<Write>) returns (j: nat)
    requires !Again(ws)
    ensures j < |ws| && !AgainAt(ws, j)
  {
    j :| 0 <= j < |ws| && !AgainAt(ws, j);
  }

  lemma NotAgainDiverges(ws: seq<Write>) returns (k: nat, s: Store)
    requires !Again(ws) && AllEndsFree(ws)
    ensures Diverges(ws, k, s) && OneEnd(ws, s)
  {
    var j := WhereNotAgain(ws);
    s := UnrepeatedDiverges(ws, j);
    k := j + 1;
  }

  /** A sequence may be replayed, wherever it crashes and starts, exactly when what an earlier write
      would do to a node that only a later one brings is done again. */
  lemma ReplayCharacterised(ws: seq<Write>, id: string)
    requires OneScan(ws, id) && ScansAgain(ws) && AllEndsFree(ws)
    ensures AlwaysReplays(ws) <==> Again(ws)
  {
    if Again(ws) {
      forall ps: seq<Write>, k: nat, s: Store | SameShapes(ps, ws) && k <= |ps| && s.Valid()
        ensures Run(ws, Run(ps[..k], s)) == Run(ws, s)
      {
        ReplayConverges(ps, k, ws, s, id);
      }
    } else {
      var k, s := NotAgainDiverges(ws);
      assert SameShapes(ws, ws);
    }
  }

  // ---------- sequences of merges ----------

  /** The write looks at nodes like n: it would update them or link them. */
  predicate Reads(w: Write, n: Node) {
    match w
    case MergeNode(_, _, _) => Matches(Key(w), n)
    case AppendScan(_, _) => false
    case MergeEdge(source, _, target) => Matches(source, n) || Matches(target, n)
  }

  /** A node that w may create is none that an earlier write would have looked at. */
  predicate Admits(ws: seq<Write>, w: Write) {
    w.MergeNode? && Novel(ws, w) ==> forall v :: v in ws ==> !Reads(v, Blank(w))
  }

  /** No write creates a node that an earlier write of the same sequence would have looked at. */
  predicate Stable(ws: seq<Write>) {
    ws == [] || (Stable(ws[..|ws| - 1]) && Admits(ws[..|ws| - 1], ws[|ws| - 1]))
  }

  lemma {:induction false} StableAdmits(ws: seq<Write>, j: nat)
    requires Stable(ws) && j < |ws|
    ensures Admits(ws[..j], ws[j])
  {
    if j < |ws| - 1 {
      StableAdmits(ws[..|ws| - 1], j);
      assert ws[..|ws| - 1][..j] == ws[..j];
    }
  }

  /** Where nothing would be done to a new node there is nothing to repeat. */
  lemma StableIsAgain(ws: seq<Write>)
    requires Stable(ws)
    ensures Again(ws)
  {
    forall j | 0 <= j < |ws|
      ensures AgainAt(ws, j)
    {
      StableAdmits(ws, j);
    }
  }

  ghost predicate MergesOnly(ws: seq<Write>) {
    forall w :: w in ws ==> w.MergeNode?
  }

  /** The same MERGE queries with arbitrary values to set. */
  ghost predicate SameKeys(ps: seq<Write>, ws: seq<Write>) {
    |ps| == |ws| && forall i :: 0 <= i < |ps| ==>
      ps[i].MergeNode? && ws[i].MergeNode? && ps[i].labels == ws[i].labels && ps[i].ident == ws[i].ident
  }

  /** Crashing anywhere and replaying gives the graph of one clean run, for all values the queries may
      set and all graphs they may start from. */
  ghost predicate AlwaysConverges(ws: seq<Write>) {
    forall ps: seq<Write>, k: nat, s: Store :: SameKeys(ps, ws) && k <= |ps| && s.Valid() ==>
      Run(ps, Run(ps[..k], s)) == Run(ps, s)
  }

  /** p may be replaced by w, which asks for the same node. */
  lemma AdmitsKeys(ps: seq<Write>, ws: seq<Write>, p: Write, w: Write)
    requires SameKeys(ps, ws) && Admits(ws, w)
    requires p.MergeNode? && w.MergeNode? && Key(p) == Key(w)
    ensures Admits(ps, p)
  {
    if Novel(ps, p) {
      forall u | u in ws && u.MergeNode?
        ensures !Matches(Key(w), Blank(u))
      {
        var i :| 0 <= i < |ws| && ws[i] == u;
        assert ps[i] in ps && Blank(ps[i]) == Blank(u);
      }
      assert Novel(ws, w) && Blank(p) == Blank(w);
      forall u | u in ps
        ensures !Reads(u, Blank(p))
      {
        var i :| 0 <= i < |ps| && ps[i] == u;
        assert ws[i] in ws && Key(ws[i]) == Key(u);
      }
    }
  }

  lemma {:induction false} StableKeys(ps: seq<Write>, ws: seq<Write>)
    requires SameKeys(ps, ws) && Stable(ws)
    ensures Stable(ps)
  {
    if ps != [] {
      StableKeys(ps[..|ps| - 1], ws[..|ws| - 1]);
      AdmitsKeys(ps[..|ps| - 1], ws[..|ws| - 1], ps[|ps| - 1], ws[|ws| - 1]);
    }
  }

  lemma StableConverges(ws: seq<Write>)
    requires MergesOnly(ws) && Stable(ws)
    ensures AlwaysConverges(ws)
  {
    forall ps: seq<Write>, k: nat, s: Store | SameKeys(ps, ws) && k <= |ps| && s.Valid()
      ensures Run(ps, Run(ps[..k], s)) == Run(ps, s)
    {
      StableKeys(ps, ws);
      StableIsAgain(ps);
      assert forall p :: p in ps ==> p.MergeNode?;
      assert forall n :: !Scans(ps, n);
      assert forall j :: 0 <= j < |ps| ==> !Scans(ps[..j], Blank(ps[j]));
      ReplayConverges(ps, k, ps, s, "");
    }
  }

  // ---------- the other direction ----------

  lemma {:induction false} FirstUnstable(ws: seq<Write>) returns (j: nat)
    requires !Stable(ws)
    ensures j < |ws| && !Admits(ws[..j], ws[j])
  {
    var front := ws[..|ws| - 1];
    if Stable(front) {
      j := |ws| - 1;
    } else {
      j := FirstUnstable(front);
      assert front[..j] == ws[..j];
    }
  }

  /** The queries of ws, of which only the i-th sets anything. */
  function Probing(ws: seq<Write>, i: nat): seq<Write>
    requires forall w :: w in ws ==> w.MergeNode?
  {
    seq(|ws|, h requires 0 <= h < |ws| =>
      MergeNode(ws[h].labels, ws[h].ident, if h == i then map["probe" := "set"] else map[]))
  }

  lemma ProbingIsNovel(ps: seq<Write>, ws: seq<Write>, i: nat, j: nat)
    requires MergesOnly(ws) && i < j < |ws| && ps == Probing(ws, i) && Novel(ws[..j], ws[j])
    ensures Novel(ps[..j], ps[j])
  {
    forall u | u in ps[..j] && u.MergeNode?
      ensures !Matches(Key(ps[j]), Blank(u))
    {
      var h :| 0 <= h < j && ps[h] == u;
      assert ws[h] in ws[..j];
    }
  }

  lemma UnstableDiverges(ws: seq<Write>)
    requires MergesOnly(ws) && !Stable(ws)
    ensures !AlwaysConverges(ws)
  {
    var j := FirstUnstable(ws);
    var v :| v in ws[..j] && Reads(v, Blank(ws[j]));
    var i :| 0 <= i < j && ws[i] == v;
    var ps := Probing(ws, i);
    ProbingIsNovel(ps, ws, i, j);
    assert forall w :: w in ps[j..] ==> w.data == map[];
    ValueMissed(ps, i, j, "probe");
    assert SameKeys(ps, ws) && EMPTY.Valid();
  }

  /** MERGE queries may be replayed, whatever they set and wherever they start, exactly when none of
      them creates a node that an earlier one would have matched. */
  lemma MergeReplayCharacterised(ws: seq<Write>)
    requires MergesOnly(ws)
    ensures AlwaysConverges(ws) <==> Stable(ws)
  {
    if Stable(ws) {
      StableConverges(ws);
    } else {
      UnstableDiverges(ws);
    }
  }
}
