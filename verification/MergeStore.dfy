/** A property graph written through MERGE and MATCH queries, and when replaying such queries is safe. */
module MergeStore {
  import opened Lists
  import opened Options

  /** The properties that queries match on; each node kind has its own identifying property. */
  datatype Field = Name | ProjectName | ProjectGroup | PackageUrl | DefectId | SpdxId | RepoUrl | RecordId

  /** A node: its labels, the properties that identify it, its other properties, its scan ids. */
  datatype Node = Node(labels: set<string>, ident: map<Field, string>, data: map<string, string>, scanIds: seq<string>)

  datatype Edge = Edge(source: nat, kind: string, target: nat)

  /** The stored graph; next is the id the database gives to the next node. */
  datatype Store = Store(nodes: map<nat, Node>, edges: set<Edge>, next: nat) {
    ghost predicate Valid() {
      forall n :: n in nodes ==> n < next
    }
  }

  const EMPTY := Store(map[], {}, 0)

  /** (v:labels {ident}), possibly WHERE v.package_url STARTS WITH purlPrefix. */
  datatype Pattern = Pattern(labels: set<string>, ident: map<Field, string>, purlPrefix: Option<string>)

  /** One write query. */
  datatype Write =
    | MergeNode(labels: set<string>, ident: map<Field, string>, data: map<string, string>)
    | AppendScan(pattern: Pattern, scanId: string)
    | MergeEdge(source: Pattern, kind: string, target: Pattern)

  predicate Has(ident: map<Field, string>, wanted: map<Field, string>) {
    forall f :: f in wanted ==> f in ident && ident[f] == wanted[f]
  }

  predicate Matches(p: Pattern, n: Node) {
    && p.labels <= n.labels
    && Has(n.ident, p.ident)
    && (p.purlPrefix.Some? ==> PackageUrl in n.ident && p.purlPrefix.value <= n.ident[PackageUrl])
  }

  /** The pattern a MERGE looks for, and the node it makes before setting other properties. */
  function Key(w: Write): Pattern
    requires w.MergeNode?
  {
    Pattern(w.labels, w.ident, None)
  }

  function Blank(w: Write): Node
    requires w.MergeNode?
  {
    Node(w.labels, w.ident, map[], [])
  }

  /** What a write does to one node that is already there. */
  function Touch(w: Write, n: Node): Node {
    match w
    case MergeNode(_, _, data) => if Matches(Key(w), n) then n.(data := n.data + data) else n
    case AppendScan(p, id) => if Matches(p, n) then n.(scanIds := With(n.scanIds, id)) else n
    case MergeEdge(_, _, _) => n
  }

  predicate Found(w: Write, s: Store)
    requires w.MergeNode?
  {
    exists n :: n in s.nodes && Matches(Key(w), s.nodes[n])
  }

  /** Edges are sets: merging one that exists changes nothing. */
  function Links(w: Write, s: Store): set<Edge>
    requires w.MergeEdge?
  {
    set a, b | a in s.nodes && b in s.nodes && Matches(w.source, s.nodes[a]) && Matches(w.target, s.nodes[b]) ::
      Edge(a, w.kind, b)
  }

  /** One write query. MERGE updates every node it matches and creates one only if there is none. */
  function Apply(w: Write, s: Store): Store {
    if w.MergeNode? && !Found(w, s) then
      Store(s.nodes[s.next := Touch(w, Blank(w))], s.edges, s.next + 1)
    else
      var nodes := map n | n in s.nodes :: Touch(w, s.nodes[n]);
      Store(nodes, if w.MergeEdge? then s.edges + Links(w, s) else s.edges, s.next)
  }

  /** A sequence of write queries. */
  function Run(ws: seq<Write>, s: Store): Store {
    if ws == [] then s else Apply(ws[|ws| - 1], Run(ws[..|ws| - 1], s))
  }

  lemma {:induction false} RunConcat(as_: seq<Write>, bs: seq<Write>, s: Store)
    ensures Run(as_ + bs, s) == Run(bs, Run(as_, s))
  {
    if bs == [] {
      assert as_ + bs == as_;
    } else {
      assert (as_ + bs)[..|as_ + bs| - 1] == as_ + bs[..|bs| - 1];
      RunConcat(as_, bs[..|bs| - 1], s);
    }
  }

  // ---------- structure ----------

  predicate SameIdentity(m: Node, n: Node) {
    m.labels == n.labels && m.ident == n.ident
  }

  /** The same nodes, as far as queries can observe: ids, labels, identities. */
  ghost predicate SameNodes(s: Store, t: Store) {
    && s.nodes.Keys == t.nodes.Keys && s.next == t.next
    && forall n :: n in s.nodes ==> SameIdentity(s.nodes[n], t.nodes[n])
  }

  ghost predicate SameStructure(s: Store, t: Store) {
    SameNodes(s, t) && s.edges == t.edges
  }

  /** The same query except for the values it sets. */
  predicate SameShape(v: Write, w: Write) {
    match v
    case MergeNode(labels, ident, data) =>
      w.MergeNode? && labels == w.labels && ident == w.ident && data.Keys == w.data.Keys
    case _ => v == w
  }

  ghost predicate SameShapes(vs: seq<Write>, ws: seq<Write>) {
    |vs| == |ws| && forall i :: 0 <= i < |vs| ==> SameShape(vs[i], ws[i])
  }

  lemma ApplyNodes(v: Write, w: Write, s: Store, t: Store, extra: set<Edge>)
    requires SameShape(v, w) && SameNodes(s, t) && s.edges <= t.edges <= s.edges + extra
    ensures SameNodes(Apply(v, s), Apply(w, t)) && Apply(v, s).edges <= Apply(w, t).edges <= Apply(v, s).edges + extra
  {
    if v.MergeNode? {
      assert Found(v, s) <==> Found(w, t);
    } else if v.MergeEdge? {
      assert Links(v, s) == Links(w, t);
    }
  }

  /** The same queries on the same nodes keep what one graph has in edges over the other. */
  lemma {:induction false} RunNodes(vs: seq<Write>, ws: seq<Write>, s: Store, t: Store, extra: set<Edge>)
    requires SameShapes(vs, ws) && SameNodes(s, t) && s.edges <= t.edges <= s.edges + extra
    ensures SameNodes(Run(vs, s), Run(ws, t)) && Run(vs, s).edges <= Run(ws, t).edges <= Run(vs, s).edges + extra
  {
    if vs != [] {
      RunNodes(vs[..|vs| - 1], ws[..|ws| - 1], s, t, extra);
      ApplyNodes(vs[|vs| - 1], ws[|ws| - 1], Run(vs[..|vs| - 1], s), Run(ws[..|ws| - 1], t), extra);
    }
  }

  /** Nodes stay, with their identity; edges stay. */
  ghost predicate Grows(s: Store, t: Store) {
    && s.edges <= t.edges && s.next <= t.next
    && forall n :: n in s.nodes ==> n in t.nodes && SameIdentity(s.nodes[n], t.nodes[n])
  }

  lemma {:induction false} RunGrows(ws: seq<Write>, s: Store)
    requires s.Valid()
    ensures Run(ws, s).Valid() && Grows(s, Run(ws, s))
  {
    if ws != [] {
      RunGrows(ws[..|ws| - 1], s);
    }
  }

  /** A run can be cut anywhere. */
  lemma RunSplit(ws: seq<Write>, k: nat, s: Store)
    requires s.Valid() && k <= |ws|
    ensures var mid := Run(ws[..k], s);
            && Run(ws, s) == Run(ws[k..], mid)
            && mid.Valid() && Run(ws, s).Valid() && Grows(s, mid) && Grows(mid, Run(ws, s))
  {
    assert ws == ws[..k] + ws[k..];
    RunConcat(ws[..k], ws[k..], s);
    RunGrows(ws[..k], s);
    RunGrows(ws[k..], Run(ws[..k], s));
  }

  /** After a run every node a MERGE asked for is there. */
  lemma {:induction false} RunFinds(ws: seq<Write>, s: Store, w: Write)
    requires s.Valid() && w in ws && w.MergeNode?
    ensures Found(w, Run(ws, s))
  {
    var front, last := ws[..|ws| - 1], ws[|ws| - 1];
    assert ws == front + [last];
    var before := Run(front, s);
    RunGrows(front, s);
    if w in front {
      RunFinds(front, s, w);
      var n :| n in before.nodes && Matches(Key(w), before.nodes[n]);
      assert n in Apply(last, before).nodes && Matches(Key(w), Apply(last, before).nodes[n]);
    } else if Found(w, before) {
      var n :| n in before.nodes && Matches(Key(w), before.nodes[n]);
      assert Matches(Key(w), Apply(w, before).nodes[n]);
    } else {
      assert Matches(Key(w), Apply(w, before).nodes[before.next]);
    }
  }

  /** A link between nodes that are there when the query for it runs is there in the end. */
  lemma LinkIsMade(ws: seq<Write>, i: nat, s: Store, a: nat, b: nat)
    requires s.Valid() && i < |ws| && ws[i].MergeEdge?
    requires a in Run(ws[..i], s).nodes && Matches(ws[i].source, Run(ws[..i], s).nodes[a])
    requires b in Run(ws[..i], s).nodes && Matches(ws[i].target, Run(ws[..i], s).nodes[b])
    ensures Edge(a, ws[i].kind, b) in Run(ws, s).edges
  {
    assert Edge(a, ws[i].kind, b) in Links(ws[i], Run(ws[..i], s));
    assert ws[..i + 1][..i] == ws[..i];
    RunSplit(ws, i + 1, s);
  }

  // ---------- new nodes ----------

  /** None of the earlier merges already asks for a node that w would match. */
  predicate Novel(ws: seq<Write>, w: Write)
    requires w.MergeNode?
  {
    forall v :: v in ws && v.MergeNode? ==> !Matches(Key(w), Blank(v))
  }

  /** Whenever w does create a node, it is novel: an earlier merge would have left one to find. */
  lemma CreatedIsNovel(ws: seq<Write>, s: Store, w: Write)
    requires s.Valid() && w.MergeNode? && !Found(w, Run(ws, s))
    ensures Novel(ws, w)
  {
    forall v | v in ws && v.MergeNode?
      ensures !Matches(Key(w), Blank(v))
    {
      RunFinds(ws, s, v);
      var t := Run(ws, s);
      var n :| n in t.nodes && Matches(Key(v), t.nodes[n]);
      if Matches(Key(w), Blank(v)) {
        assert Matches(Key(w), t.nodes[n]);
      }
    }
  }

  /** The write that created n. */
  lemma {:induction false} CreatedAt(ws: seq<Write>, s: Store, n: nat) returns (j: nat)
    requires n !in s.nodes && n in Run(ws, s).nodes
    ensures j < |ws| && ws[j].MergeNode?
    ensures n !in Run(ws[..j], s).nodes && n in Run(ws[..j + 1], s).nodes
    ensures Run(ws[..j + 1], s).nodes[n] == Touch(ws[j], Blank(ws[j]))
  {
    var front := ws[..|ws| - 1];
    if n in Run(front, s).nodes {
      j := CreatedAt(front, s, n);
      assert ws[..j] == front[..j] && ws[..j + 1] == front[..j + 1];
    } else {
      j := |ws| - 1;
      assert ws[..j + 1] == ws;
    }
  }

  lemma NodePersists(ws: seq<Write>, s: Store, i: nat, j: nat, n: nat)
    requires s.Valid() && i <= j <= |ws| && n in Run(ws[..i], s).nodes
    ensures n in Run(ws[..j], s).nodes && n in Run(ws, s).nodes
    ensures SameIdentity(Run(ws[..j], s).nodes[n], Run(ws[..i], s).nodes[n])
    ensures SameIdentity(Run(ws, s).nodes[n], Run(ws[..i], s).nodes[n])
  {
    assert ws[..j][..i] == ws[..i];
    RunSplit(ws[..j], i, s);
    RunSplit(ws, j, s);
  }

  /** n is there from time t on: from the start, or brought by the novel merge before t. */
  ghost predicate BroughtAt(ws: seq<Write>, t: nat, n: Node) {
    && t <= |ws|
    && (t > 0 ==> ws[t - 1].MergeNode? && Novel(ws[..t - 1], ws[t - 1]) && SameIdentity(n, Blank(ws[t - 1])))
  }

  /** From when on a node is there. */
  lemma Since(ws: seq<Write>, s: Store, n: nat) returns (t: nat)
    requires s.Valid() && n in Run(ws, s).nodes
    ensures BroughtAt(ws, t, Run(ws, s).nodes[n]) && n in Run(ws[..t], s).nodes
    ensures SameIdentity(Run(ws, s).nodes[n], Run(ws[..t], s).nodes[n])
  {
    if n in s.nodes {
      t := 0;
      assert ws[..0] == [];
    } else {
      var j := CreatedAt(ws, s, n);
      assert ws[..j + 1][..j] == ws[..j];
      CreatedIsNovel(ws[..j], s, ws[j]);
      t := j + 1;
    }
    NodePersists(ws, s, t, t, n);
  }

  // ---------- what has to be done again for a new node ----------

  /** Every node that special matches, general matches too. */
  predicate Covers(general: Pattern, special: Pattern) {
    && general.labels <= special.labels && Has(special.ident, general.ident)
    && (general.purlPrefix.Some? ==>
          || (special.purlPrefix.Some? && general.purlPrefix.value <= special.purlPrefix.value)
          || (PackageUrl in special.ident && general.purlPrefix.value <= special.ident[PackageUrl]))
  }

  lemma CoversMatches(general: Pattern, special: Pattern, n: Node)
    requires Covers(general, special) && Matches(special, n)
    ensures Matches(general, n)
  {
  }

  /** e links the node n, as source or as target, to everything that v links it to. */
  predicate LinksFrom(e: Write, v: Write, n: Node)
    requires v.MergeEdge?
  {
    e.MergeEdge? && e.kind == v.kind && Matches(e.source, n) && Covers(e.target, v.target)
  }

  predicate LinksTo(e: Write, v: Write, n: Node)
    requires v.MergeEdge?
  {
    e.MergeEdge? && e.kind == v.kind && Matches(e.target, n) && Covers(e.source, v.source)
  }

  predicate SetBySome(ws: seq<Write>, key: string, n: Node) {
    exists w :: w in ws && w.MergeNode? && Matches(Key(w), n) && key in w.data
  }

  /** Whatever v would do to a node like n, some of the later writes do as well. */
  ghost predicate Repeats(v: Write, n: Node, later: seq<Write>) {
    match v
    case MergeNode(_, _, data) => Matches(Key(v), n) ==> forall key :: key in data ==> SetBySome(later, key, n)
    case AppendScan(_, _) => true
    case MergeEdge(source, _, target) =>
      && (Matches(source, n) ==> exists e :: e in later && LinksFrom(e, v, n))
      && (Matches(target, n) ==> exists e :: e in later && LinksTo(e, v, n))
  }

  ghost predicate AgainAt(ws: seq<Write>, j: nat)
    requires j < |ws|
  {
    ws[j].MergeNode? && Novel(ws[..j], ws[j]) ==> forall v :: v in ws[..j] ==> Repeats(v, Blank(ws[j]), ws[j..])
  }

  /** What an earlier write would do to a node that only a later one brings is done again after that. */
  ghost predicate Again(ws: seq<Write>) {
    forall j :: 0 <= j < |ws| ==> AgainAt(ws, j)
  }

  /** If n came later than the link query i that it matches, the query that repeats it. */
  lemma LaterLink(ws: seq<Write>, i: nat, j: nat, n: Node, from: bool) returns (m: nat)
    requires Again(ws) && i < |ws| && j < |ws| && i <= j && ws[i].MergeEdge? && ws[j].MergeNode? &&
      Novel(ws[..j], ws[j])
    requires SameIdentity(n, Blank(ws[j])) && Matches(if from then ws[i].source else ws[i].target, n)
    ensures j < m < |ws| && if from then LinksFrom(ws[m], ws[i], n) else LinksTo(ws[m], ws[i], n)
  {
    assert AgainAt(ws, j);
    assert ws[i] in ws[..j];
    assert Repeats(ws[i], Blank(ws[j]), ws[j..]);
    var e :| e in ws[j..] && if from then LinksFrom(e, ws[i], Blank(ws[j])) else LinksTo(e, ws[i], Blank(ws[j]));
    var k :| 0 <= k < |ws[j..]| && ws[j..][k] == e;
    m := j + k;
  }

  /** Every link between nodes of the result that some query asks for is there by the end. */
  lemma LinksSettle(ws: seq<Write>, s: Store, w: Write)
    requires s.Valid() && Again(ws) && w in ws && w.MergeEdge?
    ensures Links(w, Run(ws, s)) <= Run(ws, s).edges
  {
    var i :| 0 <= i < |ws| && ws[i] == w;
    var t := Run(ws, s);
    forall e | e in Links(w, t)
      ensures e in t.edges
    {
      var a, b :| a in t.nodes && b in t.nodes && Matches(w.source, t.nodes[a]) && Matches(w.target, t.nodes[b]) &&
                  e == Edge(a, w.kind, b);
      LinkSettles(ws, i, s, a, b);
    }
  }

  /** Some query makes the link of query i once both nodes are there. */
  lemma LinkTime(ws: seq<Write>, i: nat, x: nat, a: Node, y: nat, b: Node) returns (m: nat)
    requires Again(ws) && i < |ws| && ws[i].MergeEdge? && Matches(ws[i].source, a) && Matches(ws[i].target, b)
    requires BroughtAt(ws, x, a) && BroughtAt(ws, y, b)
    ensures x <= m && y <= m < |ws| && ws[m].MergeEdge? && ws[m].kind == ws[i].kind
    ensures Matches(ws[m].source, a) && Matches(ws[m].target, b)
  {
    m := i;
    if i < x && y <= x {
      m := LaterLink(ws, i, x - 1, a, true);
      CoversMatches(ws[m].target, ws[i].target, b);
    } else if i < y {
      m := LaterLink(ws, i, y - 1, b, false);
      CoversMatches(ws[m].source, ws[i].source, a);
    }
  }

  lemma LinkSettles(ws: seq<Write>, i: nat, s: Store, a: nat, b: nat)
    requires s.Valid() && Again(ws) && i < |ws| && ws[i].MergeEdge?
    requires a in Run(ws, s).nodes && Matches(ws[i].source, Run(ws, s).nodes[a])
    requires b in Run(ws, s).nodes && Matches(ws[i].target, Run(ws, s).nodes[b])
    ensures Edge(a, ws[i].kind, b) in Run(ws, s).edges
  {
    var x := Since(ws, s, a);
    var y := Since(ws, s, b);
    var m := LinkTime(ws, i, x, Run(ws, s).nodes[a], y, Run(ws, s).nodes[b]);
    NodePersists(ws, s, x, m, a);
    NodePersists(ws, s, y, m, b);
    LinkIsMade(ws, m, s, a, b);
  }

  // ---------- replaying creates nothing ----------

  lemma {:induction false} ReplayKeepsNodes(vs: seq<Write>, ws: seq<Write>, s: Store, t: Store, extra: set<Edge>)
    requires SameShapes(vs, ws) && SameNodes(s, t) && s.edges <= t.edges <= s.edges + extra
    requires forall v :: v in vs && v.MergeNode? ==> Found(v, s)
    requires forall v :: v in vs && v.MergeEdge? ==> Links(v, s) <= extra
    ensures SameNodes(s, Run(ws, t)) && s.edges <= Run(ws, t).edges <= s.edges + extra
  {
    if ws != [] {
      var v, w := vs[|vs| - 1], ws[|ws| - 1];
      assert vs == vs[..|vs| - 1] + [v] && v in vs;
      ReplayKeepsNodes(vs[..|vs| - 1], ws[..|ws| - 1], s, t, extra);
      var u := Run(ws[..|ws| - 1], t);
      assert SameShape(v, w);
      ApplyNodes(v, w, s, u, extra);
      RepeatKeepsNodes(v, s, extra);
      NodesTransitive(s, Apply(v, s), Apply(w, u));
    }
  }

  lemma RepeatKeepsNodes(v: Write, s: Store, extra: set<Edge>)
    requires v.MergeNode? ==> Found(v, s)
    requires v.MergeEdge? ==> Links(v, s) <= extra
    ensures SameNodes(s, Apply(v, s)) && s.edges <= Apply(v, s).edges <= s.edges + extra
  {
  }

  lemma NodesTransitive(s: Store, t: Store, u: Store)
    requires SameNodes(s, t) && SameNodes(t, u)
    ensures SameNodes(s, u)
  {
  }

  // ---------- values ----------

  /** The values w sets on a node like n. */
  function SetBy(w: Write, n: Node): map<string, string> {
    if w.MergeNode? && Matches(Key(w), n) then w.data else map[]
  }

  /** What the merges in ws set on a node like n, later values winning. */
  function Overlay(ws: seq<Write>, n: Node): map<string, string> {
    if ws == [] then map[]
    else
      Overlay(ws[..|ws| - 1], n) + SetBy(ws[|ws| - 1], n)
  }

  lemma {:induction false} OverlayKeys(vs: seq<Write>, ws: seq<Write>, n: Node)
    requires SameShapes(vs, ws)
    ensures Overlay(vs, n).Keys == Overlay(ws, n).Keys
  {
    if vs != [] {
      OverlayKeys(vs[..|vs| - 1], ws[..|ws| - 1], n);
    }
  }

  lemma {:induction false} OverlayPrefix(ws: seq<Write>, k: nat, n: Node)
    requires k <= |ws|
    ensures Overlay(ws[..k], n).Keys <= Overlay(ws, n).Keys
  {
    if k == |ws| {
      assert ws[..k] == ws;
    } else {
      assert ws[..|ws| - 1][..k] == ws[..k];
      OverlayPrefix(ws[..|ws| - 1], k, n);
    }
  }

  lemma {:induction false} OverlayIdentity(ws: seq<Write>, m: Node, n: Node)
    requires SameIdentity(m, n)
    ensures Overlay(ws, m) == Overlay(ws, n)
  {
    if ws != [] {
      OverlayIdentity(ws[..|ws| - 1], m, n);
    }
  }

  /** A node of t as it was before the run that led from s to t. */
  function Base(s: Store, t: Store, n: nat): Node
    requires n in t.nodes
  {
    if n in s.nodes then s.nodes[n] else Node(t.nodes[n].labels, t.nodes[n].ident, map[], [])
  }

  lemma MapConcat(a: map<string, string>, b: map<string, string>, c: map<string, string>)
    ensures (a + b) + c == a + (b + c)
  {
  }

  lemma KeptIsTouched(w: Write, s: Store, n: nat)
    requires s.Valid() && n in s.nodes
    ensures n in Apply(w, s).nodes && SameIdentity(Apply(w, s).nodes[n], s.nodes[n])
    ensures Apply(w, s).nodes[n].data == s.nodes[n].data + SetBy(w, s.nodes[n])
    ensures SetBy(w, Apply(w, s).nodes[n]) == SetBy(w, s.nodes[n])
  {
    assert w.MergeNode? && !Found(w, s) ==> !Matches(Key(w), s.nodes[n]);
  }

  lemma {:induction false} OverlayConcat(vs: seq<Write>, ws: seq<Write>, n: Node)
    ensures Overlay(vs + ws, n) == Overlay(vs, n) + Overlay(ws, n)
  {
    if ws == [] {
      assert vs + ws == vs;
    } else {
      assert (vs + ws)[..|vs + ws| - 1] == vs + ws[..|ws| - 1];
      OverlayConcat(vs, ws[..|ws| - 1], n);
      MapConcat(Overlay(vs, n), Overlay(ws[..|ws| - 1], n), SetBy(ws[|ws| - 1], n));
    }
  }

  /** The keys an overlay has are those that some matching merge sets. */
  lemma {:induction false} OverlaySets(ws: seq<Write>, n: Node, key: string)
    ensures key in Overlay(ws, n) <==> SetBySome(ws, key, n)
  {
    if ws != [] {
      var front, w := ws[..|ws| - 1], ws[|ws| - 1];
      assert ws == front + [w];
      OverlaySets(front, n, key);
      if w.MergeNode? && Matches(Key(w), n) && key in w.data {
        assert w in ws;
      }
      if SetBySome(front, key, n) {
        var v :| v in front && v.MergeNode? && Matches(Key(v), n) && key in v.data;
        assert v in ws;
      }
    }
  }

  /** The values a run leaves on a node that was there before. */
  lemma {:induction false} KeptValues(ws: seq<Write>, s: Store, n: nat)
    requires s.Valid() && n in s.nodes
    ensures n in Run(ws, s).nodes && SameIdentity(Run(ws, s).nodes[n], s.nodes[n])
    ensures Run(ws, s).nodes[n].data == s.nodes[n].data + Overlay(ws, s.nodes[n])
  {
    if ws != [] {
      var front, w := ws[..|ws| - 1], ws[|ws| - 1];
      KeptValues(front, s, n);
      RunGrows(front, s);
      KeptIsTouched(w, Run(front, s), n);
      MapConcat(s.nodes[n].data, Overlay(front, s.nodes[n]), SetBy(w, s.nodes[n]));
    }
  }

  /** The values a run leaves on a node that its j-th write creates: what is set from then on. */
  lemma CreatedValues(ws: seq<Write>, s: Store, j: nat, n: nat)
    requires s.Valid() && j < |ws| && ws[j].MergeNode?
    requires n !in Run(ws[..j], s).nodes && n in Run(ws[..j + 1], s).nodes
    ensures n in Run(ws, s).nodes && SameIdentity(Run(ws, s).nodes[n], Blank(ws[j]))
    ensures Run(ws, s).nodes[n].data == Overlay(ws[j..], Blank(ws[j]))
  {
    var mid := Run(ws[..j + 1], s);
    JustCreated(ws, s, j, n);
    RunSplit(ws, j + 1, s);
    KeptValues(ws[j + 1..], mid, n);
    OverlayIdentity(ws[j + 1..], mid.nodes[n], Blank(ws[j]));
    OverlayFirst(ws[j..]);
    assert ws[j..][1..] == ws[j + 1..];
  }

  lemma JustCreated(ws: seq<Write>, s: Store, j: nat, n: nat)
    requires s.Valid() && j < |ws| && ws[j].MergeNode?
    requires n !in Run(ws[..j], s).nodes && n in Run(ws[..j + 1], s).nodes
    ensures Run(ws[..j + 1], s).nodes[n] == Touch(ws[j], Blank(ws[j])) == Blank(ws[j]).(data := ws[j].data)
  {
    assert ws[..j + 1][..j] == ws[..j];
    RunGrows(ws[..j], s);
  }

  lemma OverlayFirst(ws: seq<Write>)
    requires ws != [] && ws[0].MergeNode?
    ensures Overlay(ws, Blank(ws[0])) == ws[0].data + Overlay(ws[1..], Blank(ws[0]))
  {
    assert ws == [ws[0]] + ws[1..] && [ws[0]][..0] == [];
    OverlayConcat([ws[0]], ws[1..], Blank(ws[0]));
    assert Overlay([ws[0]], Blank(ws[0])) == ws[0].data;
  }

  /** The values a run leaves on each node. */
  lemma RunValues(ws: seq<Write>, s: Store, n: nat)
    requires s.Valid() && n in Run(ws, s).nodes
    ensures var node := Run(ws, s).nodes[n];
            if n in s.nodes then node.data == s.nodes[n].data + Overlay(ws, node)
            else exists j :: 0 <= j < |ws| && ws[j].MergeNode? && SameIdentity(node, Blank(ws[j])) &&
                             node.data == Overlay(ws[j..], node)
  {
    if n in s.nodes {
      KeptValues(ws, s, n);
      OverlayIdentity(ws, Run(ws, s).nodes[n], s.nodes[n]);
    } else {
      var j := CreatedAt(ws, s, n);
      CreatedValues(ws, s, j, n);
      OverlayIdentity(ws[j..], Run(ws, s).nodes[n], Blank(ws[j]));
    }
  }

  // ---------- scan ids ----------

  /** Every scan id the writes append is id. */
  predicate OneScan(ws: seq<Write>, id: string) {
    forall w :: w in ws && w.AppendScan? ==> w.scanId == id
  }

  predicate Scans(ws: seq<Write>, n: Node) {
    exists w :: w in ws && w.AppendScan? && Matches(w.pattern, n)
  }

  /** If an earlier append matches the node w asks for, so does a later one. */
  predicate ScansAgain(ws: seq<Write>) {
    forall j :: 0 <= j < |ws| && ws[j].MergeNode? && Scans(ws[..j], Blank(ws[j])) ==> Scans(ws[j..], Blank(ws[j]))
  }

  ghost predicate PrefixScansAt(ws: seq<Write>, s: Store, t: Store, n: nat, id: string)
    requires n in t.nodes
  {
    var ids, now := Base(s, t, n).scanIds, t.nodes[n];
    && (now.scanIds == ids || (Scans(ws, now) && now.scanIds == With(ids, id)))
    && (n in s.nodes && Scans(ws, now) ==> now.scanIds == With(ids, id))
  }

  lemma PrefixScansKept(front: seq<Write>, w: Write, s: Store, before: Store, id: string, n: nat)
    requires before.Valid() && n in before.nodes && PrefixScansAt(front, s, before, n, id)
    requires w.AppendScan? ==> w.scanId == id
    ensures n in Apply(w, before).nodes && PrefixScansAt(front + [w], s, Apply(w, before), n, id)
  {
    var was, now := before.nodes[n], Apply(w, before).nodes[n];
    ScansSplit(front, w, was, now);
    assert now.scanIds == if w.AppendScan? && Matches(w.pattern, was) then With(was.scanIds, id) else was.scanIds;
  }

  /** After a prefix a node has its scan ids as before or with id added, the latter only if some
      append matches it; and certainly so if the node was there from the start. */
  lemma {:induction false} PrefixScans(ws: seq<Write>, s: Store, id: string, n: nat)
    requires s.Valid() && OneScan(ws, id) && n in Run(ws, s).nodes
    ensures PrefixScansAt(ws, s, Run(ws, s), n, id)
  {
    if ws != [] {
      var front, w := ws[..|ws| - 1], ws[|ws| - 1];
      assert ws == front + [w];
      RunGrows(front, s);
      if n in Run(front, s).nodes {
        PrefixScans(front, s, id, n);
        PrefixScansKept(front, w, s, Run(front, s), id, n);
      }
    }
  }

  lemma ScansSplit(front: seq<Write>, w: Write, m: Node, n: Node)
    requires SameIdentity(m, n)
    ensures Scans(front + [w], n) <==> Scans(front, m) || (w.AppendScan? && Matches(w.pattern, m))
  {
    if Scans(front, m) {
      var v :| v in front && v.AppendScan? && Matches(v.pattern, m);
      assert v in front + [w] && Matches(v.pattern, n);
    }
    if w.AppendScan? && Matches(w.pattern, m) {
      assert w in front + [w] && Matches(w.pattern, n);
    }
  }

  lemma ScansParts(ws: seq<Write>, j: nat, n: Node)
    requires j < |ws| && !ws[j].AppendScan?
    ensures Scans(ws, n) <==> Scans(ws[..j], n) || Scans(ws[j + 1..], n)
    ensures Scans(ws[j..], n) <==> Scans(ws[j + 1..], n)
  {
    assert ws == ws[..j] + [ws[j]] + ws[j + 1..] && ws[j..] == [ws[j]] + ws[j + 1..];
    if Scans(ws[..j], n) {
      var w :| w in ws[..j] && w.AppendScan? && Matches(w.pattern, n);
      assert w in ws;
    }
    if Scans(ws[j + 1..], n) {
      var w :| w in ws[j + 1..] && w.AppendScan? && Matches(w.pattern, n);
      assert w in ws && w in ws[j..];
    }
  }

  lemma ScansIdentity(ws: seq<Write>, m: Node, n: Node)
    requires SameIdentity(m, n)
    ensures Scans(ws, m) <==> Scans(ws, n)
  {
    assert forall w :: w in ws && w.AppendScan? ==> (Matches(w.pattern, m) <==> Matches(w.pattern, n));
  }

  ghost predicate ScansAt(ws: seq<Write>, s: Store, t: Store, n: nat, id: string)
    requires n in t.nodes
  {
    t.nodes[n].scanIds == if Scans(ws, t.nodes[n]) then With(Base(s, t, n).scanIds, id) else Base(s, t, n).scanIds
  }

  /** The scan ids a whole run leaves on each node. */
  lemma RunScans(ws: seq<Write>, s: Store, id: string, n: nat)
    requires s.Valid() && OneScan(ws, id) && ScansAgain(ws) && n in Run(ws, s).nodes
    ensures ScansAt(ws, s, Run(ws, s), n, id)
  {
    if n in s.nodes {
      PrefixScans(ws, s, id, n);
    } else {
      var t := Run(ws, s);
      var j := CreatedAt(ws, s, n);
      var mid := Run(ws[..j + 1], s);
      RunSplit(ws, j + 1, s);
      PrefixScans(ws[j + 1..], mid, id, n);
      ScansParts(ws, j, t.nodes[n]);
      ScansIdentity(ws[..j], t.nodes[n], Blank(ws[j]));
      ScansIdentity(ws[j..], t.nodes[n], Blank(ws[j]));
    }
  }
}
