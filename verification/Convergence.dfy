/** Crash and retry: replaying a write sequence over what its interrupted attempts left behind. */
module Convergence {
  import opened MergeStore

  /** A sequence that may be replayed after a crash: whatever a write would do to a node that only a
      later one brings is done again, for links, values and the one scan id appended. */
  ghost predicate Replayable(ws: seq<Write>, id: string) {
    Again(ws) && OneScan(ws, id) && ScansAgain(ws)
  }

  lemma PrefixLinksSettle(ps: seq<Write>, k: nat, qs: seq<Write>, s: Store, v: Write)
    requires s.Valid() && SameShapes(ps, qs) && Again(qs) && k <= |ps| && v in ps[..k] && v.MergeEdge?
    ensures Links(v, Run(ps[..k], s)) <= Run(qs, s).edges
  {
    var i :| 0 <= i < k && ps[i] == v;
    assert SameShape(ps[i], qs[i]) && v in qs;
    LinksSettle(qs, s, v);
    assert SameShapes(ps[..k], qs[..k]);
    RunNodes(ps[..k], qs[..k], s, s, {});
    RunSplit(qs, k, s);
    LinksGrow(v, Run(ps[..k], s), Run(qs[..k], s), Run(qs, s));
  }

  lemma LinksGrow(v: Write, s: Store, t: Store, u: Store)
    requires v.MergeEdge? && SameNodes(s, t) && Grows(t, u)
    ensures Links(v, s) <= Links(v, u)
  {
  }

  /** A replay over a crashed attempt rebuilds the structure of a clean run. */
  lemma ReplayStructure(ps: seq<Write>, k: nat, qs: seq<Write>, s: Store)
    requires s.Valid() && SameShapes(ps, qs) && Again(qs) && k <= |ps|
    ensures SameStructure(Run(qs, Run(ps[..k], s)), Run(qs, s))
  {
    var crashed, extra := Run(ps[..k], s), Run(qs, s).edges;
    assert SameShapes(ps[..k], qs[..k]) && SameShapes(qs[k..], qs[k..]);
    forall v | v in ps[..k] && v.MergeNode?
      ensures Found(v, crashed)
    {
      RunFinds(ps[..k], s, v);
    }
    forall v | v in ps[..k] && v.MergeEdge?
      ensures Links(v, crashed) <= extra
    {
      PrefixLinksSettle(ps, k, qs, s, v);
    }
    ReplayKeepsNodes(ps[..k], qs[..k], crashed, crashed, extra);
    RunNodes(ps[..k], qs[..k], s, s, {});
    RunGrows(ps[..k], s);
    RunSplit(qs, k, crashed);
    RunSplit(qs, k, s);
    RunNodes(qs[k..], qs[k..], Run(qs[..k], s), Run(qs[..k], crashed), extra);
  }

  /** Overwriting with at least the same keys hides what was written before. */
  lemma OverwriteHides(base: map<string, string>, first: map<string, string>, second: map<string, string>)
    requires first.Keys <= second.Keys
    ensures (base + first) + second == base + second
  {
  }

  /** The keys that earlier writes set on the node of a novel merge are set again. */
  lemma OverlayAgain(ws: seq<Write>, j: nat)
    requires Again(ws) && j < |ws| && ws[j].MergeNode? && Novel(ws[..j], ws[j])
    ensures Overlay(ws[..j], Blank(ws[j])).Keys <= Overlay(ws[j..], Blank(ws[j])).Keys
  {
    var n := Blank(ws[j]);
    assert AgainAt(ws, j);
    forall key | key in Overlay(ws[..j], n)
      ensures key in Overlay(ws[j..], n)
    {
      OverlaySets(ws[..j], n, key);
      OverlaySets(ws[j..], n, key);
      var v :| v in ws[..j] && v.MergeNode? && Matches(Key(v), n) && key in v.data;
      assert Repeats(v, n, ws[j..]);
    }
  }

  /** The values on a node from before the attempts. */
  lemma ReplayOldValues(ps: seq<Write>, k: nat, qs: seq<Write>, s: Store, n: nat)
    requires s.Valid() && SameShapes(ps, qs) && k <= |ps| && n in s.nodes
    ensures n in Run(qs, s).nodes && n in Run(qs, Run(ps[..k], s)).nodes
    ensures Run(qs, Run(ps[..k], s)).nodes[n].data == Run(qs, s).nodes[n].data
  {
    var crashed, node := Run(ps[..k], s), s.nodes[n];
    KeptValues(qs, s, n);
    KeptValues(ps[..k], s, n);
    RunGrows(ps[..k], s);
    KeptValues(qs, crashed, n);
    OverlayIdentity(qs, crashed.nodes[n], node);
    ShorterOverlay(ps, 0, k, qs, node);
    OverwriteHides(node.data, Overlay(ps[..k], node), Overlay(qs, node));
  }

  lemma ShorterOverlay(ps: seq<Write>, j: nat, k: nat, qs: seq<Write>, n: Node)
    requires SameShapes(ps, qs) && j <= k <= |ps|
    ensures Overlay(ps[j..k], n).Keys <= Overlay(qs[j..], n).Keys
    ensures j == 0 ==> ps[j..k] == ps[..k] && qs[j..] == qs
  {
    assert SameShapes(ps[j..k], qs[j..k]) && qs[j..][..k - j] == qs[j..k];
    OverlayKeys(ps[j..k], qs[j..k], n);
    OverlayPrefix(qs[j..], k - j, n);
  }

  /** The values on a node that the crashed attempt created. */
  lemma ReplayNewValues(ps: seq<Write>, k: nat, qs: seq<Write>, s: Store, n: nat)
    requires s.Valid() && SameShapes(ps, qs) && Again(qs) && k <= |ps|
    requires n !in s.nodes && n in Run(ps[..k], s).nodes
    ensures n in Run(qs, s).nodes && n in Run(qs, Run(ps[..k], s)).nodes
    ensures Run(qs, Run(ps[..k], s)).nodes[n].data == Run(qs, s).nodes[n].data
  {
    var crashed := Run(ps[..k], s);
    var j := CreatedAt(ps[..k], s, n);
    var node := Blank(qs[j]);
    assert ps[..k][..j] == ps[..j] && ps[..k][..j + 1] == ps[..j + 1] && ps[..k][j..] == ps[j..k];
    CreatedInBoth(ps, qs, s, s, j, n);
    CreatedValues(ps[..k], s, j, n);
    CreatedValues(qs, s, j, n);
    RunGrows(ps[..k], s);
    KeptValues(qs, crashed, n);
    assert SameShape(ps[j], qs[j]) && Blank(ps[j]) == node;
    OverlayIdentity(qs, crashed.nodes[n], node);
    OverlayRepeats(ps, j, k, qs);
  }

  /** On a new node nothing shows of what was set in the crashed attempt or before the node's turn. */
  lemma OverlayRepeats(ps: seq<Write>, j: nat, k: nat, qs: seq<Write>)
    requires SameShapes(ps, qs) && Again(qs) && j < k <= |ps| && qs[j].MergeNode? && Novel(qs[..j], qs[j])
    ensures var node := Blank(qs[j]); Overlay(ps[j..k], node) + Overlay(qs, node) == Overlay(qs[j..], node)
  {
    var node := Blank(qs[j]);
    assert qs == qs[..j] + qs[j..];
    OverlayConcat(qs[..j], qs[j..], node);
    ShorterOverlay(ps, j, k, qs, node);
    OverlayAgain(qs, j);
    HiddenTwice(Overlay(ps[j..k], node), Overlay(qs[..j], node), Overlay(qs[j..], node));
  }

  lemma HiddenTwice(first: map<string, string>, second: map<string, string>, last: map<string, string>)
    requires first.Keys <= last.Keys && second.Keys <= last.Keys
    ensures first + (second + last) == last
  {
  }

  /** What one run creates at j, the other does too. */
  lemma CreatedInBoth(ps: seq<Write>, qs: seq<Write>, s: Store, t: Store, j: nat, n: nat)
    requires s.Valid() && SameShapes(ps, qs) && SameNodes(s, t) && j < |ps| && ps[j].MergeNode?
    requires n !in Run(ps[..j], s).nodes && n in Run(ps[..j + 1], s).nodes
    ensures qs[j].MergeNode? && n !in Run(qs[..j], t).nodes && n in Run(qs[..j + 1], t).nodes
    ensures Novel(qs[..j], qs[j])
  {
    assert SameShapes(ps[..j], qs[..j]) && SameShapes(ps[..j + 1], qs[..j + 1]) && SameShape(ps[j], qs[j]);
    NodesAlike(ps[..j], qs[..j], s, t);
    NodesAlike(ps[..j + 1], qs[..j + 1], s, t);
    assert qs[..j + 1][..j] == qs[..j];
    CreatedIsNovel(qs[..j], t, qs[j]);
  }

  lemma NodesAlike(ps: seq<Write>, qs: seq<Write>, s: Store, t: Store)
    requires SameShapes(ps, qs) && SameNodes(s, t)
    ensures SameNodes(Run(ps, s), Run(qs, t))
  {
    var u := Store(t.nodes, s.edges, t.next);
    RunNodes(ps, qs, s, u, {});
    EdgesIrrelevant(qs, u, t);
  }

  lemma {:induction false} EdgesIrrelevant(ws: seq<Write>, s: Store, t: Store)
    requires s.nodes == t.nodes && s.next == t.next
    ensures Run(ws, s).nodes == Run(ws, t).nodes && Run(ws, s).next == Run(ws, t).next
  {
    if ws != [] {
      EdgesIrrelevant(ws[..|ws| - 1], s, t);
      var w := ws[|ws| - 1];
      assert w.MergeNode? ==> (Found(w, Run(ws[..|ws| - 1], s)) <==> Found(w, Run(ws[..|ws| - 1], t)));
    }
  }

  lemma ReplayCreatesNothing(vs: seq<Write>, ws: seq<Write>, s: Store)
    requires SameShapes(vs, ws) && forall v :: v in vs && v.MergeNode? ==> Found(v, s)
    ensures SameNodes(s, Run(ws, s))
  {
    var extra := set v, e | v in vs && v.MergeEdge? && e in Links(v, s) :: e;
    forall v | v in vs && v.MergeEdge?
      ensures Links(v, s) <= extra
    {
    }
    ReplayKeepsNodes(vs, ws, s, s, extra);
  }

  lemma PrefixFound(ps: seq<Write>, j: nat, k: nat, s: Store)
    requires s.Valid() && j <= k <= |ps|
    ensures forall v :: v in ps[..j] && v.MergeNode? ==> Found(v, Run(ps[..k], s))
  {
    forall v | v in ps[..j] && v.MergeNode?
      ensures Found(v, Run(ps[..k], s))
    {
      var i :| 0 <= i < j && ps[i] == v;
      assert ps[..k][i] == v;
      RunFinds(ps[..k], s, v);
    }
  }

  /** From the crash on a replay and a clean run have the same nodes; before, the replay has all of them. */
  lemma NodesFromCrash(ps: seq<Write>, k: nat, qs: seq<Write>, s: Store, j: nat)
    requires s.Valid() && SameShapes(ps, qs) && k <= |ps| && j <= |ps|
    ensures var crashed := Run(ps[..k], s);
            if j < k then SameNodes(crashed, Run(qs[..j], crashed))
            else SameNodes(Run(qs[..j], s), Run(qs[..j], crashed))
  {
    var crashed := Run(ps[..k], s);
    if j < k {
      assert SameShapes(ps[..j], qs[..j]);
      PrefixFound(ps, j, k, s);
      ReplayCreatesNothing(ps[..j], qs[..j], crashed);
    } else {
      assert SameShapes(ps[..k], qs[..k]) && SameShapes(qs[k..j], qs[k..j]);
      PrefixFound(ps, k, k, s);
      ReplayCreatesNothing(ps[..k], qs[..k], crashed);
      NodesAlike(ps[..k], qs[..k], s, s);
      assert qs[..j] == qs[..k] + qs[k..j];
      RunConcat(qs[..k], qs[k..j], s);
      RunConcat(qs[..k], qs[k..j], crashed);
      NodesAlike(qs[k..j], qs[k..j], Run(qs[..k], s), Run(qs[..k], crashed));
    }
  }

  lemma CrashHasNodes(ps: seq<Write>, k: nat, qs: seq<Write>, s: Store, n: nat)
    requires SameShapes(ps, qs) && k <= |ps|
    ensures n in Run(ps[..k], s).nodes <==> n in Run(qs[..k], s).nodes
  {
    assert SameShapes(ps[..k], qs[..k]);
    NodesAlike(ps[..k], qs[..k], s, s);
  }

  /** A replay creates no node before it is past the crash. */
  lemma CreatesLate(ps: seq<Write>, k: nat, qs: seq<Write>, s: Store, m: nat, n: nat)
    requires s.Valid() && SameShapes(ps, qs) && k <= |ps| && m <= |qs| && n !in Run(ps[..k], s).nodes
    requires n in Run(qs[..m], Run(ps[..k], s)).nodes
    ensures m > k
  {
    NodesFromCrash(ps, k, qs, s, m);
    if m == k {
      CrashHasNodes(ps, k, qs, s, n);
    }
  }

  /** What a replay creates a clean run creates alike. */
  lemma LateCreation(ps: seq<Write>, k: nat, qs: seq<Write>, s: Store, j: nat, n: nat)
    requires s.Valid() && SameShapes(ps, qs) && k <= |ps| && j < |qs| && n !in Run(ps[..k], s).nodes
    requires n !in Run(qs[..j], Run(ps[..k], s)).nodes && n in Run(qs[..j + 1], Run(ps[..k], s)).nodes
    ensures n !in Run(qs[..j], s).nodes && n in Run(qs[..j + 1], s).nodes
  {
    CreatesLate(ps, k, qs, s, j + 1, n);
    NodesFromCrash(ps, k, qs, s, j);
    NodesFromCrash(ps, k, qs, s, j + 1);
  }

  /** The values on a node that the crashed attempt did not come to. */
  lemma ReplayLateValues(ps: seq<Write>, k: nat, qs: seq<Write>, s: Store, n: nat)
    requires s.Valid() && SameShapes(ps, qs) && k <= |ps|
    requires n !in Run(ps[..k], s).nodes && n in Run(qs, Run(ps[..k], s)).nodes
    ensures n in Run(qs, s).nodes && Run(qs, Run(ps[..k], s)).nodes[n].data == Run(qs, s).nodes[n].data
  {
    var crashed := Run(ps[..k], s);
    var j := CreatedAt(qs, crashed, n);
    LateCreation(ps, k, qs, s, j, n);
    RunGrows(ps[..k], s);
    CreatedValues(qs, crashed, j, n);
    CreatedValues(qs, s, j, n);
  }

  lemma ReplayValues(ps: seq<Write>, k: nat, qs: seq<Write>, s: Store, n: nat)
    requires s.Valid() && SameShapes(ps, qs) && Again(qs) && k <= |ps| && n in Run(qs, s).nodes
    requires SameStructure(Run(qs, Run(ps[..k], s)), Run(qs, s))
    ensures Run(qs, Run(ps[..k], s)).nodes[n].data == Run(qs, s).nodes[n].data
  {
    if n in s.nodes {
      ReplayOldValues(ps, k, qs, s, n);
    } else if n in Run(ps[..k], s).nodes {
      ReplayNewValues(ps, k, qs, s, n);
    } else {
      ReplayLateValues(ps, k, qs, s, n);
    }
  }

  lemma ReplayScans(ps: seq<Write>, k: nat, qs: seq<Write>, s: Store, id: string, n: nat)
    requires s.Valid() && SameShapes(ps, qs) && Replayable(qs, id) && k <= |ps| && n in Run(qs, s).nodes
    requires SameStructure(Run(qs, Run(ps[..k], s)), Run(qs, s))
    ensures Run(qs, Run(ps[..k], s)).nodes[n].scanIds == Run(qs, s).nodes[n].scanIds
  {
    var crashed := Run(ps[..k], s);
    var again, clean := Run(qs, crashed), Run(qs, s);
    RunGrows(ps[..k], s);
    RunGrows(qs, crashed);
    RunScans(qs, crashed, id, n);
    RunScans(qs, s, id, n);
    ScansIdentity(qs, again.nodes[n], clean.nodes[n]);
    if n in crashed.nodes {
      PrefixIsOneScan(ps, k, qs, id, crashed.nodes[n]);
      PrefixScans(ps[..k], s, id, n);
      ScansIdentity(qs, crashed.nodes[n], clean.nodes[n]);
    }
  }

  lemma PrefixIsOneScan(ps: seq<Write>, k: nat, qs: seq<Write>, id: string, n: Node)
    requires SameShapes(ps, qs) && OneScan(qs, id) && k <= |ps|
    ensures OneScan(ps[..k], id)
    ensures Scans(ps[..k], n) ==> Scans(qs, n)
  {
    forall w | w in ps[..k] && w.AppendScan?
      ensures w in qs
    {
      var i :| 0 <= i < k && ps[i] == w;
      assert SameShape(ps[i], qs[i]);
    }
  }

  /** One crashed attempt and a full replay equal one clean run, whatever graph it started from. The
      replay may set other values (its own time of ingestion) than the crashed attempt did. */
  lemma ReplayConverges(ps: seq<Write>, k: nat, qs: seq<Write>, s: Store, id: string)
    requires s.Valid() && SameShapes(ps, qs) && Replayable(qs, id) && k <= |ps|
    ensures Run(qs, Run(ps[..k], s)) == Run(qs, s)
  {
    ReplayStructure(ps, k, qs, s);
    var again, clean := Run(qs, Run(ps[..k], s)), Run(qs, s);
    forall n | n in clean.nodes
      ensures again.nodes[n] == clean.nodes[n]
    {
      ReplayValues(ps, k, qs, s, n);
      ReplayScans(ps, k, qs, s, id, n);
    }
    assert again.nodes == clean.nodes;
  }

  // ---------- any number of crashes ----------

  /** An attempt: its write sequence and the number of writes that went through. */
  datatype Attempt = Attempt(writes: seq<Write>, done: nat)

  ghost predicate IsAttemptAt(a: Attempt, qs: seq<Write>) {
    SameShapes(a.writes, qs) && a.done <= |a.writes|
  }

  function Crashed(attempts: seq<Attempt>, s: Store): Store
    requires forall a :: a in attempts ==> a.done <= |a.writes|
  {
    if attempts == [] then s
    else
      var a := attempts[|attempts| - 1];
      Run(a.writes[..a.done], Crashed(attempts[..|attempts| - 1], s))
  }

  /** Any number of attempts, each cut off anywhere, followed by one that completes: the result is
      that of the completing attempt alone. */
  lemma {:induction false} RetriesConverge(attempts: seq<Attempt>, qs: seq<Write>, s: Store, id: string)
    requires s.Valid() && Replayable(qs, id)
    requires forall a :: a in attempts ==> a.done <= |a.writes| && IsAttemptAt(a, qs)
    ensures Crashed(attempts, s).Valid()
    ensures Run(qs, Crashed(attempts, s)) == Run(qs, s)
  {
    if attempts != [] {
      var front, a := attempts[..|attempts| - 1], attempts[|attempts| - 1];
      assert IsAttemptAt(a, qs);
      RetriesConverge(front, qs, s, id);
      var before := Crashed(front, s);
      RunGrows(a.writes[..a.done], before);
      ReplayConverges(a.writes, a.done, qs, before, id);
    }
  }

  // ---------- no duplicates ----------

  /** Ids are handed out in order. */
  lemma CreatedInOrder(ws: seq<Write>, s: Store, i: nat, j: nat, m: nat, n: nat)
    requires s.Valid() && i < |ws| && j < |ws| && m < n
    requires m !in Run(ws[..i], s).nodes && m in Run(ws[..i + 1], s).nodes
    requires n !in Run(ws[..j], s).nodes && n in Run(ws[..j + 1], s).nodes
    ensures i < j
  {
    CreatedIsNext(ws, s, i, m);
    CreatedIsNext(ws, s, j, n);
    if j < i {
      NodePersists(ws, s, j + 1, i, n);
      RunGrows(ws[..i], s);
    }
  }

  lemma CreatedIsNext(ws: seq<Write>, s: Store, j: nat, n: nat)
    requires s.Valid() && j < |ws|
    requires n !in Run(ws[..j], s).nodes && n in Run(ws[..j + 1], s).nodes
    ensures n == Run(ws[..j], s).next && Run(ws[..j + 1], s).next == n + 1
    ensures ws[j].MergeNode? && !Found(ws[j], Run(ws[..j], s))
    ensures SameIdentity(Run(ws[..j + 1], s).nodes[n], Blank(ws[j]))
  {
    assert ws[..j + 1][..j] == ws[..j];
    RunGrows(ws[..j], s);
  }

  lemma NotFoundDiffers(w: Write, s: Store, m: nat)
    requires w.MergeNode? && !Found(w, s) && m in s.nodes
    ensures !SameIdentity(s.nodes[m], Blank(w))
  {
    assert !Matches(Key(w), s.nodes[m]);
  }

  /** A run creates at most one node for each set of labels and identifying properties. */
  lemma CreatedOnce(ws: seq<Write>, s: Store, m: nat, n: nat)
    requires s.Valid() && m !in s.nodes && n !in s.nodes && m < n
    requires m in Run(ws, s).nodes && n in Run(ws, s).nodes
    ensures !SameIdentity(Run(ws, s).nodes[m], Run(ws, s).nodes[n])
  {
    var i := CreatedAt(ws, s, m);
    var j := CreatedAt(ws, s, n);
    CreatedInOrder(ws, s, i, j, m, n);
    CreatedIsNext(ws, s, j, n);
    NodePersists(ws, s, i + 1, j, m);
    NotFoundDiffers(ws[j], Run(ws[..j], s), m);
    NodePersists(ws, s, j + 1, j + 1, n);
  }
}
