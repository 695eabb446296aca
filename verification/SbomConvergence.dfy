/** Exactly which documents converge when their ingest crashes and is retried. */
module SbomConvergence {
  import opened Lists
  import opened PrefixRules
  import opened MergeStore
  import opened Convergence
  import opened ReplayLimits
  import opened SbomPlan
  import opened SbomItems
  import opened SbomReplay

  // ---------- scan ids ----------

  /** A write that appends no scan id and creates no version. */
  predicate Aside(w: Write) {
    !w.AppendScan? && (w.MergeNode? ==> "Version" !in w.labels)
  }

  predicate AllAside(ws: seq<Write>) {
    forall w :: w in ws ==> Aside(w)
  }

  /** Every append looks for versions and appends id. */
  predicate VersionScans(ws: seq<Write>, id: string) {
    forall w :: w in ws && w.AppendScan? ==> "Version" in w.pattern.labels && w.scanId == id
  }

  lemma NoScanOfOthers(ws: seq<Write>, id: string, w: Write)
    requires VersionScans(ws, id) && w.MergeNode? && "Version" !in w.labels
    ensures !Scans(ws, Blank(w))
  {
  }

  lemma ScansMore(ws: seq<Write>, vs: seq<Write>, n: Node)
    requires Scans(ws, n)
    ensures Scans(ws + vs, n)
  {
    var w :| w in ws && w.AppendScan? && Matches(w.pattern, n);
    assert w in ws + vs;
  }

  /** What holds of the merges of ws holds of them in a longer sequence. */
  lemma ScansAgainLonger(ws: seq<Write>, vs: seq<Write>, j: nat)
    requires ScansAgain(ws) && j < |ws| && ws[j].MergeNode? && Scans((ws + vs)[..j], Blank(ws[j]))
    ensures Scans((ws + vs)[j..], Blank(ws[j]))
  {
    assert (ws + vs)[..j] == ws[..j] && (ws + vs)[j..] == ws[j..] + vs;
    ScansMore(ws[j..], vs, Blank(ws[j]));
  }

  lemma VersionScansMore(ws: seq<Write>, vs: seq<Write>, id: string)
    requires VersionScans(ws, id) && VersionScans(vs, id)
    ensures VersionScans(ws + vs, id)
  {
  }

  lemma AsidePrefix(vs: seq<Write>, k: nat, id: string)
    requires AllAside(vs) && k <= |vs|
    ensures VersionScans(vs[..k], id)
  {
    forall w | w in vs[..k]
      ensures Aside(w)
    {
      assert w in vs;
    }
  }

  /** Writes that create no version keep the property that scan ids are appended again. */
  lemma ScansAgainAside(ws: seq<Write>, vs: seq<Write>, id: string)
    requires ScansAgain(ws) && VersionScans(ws, id) && AllAside(vs)
    ensures ScansAgain(ws + vs) && VersionScans(ws + vs, id)
  {
    var all := ws + vs;
    forall j | |ws| <= j < |all| && all[j].MergeNode?
      ensures !Scans(all[..j], Blank(all[j]))
    {
      assert all[j] == vs[j - |ws|] && vs[j - |ws|] in vs && all[..j] == ws + vs[..j - |ws|];
      AsidePrefix(vs, j - |ws|, id);
      VersionScansMore(ws, vs[..j - |ws|], id);
      NoScanOfOthers(all[..j], id, all[j]);
    }
    forall j | 0 <= j < |ws| && all[j].MergeNode? && Scans(all[..j], Blank(all[j]))
      ensures Scans(all[j..], Blank(all[j]))
    {
      ScansAgainLonger(ws, vs, j);
    }
  }

  /** A version whose fields include those of one that appends its scan id appends its own. */
  lemma ScanSpreads(a: Version, b: Version)
    requires AppendsScan(a) && Has(VersionIdent(b), VersionIdent(a))
    ensures AppendsScan(b)
  {
    assert Name in VersionIdent(a) && ProjectName in VersionIdent(a) && ProjectGroup in VersionIdent(a);
  }

  lemma ScanOrigin(rules: seq<Rule>, items: seq<Item>, scanId: string, w: Write) returns (b: Version)
    requires w in Written(rules, items, scanId) && w.AppendScan?
    ensures AppendsScan(b) && w == ScanAppend(b, scanId)
  {
    var k := WrittenBy(rules, items, scanId, w);
    ItemAppends(rules, items[k], scanId, w);
    b := items[k].version;
  }

  lemma ItemAppends(rules: seq<Rule>, it: Item, scanId: string, w: Write)
    requires w in ItemWrites(rules, it, scanId) && w.AppendScan?
    ensures AppendsScan(it.version) && w == ScanAppend(it.version, scanId)
  {
  }

  /** If an earlier item's append would match v's node, v's own append follows. */
  lemma OwnScanFollows(rules: seq<Rule>, front: seq<Item>, v: Version, scanId: string)
    requires Scans(Written(rules, front, scanId), Blank(VersionMerge(rules, v, scanId)))
    ensures Scans(VersionWrites(rules, v, scanId), Blank(VersionMerge(rules, v, scanId)))
  {
    var m := VersionMerge(rules, v, scanId);
    var w :| w in Written(rules, front, scanId) && w.AppendScan? && Matches(w.pattern, Blank(m));
    var b := ScanOrigin(rules, front, scanId, w);
    ScanSpreads(b, v);
    assert VersionWrites(rules, v, scanId)[1] == ScanAppend(v, scanId);
  }

  /** Appending a merge and writes that create nothing, where the merge's scans come again. */
  lemma ScansAgainMerge(ws: seq<Write>, vs: seq<Write>)
    requires ScansAgain(ws) && vs != [] && vs[0].MergeNode? && forall i :: 0 < i < |vs| ==> !vs[i].MergeNode?
    requires Scans(ws, Blank(vs[0])) ==> Scans(vs, Blank(vs[0]))
    ensures ScansAgain(ws + vs)
  {
    var all := ws + vs;
    assert all[|ws|] == vs[0] && all[..|ws|] == ws && all[|ws|..] == vs;
    forall j | 0 <= j < |all| && all[j].MergeNode? && Scans(all[..j], Blank(all[j]))
      ensures Scans(all[j..], Blank(all[j]))
    {
      if j < |ws| {
        ScansAgainLonger(ws, vs, j);
      } else {
        assert j == |ws|;
      }
    }
  }

  lemma VersionScansAgain(rules: seq<Rule>, front: seq<Item>, v: Version, scanId: string)
    requires ScansAgain(Written(rules, front, scanId)) && VersionScans(Written(rules, front, scanId), scanId)
    ensures var ws := Written(rules, front, scanId) + VersionWrites(rules, v, scanId);
            ScansAgain(ws) && VersionScans(ws, scanId)
  {
    var ws, vs := Written(rules, front, scanId), VersionWrites(rules, v, scanId);
    VersionScansMore(ws, vs, scanId);
    if Scans(ws, Blank(vs[0])) {
      OwnScanFollows(rules, front, v, scanId);
    }
    ScansAgainMerge(ws, vs);
  }

  lemma LicenceAside(rules: seq<Rule>, it: Item, scanId: string)
    requires it.LicenceItem?
    ensures AllAside(ItemWrites(rules, it, scanId))
  {
  }

  lemma ItemScanAgain(rules: seq<Rule>, front: seq<Item>, it: Item, scanId: string)
    requires ScansAgain(Written(rules, front, scanId)) && VersionScans(Written(rules, front, scanId), scanId)
    ensures var ws := Written(rules, front, scanId) + ItemWrites(rules, it, scanId);
            ScansAgain(ws) && VersionScans(ws, scanId)
  {
    if it.VersionItem? {
      VersionScansAgain(rules, front, it.version, scanId);
    } else {
      LicenceAside(rules, it, scanId);
      ScansAgainAside(Written(rules, front, scanId), ItemWrites(rules, it, scanId), scanId);
    }
  }

  lemma {:induction false} ItemsScanAgain(rules: seq<Rule>, items: seq<Item>, scanId: string)
    ensures ScansAgain(Written(rules, items, scanId)) && VersionScans(Written(rules, items, scanId), scanId)
  {
    if items != [] {
      var front, last := items[..|items| - 1], items[|items| - 1];
      assert items == front + [last];
      ItemsScanAgain(rules, front, scanId);
      ItemScanAgain(rules, front, last, scanId);
      WrittenNext(rules, front, last, scanId);
    }
  }

  lemma RestAside(doc: Document, now: string)
    ensures AllAside(Rest(doc, now))
  {
    RestIsRest(doc, now);
    forall w | w in Rest(doc, now) && w.MergeNode?
      ensures "Version" !in w.labels
    {
      var k: Kind :| k != LicenseKind && IsMergeOf(k, w);
      TagsDiffer(k, k);
    }
  }

  /** Scan ids are appended again, and only the document's. */
  lemma ItemsAndRestScanAgain(rules: seq<Rule>, items: seq<Item>, doc: Document, now: string)
    ensures var ws := Written(rules, items, doc.scanId) + Rest(doc, now); ScansAgain(ws) && OneScan(ws, doc.scanId)
  {
    ItemsScanAgain(rules, items, doc.scanId);
    RestAside(doc, now);
    ScansAgainAside(Written(rules, items, doc.scanId), Rest(doc, now), doc.scanId);
  }

  lemma PlanScansAgain(rules: seq<Rule>, doc: Document, now: string)
    ensures ScansAgain(Plan(rules, doc, now)) && OneScan(Plan(rules, doc, now), doc.scanId)
  {
    PlanIsProjectsAndRest(rules, doc, now);
    ItemsAndRestScanAgain(rules, Items(doc.components), doc, now);
  }

  // ---------- attempts ----------

  lemma SameShapesRefl(ws: seq<Write>)
    ensures SameShapes(ws, ws)
  {
  }

  lemma SameShapesConcat(a: seq<Write>, b: seq<Write>, c: seq<Write>, d: seq<Write>)
    requires SameShapes(a, b) && SameShapes(c, d)
    ensures SameShapes(a + c, b + d)
  {
  }

  /** At two times a document's plan has the same queries; only the time of ingestion differs. */
  lemma PlanShapes(rules: seq<Rule>, doc: Document, before: string, now: string)
    ensures SameShapes(Plan(rules, doc, before), Plan(rules, doc, now))
  {
    var head := ProjectsPart(rules, doc.components, doc.scanId) + SourcesPart(doc.components)
                + DependenciesPart(doc.components, doc.dependencies)
                + DefectsPart(doc.defects) + AffectsPart(doc.components, doc.defects, doc.affects);
    SameShapesRefl(head);
    SameShapesConcat(head, head, RecordWrites(doc.record, before), RecordWrites(doc.record, now));
    SameShapesRefl(LinksPart(doc.components, doc.record));
    SameShapesConcat(head + RecordWrites(doc.record, before), head + RecordWrites(doc.record, now),
                     LinksPart(doc.components, doc.record), LinksPart(doc.components, doc.record));
  }

  /** The document with its dependencies in another order: they come from sets, and each attempt may
      walk through them differently. */
  ghost predicate Reordered(doc: Document, other: Document) {
    multiset(other.dependencies) == multiset(doc.dependencies) && other == doc.(dependencies := other.dependencies)
  }

  /** An attempt issues ws: the plan at some time, with the dependencies in some order. */
  ghost predicate Issues(rules: seq<Rule>, doc: Document, ws: seq<Write>) {
    exists other, now :: Reordered(doc, other) && ws == Plan(rules, other, now)
  }

  ghost predicate AllTries(rules: seq<Rule>, doc: Document, tries: seq<Attempt>) {
    forall a :: a in tries ==> a.done <= |a.writes| && Issues(rules, doc, a.writes)
  }

  // ---------- the order of dependencies ----------

  /** Link queries leave the nodes alone and add their links. */
  lemma {:induction false} LinkQueries(ws: seq<Write>, s: Store)
    requires forall w :: w in ws ==> w.MergeEdge?
    ensures var made := set w, e | w in ws && e in Links(w, s) :: e;
            Run(ws, s) == Store(s.nodes, s.edges + made, s.next)
  {
    if ws != [] {
      var front, w := ws[..|ws| - 1], ws[|ws| - 1];
      assert ws == front + [w];
      LinkQueries(front, s);
      assert w in ws && Links(w, Run(front, s)) == Links(w, s);
    }
  }

  lemma {:induction false} DependencyQueries(cs: seq<Component>, deps: seq<(nat, nat)>, w: Write)
    ensures w in DependenciesPart(cs, deps) <==>
      exists d :: d in deps && d.0 < |cs| && d.1 < |cs| && w in DependencyWrites(cs[d.0].version, cs[d.1].version)
  {
    if deps != [] {
      var front, d := deps[..|deps| - 1], deps[|deps| - 1];
      assert deps == front + [d];
      DependencyQueries(cs, front, w);
    }
  }

  /** Dependency queries have the same effect in any order. */
  lemma DependenciesCommute(cs: seq<Component>, deps: seq<(nat, nat)>, others: seq<(nat, nat)>, s: Store)
    requires multiset(deps) == multiset(others)
    ensures Run(DependenciesPart(cs, deps), s) == Run(DependenciesPart(cs, others), s)
  {
    var ws, vs := DependenciesPart(cs, deps), DependenciesPart(cs, others);
    DependenciesRest(cs, deps);
    DependenciesRest(cs, others);
    forall w
      ensures w in ws <==> w in vs
    {
      DependencyQueries(cs, deps, w);
      DependencyQueries(cs, others, w);
      assert forall d :: d in deps <==> d in multiset(deps);
      assert forall d :: d in others <==> d in multiset(others);
    }
    LinkQueries(ws, s);
    LinkQueries(vs, s);
    assert (set w, e | w in ws && e in Links(w, s) :: e) == (set w, e | w in vs && e in Links(w, s) :: e);
  }

  lemma PlanSplit(rules: seq<Rule>, doc: Document, now: string, s: Store)
    ensures Run(Plan(rules, doc, now), s) ==
      Run(DefectsPart(doc.defects) + AffectsPart(doc.components, doc.defects, doc.affects)
          + RecordWrites(doc.record, now) + LinksPart(doc.components, doc.record),
          Run(DependenciesPart(doc.components, doc.dependencies),
              Run(ProjectsPart(rules, doc.components, doc.scanId) + SourcesPart(doc.components), s)))
  {
    var a, b := ProjectsPart(rules, doc.components, doc.scanId), SourcesPart(doc.components);
    var c, d := DependenciesPart(doc.components, doc.dependencies), DefectsPart(doc.defects);
    var e, f := AffectsPart(doc.components, doc.defects, doc.affects), RecordWrites(doc.record, now);
    var g := LinksPart(doc.components, doc.record);
    Regroup(a + b + c, d, e);
    Regroup(a + b + c, d + e, f);
    Regroup(a + b + c, d + e + f, g);
    RunConcat(a + b + c, d + e + f + g, s);
    RunConcat(a + b, c, s);
  }

  lemma ReorderedRuns(rules: seq<Rule>, doc: Document, other: Document, now: string, s: Store)
    requires Reordered(doc, other)
    ensures Run(Plan(rules, doc, now), s) == Run(Plan(rules, other, now), s)
  {
    PlanSplit(rules, doc, now, s);
    PlanSplit(rules, other, now, s);
    DependenciesCommute(doc.components, doc.dependencies, other.dependencies,
                        Run(ProjectsPart(rules, doc.components, doc.scanId) + SourcesPart(doc.components), s));
  }

  // ---------- main results ----------

  /** Crashes at a document, and the complete attempt after them, always give the graph of the complete
      attempt alone: wherever the attempts stop, whenever they run, in whatever order they walk through
      dependencies, and from any graph. */
  ghost predicate AlwaysConverges(rules: seq<Rule>, doc: Document) {
    forall tries: seq<Attempt>, ws: seq<Write>, s: Store ::
      AllTries(rules, doc, tries) && Issues(rules, doc, ws) && s.Valid() ==> Run(ws, Crashed(tries, s)) == Run(ws, s)
  }

  /** The writes of a document may be replayed exactly if it is retryable. */
  lemma PlanReplayable(rules: seq<Rule>, doc: Document, now: string)
    ensures Replayable(Plan(rules, doc, now), doc.scanId) <==> Retryable(rules, doc)
    ensures AlwaysReplays(Plan(rules, doc, now)) <==> Retryable(rules, doc)
  {
    PlanScansAgain(rules, doc, now);
    PlanAgain(rules, doc, now);
    ReplayCharacterised(Plan(rules, doc, now), doc.scanId);
  }

  /** One crashed attempt shows nothing in the graph of the next complete one. */
  lemma OneTryConverges(rules: seq<Rule>, doc: Document, a: Attempt, ws: seq<Write>, s: Store)
    requires Retryable(rules, doc) && s.Valid()
    requires a.done <= |a.writes| && Issues(rules, doc, a.writes) && Issues(rules, doc, ws)
    ensures Run(ws, Run(a.writes[..a.done], s)) == Run(ws, s)
  {
    var first, before :| Reordered(doc, first) && a.writes == Plan(rules, first, before);
    var last, now :| Reordered(doc, last) && ws == Plan(rules, last, now);
    var crashed, again := Run(a.writes[..a.done], s), Plan(rules, first, now);
    assert Retryable(rules, first);
    PlanReplayable(rules, first, now);
    PlanShapes(rules, first, before, now);
    ReplayConverges(a.writes, a.done, again, s, first.scanId);
    ReorderedRuns(rules, last, first, now, crashed);
    ReorderedRuns(rules, last, first, now, s);
  }

  /** Any number of crashed attempts, then a complete one: the graph is that of the complete one alone,
      from any starting graph. */
  lemma {:induction false} IngestConverges(rules: seq<Rule>, doc: Document, tries: seq<Attempt>, ws: seq<Write>,
                                           s: Store)
    requires Retryable(rules, doc) && s.Valid() && AllTries(rules, doc, tries) && Issues(rules, doc, ws)
    ensures Crashed(tries, s).Valid() && Run(ws, Crashed(tries, s)) == Run(ws, s)
  {
    if tries != [] {
      var front, a := tries[..|tries| - 1], tries[|tries| - 1];
      assert a in tries;
      IngestConverges(rules, doc, front, ws, s);
      RunGrows(a.writes[..a.done], Crashed(front, s));
      OneTryConverges(rules, doc, a, ws, Crashed(front, s));
    }
  }

  lemma OneCrash(a: Attempt, s: Store)
    requires a.done <= |a.writes|
    ensures Crashed([a], s) == Run(a.writes[..a.done], s)
  {
    assert [a][..0] == [];
  }

  lemma OneIsAll(rules: seq<Rule>, doc: Document, a: Attempt)
    requires a.done <= |a.writes| && Issues(rules, doc, a.writes)
    ensures AllTries(rules, doc, [a])
  {
  }

  lemma TriesShow(rules: seq<Rule>, doc: Document, tries: seq<Attempt>, ws: seq<Write>, s: Store)
    requires AllTries(rules, doc, tries) && Issues(rules, doc, ws) && s.Valid() &&
      Run(ws, Crashed(tries, s)) != Run(ws, s)
    ensures !AlwaysConverges(rules, doc)
  {
  }

  /** A plan that goes wrong after some crash is a document that does not converge. */
  lemma CrashShows(rules: seq<Rule>, doc: Document, ws: seq<Write>, k: nat, s: Store)
    requires Issues(rules, doc, ws) && Diverges(ws, k, s)
    ensures !AlwaysConverges(rules, doc)
  {
    var a := Attempt(ws, k);
    OneCrash(a, s);
    OneIsAll(rules, doc, a);
    TriesShow(rules, doc, [a], ws, s);
  }

  lemma PlanIsIssued(rules: seq<Rule>, doc: Document, now: string)
    ensures Issues(rules, doc, Plan(rules, doc, now))
  {
    assert Reordered(doc, doc);
  }

  lemma UnretryableDiverges(rules: seq<Rule>, doc: Document, now: string) returns (k: nat, s: Store)
    requires !Retryable(rules, doc)
    ensures Diverges(Plan(rules, doc, now), k, s)
  {
    PlanAgain(rules, doc, now);
    k, s := NotAgainDiverges(Plan(rules, doc, now));
  }

  /** A document always converges exactly if it is retryable. */
  lemma IngestConvergesExactly(rules: seq<Rule>, doc: Document)
    ensures AlwaysConverges(rules, doc) <==> Retryable(rules, doc)
  {
    if Retryable(rules, doc) {
      forall tries: seq<Attempt>, ws: seq<Write>, s: Store |
        AllTries(rules, doc, tries) && Issues(rules, doc, ws) && s.Valid()
        ensures Run(ws, Crashed(tries, s)) == Run(ws, s)
      {
        IngestConverges(rules, doc, tries, ws, s);
      }
    } else {
      var k, s := UnretryableDiverges(rules, doc, "");
      PlanIsIssued(rules, doc, "");
      CrashShows(rules, doc, Plan(rules, doc, ""), k, s);
    }
  }
}
