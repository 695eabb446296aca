/** Documents whose ingest does not converge under retry: where a write looks at a node that the same
    document creates only later. */
module IngestLimits {
  import opened Lists
  import opened Options
  import opened PrefixRules
  import opened MergeStore
  import opened Convergence
  import opened ReplayLimits
  import opened SbomPlan
  import opened SbomConvergence
  import opened CleanedGraphs

  /** The node that the last write of a sequence creates in a clean run from the empty graph. */
  lemma CreatedLast(front: seq<Write>, w: Write) returns (n: nat)
    requires w.MergeNode? && Novel(front, w)
    ensures var s, t := Run(front, EMPTY), Run(front + [w], EMPTY);
            && s.Valid() && t.Valid() && n !in s.nodes && n in t.nodes && Grows(s, t)
            && t.edges == s.edges && t.nodes[n] == Touch(w, Blank(w))
  {
    var ws := front + [w];
    assert ws[..|front|] == front && ws[..|front| + 1] == ws;
    n := NovelCreates(ws, |front|, EMPTY);
    RunGrows(front, EMPTY);
    AppliedLast(front, w, n);
  }

  lemma AppliedLast(front: seq<Write>, w: Write, n: nat)
    requires w.MergeNode? && Run(front, EMPTY).Valid()
    requires n !in Run(front, EMPTY).nodes && n in Run(front + [w], EMPTY).nodes
    ensures var s, t := Run(front, EMPTY), Run(front + [w], EMPTY);
            t.Valid() && Grows(s, t) && t.edges == s.edges && t.nodes[n] == Touch(w, Blank(w))
  {
    assert (front + [w])[..|front|] == front;
  }

  /** A link that would have matched the last node adds an edge when it is replayed. */
  lemma LateNodeGetsLinked(front: seq<Write>, w: Write, e: Write, target: nat)
    requires w.MergeNode? && Novel(front, w)
    requires e in front && e.MergeEdge? && Matches(e.source, Blank(w))
    requires target in Run(front, EMPTY).nodes && Matches(e.target, Run(front, EMPTY).nodes[target])
    ensures Run(front + [w], Run(front + [w], EMPTY)) != Run(front + [w], EMPTY)
  {
    var n := CreatedLast(front, w);
    var clean, edge := Run(front + [w], EMPTY), Edge(n, e.kind, target);
    if edge in Run(front, EMPTY).edges {
      var m := EdgeMadeAt(front, EMPTY, edge);
      NodePersists(front, EMPTY, m, m, n);
    }
    var i :| 0 <= i < |front| && front[i] == e;
    ReplayMakesLink(front + [w], i, clean, n, target);
  }

  /** An earlier MERGE that would have matched the last node sets its own values on it in a replay. */
  lemma LateNodeGetsOverwritten(front: seq<Write>, w: Write, v: Write, key: string)
    requires w.MergeNode? && Novel(front, w)
    requires v in front && v.MergeNode? && Matches(Key(v), Blank(w)) && key in v.data && key !in w.data
    ensures Run(front + [w], Run(front + [w], EMPTY)) != Run(front + [w], EMPTY)
  {
    var n := CreatedLast(front, w);
    var ws, clean := front + [w], Run(front + [w], EMPTY);
    assert key !in clean.nodes[n].data;
    var i :| 0 <= i < |front| && front[i] == v;
    ReplaySets(ws, i, clean, n, key);
  }

  // ---------- as documents ----------

  function Package(version: string, name: string, purl: Option<string>, repo: Option<string>): Version {
    Version.Version(Some(version), Project.Project(None, None, Names(None, Some(name), purl), None, repo), "cyclonedx")
  }

  function Bare(cs: seq<Component>): Document {
    Document(cs, [], [], [], Record("", map[]), "scan")
  }

  /** Two components, of which only the first is licensed, that differ in their purls alone. */
  function LicensedTwin(version: string, name: string, purl: string, purl': string, l: License): Document {
    Bare([Component(Package(version, name, Some(purl), None), [l], None),
          Component(Package(version, name, Some(purl'), None), [], None)])
  }

  /** A component without a purl, followed by one that adds a purl to the same names. */
  function PurlAdded(version: string, name: string, purl: string, repo: string): Document {
    Bare([Component(Package(version, name, None, Some(repo)), [], None),
          Component(Package(version, name, Some(purl), None), [], None)])
  }

  lemma BareParts(a: Component, b: Component)
    requires a.source == None && b.source == None
    ensures SourcesPart([a, b]) == [] && LinksPart([a, b], Record("", map[])) == []
  {
    var cs := [a, b];
    assert cs[..1] == [a] && [a][..0] == [];
    assert SourcesPart([a]) == [] && LinksPart([a], Record("", map[])) == [];
    assert SourcesPart(cs) == SourcesPart(cs[..1]) + SourceWrites(b);
    assert LinksPart(cs, Record("", map[])) ==
      LinksPart(cs[..1], Record("", map[])) + LinkWrites(b.version, Record("", map[]));
  }

  lemma BareProjects(rules: seq<Rule>, a: Component, b: Component)
    requires b.licenses == [] && !AppendsScan(a.version) && !AppendsScan(b.version)
    ensures ProjectsPart(rules, [a, b], "scan") ==
            [VersionMerge(rules, a.version, "scan")] + LicensesWrites(a.version, a.licenses)
            + [VersionMerge(rules, b.version, "scan")]
  {
    BareComponent(rules, a);
    BareComponent(rules, b);
    NothingAdded([VersionMerge(rules, b.version, "scan")]);
    ProjectsOfTwo(rules, a, b);
  }

  lemma BareComponent(rules: seq<Rule>, c: Component)
    requires !AppendsScan(c.version)
    ensures ComponentWrites(rules, c, "scan") ==
            [VersionMerge(rules, c.version, "scan")] + LicensesWrites(c.version, c.licenses)
  {
    NothingAdded([VersionMerge(rules, c.version, "scan")]);
  }

  lemma ProjectsSnoc(rules: seq<Rule>, front: seq<Component>, c: Component)
    ensures ProjectsPart(rules, front + [c], "scan") ==
            ProjectsPart(rules, front, "scan") + ComponentWrites(rules, c, "scan")
  {
    assert (front + [c])[..|front|] == front;
  }

  lemma ProjectsOfTwo(rules: seq<Rule>, a: Component, b: Component)
    ensures ProjectsPart(rules, [a, b], "scan") == ComponentWrites(rules, a, "scan") + ComponentWrites(rules, b, "scan")
  {
    ProjectsSnoc(rules, [], a);
    ProjectsSnoc(rules, [a], b);
    assert [] + [a] == [a] && [a] + [b] == [a, b];
    assert [] + ComponentWrites(rules, a, "scan") == ComponentWrites(rules, a, "scan");
  }

  lemma BarePlan(rules: seq<Rule>, a: Component, b: Component, now: string)
    requires a.source == None && b.source == None && b.licenses == []
    requires !AppendsScan(a.version) && !AppendsScan(b.version)
    ensures Plan(rules, Bare([a, b]), now) ==
            [VersionMerge(rules, a.version, "scan")] + LicensesWrites(a.version, a.licenses)
            + [VersionMerge(rules, b.version, "scan")]
  {
    BareParts(a, b);
    BareProjects(rules, a, b);
    NothingAdded(ProjectsPart(rules, [a, b], "scan"));
  }

  lemma OneLicense(v: Version, l: License)
    requires CleanLicense(l.spdxId) != ""
    ensures LicensesWrites(v, [l]) == [LicenseMerge(l), LicenseLink(v, l)]
  {
    assert [l][..0] == [];
  }

  lemma PackageAppendsNothing(version: string, name: string, purl: string)
    ensures !AppendsScan(Package(version, name, Some(purl), None))
  {
  }

  lemma TwinPlan(rules: seq<Rule>, version: string, name: string, purl: string, purl': string, l: License, now: string)
    requires CleanLicense(l.spdxId) != ""
    ensures var a := Package(version, name, Some(purl), None);
            Plan(rules, LicensedTwin(version, name, purl, purl', l), now) ==
              [VersionMerge(rules, a, "scan"), LicenseMerge(l), LicenseLink(a, l)]
              + [VersionMerge(rules, Package(version, name, Some(purl'), None), "scan")]
  {
    var a, b := Package(version, name, Some(purl), None), Package(version, name, Some(purl'), None);
    PackageAppendsNothing(version, name, purl);
    PackageAppendsNothing(version, name, purl');
    OneLicense(a, l);
    BarePlan(rules, Component(a, [l], None), Component(b, [], None), now);
  }

  /** The first component's licence ends up on the second one too, but only if the ingest is retried. */
  lemma LicenceSpreadsOnRetry(rules: seq<Rule>, version: string, name: string, purl: string, purl': string,
                              l: License, now: string)
    requires purl != purl' && purl != "" && purl' != "" && l.spdxId != "" && CleanLicense(l.spdxId) == l.spdxId
    ensures var plan := Plan(rules, LicensedTwin(version, name, purl, purl', l), now);
            Run(plan, Run(plan, EMPTY)) != Run(plan, EMPTY)
  {
    var a, b := Package(version, name, Some(purl), None), Package(version, name, Some(purl'), None);
    TwinPlan(rules, version, name, purl, purl', l, now);
    TwinIsNovel(rules, a, b, l);
    TwinGetsLinked(VersionMerge(rules, a, "scan"), LicenseMerge(l), LicenseLink(a, l), VersionMerge(rules, b, "scan"));
  }

  lemma TwinGetsLinked(m: Write, k: Write, e: Write, w: Write)
    requires k.MergeNode? && e.MergeEdge? && w.MergeNode? && e.target == Key(k)
    requires Novel([m, k, e], w) && Matches(e.source, Blank(w))
    ensures Run([m, k, e] + [w], Run([m, k, e] + [w], EMPTY)) != Run([m, k, e] + [w], EMPTY)
  {
    var front := [m, k, e];
    RunFinds(front, EMPTY, k);
    var target :| target in Run(front, EMPTY).nodes && Matches(Key(k), Run(front, EMPTY).nodes[target]);
    LateNodeGetsLinked(front, w, e, target);
  }

  lemma TwinIsNovel(rules: seq<Rule>, a: Version, b: Version, l: License)
    requires NonEmpty(a.project.names.purl) && NonEmpty(b.project.names.purl)
    requires a.project.names.purl != b.project.names.purl
    ensures Novel([VersionMerge(rules, a, "scan"), LicenseMerge(l), LicenseLink(a, l)], VersionMerge(rules, b, "scan"))
  {
    var w := VersionMerge(rules, b, "scan");
    assert w.ident[PackageUrl] != VersionMerge(rules, a, "scan").ident[PackageUrl];
    assert "Version" in w.labels;
  }

  /** The first component's repository ends up on the second one too, but only on retry. */
  lemma ValuesSpreadOnRetry(version: string, name: string, purl: string, repo: string, now: string)
    requires purl != ""
    ensures var plan := Plan([], PurlAdded(version, name, purl, repo), now);
            Run(plan, Run(plan, EMPTY)) != Run(plan, EMPTY)
  {
    var doc := PurlAdded(version, name, purl, repo);
    var a, b := doc.components[0], doc.components[1];
    BarePlan([], a, b, now);
    var v, w := VersionMerge([], a.version, "scan"), VersionMerge([], b.version, "scan");
    assert PackageUrl in w.ident && PackageUrl !in v.ident;
    assert Matches(Key(v), Blank(w));
    assert Novel([v], w);
    LateNodeGetsOverwritten([v], w, v, "repo");
  }

  lemma RetrySuffices(rules: seq<Rule>, doc: Document, now: string)
    requires Run(Plan(rules, doc, now), Run(Plan(rules, doc, now), EMPTY)) != Run(Plan(rules, doc, now), EMPTY)
    ensures !Retryable(rules, doc)
  {
    var ws := Plan(rules, doc, now);
    assert ws[..|ws|] == ws;
    PlanIsIssued(rules, doc, now);
    CrashShows(rules, doc, ws, |ws|, EMPTY);
    IngestConvergesExactly(rules, doc);
  }

  /** The second document is not retryable. */
  lemma PurlAddedNotRetryable(version: string, name: string, purl: string, repo: string)
    requires purl != ""
    ensures !Retryable([], PurlAdded(version, name, purl, repo))
  {
    ValuesSpreadOnRetry(version, name, purl, repo, "");
    RetrySuffices([], PurlAdded(version, name, purl, repo), "");
  }

  // ---------- near misses ----------

  /** The same two components with the licence on both. */
  function SharedTwin(version: string, name: string, purl: string, purl': string, l: License): Document {
    Bare([Component(Package(version, name, Some(purl), None), [l], None),
          Component(Package(version, name, Some(purl'), None), [l], None)])
  }

  /** A component with a purl, followed by one of the same names without. */
  function PurlDropped(version: string, name: string, purl: string, repo: string): Document {
    Bare([Component(Package(version, name, Some(purl), None), [], None),
          Component(Package(version, name, None, Some(repo)), [], None)])
  }

  lemma ItemsOfTwo(a: Component, b: Component)
    ensures Items([a, b]) == [VersionItem(a.version)] + LicenceItems(a.version, a.licenses)
                             + ([VersionItem(b.version)] + LicenceItems(b.version, b.licenses))
  {
    assert [a, b][..1] == [a] && [a][..0] == [];
    assert Items([a]) == [] + ([VersionItem(a.version)] + LicenceItems(a.version, a.licenses));
  }

  /** Versions and licences are different nodes. */
  lemma KindsApart(rules: seq<Rule>, v: Version, l: License)
    ensures !Matches(Key(VersionMerge(rules, v, "scan")), Blank(LicenseMerge(l)))
    ensures !Matches(Key(LicenseMerge(l)), Blank(VersionMerge(rules, v, "scan")))
    ensures !Matches(LicensePattern(l), Blank(VersionMerge(rules, v, "scan")))
    ensures !Matches(ByName(v), Blank(LicenseMerge(l)))
  {
    assert "Version" in VersionLabels(rules, v) && "License" !in VersionLabels(rules, v);
  }

  function TwinItems(a: Version, b: Version, l: License): seq<Item> {
    [VersionItem(a), ItemOf(a, l), VersionItem(b), ItemOf(b, l)]
  }

  lemma TwinItemsAre(a: Version, b: Version, l: License)
    ensures Items([Component(a, [l], None), Component(b, [l], None)]) == TwinItems(a, b, l)
  {
    assert [l][..0] == [] && LicenceItems(a, [l]) == [ItemOf(a, l)] && LicenceItems(b, [l]) == [ItemOf(b, l)];
    ItemsOfTwo(Component(a, [l], None), Component(b, [l], None));
  }

  /** The first licence is matched by nothing before it. */
  lemma FirstLicence(rules: seq<Rule>, a: Version, b: Version, l: License)
    ensures DoneAgain(rules, TwinItems(a, b, l), "scan", 1)
  {
    KindsApart(rules, a, l);
  }

  /** The second one's MERGE finds its node. */
  lemma SecondLicence(rules: seq<Rule>, a: Version, b: Version, l: License)
    ensures DoneAgain(rules, TwinItems(a, b, l), "scan", 3)
  {
    assert HasMerge(TwinItems(a, b, l)[3]) ==> HasMerge(TwinItems(a, b, l)[1]);
    assert HasMerge(TwinItems(a, b, l)[3]) ==> Matches(Key(LicenseMerge(l)), Blank(LicenseMerge(l)));
  }

  /** The second version's node is not what the first one's MERGE looks for. */
  lemma TwinKeysDiffer(rules: seq<Rule>, a: Version, b: Version)
    requires NonEmpty(a.project.names.purl) && NonEmpty(b.project.names.purl)
    requires a.project.names.purl.value != b.project.names.purl.value
    ensures !Matches(Key(VersionMerge(rules, a, "scan")), Blank(VersionMerge(rules, b, "scan")))
  {
    assert PackageUrl in VersionIdent(a) && VersionIdent(a)[PackageUrl] != VersionIdent(b)[PackageUrl];
  }

  lemma FirstVersionApart(rules: seq<Rule>, a: Version, b: Version, l: License, n: Node)
    requires !Matches(Key(VersionMerge(rules, a, "scan")), n)
    ensures ValuesAgain(rules, TwinItems(a, b, l), "scan", 0, 2, n) && LinkAgain(TwinItems(a, b, l), 0, 2, n)
  {
  }

  /** The first licence's link would match the second version's node, and is made again by the last item. */
  lemma FirstLinkAgain(rules: seq<Rule>, a: Version, b: Version, l: License, n: Node)
    requires ByName(a) == ByName(b) && n == Blank(VersionMerge(rules, b, "scan"))
    ensures ValuesAgain(rules, TwinItems(a, b, l), "scan", 1, 2, n) && LinkAgain(TwinItems(a, b, l), 1, 2, n)
  {
    var items := TwinItems(a, b, l);
    KindsApart(rules, b, l);
    assert HasLink(items[1]) && Matches(ByName(a), n) ==> LicensedLater(items, 2, n, l.spdxId) by {
      assert HasLink(items[1]) ==> HasLink(items[3]);
    }
  }

  lemma SecondVersion(rules: seq<Rule>, a: Version, b: Version, l: License)
    requires ByName(a) == ByName(b) &&
      !Matches(Key(VersionMerge(rules, a, "scan")), Blank(VersionMerge(rules, b, "scan")))
    ensures DoneAgain(rules, TwinItems(a, b, l), "scan", 2)
  {
    FirstVersionApart(rules, a, b, l, Blank(VersionMerge(rules, b, "scan")));
    FirstLinkAgain(rules, a, b, l, Blank(VersionMerge(rules, b, "scan")));
  }

  /** The later link to the same licence repeats the earlier one. */
  lemma SharedTwinRetryable(rules: seq<Rule>, version: string, name: string, purl: string, purl': string, l: License)
    requires purl != purl' && purl != "" && purl' != ""
    ensures Retryable(rules, SharedTwin(version, name, purl, purl', l))
  {
    var a, b := Package(version, name, Some(purl), None), Package(version, name, Some(purl'), None);
    TwinItemsAre(a, b, l);
    FirstLicence(rules, a, b, l);
    TwinKeysDiffer(rules, a, b);
    SecondVersion(rules, a, b, l);
    SecondLicence(rules, a, b, l);
    assert DoneAgain(rules, TwinItems(a, b, l), "scan", 0);
  }

  /** The second component's MERGE finds the node of the first. */
  lemma PurlDroppedRetryable(rules: seq<Rule>, version: string, name: string, purl: string, repo: string)
    ensures Retryable(rules, PurlDropped(version, name, purl, repo))
  {
    var doc := PurlDropped(version, name, purl, repo);
    ItemsOfTwo(doc.components[0], doc.components[1]);
  }

  // ---------- the licensed twin, exactly ----------

  /** Two versions, of which the first has a licence, linked or not. */
  function LicensedItems(a: Version, b: Version, l: License, linked: bool): seq<Item> {
    [VersionItem(a), LicenceItem(a, l, linked), VersionItem(b)]
  }

  lemma LicensedItemsAre(a: Version, b: Version, l: License)
    requires l.spdxId != ""
    ensures Items([Component(a, [l], None), Component(b, [], None)]) == LicensedItems(a, b, l, true)
    ensures EffectiveItems(LicensedItems(a, b, l, true)) == LicensedItems(a, b, l, IsCleaned(l.spdxId))
  {
    assert [l][..0] == [] && LicenceItems(a, [l]) == [ItemOf(a, l)] && LicenceItems(b, []) == [];
    ItemsOfTwo(Component(a, [l], None), Component(b, [], None));
  }

  lemma NoLinkAfter(a: Version, b: Version, l: License, linked: bool, n: Node)
    ensures !LicensedLater(LicensedItems(a, b, l, linked), 2, n, l.spdxId)
  {
    assert LicensedItems(a, b, l, linked)[2] == VersionItem(b);
  }

  lemma SecondIsNew(rules: seq<Rule>, a: Version, b: Version, l: License, linked: bool)
    requires !Matches(Key(VersionMerge(rules, b, "scan")), Blank(VersionMerge(rules, a, "scan")))
    ensures IsNew(rules, LicensedItems(a, b, l, linked), "scan", 2)
  {
    KindsApart(rules, b, l);
  }

  /** The second version is new, and the first one's licence link would match it. */
  lemma SecondIsLinked(rules: seq<Rule>, a: Version, b: Version, l: License)
    requires Matches(ByName(a), Blank(VersionMerge(rules, b, "scan")))
    requires !Matches(Key(VersionMerge(rules, b, "scan")), Blank(VersionMerge(rules, a, "scan")))
    ensures !DoneAgain(rules, LicensedItems(a, b, l, true), "scan", 2)
  {
    var items, n := LicensedItems(a, b, l, true), Blank(VersionMerge(rules, b, "scan"));
    SecondIsNew(rules, a, b, l, true);
    NoLinkAfter(a, b, l, true, n);
    assert !LinkAgain(items, 1, 2, n);
  }

  /** Nothing the earlier items do concerns a node like n. */
  lemma NothingForNode(rules: seq<Rule>, a: Version, b: Version, l: License, j: nat, n: Node)
    requires j <= 3 && !Matches(Key(VersionMerge(rules, a, "scan")), n)
    requires j == 2 ==> !Matches(Key(LicenseMerge(l)), n)
    ensures forall i :: 0 <= i < j <= 2 ==>
      ValuesAgain(rules, LicensedItems(a, b, l, false), "scan", i, j, n) &&
        LinkAgain(LicensedItems(a, b, l, false), i, j, n)
  {
  }

  /** Without the link nothing is done to a node before it is there. */
  lemma UnlinkedIsDone(rules: seq<Rule>, a: Version, b: Version, l: License)
    requires !Matches(Key(VersionMerge(rules, a, "scan")), Blank(VersionMerge(rules, b, "scan")))
    ensures AllDoneAgain(rules, LicensedItems(a, b, l, false), "scan")
  {
    var items := LicensedItems(a, b, l, false);
    KindsApart(rules, a, l);
    KindsApart(rules, b, l);
    NothingForNode(rules, a, b, l, 1, Blank(LicenseMerge(l)));
    NothingForNode(rules, a, b, l, 2, Blank(VersionMerge(rules, b, "scan")));
    assert DoneAgain(rules, items, "scan", 0);
    assert DoneAgain(rules, items, "scan", 1);
    assert DoneAgain(rules, items, "scan", 2);
  }

  lemma PackageMatchesByName(rules: seq<Rule>, version: string, name: string, purl: string, purl': string)
    requires purl' != ""
    ensures Matches(ByName(Package(version, name, Some(purl), None)),
                    Blank(VersionMerge(rules, Package(version, name, Some(purl'), None), "scan")))
  {
  }

  /** The first document is never retryable; over graphs of cleaned licence ids it is not either, unless the
      clean-up changes its id, so that the link finds no licence. */
  lemma TwinNotRetryable(rules: seq<Rule>, version: string, name: string, purl: string, purl': string, l: License)
    requires purl != purl' && purl != "" && purl' != "" && l.spdxId != ""
    ensures var doc := LicensedTwin(version, name, purl, purl', l);
            !Retryable(rules, doc) && (CleanRetryable(rules, doc) <==> !IsCleaned(l.spdxId))
  {
    var a, b := Package(version, name, Some(purl), None), Package(version, name, Some(purl'), None);
    LicensedItemsAre(a, b, l);
    TwinKeysDiffer(rules, a, b);
    TwinKeysDiffer(rules, b, a);
    PackageMatchesByName(rules, version, name, purl, purl');
    SecondIsLinked(rules, a, b, l);
    UnlinkedIsDone(rules, a, b, l);
  }
}
