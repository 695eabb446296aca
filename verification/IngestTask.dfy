/** The ingest job: the queries it issues one by one over a connection that may fail, and its retries. */
module IngestTask {
  import opened PrefixRules
  import opened MergeStore
  import opened Convergence
  import opened SbomPlan
  import opened SbomConvergence
  import opened CleanedGraphs

  const MAX_RETRIES := 3

  /** ws was issued with `budget` queries left before the connection fails: all of it went through, or
      exactly its first `budget` queries did. */
  ghost predicate Wrote(before: Store, budget: nat, ws: seq<Write>, after: Store, left: nat, ok: bool) {
    if |ws| <= budget then ok && after == Run(ws, before) && left == budget - |ws|
    else !ok && after == Run(ws[..budget], before) && left == 0
  }

  lemma WroteNothing(s: Store, b: nat)
    ensures Wrote(s, b, [], s, b, true)
  {
  }

  /** More queries are issued if all went well so far; after a failure nothing more is. */
  lemma WroteMore(s: Store, b: nat, ws: seq<Write>, t: Store, c: nat, before: bool,
                  vs: seq<Write>, u: Store, d: nat, ok: bool)
    requires Wrote(s, b, ws, t, c, before)
    requires if before then Wrote(t, c, vs, u, d, ok) else u == t && d == c && !ok
    ensures Wrote(s, b, ws + vs, u, d, ok)
  {
    RunConcat(ws, vs, s);
    if !before {
      assert (ws + vs)[..b] == ws[..b];
    } else if |ws + vs| > b {
      assert (ws + vs)[..b] == ws + vs[..c];
      RunConcat(ws, vs[..c], s);
    }
  }

  lemma ProjectsNext(rules: seq<Rule>, cs: seq<Component>, scanId: string, i: nat)
    requires i < |cs|
    ensures ProjectsPart(rules, cs[..i + 1], scanId) ==
            ProjectsPart(rules, cs[..i], scanId) + ComponentWrites(rules, cs[i], scanId)
  {
    assert cs[..i + 1][..i] == cs[..i];
  }

  lemma SourcesNext(cs: seq<Component>, i: nat)
    requires i < |cs|
    ensures SourcesPart(cs[..i + 1]) == SourcesPart(cs[..i]) + SourceWrites(cs[i])
  {
    assert cs[..i + 1][..i] == cs[..i];
  }

  /** How an attempt goes: what it parses, when it runs, and how many queries its connection lasts for. */
  datatype Start = Start(parse: Document, now: string, outage: nat)

  /** How many attempts the job has: a task called directly, and not through the broker, has no retries. */
  function Chances(direct: bool): nat {
    if direct then 1 else MAX_RETRIES + 1
  }

  /** The attempts at a document: each parses it with its dependencies in some order. */
  ghost predicate AreStarts(doc: Document, direct: bool, starts: seq<Start>) {
    |starts| == Chances(direct) && forall j :: 0 <= j < |starts| ==> Reordered(doc, starts[j].parse)
  }

  ghost function PlanOf(rules: seq<Rule>, start: Start): seq<Write> {
    Plan(rules, start.parse, start.now)
  }

  /** The connection carries the whole plan. */
  ghost predicate Completes(rules: seq<Rule>, start: Start) {
    |PlanOf(rules, start)| <= start.outage
  }

  /** The plans of the attempts. Looked up by the plan, so that a proof unfolds it only where it names it. */
  ghost predicate ArePlans(rules: seq<Rule>, starts: seq<Start>, plans: seq<seq<Write>>) {
    && |plans| == |starts|
    && forall j {:trigger PlanOf(rules, starts[j])} :: 0 <= j < |starts| ==> PlanOf(rules, starts[j]) == plans[j]
  }

  lemma IsPlan(rules: seq<Rule>, starts: seq<Start>, plans: seq<seq<Write>>, j: nat)
    requires ArePlans(rules, starts, plans) && j < |starts|
    ensures plans[j] == PlanOf(rules, starts[j])
    ensures Completes(rules, starts[j]) <==> |plans[j]| <= starts[j].outage
  {
    assert PlanOf(rules, starts[j]) == plans[j];
  }

  lemma PlansExist(rules: seq<Rule>, starts: seq<Start>) returns (plans: seq<seq<Write>>)
    ensures ArePlans(rules, starts, plans)
  {
    plans := seq(|starts|, j requires 0 <= j < |starts| => PlanOf(rules, starts[j]));
  }

  /** As much of a plan as goes through. */
  function Cut(plan: seq<Write>, outage: nat): seq<Write> {
    if outage < |plan| then plan[..outage] else plan
  }

  /** What the first i attempts leave behind. */
  function LeftBy(plans: seq<seq<Write>>, starts: seq<Start>, i: nat, s: Store): Store
    requires i <= |plans| == |starts|
  {
    if i == 0 then s else Run(Cut(plans[i - 1], starts[i - 1].outage), LeftBy(plans, starts, i - 1, s))
  }

  lemma CutAttempt(plan: seq<Write>, outage: nat) returns (a: Attempt)
    ensures a.writes == plan && a.done <= |plan| && plan[..a.done] == Cut(plan, outage)
  {
    a := Attempt(plan, |Cut(plan, outage)|);
  }

  lemma CrashedNext(tries: seq<Attempt>, a: Attempt, s: Store)
    requires forall b :: b in tries + [a] ==> b.done <= |b.writes|
    ensures Crashed(tries + [a], s) == Run(a.writes[..a.done], Crashed(tries, s))
  {
    assert (tries + [a])[..|tries|] == tries;
  }

  /** They are attempts cut off somewhere, each with one of the plans. */
  lemma {:induction false} LeftByTries(plans: seq<seq<Write>>, starts: seq<Start>, i: nat, s: Store)
    returns (tries: seq<Attempt>)
    requires i <= |plans| == |starts|
    ensures forall a :: a in tries ==> a.done <= |a.writes| && a.writes in plans
    ensures LeftBy(plans, starts, i, s) == Crashed(tries, s)
  {
    tries := [];
    if i > 0 {
      var front := LeftByTries(plans, starts, i - 1, s);
      var a := CutAttempt(plans[i - 1], starts[i - 1].outage);
      tries := front + [a];
      CrashedNext(front, a, s);
    }
  }

  lemma PlansAreIssued(rules: seq<Rule>, doc: Document, direct: bool, starts: seq<Start>, plans: seq<seq<Write>>,
                       ws: seq<Write>)
    requires AreStarts(doc, direct, starts) && ArePlans(rules, starts, plans) && ws in plans
    ensures Issues(rules, doc, ws)
  {
    var j :| 0 <= j < |plans| && plans[j] == ws;
    IsPlan(rules, starts, plans, j);
  }

  /** Failed attempts and then a complete one give what the complete one gives alone. */
  lemma CompleteAlone(rules: seq<Rule>, doc: Document, direct: bool, starts: seq<Start>, plans: seq<seq<Write>>,
                      i: nat, s: Store)
    requires AreStarts(doc, direct, starts) && ArePlans(rules, starts, plans) && i < |starts|
    requires SafeFrom(rules, doc, s) && s.Valid()
    ensures Run(plans[i], LeftBy(plans, starts, i, s)) == Run(plans[i], s)
  {
    var tries := LeftByTries(plans, starts, i, s);
    forall a | a in tries
      ensures Issues(rules, doc, a.writes)
    {
      PlansAreIssued(rules, doc, direct, starts, plans, a.writes);
    }
    PlansAreIssued(rules, doc, direct, starts, plans, plans[i]);
    SafeIngestConverges(rules, doc, tries, plans[i], s);
  }

  lemma PlanInOrder(rules: seq<Rule>, doc: Document, direct: bool, starts: seq<Start>, plans: seq<seq<Write>>, i: nat,
                    s: Store)
    requires AreStarts(doc, direct, starts) && ArePlans(rules, starts, plans) && i < |starts|
    ensures Run(plans[i], s) == Run(Plan(rules, doc, starts[i].now), s)
  {
    IsPlan(rules, starts, plans, i);
    ReorderedRuns(rules, doc, starts[i].parse, starts[i].now, s);
  }

  /** The job ends with the first attempt that completes, or with the failure of the last. */
  ghost predicate EndsWith(rules: seq<Rule>, starts: seq<Start>, ok: bool, attempts: nat) {
    && 1 <= attempts <= |starts|
    && (ok <==> Completes(rules, starts[attempts - 1]))
    && (!ok ==> attempts == |starts|)
    && forall j :: 0 <= j < attempts - 1 ==> !Completes(rules, starts[j])
  }

  /** Where the document converges, the graph is that of one attempt alone. */
  ghost predicate LeavesAlone(rules: seq<Rule>, doc: Document, start: Start, before: Store, after: Store) {
    SafeFrom(rules, doc, before) ==> after == Run(Plan(rules, doc, start.now), before)
  }

  /** How the job ends: when, and, if an attempt completes, with which graph. */
  ghost predicate Ingested(rules: seq<Rule>, doc: Document, starts: seq<Start>, before: Store, after: Store,
                           ok: bool, attempts: nat) {
    && EndsWith(rules, starts, ok, attempts)
    && (ok ==> LeavesAlone(rules, doc, starts[attempts - 1], before, after))
  }

  /** After failed attempts, the complete one leaves the graph that its plan gives alone. */
  lemma CompletedGraph(rules: seq<Rule>, doc: Document, direct: bool, starts: seq<Start>, plans: seq<seq<Write>>,
                       i: nat, s: Store)
    requires AreStarts(doc, direct, starts) && ArePlans(rules, starts, plans) && i < |starts|
    requires s.Valid() && |plans[i]| <= starts[i].outage
    ensures LeavesAlone(rules, doc, starts[i], s, LeftBy(plans, starts, i + 1, s))
  {
    assert Cut(plans[i], starts[i].outage) == plans[i];
    if SafeFrom(rules, doc, s) {
      CompleteAlone(rules, doc, direct, starts, plans, i, s);
      PlanInOrder(rules, doc, direct, starts, plans, i, s);
    }
  }

  /** When the job ends, in terms of the plans. */
  ghost predicate PlansEnd(starts: seq<Start>, plans: seq<seq<Write>>, ok: bool, attempts: nat)
    requires |starts| == |plans|
  {
    && 1 <= attempts <= |starts|
    && (ok <==> |plans[attempts - 1]| <= starts[attempts - 1].outage)
    && (!ok ==> attempts == |starts|)
    && forall j :: 0 <= j < attempts - 1 ==> |plans[j]| > starts[j].outage
  }

  lemma PlansEndInTime(rules: seq<Rule>, starts: seq<Start>, plans: seq<seq<Write>>, ok: bool, attempts: nat)
    requires ArePlans(rules, starts, plans) && PlansEnd(starts, plans, ok, attempts)
    ensures EndsWith(rules, starts, ok, attempts)
  {
    forall j | 0 <= j < attempts
      ensures Completes(rules, starts[j]) <==> |plans[j]| <= starts[j].outage
    {
      IsPlan(rules, starts, plans, j);
    }
  }

  lemma IngestEnds(rules: seq<Rule>, doc: Document, direct: bool, starts: seq<Start>, plans: seq<seq<Write>>, s: Store,
                   ok: bool, attempts: nat)
    requires AreStarts(doc, direct, starts) && ArePlans(rules, starts, plans) && s.Valid()
    requires PlansEnd(starts, plans, ok, attempts)
    ensures Ingested(rules, doc, starts, s, LeftBy(plans, starts, attempts, s), ok, attempts)
  {
    PlansEndInTime(rules, starts, plans, ok, attempts);
    if ok {
      CompletedGraph(rules, doc, direct, starts, plans, attempts - 1, s);
    }
  }

  class Persistence {
    const rules: seq<Rule>
    var graph: Store
    var budget: nat

    constructor (rules: seq<Rule>, graph: Store)
      ensures this.rules == rules && this.graph == graph
    {
      this.rules := rules;
      this.graph := graph;
      this.budget := 0;
    }

    /** One query; false stands for the exception of a failed connection. */
    method RunQuery(w: Write) returns (ok: bool)
      modifies this
      ensures Wrote(old(graph), old(budget), [w], graph, budget, ok)
    {
      if budget == 0 {
        return false;
      }
      assert [w][..0] == [];
      graph := Apply(w, graph);
      budget := budget - 1;
      ok := true;
    }

    /** The queries of one operation, in order, up to the first failure. */
    method RunAll(ws: seq<Write>) returns (ok: bool)
      modifies this
      ensures Wrote(old(graph), old(budget), ws, graph, budget, ok)
    {
      ok := true;
      for i := 0 to |ws|
        invariant Wrote(old(graph), old(budget), ws[..i], graph, budget, ok)
      {
        ghost var t, c, before := graph, budget, ok;
        if ok {
          ok := RunQuery(ws[i]);
        }
        WroteMore(old(graph), old(budget), ws[..i], t, c, before, [ws[i]], graph, budget, ok);
        assert ws[..i + 1] == ws[..i] + [ws[i]];
      }
      assert ws[..|ws|] == ws;
    }

    /** create_project_version */
    method CreateProjectVersion(v: Version, scanId: string) returns (ok: bool)
      modifies this
      ensures Wrote(old(graph), old(budget), VersionWrites(rules, v, scanId), graph, budget, ok)
    {
      ok := RunQuery(VersionMerge(rules, v, scanId));
      ghost var t, c, before := graph, budget, ok;
      if ok && AppendsScan(v) {
        ok := RunQuery(ScanAppend(v, scanId));
      }
      WroteMore(old(graph), old(budget), [VersionMerge(rules, v, scanId)], t, c, before,
                if AppendsScan(v) then [ScanAppend(v, scanId)] else [], graph, budget, ok);
    }

    method CreateLicenses(v: Version, ls: seq<License>) returns (ok: bool)
      modifies this
      ensures Wrote(old(graph), old(budget), LicensesWrites(v, ls), graph, budget, ok)
    {
      ok := true;
      for i := 0 to |ls|
        invariant Wrote(old(graph), old(budget), LicensesWrites(v, ls[..i]), graph, budget, ok)
      {
        ghost var t, c, before := graph, budget, ok;
        if ok {
          ok := RunAll(LicenseWrites(v, ls[i]));
        }
        WroteMore(old(graph), old(budget), LicensesWrites(v, ls[..i]), t, c, before,
                  LicenseWrites(v, ls[i]), graph, budget, ok);
        assert ls[..i + 1][..i] == ls[..i];
      }
      assert ls[..|ls|] == ls;
    }

    /** _persist_projects */
    method PersistProjects(cs: seq<Component>, scanId: string) returns (ok: bool)
      modifies this
      ensures Wrote(old(graph), old(budget), ProjectsPart(rules, cs, scanId), graph, budget, ok)
    {
      ok := true;
      for i := 0 to |cs|
        invariant Wrote(old(graph), old(budget), ProjectsPart(rules, cs[..i], scanId), graph, budget, ok)
      {
        ghost var t, c, before := graph, budget, ok;
        if ok {
          ok := PersistComponent(cs[i], scanId);
        }
        WroteMore(old(graph), old(budget), ProjectsPart(rules, cs[..i], scanId), t, c, before,
                  ComponentWrites(rules, cs[i], scanId), graph, budget, ok);
        ProjectsNext(rules, cs, scanId, i);
      }
      assert cs[..|cs|] == cs;
    }

    method PersistComponent(c: Component, scanId: string) returns (ok: bool)
      modifies this
      ensures Wrote(old(graph), old(budget), ComponentWrites(rules, c, scanId), graph, budget, ok)
    {
      ok := CreateProjectVersion(c.version, scanId);
      ghost var t, left, before := graph, budget, ok;
      if ok {
        ok := CreateLicenses(c.version, c.licenses);
      }
      WroteMore(old(graph), old(budget), VersionWrites(rules, c.version, scanId), t, left, before,
                LicensesWrites(c.version, c.licenses), graph, budget, ok);
    }

    /** _persist_source_repos */
    method PersistSources(cs: seq<Component>) returns (ok: bool)
      modifies this
      ensures Wrote(old(graph), old(budget), SourcesPart(cs), graph, budget, ok)
    {
      ok := true;
      for i := 0 to |cs|
        invariant Wrote(old(graph), old(budget), SourcesPart(cs[..i]), graph, budget, ok)
      {
        ghost var t, c, before := graph, budget, ok;
        if ok {
          ok := RunAll(SourceWrites(cs[i]));
        }
        WroteMore(old(graph), old(budget), SourcesPart(cs[..i]), t, c, before, SourceWrites(cs[i]), graph, budget, ok);
        SourcesNext(cs, i);
      }
      assert cs[..|cs|] == cs;
    }

    /** _persist_dependencies: references that do not resolve are skipped. */
    method PersistDependencies(cs: seq<Component>, deps: seq<(nat, nat)>) returns (ok: bool)
      modifies this
      ensures Wrote(old(graph), old(budget), DependenciesPart(cs, deps), graph, budget, ok)
    {
      ok := true;
      for i := 0 to |deps|
        invariant Wrote(old(graph), old(budget), DependenciesPart(cs, deps[..i]), graph, budget, ok)
      {
        ghost var t, c, before := graph, budget, ok;
        var d := deps[i];
        var found := d.0 < |cs| && d.1 < |cs|;
        if ok && found {
          ok := RunAll(DependencyWrites(cs[d.0].version, cs[d.1].version));
        }
        WroteNothing(t, c);
        WroteMore(old(graph), old(budget), DependenciesPart(cs, deps[..i]), t, c, before,
                  if found then DependencyWrites(cs[d.0].version, cs[d.1].version) else [], graph, budget, ok);
        assert deps[..i + 1][..i] == deps[..i];
      }
      assert deps[..|deps|] == deps;
    }

    /** The first loop of _persist_defects. */
    method PersistDefects(ds: seq<Defect>) returns (ok: bool)
      modifies this
      ensures Wrote(old(graph), old(budget), DefectsPart(ds), graph, budget, ok)
    {
      ok := true;
      for i := 0 to |ds|
        invariant Wrote(old(graph), old(budget), DefectsPart(ds[..i]), graph, budget, ok)
      {
        ghost var t, c, before := graph, budget, ok;
        if ok {
          ok := RunQuery(DefectMerge(ds[i]));
        }
        WroteMore(old(graph), old(budget), DefectsPart(ds[..i]), t, c, before, [DefectMerge(ds[i])], graph, budget, ok);
        assert ds[..i + 1][..i] == ds[..i];
      }
      assert ds[..|ds|] == ds;
    }

    /** The second loop of _persist_defects. */
    method PersistAffects(cs: seq<Component>, ds: seq<Defect>, affects: seq<(nat, nat)>) returns (ok: bool)
      modifies this
      ensures Wrote(old(graph), old(budget), AffectsPart(cs, ds, affects), graph, budget, ok)
    {
      ok := true;
      for i := 0 to |affects|
        invariant Wrote(old(graph), old(budget), AffectsPart(cs, ds, affects[..i]), graph, budget, ok)
      {
        ghost var t, c, before := graph, budget, ok;
        var a := affects[i];
        var found := a.0 < |cs| && a.1 < |ds|;
        if ok && found {
          ok := RunAll(AffectWrites(cs[a.0].version, ds[a.1]));
        }
        WroteNothing(t, c);
        WroteMore(old(graph), old(budget), AffectsPart(cs, ds, affects[..i]), t, c, before,
                  if found then AffectWrites(cs[a.0].version, ds[a.1]) else [], graph, budget, ok);
        assert affects[..i + 1][..i] == affects[..i];
      }
      assert affects[..|affects|] == affects;
    }

    /** _link_versions_to_sbom_record */
    method LinkVersions(cs: seq<Component>, r: Record) returns (ok: bool)
      modifies this
      ensures Wrote(old(graph), old(budget), LinksPart(cs, r), graph, budget, ok)
    {
      ok := true;
      for i := 0 to |cs|
        invariant Wrote(old(graph), old(budget), LinksPart(cs[..i], r), graph, budget, ok)
      {
        ghost var t, c, before := graph, budget, ok;
        if ok {
          ok := RunAll(LinkWrites(cs[i].version, r));
        }
        WroteMore(old(graph), old(budget), LinksPart(cs[..i], r), t, c, before,
                  LinkWrites(cs[i].version, r), graph, budget, ok);
        assert cs[..i + 1][..i] == cs[..i];
      }
      assert cs[..|cs|] == cs;
    }

    /** The graph writes of the parsing processors: projects, sources, dependencies, defects. */
    method PersistDocument(doc: Document) returns (ok: bool)
      modifies this
      ensures Wrote(old(graph), old(budget),
                    ProjectsPart(rules, doc.components, doc.scanId) + SourcesPart(doc.components)
                    + DependenciesPart(doc.components, doc.dependencies)
                    + DefectsPart(doc.defects) + AffectsPart(doc.components, doc.defects, doc.affects),
                    graph, budget, ok)
    {
      ghost var s, n := graph, budget;
      ok := PersistProjects(doc.components, doc.scanId);
      ghost var done := ProjectsPart(rules, doc.components, doc.scanId);
      ghost var t, c, before := graph, budget, ok;
      if ok {
        ok := PersistSources(doc.components);
      }
      WroteMore(s, n, done, t, c, before, SourcesPart(doc.components), graph, budget, ok);
      done := done + SourcesPart(doc.components);
      t, c, before := graph, budget, ok;
      if ok {
        ok := PersistDependencies(doc.components, doc.dependencies);
      }
      WroteMore(s, n, done, t, c, before, DependenciesPart(doc.components, doc.dependencies), graph, budget, ok);
      done := done + DependenciesPart(doc.components, doc.dependencies);
      t, c, before := graph, budget, ok;
      if ok {
        ok := PersistDefects(doc.defects);
      }
      WroteMore(s, n, done, t, c, before, DefectsPart(doc.defects), graph, budget, ok);
      done := done + DefectsPart(doc.defects);
      t, c, before := graph, budget, ok;
      if ok {
        ok := PersistAffects(doc.components, doc.defects, doc.affects);
      }
      WroteMore(s, n, done, t, c, before, AffectsPart(doc.components, doc.defects, doc.affects), graph, budget, ok);
    }

    /** process_cyclonedx and process_spdx: the plan, cut off where the connection fails. */
    method Process(doc: Document, now: string) returns (ok: bool)
      modifies this
      ensures Wrote(old(graph), old(budget), Plan(rules, doc, now), graph, budget, ok)
    {
      ghost var s, n := graph, budget;
      ok := PersistDocument(doc);
      ghost var done := ProjectsPart(rules, doc.components, doc.scanId) + SourcesPart(doc.components)
                        + DependenciesPart(doc.components, doc.dependencies)
                        + DefectsPart(doc.defects) + AffectsPart(doc.components, doc.defects, doc.affects);
      ghost var t, c, before := graph, budget, ok;
      if ok {
        ok := RunAll(RecordWrites(doc.record, now));
      }
      WroteMore(s, n, done, t, c, before, RecordWrites(doc.record, now), graph, budget, ok);
      t, c, before := graph, budget, ok;
      if ok {
        ok := LinkVersions(doc.components, doc.record);
      }
      WroteMore(s, n, done + RecordWrites(doc.record, now), t, c, before, LinksPart(doc.components, doc.record),
                graph, budget, ok);
    }

    /** One attempt. */
    method TryOnce(start: Start) returns (ok: bool)
      modifies this
      ensures ok <==> Completes(rules, start)
      ensures graph == Run(if ok then PlanOf(rules, start) else PlanOf(rules, start)[..start.outage], old(graph))
    {
      budget := start.outage;
      ok := Process(start.parse, start.now);
    }

    /** Attempt i. */
    method TryNext(starts: seq<Start>, i: nat, ghost plans: seq<seq<Write>>) returns (ok: bool)
      requires i < |starts| && ArePlans(rules, starts, plans)
      modifies this
      ensures ok <==> |plans[i]| <= starts[i].outage
      ensures graph == Run(Cut(plans[i], starts[i].outage), old(graph))
    {
      ok := TryOnce(starts[i]);
      IsPlan(rules, starts, plans, i);
    }

    /** Attempt i and, if it fails, its retries: up to the first attempt that completes, or to the last. */
    method TryFrom(direct: bool, starts: seq<Start>, i: nat, ghost s: Store, ghost plans: seq<seq<Write>>)
      returns (ok: bool, attempts: nat)
      requires i < |starts| == Chances(direct) && ArePlans(rules, starts, plans)
      requires graph == LeftBy(plans, starts, i, s) && forall j :: 0 <= j < i ==> |plans[j]| > starts[j].outage
      modifies this
      ensures PlansEnd(starts, plans, ok, attempts)
      ensures graph == LeftBy(plans, starts, attempts, s)
      decreases |starts| - i
    {
      ok := TryNext(starts, i, plans);
      attempts := i + 1;
      if !ok && !direct && i < MAX_RETRIES {
        ok, attempts := TryFrom(direct, starts, i + 1, s, plans);
      }
    }

    /** The job with its retries. */
    method Ingest(ghost doc: Document, direct: bool, starts: seq<Start>) returns (ok: bool, attempts: nat)
      requires AreStarts(doc, direct, starts) && graph.Valid()
      modifies this
      ensures Ingested(rules, doc, starts, old(graph), graph, ok, attempts)
    {
      ghost var plans := PlansExist(rules, starts);
      ok, attempts := TryFrom(direct, starts, 0, graph, plans);
      IngestEnds(rules, doc, direct, starts, plans, old(graph), ok, attempts);
    }
  }
}
