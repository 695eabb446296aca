/** Retrying over graphs whose licence nodes all come from the clean-up: a link query that uses an id as it
    came, where the clean-up would change it, finds no licence there. */
module CleanedGraphs {
  import opened Lists
  import opened Text
  import opened PrefixRules
  import opened MergeStore
  import opened Convergence
  import opened ReplayLimits
  import opened SbomPlan
  import opened SbomItems
  import opened SbomReplay
  import opened SbomConvergence

  // ---------- cleaned ids ----------

  predicate OneLine(s: string) {
    '\r' !in s && '\n' !in s && '\t' !in s
  }

  lemma CleanKeeps(s: string)
    requires OneLine(s) && Trimmed(s)
    ensures CleanLicense(s) == if |s| > 255 then s[..255] else s
  {
    ReplaceNothing(s, '\r', ' ');
    ReplaceNothing(s, '\n', ' ');
    ReplaceNothing(s, '\t', ' ');
    StripKeepsTrimmed(s);
  }

  lemma FlatIsOneLine(s: string)
    ensures OneLine(Replace(Replace(Replace(s, '\r', ' '), '\n', ' '), '\t', ' '))
  {
    var a := Replace(s, '\r', ' ');
    var b := Replace(a, '\n', ' ');
    ReplaceRemoves(s, '\r', ' ');
    ReplaceRemoves(a, '\n', ' ');
    ReplaceRemoves(b, '\t', ' ');
  }

  /** What the clean-up returns is a cleaned id, and every cleaned id is returned for some text. */
  lemma CleanedExactly(id: string)
    ensures IsCleaned(id) <==> exists s :: CleanLicense(s) == id
  {
    if s :| CleanLicense(s) == id {
      CleanedIsCleaned(s);
    }
  }

  lemma CleanedIsCleaned(s: string)
    ensures IsCleaned(CleanLicense(s))
  {
    var flat := Replace(Replace(Replace(s, '\r', ' '), '\n', ' '), '\t', ' ');
    var stripped := Strip(flat);
    FlatIsOneLine(s);
    StripTrims(flat);
    assert OneLine(stripped);
    if |stripped| <= 255 {
      CleanKeeps(stripped);
    } else {
      var id := stripped[..255];
      var more := id + "x";
      assert more[0] == stripped[0] && more[255] == 'x' && OneLine(more);
      CleanKeeps(more);
      assert more[..255] == id;
    }
  }

  // ---------- queries that find nothing ----------

  /** All licence ids in the graph are cleaned. */
  ghost predicate CleanStore(s: Store) {
    forall n :: n in s.nodes && SpdxId in s.nodes[n].ident ==> IsCleaned(s.nodes[n].ident[SpdxId])
  }

  predicate CleanWrite(w: Write) {
    w.MergeNode? && SpdxId in w.ident ==> IsCleaned(w.ident[SpdxId])
  }

  ghost predicate CleanWrites(ws: seq<Write>) {
    forall w :: w in ws ==> CleanWrite(w)
  }

  /** A link to a licence whose id the clean-up would have changed. */
  predicate IsDead(w: Write) {
    w.MergeEdge? && SpdxId in w.target.ident && !IsCleaned(w.target.ident[SpdxId])
  }

  /** The queries without the dead ones. */
  function Live(ws: seq<Write>): seq<Write> {
    if ws == [] then []
    else Live(ws[..|ws| - 1]) + if IsDead(ws[|ws| - 1]) then [] else [ws[|ws| - 1]]
  }

  lemma DeadDoesNothing(w: Write, s: Store)
    requires IsDead(w) && CleanStore(s)
    ensures Apply(w, s) == s
  {
    assert Links(w, s) == {};
    assert (map n | n in s.nodes :: Touch(w, s.nodes[n])) == s.nodes;
  }

  lemma ApplyCleans(w: Write, s: Store)
    requires CleanWrite(w) && CleanStore(s)
    ensures CleanStore(Apply(w, s))
  {
  }

  /** On a graph of cleaned ids, a run is a run of its live queries. */
  lemma {:induction false} LiveRuns(ws: seq<Write>, s: Store)
    requires CleanWrites(ws) && CleanStore(s)
    ensures CleanStore(Run(ws, s)) && Run(ws, s) == Run(Live(ws), s)
  {
    if ws != [] {
      var front, w := ws[..|ws| - 1], ws[|ws| - 1];
      assert ws == front + [w];
      LiveRuns(front, s);
      ApplyCleans(w, Run(front, s));
      if IsDead(w) {
        DeadDoesNothing(w, Run(front, s));
        NothingAdded(Live(front));
      } else {
        assert (Live(front) + [w])[..|Live(front)|] == Live(front);
      }
    }
  }

  lemma {:induction false} LiveConcat(a: seq<Write>, b: seq<Write>)
    ensures Live(a + b) == Live(a) + Live(b)
  {
    if b == [] {
      NothingAdded(a);
      NothingAdded(Live(a));
    } else {
      var front := b[..|b| - 1];
      assert (a + b)[..|a + b| - 1] == a + front;
      LiveConcat(a, front);
      Regroup(Live(a), Live(front), if IsDead(b[|b| - 1]) then [] else [b[|b| - 1]]);
    }
  }

  /** The live queries of a prefix are a prefix of the live queries. */
  lemma LivePrefix(ws: seq<Write>, k: nat)
    requires k <= |ws|
    ensures |Live(ws[..k])| <= |Live(ws)| && Live(ws)[..|Live(ws[..k])|] == Live(ws[..k])
  {
    assert ws == ws[..k] + ws[k..];
    LiveConcat(ws[..k], ws[k..]);
  }

  /** Every prefix of the live queries is the live part of a prefix. */
  lemma {:induction false} LiveReaches(ws: seq<Write>, k: nat) returns (j: nat)
    requires k <= |Live(ws)|
    ensures j <= |ws| && Live(ws[..j]) == Live(ws)[..k]
  {
    j := |ws|;
    if k == |Live(ws)| {
      assert ws[..j] == ws;
    } else {
      var front := ws[..|ws| - 1];
      j := LiveReaches(front, k);
      assert front[..j] == ws[..j];
    }
  }

  lemma {:induction false} LiveShapes(ps: seq<Write>, qs: seq<Write>)
    requires SameShapes(ps, qs)
    ensures SameShapes(Live(ps), Live(qs))
  {
    if ps != [] {
      LiveShapes(ps[..|ps| - 1], qs[..|qs| - 1]);
      assert SameShape(ps[|ps| - 1], qs[|qs| - 1]);
    }
  }

  // ---------- the live queries of a document ----------

  /** The item without its link if that is dead. */
  function Effective(it: Item): Item {
    if it.LicenceItem? && !IsCleaned(it.license.spdxId) then it.(linked := false) else it
  }

  function EffectiveItems(items: seq<Item>): seq<Item> {
    seq(|items|, i requires 0 <= i < |items| => Effective(items[i]))
  }

  lemma LiveOne(w: Write)
    ensures Live([w]) == if IsDead(w) then [] else [w]
  {
    assert [w][..0] == [];
  }

  lemma {:induction false} NoDead(ws: seq<Write>)
    requires forall w :: w in ws ==> !IsDead(w)
    ensures Live(ws) == ws
  {
    if ws != [] {
      var front, last := ws[..|ws| - 1], ws[|ws| - 1];
      assert last in ws && ws == front + [last];
      NoDead(front);
    }
  }

  lemma LinkIsDead(v: Version, l: License)
    ensures IsDead(LicenseLink(v, l)) <==> !IsCleaned(l.spdxId)
  {
    assert LicensePattern(l).ident[SpdxId] == l.spdxId;
  }

  lemma LiveItem(rules: seq<Rule>, it: Item, scanId: string)
    ensures Live(ItemWrites(rules, it, scanId)) == ItemWrites(rules, Effective(it), scanId)
  {
    if it.VersionItem? {
      NoDead(ItemWrites(rules, it, scanId));
    } else {
      var merge := if HasMerge(it) then [LicenseMerge(it.license)] else [];
      var link := if it.linked then [LicenseLink(it.version, it.license)] else [];
      LiveConcat(merge, link);
      NoDead(merge);
      LinkIsDead(it.version, it.license);
      LiveOne(LicenseLink(it.version, it.license));
    }
  }

  lemma LiveNext(rules: seq<Rule>, items: seq<Item>, it: Item, scanId: string)
    ensures Live(Written(rules, items + [it], scanId)) ==
            Live(Written(rules, items, scanId)) + ItemWrites(rules, Effective(it), scanId)
  {
    LiveItem(rules, it, scanId);
    WrittenNext(rules, items, it, scanId);
    LiveConcat(Written(rules, items, scanId), ItemWrites(rules, it, scanId));
  }

  lemma EffectiveNext(rules: seq<Rule>, items: seq<Item>, it: Item, scanId: string)
    ensures Written(rules, EffectiveItems(items + [it]), scanId) ==
            Written(rules, EffectiveItems(items), scanId) + ItemWrites(rules, Effective(it), scanId)
  {
    assert EffectiveItems(items + [it]) == EffectiveItems(items) + [Effective(it)];
    WrittenNext(rules, EffectiveItems(items), Effective(it), scanId);
  }

  lemma {:induction false} LiveWritten(rules: seq<Rule>, items: seq<Item>, scanId: string)
    ensures Live(Written(rules, items, scanId)) == Written(rules, EffectiveItems(items), scanId)
  {
    if items != [] {
      var front, last := items[..|items| - 1], items[|items| - 1];
      assert items == front + [last];
      LiveWritten(rules, front, scanId);
      LiveNext(rules, front, last, scanId);
      EffectiveNext(rules, front, last, scanId);
    }
  }

  /** The live queries of the plan are those of the effective items, and the later parts. */
  lemma LivePlan(rules: seq<Rule>, doc: Document, now: string)
    ensures Live(Plan(rules, doc, now)) ==
            Written(rules, EffectiveItems(Items(doc.components)), doc.scanId) + Rest(doc, now)
  {
    PlanIsProjectsAndRest(rules, doc, now);
    LiveConcat(Written(rules, Items(doc.components), doc.scanId), Rest(doc, now));
    LiveWritten(rules, Items(doc.components), doc.scanId);
    RestIsRest(doc, now);
    NoDead(Rest(doc, now));
  }

  lemma ItemIsClean(rules: seq<Rule>, it: Item, scanId: string, w: Write)
    requires w in ItemWrites(rules, it, scanId)
    ensures CleanWrite(w) && (w.MergeEdge? ==> SpdxId !in w.source.ident)
  {
    if it.LicenceItem? {
      CleanedIsCleaned(it.license.spdxId);
    }
  }

  lemma RestIsClean(w: Write)
    requires IsRestWrite(w)
    ensures CleanWrite(w) && (w.MergeEdge? ==> SpdxId !in w.source.ident)
  {
  }

  /** A document creates licences with cleaned ids only, and no link starts at a licence. */
  lemma PlanIsClean(rules: seq<Rule>, doc: Document, now: string)
    ensures CleanWrites(Plan(rules, doc, now))
    ensures forall w :: w in Plan(rules, doc, now) && w.MergeEdge? ==> SpdxId !in w.source.ident
  {
    PlanIsProjectsAndRest(rules, doc, now);
    RestIsRest(doc, now);
    forall w | w in Plan(rules, doc, now)
      ensures CleanWrite(w) && (w.MergeEdge? ==> SpdxId !in w.source.ident)
    {
      var items := Items(doc.components);
      if w in Rest(doc, now) {
        RestIsClean(w);
      } else {
        var k := WrittenBy(rules, items, doc.scanId, w);
        ItemIsClean(rules, items[k], doc.scanId, w);
      }
    }
  }

  // ---------- when a document may be replayed over cleaned ids ----------

  /** The condition on a document, without the links that find nothing. */
  predicate CleanRetryable(rules: seq<Rule>, doc: Document) {
    AllDoneAgain(rules, EffectiveItems(Items(doc.components)), doc.scanId)
  }

  lemma LivePlanAgain(rules: seq<Rule>, doc: Document, now: string)
    ensures Again(Live(Plan(rules, doc, now))) <==> CleanRetryable(rules, doc)
    ensures AllEndsFree(Live(Plan(rules, doc, now)))
    ensures ScansAgain(Live(Plan(rules, doc, now))) && OneScan(Live(Plan(rules, doc, now)), doc.scanId)
  {
    var items := EffectiveItems(Items(doc.components));
    LivePlan(rules, doc, now);
    ItemsAndRestAgain(rules, items, doc, now);
    ItemsAndRestScanAgain(rules, items, doc, now);
  }

  /** A crash of one plan, seen through the live queries. */
  lemma LiveCrash(rules: seq<Rule>, doc: Document, now: string, k: nat, s: Store)
    requires k <= |Plan(rules, doc, now)| && CleanStore(s)
    ensures var plan := Plan(rules, doc, now); var live := Live(plan[..k]);
            && |live| <= |Live(plan)| && live == Live(plan)[..|live|]
            && Run(plan[..k], s) == Run(live, s) && CleanStore(Run(plan[..k], s))
  {
    var plan := Plan(rules, doc, now);
    PlanIsClean(rules, doc, now);
    LivePrefix(plan, k);
    assert CleanWrites(plan[..k]);
    LiveRuns(plan[..k], s);
  }

  lemma LiveRun(rules: seq<Rule>, doc: Document, now: string, s: Store)
    requires CleanStore(s)
    ensures Run(Plan(rules, doc, now), s) == Run(Live(Plan(rules, doc, now)), s)
  {
    PlanIsClean(rules, doc, now);
    LiveRuns(Plan(rules, doc, now), s);
  }

  /** A crash and a complete attempt with the same order of dependencies. */
  lemma CleanReplay(rules: seq<Rule>, doc: Document, before: string, k: nat, now: string, s: Store)
    requires CleanRetryable(rules, doc) && s.Valid() && CleanStore(s) && k <= |Plan(rules, doc, before)|
    ensures Run(Plan(rules, doc, now), Run(Plan(rules, doc, before)[..k], s)) == Run(Plan(rules, doc, now), s)
  {
    var first, again := Plan(rules, doc, before), Plan(rules, doc, now);
    var crashed := Run(first[..k], s);
    LiveCrash(rules, doc, before, k, s);
    LiveRun(rules, doc, now, crashed);
    LiveRun(rules, doc, now, s);
    PlanShapes(rules, doc, before, now);
    LiveShapes(first, again);
    LivePlanAgain(rules, doc, now);
    ReplayConverges(Live(first), |Live(first[..k])|, Live(again), s, doc.scanId);
  }

  lemma OneCleanTry(rules: seq<Rule>, doc: Document, a: Attempt, ws: seq<Write>, s: Store)
    requires CleanRetryable(rules, doc) && s.Valid() && CleanStore(s)
    requires a.done <= |a.writes| && Issues(rules, doc, a.writes) && Issues(rules, doc, ws)
    ensures CleanStore(Run(a.writes[..a.done], s))
    ensures Run(ws, Run(a.writes[..a.done], s)) == Run(ws, s)
  {
    var first, before :| Reordered(doc, first) && a.writes == Plan(rules, first, before);
    var last, now :| Reordered(doc, last) && ws == Plan(rules, last, now);
    var crashed := Run(a.writes[..a.done], s);
    assert CleanRetryable(rules, first);
    CleanReplay(rules, first, before, a.done, now, s);
    LiveCrash(rules, first, before, a.done, s);
    ReorderedRuns(rules, last, first, now, crashed);
    ReorderedRuns(rules, last, first, now, s);
  }

  /** Any number of crashed attempts, then a complete one, over a graph of cleaned licence ids. */
  lemma {:induction false} CleanIngestConverges(rules: seq<Rule>, doc: Document, tries: seq<Attempt>, ws: seq<Write>,
                                                s: Store)
    requires CleanRetryable(rules, doc) && s.Valid() && CleanStore(s)
    requires AllTries(rules, doc, tries) && Issues(rules, doc, ws)
    ensures Crashed(tries, s).Valid() && CleanStore(Crashed(tries, s)) && Run(ws, Crashed(tries, s)) == Run(ws, s)
  {
    if tries != [] {
      var front, a := tries[..|tries| - 1], tries[|tries| - 1];
      assert a in tries;
      CleanIngestConverges(rules, doc, front, ws, s);
      RunGrows(a.writes[..a.done], Crashed(front, s));
      OneCleanTry(rules, doc, a, ws, Crashed(front, s));
    }
  }

  // ---------- exactly ----------

  /** From every graph of cleaned licence ids, whatever crashes, the graph is that of the complete attempt. */
  ghost predicate AlwaysConvergesClean(rules: seq<Rule>, doc: Document) {
    forall tries: seq<Attempt>, ws: seq<Write>, s: Store ::
      AllTries(rules, doc, tries) && Issues(rules, doc, ws) && s.Valid() && CleanStore(s) ==>
        Run(ws, Crashed(tries, s)) == Run(ws, s)
  }

  lemma {:induction false} LiveSubset(ws: seq<Write>, w: Write)
    requires w in Live(ws)
    ensures w in ws && !IsDead(w)
  {
    if ws != [] && w in Live(ws[..|ws| - 1]) {
      LiveSubset(ws[..|ws| - 1], w);
    }
  }

  /** The graphs that show divergence have cleaned ids only. */
  lemma EndsAreClean(ws: seq<Write>, s: Store)
    requires OneEnd(Live(ws), s) && forall w :: w in ws && w.MergeEdge? ==> SpdxId !in w.source.ident
    ensures CleanStore(s)
  {
    if s != EMPTY {
      var w :| w in Live(ws) && w.MergeEdge? && OnlyEnd(w, s);
      LiveSubset(ws, w);
    }
  }

  lemma UnretryableDivergesClean(rules: seq<Rule>, doc: Document, now: string) returns (k: nat, s: Store)
    requires !CleanRetryable(rules, doc)
    ensures Diverges(Plan(rules, doc, now), k, s) && CleanStore(s)
  {
    var plan, j := Plan(rules, doc, now), 0;
    LivePlanAgain(rules, doc, now);
    j, s := NotAgainDiverges(Live(plan));
    PlanIsClean(rules, doc, now);
    EndsAreClean(plan, s);
    k := LiveReaches(plan, j);
    LiveCrash(rules, doc, now, k, s);
    LiveRun(rules, doc, now, s);
    LiveRun(rules, doc, now, Run(plan[..k], s));
  }

  lemma CleanTriesShow(rules: seq<Rule>, doc: Document, tries: seq<Attempt>, ws: seq<Write>, s: Store)
    requires AllTries(rules, doc, tries) && Issues(rules, doc, ws) && s.Valid() && CleanStore(s)
    requires Run(ws, Crashed(tries, s)) != Run(ws, s)
    ensures !AlwaysConvergesClean(rules, doc)
  {
  }

  lemma CleanCrashShows(rules: seq<Rule>, doc: Document, ws: seq<Write>, k: nat, s: Store)
    requires Issues(rules, doc, ws) && Diverges(ws, k, s) && CleanStore(s)
    ensures !AlwaysConvergesClean(rules, doc)
  {
    var a := Attempt(ws, k);
    OneCrash(a, s);
    OneIsAll(rules, doc, a);
    CleanTriesShow(rules, doc, [a], ws, s);
  }

  /** Over graphs of cleaned licence ids a document always converges exactly if it is retryable when the
      links that find nothing are left out. */
  lemma CleanIngestConvergesExactly(rules: seq<Rule>, doc: Document)
    ensures AlwaysConvergesClean(rules, doc) <==> CleanRetryable(rules, doc)
  {
    if CleanRetryable(rules, doc) {
      forall tries: seq<Attempt>, ws: seq<Write>, s: Store |
        AllTries(rules, doc, tries) && Issues(rules, doc, ws) && s.Valid() && CleanStore(s)
        ensures Run(ws, Crashed(tries, s)) == Run(ws, s)
      {
        CleanIngestConverges(rules, doc, tries, ws, s);
      }
    } else {
      var k, s := UnretryableDivergesClean(rules, doc, "");
      PlanIsIssued(rules, doc, "");
      CleanCrashShows(rules, doc, Plan(rules, doc, ""), k, s);
    }
  }

  /** A document that is retryable over all graphs is so over these. */
  lemma RetryableIsCleanRetryable(rules: seq<Rule>, doc: Document)
    requires Retryable(rules, doc)
    ensures CleanRetryable(rules, doc)
  {
    IngestConvergesExactly(rules, doc);
    assert AlwaysConvergesClean(rules, doc);
    CleanIngestConvergesExactly(rules, doc);
  }

  /** The document converges from this graph, as a caller can check. */
  ghost predicate SafeFrom(rules: seq<Rule>, doc: Document, s: Store) {
    Retryable(rules, doc) || (CleanRetryable(rules, doc) && CleanStore(s))
  }

  lemma SafeIngestConverges(rules: seq<Rule>, doc: Document, tries: seq<Attempt>, ws: seq<Write>, s: Store)
    requires SafeFrom(rules, doc, s) && s.Valid() && AllTries(rules, doc, tries) && Issues(rules, doc, ws)
    ensures Run(ws, Crashed(tries, s)) == Run(ws, s)
  {
    if Retryable(rules, doc) {
      IngestConverges(rules, doc, tries, ws, s);
    } else {
      CleanIngestConverges(rules, doc, tries, ws, s);
    }
  }
}
