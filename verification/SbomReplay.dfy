/** A document's plan does everything again exactly if its version and licence queries do: the writes
    after those never look for a node that a still later one brings. */
module SbomReplay {
  import opened Lists
  import opened PrefixRules
  import opened MergeStore
  import opened ReplayLimits
  import opened SbomPlan
  import opened SbomItems

  // ---------- the kinds of write a plan consists of ----------

  /** The nodes versions are linked to. Each kind has one label and one identifying property. */
  datatype Kind = LicenseKind | SourceKind | DefectKind | RecordKind

  function Tag(k: Kind): string {
    match k
    case LicenseKind => "License"
    case SourceKind => "SourceRepository"
    case DefectKind => "Defect"
    case RecordKind => "SBOMRecord"
  }

  function IdField(k: Kind): Field {
    match k
    case LicenseKind => SpdxId
    case SourceKind => RepoUrl
    case DefectKind => DefectId
    case RecordKind => RecordId
  }

  predicate IsMergeOf(k: Kind, w: Write) {
    w.MergeNode? && w.labels == {Tag(k)} && w.ident.Keys == {IdField(k)}
  }

  /** A link from versions to the node of kind k that an earlier write of ws merged. */
  predicate IsLinkTo(ws: seq<Write>, k: Kind, w: Write) {
    && w.MergeEdge? && "Version" in w.source.labels
    && w.target.labels == {Tag(k)} && w.target.ident.Keys == {IdField(k)}
    && exists v :: v in ws && IsMergeOf(k, v) && v.ident == w.target.ident
  }

  predicate IsVersionLink(w: Write) {
    w.MergeEdge? && "Version" in w.source.labels && "Version" in w.target.labels
  }

  predicate IsVersionMerge(w: Write) {
    w.MergeNode? && "Version" in w.labels && SpdxId !in w.ident && forall k: Kind :: Tag(k) !in w.labels
  }

  /** A link from versions to a licence, which no earlier write need have merged. */
  predicate IsLicenceLink(w: Write) {
    && w.MergeEdge? && w.kind == "HAS_LICENSE"
    && w.source.labels == {"Version"} && SpdxId !in w.source.ident && w.source.purlPrefix.None?
    && w.target.labels == {Tag(LicenseKind)} && w.target.ident.Keys == {SpdxId} && w.target.purlPrefix.None?
  }

  /** The writes for versions and licences. */
  predicate IsProjectWrite(w: Write) {
    || (w.AppendScan? && "Version" in w.pattern.labels)
    || IsVersionMerge(w) || IsMergeOf(LicenseKind, w) || IsLicenceLink(w)
  }

  /** One of the shapes of write a plan is made of, given the writes before it. */
  predicate Shaped(ws: seq<Write>, w: Write) {
    IsProjectWrite(w) || IsVersionLink(w) || exists k: Kind :: IsMergeOf(k, w) || IsLinkTo(ws, k, w)
  }

  predicate Tidy(ws: seq<Write>) {
    ws == [] || (Tidy(ws[..|ws| - 1]) && Shaped(ws[..|ws| - 1], ws[|ws| - 1]))
  }

  lemma {:induction false} TidyPrefix(ws: seq<Write>, k: nat)
    requires Tidy(ws) && k <= |ws|
    ensures Tidy(ws[..k])
  {
    if k == |ws| {
      assert ws[..k] == ws;
    } else {
      assert ws[..|ws| - 1][..k] == ws[..k];
      TidyPrefix(ws[..|ws| - 1], k);
    }
  }

  lemma ShapedLater(ws: seq<Write>, vs: seq<Write>, w: Write)
    requires Shaped(ws, w) && forall v :: v in ws ==> v in vs
    ensures Shaped(vs, w)
  {
    if k: Kind :| IsLinkTo(ws, k, w) {
      assert IsLinkTo(vs, k, w);
    }
  }

  lemma {:induction false} TidyShaped(ws: seq<Write>, w: Write)
    requires Tidy(ws) && w in ws
    ensures Shaped(ws, w)
  {
    var front := ws[..|ws| - 1];
    assert ws == front + [ws[|ws| - 1]];
    if w in front {
      TidyShaped(front, w);
      ShapedLater(front, ws, w);
    } else {
      ShapedLater(front, ws, w);
    }
  }

  lemma TagsDiffer(k: Kind, l: Kind)
    ensures Tag(k) == Tag(l) ==> k == l
    ensures Tag(k) != "Version"
  {
  }

  lemma OneFieldEqual(f: Field, a: map<Field, string>, b: map<Field, string>)
    requires a.Keys == {f} && b.Keys == {f} && Has(b, a)
    ensures a == b
  {
  }

  lemma MergesApart(k: Kind, w: Write, l: Kind, v: Write)
    requires IsMergeOf(k, w) && IsMergeOf(l, v)
    ensures Matches(Key(v), Blank(w)) ==> Matches(Key(w), Blank(v))
  {
    TagsDiffer(k, l);
    if Matches(Key(v), Blank(w)) {
      assert Tag(l) in v.labels;
      OneFieldEqual(IdField(k), v.ident, w.ident);
    }
  }

  lemma LinkApart(k: Kind, w: Write, l: Kind, v: Write, u: Write)
    requires IsMergeOf(k, w) && IsMergeOf(l, u) && v.MergeEdge?
    requires "Version" in v.source.labels && v.target.labels == {Tag(l)} && v.target.ident.Keys == {IdField(l)}
    requires u.ident == v.target.ident
    ensures !Matches(v.source, Blank(w))
    ensures Matches(v.target, Blank(w)) ==> Matches(Key(w), Blank(u))
  {
    TagsDiffer(k, l);
    if Matches(v.target, Blank(w)) {
      assert Tag(l) in v.target.labels;
      OneFieldEqual(IdField(k), v.target.ident, w.ident);
    }
  }

  /** No earlier write looks for a new node of the kinds that come last. */
  lemma KindUnread(ws: seq<Write>, k: Kind, w: Write, v: Write)
    requires Tidy(ws) && IsMergeOf(k, w) && k != LicenseKind && Novel(ws, w) && v in ws
    ensures v.MergeNode? ==> !Matches(Key(v), Blank(w))
    ensures v.MergeEdge? ==> !Matches(v.source, Blank(w)) && !Matches(v.target, Blank(w))
  {
    TidyShaped(ws, v);
    TagsDiffer(k, LicenseKind);
    if l: Kind :| IsMergeOf(l, v) {
      MergesApart(k, w, l, v);
    } else if l: Kind :| IsLinkTo(ws, l, v) {
      var u :| u in ws && IsMergeOf(l, u) && u.ident == v.target.ident;
      LinkApart(k, w, l, v, u);
    }
  }

  lemma TidyNext(ws: seq<Write>, w: Write)
    requires Tidy(ws) && Shaped(ws, w)
    ensures Tidy(ws + [w])
  {
    assert (ws + [w])[..|ws|] == ws;
  }

  /** A merge of a linked node. */
  lemma TidyMerge(ws: seq<Write>, k: Kind, m: Write)
    requires Tidy(ws) && IsMergeOf(k, m)
    ensures Tidy(ws + [m])
  {
    TidyNext(ws, m);
  }

  lemma TidyLink(ws: seq<Write>, k: Kind, m: Write, e: Write)
    requires Tidy(ws) && IsMergeOf(k, m) && m in ws
    requires e.MergeEdge? && "Version" in e.source.labels && e.target.labels == {Tag(k)} && e.target.ident == m.ident
    ensures Tidy(ws + [e])
  {
    assert IsLinkTo(ws, k, e);
    TidyNext(ws, e);
  }

  /** A merge of a linked node, followed by a link to it. */
  lemma TidyMergeAndLink(ws: seq<Write>, k: Kind, m: Write, e: Write)
    requires Tidy(ws) && IsMergeOf(k, m)
    requires e.MergeEdge? && "Version" in e.source.labels && e.target.labels == {Tag(k)} && e.target.ident == m.ident
    ensures Tidy(ws + [m, e])
  {
    TidyMerge(ws, k, m);
    TidyLink(ws + [m], k, m, e);
    assert ws + [m, e] == (ws + [m]) + [e];
  }

  // ---------- the parts after the projects ----------

  lemma SourceTidy(ws: seq<Write>, c: Component)
    requires Tidy(ws)
    ensures Tidy(ws + SourceWrites(c))
  {
    NothingAdded(ws);
    if c.source.Some? && c.source.value.url != "" {
      TidyMergeAndLink(ws, SourceKind, SourceMerge(c.source.value), SourceLink(c.version, c.source.value));
    }
  }

  lemma {:induction false} SourcesTidy(ws: seq<Write>, cs: seq<Component>)
    requires Tidy(ws)
    ensures Tidy(ws + SourcesPart(cs))
  {
    NothingAdded(ws);
    if cs != [] {
      var front, c := cs[..|cs| - 1], cs[|cs| - 1];
      SourcesTidy(ws, front);
      SourceTidy(ws + SourcesPart(front), c);
      Regroup(ws, SourcesPart(front), SourceWrites(c));
    }
  }

  lemma EndpointIsVersion(v: Version)
    ensures Endpoint(v).Some? ==> "Version" in Endpoint(v).value.labels
  {
  }

  lemma DependencyTidy(ws: seq<Write>, parent: Version, child: Version)
    requires Tidy(ws)
    ensures Tidy(ws + DependencyWrites(parent, child))
  {
    NothingAdded(ws);
    var added := DependencyWrites(parent, child);
    if added != [] {
      assert IsVersionLink(added[0]) && added == [added[0]];
      TidyNext(ws, added[0]);
    }
  }

  lemma {:induction false} DependenciesTidy(ws: seq<Write>, cs: seq<Component>, deps: seq<(nat, nat)>)
    requires Tidy(ws)
    ensures Tidy(ws + DependenciesPart(cs, deps))
  {
    NothingAdded(ws);
    if deps != [] {
      var front, d := deps[..|deps| - 1], deps[|deps| - 1];
      DependenciesTidy(ws, cs, front);
      var vs := ws + DependenciesPart(cs, front);
      NothingAdded(vs);
      if d.0 < |cs| && d.1 < |cs| {
        DependencyTidy(vs, cs[d.0].version, cs[d.1].version);
        Regroup(ws, DependenciesPart(cs, front), DependencyWrites(cs[d.0].version, cs[d.1].version));
      } else {
        NothingAdded(DependenciesPart(cs, front));
      }
    }
  }

  lemma {:induction false} DefectsTidy(ws: seq<Write>, ds: seq<Defect>)
    requires Tidy(ws)
    ensures Tidy(ws + DefectsPart(ds))
  {
    NothingAdded(ws);
    if ds != [] {
      var front, d := ds[..|ds| - 1], ds[|ds| - 1];
      DefectsTidy(ws, front);
      TidyMerge(ws + DefectsPart(front), DefectKind, DefectMerge(d));
      Regroup(ws, DefectsPart(front), [DefectMerge(d)]);
    }
  }

  lemma {:induction false} DefectMerged(ds: seq<Defect>, i: nat)
    requires i < |ds|
    ensures DefectMerge(ds[i]) in DefectsPart(ds)
  {
    if i < |ds| - 1 {
      DefectMerged(ds[..|ds| - 1], i);
    }
  }

  lemma AffectTidy(ws: seq<Write>, v: Version, d: Defect)
    requires Tidy(ws) && DefectMerge(d) in ws
    ensures Tidy(ws + AffectWrites(v, d))
  {
    NothingAdded(ws);
    EndpointIsVersion(v);
    var added := AffectWrites(v, d);
    if added != [] {
      assert added == [added[0]];
      TidyLink(ws, DefectKind, DefectMerge(d), added[0]);
    }
  }

  lemma {:induction false} AffectsTidy(ws: seq<Write>, cs: seq<Component>, ds: seq<Defect>, affects: seq<(nat, nat)>)
    requires Tidy(ws) && forall i :: 0 <= i < |ds| ==> DefectMerge(ds[i]) in ws
    ensures Tidy(ws + AffectsPart(cs, ds, affects))
  {
    NothingAdded(ws);
    if affects != [] {
      var front, a := affects[..|affects| - 1], affects[|affects| - 1];
      AffectsTidy(ws, cs, ds, front);
      var vs := ws + AffectsPart(cs, ds, front);
      NothingAdded(vs);
      if a.0 < |cs| && a.1 < |ds| {
        assert DefectMerge(ds[a.1]) in vs;
        AffectTidy(vs, cs[a.0].version, ds[a.1]);
        Regroup(ws, AffectsPart(cs, ds, front), AffectWrites(cs[a.0].version, ds[a.1]));
      } else {
        NothingAdded(AffectsPart(cs, ds, front));
      }
    }
  }

  lemma RecordTidy(ws: seq<Write>, r: Record, now: string)
    requires Tidy(ws)
    ensures Tidy(ws + RecordWrites(r, now))
  {
    NothingAdded(ws);
    if r.recordId != "" {
      TidyMerge(ws, RecordKind, RecordWrites(r, now)[0]);
    }
  }

  lemma LinkTidy(ws: seq<Write>, v: Version, r: Record, now: string)
    requires Tidy(ws) && (r.recordId != "" ==> RecordWrites(r, now)[0] in ws)
    ensures Tidy(ws + LinkWrites(v, r))
  {
    NothingAdded(ws);
    var added := LinkWrites(v, r);
    if added != [] {
      assert added == [added[0]];
      TidyLink(ws, RecordKind, RecordWrites(r, now)[0], added[0]);
    }
  }

  lemma {:induction false} LinksTidy(ws: seq<Write>, cs: seq<Component>, r: Record, now: string)
    requires Tidy(ws) && (r.recordId != "" ==> RecordWrites(r, now)[0] in ws)
    ensures Tidy(ws + LinksPart(cs, r))
  {
    NothingAdded(ws);
    if cs != [] {
      var front, c := cs[..|cs| - 1], cs[|cs| - 1];
      LinksTidy(ws, front, r, now);
      LinkTidy(ws + LinksPart(front, r), c.version, r, now);
      Regroup(ws, LinksPart(front, r), LinkWrites(c.version, r));
    }
  }

  // ---------- the projects ----------

  lemma VersionLabelsPlain(rules: seq<Rule>, v: Version, scanId: string)
    ensures IsVersionMerge(VersionMerge(rules, v, scanId))
  {
    forall k: Kind
      ensures Tag(k) !in VersionLabels(rules, v)
    {
    }
  }

  lemma ItemWritesAreProjects(rules: seq<Rule>, it: Item, scanId: string, w: Write)
    requires w in ItemWrites(rules, it, scanId)
    ensures IsProjectWrite(w)
  {
    if it.VersionItem? {
      VersionLabelsPlain(rules, it.version, scanId);
    }
  }

  lemma ItemsAreProjects(rules: seq<Rule>, items: seq<Item>, scanId: string)
    ensures forall w :: w in Written(rules, items, scanId) ==> IsProjectWrite(w)
  {
    forall w | w in Written(rules, items, scanId)
      ensures IsProjectWrite(w)
    {
      var k := WrittenBy(rules, items, scanId, w);
      ItemWritesAreProjects(rules, items[k], scanId, w);
    }
  }

  lemma {:induction false} ProjectsTidy(ws: seq<Write>)
    requires forall w :: w in ws ==> IsProjectWrite(w)
    ensures Tidy(ws)
  {
    if ws != [] {
      assert ws[|ws| - 1] in ws;
      ProjectsTidy(ws[..|ws| - 1]);
    }
  }

  // ---------- the rest of the plan ----------

  /** A write of the later parts: no append, no version or licence merged, no link to a licence. */
  predicate IsRestWrite(w: Write) {
    && !w.AppendScan?
    && (w.MergeNode? ==> exists k: Kind :: k != LicenseKind && IsMergeOf(k, w))
    && (w.MergeEdge? ==> w.kind != "HAS_LICENSE" && SpdxId !in w.source.ident && SpdxId !in w.target.ident)
  }

  predicate AllRest(ws: seq<Write>) {
    forall w :: w in ws ==> IsRestWrite(w)
  }

  lemma {:induction false} SourcesRest(cs: seq<Component>)
    ensures AllRest(SourcesPart(cs))
  {
    if cs != [] {
      SourcesRest(cs[..|cs| - 1]);
      var c := cs[|cs| - 1];
      if c.source.Some? {
        assert IsMergeOf(SourceKind, SourceMerge(c.source.value));
      }
    }
  }

  lemma {:induction false} DependenciesRest(cs: seq<Component>, deps: seq<(nat, nat)>)
    ensures AllRest(DependenciesPart(cs, deps)) && forall w :: w in DependenciesPart(cs, deps) ==> w.MergeEdge?
  {
    if deps != [] {
      DependenciesRest(cs, deps[..|deps| - 1]);
    }
  }

  lemma {:induction false} DefectsRest(ds: seq<Defect>)
    ensures AllRest(DefectsPart(ds))
  {
    if ds != [] {
      DefectsRest(ds[..|ds| - 1]);
      assert IsMergeOf(DefectKind, DefectMerge(ds[|ds| - 1]));
    }
  }

  lemma {:induction false} AffectsRest(cs: seq<Component>, ds: seq<Defect>, affects: seq<(nat, nat)>)
    ensures AllRest(AffectsPart(cs, ds, affects))
  {
    if affects != [] {
      AffectsRest(cs, ds, affects[..|affects| - 1]);
    }
  }

  lemma RecordRest(r: Record, now: string)
    ensures AllRest(RecordWrites(r, now))
  {
    if r.recordId != "" {
      assert IsMergeOf(RecordKind, RecordWrites(r, now)[0]);
    }
  }

  lemma {:induction false} LinksRest(cs: seq<Component>, r: Record)
    ensures AllRest(LinksPart(cs, r))
  {
    if cs != [] {
      LinksRest(cs[..|cs| - 1], r);
    }
  }

  /** The plan without its project part. */
  function Rest(doc: Document, now: string): seq<Write> {
    SourcesPart(doc.components) + DependenciesPart(doc.components, doc.dependencies)
    + DefectsPart(doc.defects) + AffectsPart(doc.components, doc.defects, doc.affects)
    + RecordWrites(doc.record, now) + LinksPart(doc.components, doc.record)
  }

  lemma PartsAndRest(a: seq<Write>, doc: Document, now: string)
    ensures a + SourcesPart(doc.components) + DependenciesPart(doc.components, doc.dependencies)
            + DefectsPart(doc.defects) + AffectsPart(doc.components, doc.defects, doc.affects)
            + RecordWrites(doc.record, now) + LinksPart(doc.components, doc.record) == a + Rest(doc, now)
  {
    var b, c := SourcesPart(doc.components), DependenciesPart(doc.components, doc.dependencies);
    var d, e := DefectsPart(doc.defects), AffectsPart(doc.components, doc.defects, doc.affects);
    var f := RecordWrites(doc.record, now);
    Regroup(a, b, c);
    Regroup(a, b + c, d);
    Regroup(a, b + c + d, e);
    Regroup(a, b + c + d + e, f);
    Regroup(a, b + c + d + e + f, LinksPart(doc.components, doc.record));
  }

  lemma PlanIsProjectsAndRest(rules: seq<Rule>, doc: Document, now: string)
    ensures Plan(rules, doc, now) == Written(rules, Items(doc.components), doc.scanId) + Rest(doc, now)
  {
    ProjectsWritten(rules, doc.components, doc.scanId);
    PartsAndRest(ProjectsPart(rules, doc.components, doc.scanId), doc, now);
  }

  lemma RestIsRest(doc: Document, now: string)
    ensures AllRest(Rest(doc, now))
  {
    SourcesRest(doc.components);
    DependenciesRest(doc.components, doc.dependencies);
    DefectsRest(doc.defects);
    AffectsRest(doc.components, doc.defects, doc.affects);
    RecordRest(doc.record, now);
    LinksRest(doc.components, doc.record);
  }

  /** The later parts keep the shapes. */
  lemma RestTidy(ws: seq<Write>, doc: Document, now: string)
    requires Tidy(ws)
    ensures Tidy(ws + Rest(doc, now))
  {
    var cs := doc.components;
    SourcesTidy(ws, cs);
    var ws2 := ws + SourcesPart(cs);
    DependenciesTidy(ws2, cs, doc.dependencies);
    var ws3 := ws2 + DependenciesPart(cs, doc.dependencies);
    DefectsTidy(ws3, doc.defects);
    var ws4 := ws3 + DefectsPart(doc.defects);
    forall i | 0 <= i < |doc.defects|
      ensures DefectMerge(doc.defects[i]) in ws4
    {
      DefectMerged(doc.defects, i);
      InConcat(ws3, DefectsPart(doc.defects), DefectMerge(doc.defects[i]));
    }
    AffectsTidy(ws4, cs, doc.defects, doc.affects);
    var ws5 := ws4 + AffectsPart(cs, doc.defects, doc.affects);
    RecordTidy(ws5, doc.record, now);
    var ws6 := ws5 + RecordWrites(doc.record, now);
    if doc.record.recordId != "" {
      InConcat(ws5, RecordWrites(doc.record, now), RecordWrites(doc.record, now)[0]);
    }
    LinksTidy(ws6, cs, doc.record, now);
    PartsAndRest(ws, doc, now);
  }

  // ---------- again, in the parts and in the plan ----------

  /** The writes ps for versions and licences, and rest after them. */
  ghost predicate InParts(ps: seq<Write>, rest: seq<Write>) {
    (forall w :: w in ps ==> IsProjectWrite(w)) && AllRest(rest) && Tidy(ps + rest)
  }

  lemma ItemsInParts(rules: seq<Rule>, items: seq<Item>, doc: Document, now: string)
    ensures InParts(Written(rules, items, doc.scanId), Rest(doc, now))
  {
    ItemsAreProjects(rules, items, doc.scanId);
    ProjectsTidy(Written(rules, items, doc.scanId));
    RestTidy(Written(rules, items, doc.scanId), doc, now);
    RestIsRest(doc, now);
  }

  lemma RestSetsNothing(rest: seq<Write>, key: string, n: Node)
    requires AllRest(rest) && ("Version" in n.labels || n.labels == {Tag(LicenseKind)})
    requires forall k: Kind :: k != LicenseKind ==> Tag(k) !in n.labels
    ensures !SetBySome(rest, key, n)
  {
    forall w | w in rest && w.MergeNode?
      ensures !Matches(Key(w), n)
    {
      var k: Kind :| k != LicenseKind && IsMergeOf(k, w);
      assert Tag(k) in w.labels;
    }
  }

  /** The rest repeats nothing that is done to versions and licences. */
  lemma RestRepeatsNothing(v: Write, w: Write, later: seq<Write>, rest: seq<Write>)
    requires IsProjectWrite(v) && IsProjectWrite(w) && w.MergeNode? && AllRest(rest)
    ensures Repeats(v, Blank(w), later + rest) <==> Repeats(v, Blank(w), later)
  {
    var n := Blank(w);
    forall key
      ensures SetBySome(later + rest, key, n) <==> SetBySome(later, key, n)
    {
      ProjectNodeLabels(w);
      RestSetsNothing(rest, key, n);
      SetBySomeConcat(later, rest, key, n);
    }
    if v.MergeEdge? {
      assert v.kind == "HAS_LICENSE";
      assert forall e :: e in later + rest && e.MergeEdge? && e.kind == v.kind ==> e in later;
      assert forall e :: e in later ==> e in later + rest;
    }
  }

  lemma ProjectNodeLabels(w: Write)
    requires IsProjectWrite(w) && w.MergeNode?
    ensures "Version" in w.labels || w.labels == {Tag(LicenseKind)}
    ensures forall k: Kind :: k != LicenseKind ==> Tag(k) !in w.labels
  {
    forall k: Kind | k != LicenseKind
      ensures Tag(k) !in w.labels
    {
      TagsDiffer(k, LicenseKind);
    }
  }

  lemma SetBySomeConcat(a: seq<Write>, b: seq<Write>, key: string, n: Node)
    ensures SetBySome(a + b, key, n) <==> SetBySome(a, key, n) || SetBySome(b, key, n)
  {
    if w :| w in a && w.MergeNode? && Matches(Key(w), n) && key in w.data {
      assert w in a + b;
    }
    if w :| w in b && w.MergeNode? && Matches(Key(w), n) && key in w.data {
      assert w in a + b;
    }
  }

  lemma ProjectAgainAt(ps: seq<Write>, rest: seq<Write>, j: nat)
    requires InParts(ps, rest) && j < |ps|
    ensures AgainAt(ps + rest, j) <==> AgainAt(ps, j)
  {
    CutLonger(ps, rest, j);
    if ps[j].MergeNode? {
      forall v | v in ps[..j]
        ensures Repeats(v, Blank(ps[j]), ps[j..] + rest) <==> Repeats(v, Blank(ps[j]), ps[j..])
      {
        assert v in ps && ps[j] in ps;
        RestRepeatsNothing(v, ps[j], ps[j..], rest);
      }
    }
  }

  lemma RestUnread(ps: seq<Write>, rest: seq<Write>, j: nat, v: Write)
    requires InParts(ps, rest) && |ps| <= j < |ps + rest| && (ps + rest)[j].MergeNode?
    requires Novel((ps + rest)[..j], (ps + rest)[j]) && v in (ps + rest)[..j]
    ensures v.MergeNode? ==> !Matches(Key(v), Blank((ps + rest)[j]))
    ensures v.MergeEdge? ==> !Matches(v.source, Blank((ps + rest)[j])) && !Matches(v.target, Blank((ps + rest)[j]))
  {
    InSecond(ps, rest, j);
    assert (ps + rest)[j] in rest;
    var k: Kind :| k != LicenseKind && IsMergeOf(k, (ps + rest)[j]);
    TidyPrefix(ps + rest, j);
    KindUnread((ps + rest)[..j], k, (ps + rest)[j], v);
  }

  lemma PartsAgain(ps: seq<Write>, rest: seq<Write>)
    requires InParts(ps, rest)
    ensures Again(ps + rest) <==> Again(ps)
  {
    forall j | 0 <= j < |ps|
      ensures AgainAt(ps + rest, j) <==> AgainAt(ps, j)
    {
      ProjectAgainAt(ps, rest, j);
    }
    forall j | |ps| <= j < |ps + rest|
      ensures AgainAt(ps + rest, j)
    {
      if (ps + rest)[j].MergeNode? && Novel((ps + rest)[..j], (ps + rest)[j]) {
        forall v | v in (ps + rest)[..j]
          ensures Repeats(v, Blank((ps + rest)[j]), (ps + rest)[j..])
        {
          RestUnread(ps, rest, j, v);
        }
      }
    }
    if Again(ps + rest) {
      assert forall j :: 0 <= j < |ps| ==> AgainAt(ps + rest, j);
    }
  }

  /** The other end of a link to a new node is never one that the node's merge looks for. */
  lemma PartsEndsFree(ps: seq<Write>, rest: seq<Write>)
    requires InParts(ps, rest)
    ensures AllEndsFree(ps + rest)
  {
    var ws := ps + rest;
    forall i, j | 0 <= i < j < |ws| && ws[i].MergeEdge? && ws[j].MergeNode? && Novel(ws[..j], ws[j])
      ensures EndsFree(ws[i], ws[j])
    {
      if j < |ps| {
        assert ws[i] in ps && ws[j] in ps;
        ProjectEndsFree(ws[i], ws[j]);
      } else {
        assert ws[i] in ws[..j];
        RestUnread(ps, rest, j, ws[i]);
      }
    }
  }

  lemma ProjectEndsFree(e: Write, w: Write)
    requires IsProjectWrite(e) && e.MergeEdge? && IsProjectWrite(w) && w.MergeNode?
    ensures EndsFree(e, w)
  {
    TagsDiffer(LicenseKind, LicenseKind);
  }

  /** Items and the later parts do everything again exactly if the items do. */
  lemma ItemsAndRestAgain(rules: seq<Rule>, items: seq<Item>, doc: Document, now: string)
    ensures Again(Written(rules, items, doc.scanId) + Rest(doc, now)) <==> AllDoneAgain(rules, items, doc.scanId)
    ensures AllEndsFree(Written(rules, items, doc.scanId) + Rest(doc, now))
  {
    var ps, rest := Written(rules, items, doc.scanId), Rest(doc, now);
    ItemsInParts(rules, items, doc, now);
    PartsAgain(ps, rest);
    PartsEndsFree(ps, rest);
    ItemsAgain(rules, items, doc.scanId);
  }

  /** The plan does everything again exactly if the document's items do. */
  lemma PlanAgain(rules: seq<Rule>, doc: Document, now: string)
    ensures Again(Plan(rules, doc, now)) <==> Retryable(rules, doc)
    ensures AllEndsFree(Plan(rules, doc, now))
  {
    PlanIsProjectsAndRest(rules, doc, now);
    ItemsAndRestAgain(rules, Items(doc.components), doc, now);
  }
}
