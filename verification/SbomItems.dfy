/** Reading off a document's items whether its version and licence queries do everything again. */
module SbomItems {
  import opened Lists
  import opened PrefixRules
  import opened MergeStore
  import opened SbomPlan

  function ItemWrites(rules: seq<Rule>, it: Item, scanId: string): seq<Write> {
    match it
    case VersionItem(v) => VersionWrites(rules, v, scanId)
    case LicenceItem(v, l, linked) =>
      (if HasMerge(it) then [LicenseMerge(l)] else []) + (if linked then [LicenseLink(v, l)] else [])
  }

  function Parts(rules: seq<Rule>, items: seq<Item>, scanId: string): seq<seq<Write>> {
    seq(|items|, i requires 0 <= i < |items| => ItemWrites(rules, items[i], scanId))
  }

  /** The queries of all items. */
  function Written(rules: seq<Rule>, items: seq<Item>, scanId: string): seq<Write> {
    Flat(Parts(rules, items, scanId))
  }

  lemma PartsConcat(rules: seq<Rule>, a: seq<Item>, b: seq<Item>, scanId: string)
    ensures Parts(rules, a + b, scanId) == Parts(rules, a, scanId) + Parts(rules, b, scanId)
  {
  }

  lemma WrittenConcat(rules: seq<Rule>, a: seq<Item>, b: seq<Item>, scanId: string)
    ensures Written(rules, a + b, scanId) == Written(rules, a, scanId) + Written(rules, b, scanId)
  {
    PartsConcat(rules, a, b, scanId);
    FlatConcat(Parts(rules, a, scanId), Parts(rules, b, scanId));
  }

  lemma WrittenOne(rules: seq<Rule>, it: Item, scanId: string)
    ensures Written(rules, [it], scanId) == ItemWrites(rules, it, scanId)
  {
    assert Parts(rules, [it], scanId) == [ItemWrites(rules, it, scanId)];
    FlatOne(ItemWrites(rules, it, scanId));
  }

  lemma WrittenNext(rules: seq<Rule>, items: seq<Item>, it: Item, scanId: string)
    ensures Written(rules, items + [it], scanId) == Written(rules, items, scanId) + ItemWrites(rules, it, scanId)
  {
    WrittenConcat(rules, items, [it], scanId);
    WrittenOne(rules, it, scanId);
  }

  lemma {:induction false} LicencesWritten(rules: seq<Rule>, v: Version, ls: seq<License>, scanId: string)
    ensures Written(rules, LicenceItems(v, ls), scanId) == LicensesWrites(v, ls)
  {
    if ls != [] {
      var front, it := LicenceItems(v, ls[..|ls| - 1]), ItemOf(v, ls[|ls| - 1]);
      LicencesWritten(rules, v, ls[..|ls| - 1], scanId);
      WrittenNext(rules, front, it, scanId);
    }
  }

  /** The items account for all version and licence queries. */
  lemma {:induction false} ProjectsWritten(rules: seq<Rule>, cs: seq<Component>, scanId: string)
    ensures Written(rules, Items(cs), scanId) == ProjectsPart(rules, cs, scanId)
  {
    if cs != [] {
      var c := cs[|cs| - 1];
      var own := [VersionItem(c.version)] + LicenceItems(c.version, c.licenses);
      ProjectsWritten(rules, cs[..|cs| - 1], scanId);
      WrittenConcat(rules, Items(cs[..|cs| - 1]), own, scanId);
      WrittenConcat(rules, [VersionItem(c.version)], LicenceItems(c.version, c.licenses), scanId);
      WrittenOne(rules, VersionItem(c.version), scanId);
      LicencesWritten(rules, c.version, c.licenses, scanId);
    }
  }

  // ---------- which queries there are ----------

  lemma WrittenBy(rules: seq<Rule>, items: seq<Item>, scanId: string, w: Write) returns (k: nat)
    requires w in Written(rules, items, scanId)
    ensures k < |items| && w in ItemWrites(rules, items[k], scanId)
  {
    var p :| 0 <= p < |Written(rules, items, scanId)| && Written(rules, items, scanId)[p] == w;
    k := PartOf(Parts(rules, items, scanId), p);
  }

  lemma ItemIsWritten(rules: seq<Rule>, items: seq<Item>, scanId: string, k: nat, w: Write)
    requires k < |items| && w in ItemWrites(rules, items[k], scanId)
    ensures w in Written(rules, items, scanId)
  {
    var parts := Parts(rules, items, scanId);
    FlatAround(parts, k);
    InConcat(parts[k], Flat(parts[k + 1..]), w);
    InConcat(Flat(parts[..k]), Flat(parts[k..]), w);
  }

  /** An item's queries: its merge first, then an append or its link. */
  lemma ItemQueries(rules: seq<Rule>, it: Item, scanId: string, w: Write)
    ensures w in ItemWrites(rules, it, scanId) && w.MergeNode? <==> HasMerge(it) && w == MergeOf(rules, it, scanId)
    ensures w in ItemWrites(rules, it, scanId) && w.MergeEdge? <==>
      HasLink(it) && w == LicenseLink(it.version, it.license)
  {
  }

  lemma MergeComesFirst(rules: seq<Rule>, it: Item, scanId: string, p: nat)
    requires p < |ItemWrites(rules, it, scanId)|
    ensures ItemWrites(rules, it, scanId)[p].MergeNode? <==> p == 0 && HasMerge(it)
  {
  }

  // ---------- new nodes ----------

  lemma NewIsNovel(rules: seq<Rule>, items: seq<Item>, scanId: string, j: nat)
    requires j < |items| && HasMerge(items[j])
    ensures IsNew(rules, items, scanId, j) <==>
      Novel(Written(rules, items[..j], scanId), MergeOf(rules, items[j], scanId))
  {
    var ws, w := Written(rules, items[..j], scanId), MergeOf(rules, items[j], scanId);
    if IsNew(rules, items, scanId, j) {
      forall v | v in ws && v.MergeNode?
        ensures !Matches(Key(w), Blank(v))
      {
        var k := WrittenBy(rules, items[..j], scanId, v);
        ItemQueries(rules, items[k], scanId, v);
      }
    }
    if Novel(ws, w) {
      forall k | 0 <= k < j && HasMerge(items[k])
        ensures !Matches(Key(w), Blank(MergeOf(rules, items[k], scanId)))
      {
        ItemQueries(rules, items[k], scanId, MergeOf(rules, items[k], scanId));
        ItemIsWritten(rules, items[..j], scanId, k, MergeOf(rules, items[k], scanId));
      }
    }
  }

  lemma MergeIsWritten(rules: seq<Rule>, items: seq<Item>, scanId: string, j: nat, k: nat)
    requires j <= k < |items| && HasMerge(items[k])
    ensures MergeOf(rules, items[k], scanId) in Written(rules, items[j..], scanId)
  {
    ItemQueries(rules, items[k], scanId, MergeOf(rules, items[k], scanId));
    assert items[j..][k - j] == items[k];
    ItemIsWritten(rules, items[j..], scanId, k - j, MergeOf(rules, items[k], scanId));
  }

  lemma MergeOfItem(rules: seq<Rule>, items: seq<Item>, scanId: string, j: nat, w: Write) returns (k: nat)
    requires j <= |items| && w in Written(rules, items[j..], scanId) && w.MergeNode?
    ensures j <= k < |items| && HasMerge(items[k]) && w == MergeOf(rules, items[k], scanId)
  {
    var i := WrittenBy(rules, items[j..], scanId, w);
    k := j + i;
    assert items[j..][i] == items[k];
    ItemQueries(rules, items[k], scanId, w);
  }

  lemma SetLaterIsSet(rules: seq<Rule>, items: seq<Item>, scanId: string, j: nat, n: Node, key: string)
    requires j <= |items|
    ensures SetLater(rules, items, scanId, j, n, key) <==> SetBySome(Written(rules, items[j..], scanId), key, n)
  {
    var later := Written(rules, items[j..], scanId);
    if SetBySome(later, key, n) {
      var w :| w in later && w.MergeNode? && Matches(Key(w), n) && key in w.data;
      var k := MergeOfItem(rules, items, scanId, j, w);
    }
    if SetLater(rules, items, scanId, j, n, key) {
      var k :| j <= k < |items| && HasMerge(items[k]) &&
        Matches(Key(MergeOf(rules, items[k], scanId)), n) && key in MergeOf(rules, items[k], scanId).data;
      MergeIsWritten(rules, items, scanId, j, k);
    }
  }

  lemma SameLicence(l: License, m: License)
    ensures Covers(LicensePattern(l), LicensePattern(m)) <==> l.spdxId == m.spdxId
  {
    assert SpdxId in LicensePattern(l).ident;
  }

  /** The link among the later queries that item k stands for. */
  lemma ItemLinks(rules: seq<Rule>, items: seq<Item>, scanId: string, j: nat, k: nat) returns (e: Write)
    requires j <= k < |items| && HasLink(items[k])
    ensures e == LicenseLink(items[k].version, items[k].license) && e in Written(rules, items[j..], scanId)
  {
    e := LicenseLink(items[k].version, items[k].license);
    ItemQueries(rules, items[k], scanId, e);
    ItemIsWritten(rules, items[j..], scanId, k - j, e);
  }

  lemma LinkOfItem(rules: seq<Rule>, items: seq<Item>, scanId: string, j: nat, e: Write) returns (k: nat)
    requires j <= |items| && e in Written(rules, items[j..], scanId) && e.MergeEdge?
    ensures j <= k < |items| && HasLink(items[k]) && e == LicenseLink(items[k].version, items[k].license)
  {
    var i := WrittenBy(rules, items[j..], scanId, e);
    k := j + i;
    assert items[j..][i] == items[k];
    LinkOfOne(rules, items[k], scanId, e);
  }

  lemma LinkOfOne(rules: seq<Rule>, it: Item, scanId: string, e: Write)
    requires e in ItemWrites(rules, it, scanId) && e.MergeEdge?
    ensures HasLink(it) && e == LicenseLink(it.version, it.license)
  {
  }

  lemma LicensedLaterIsLinked(rules: seq<Rule>, items: seq<Item>, scanId: string, v: Version, l: License, j: nat,
                              n: Node)
    requires j <= |items|
    ensures LicensedLater(items, j, n, l.spdxId) <==>
      exists e :: e in Written(rules, items[j..], scanId) && LinksFrom(e, LicenseLink(v, l), n)
  {
    var later, link := Written(rules, items[j..], scanId), LicenseLink(v, l);
    if e :| e in later && LinksFrom(e, link, n) {
      var k := LinkOfItem(rules, items, scanId, j, e);
      SameLicence(items[k].license, l);
    }
    if LicensedLater(items, j, n, l.spdxId) {
      var k :| j <= k < |items| && HasLink(items[k]) && items[k].license.spdxId == l.spdxId &&
        Matches(ByName(items[k].version), n);
      var e := ItemLinks(rules, items, scanId, j, k);
      SameLicence(items[k].license, l);
      assert LinksFrom(e, link, n);
    }
  }

  lemma SameLicenceMatches(l: License, m: License, n: Node)
    requires Matches(LicensePattern(m), n)
    ensures Matches(LicensePattern(l), n) <==> l.spdxId == m.spdxId
  {
    assert SpdxId in LicensePattern(l).ident && SpdxId in LicensePattern(m).ident;
  }

  lemma AllLicensedLaterIsLinked(rules: seq<Rule>, items: seq<Item>, scanId: string, v: Version, l: License, j: nat,
                                 n: Node)
    requires j <= |items| && Matches(LicensePattern(l), n)
    ensures AllLicensedLater(items, j, v, l.spdxId) <==>
      exists e :: e in Written(rules, items[j..], scanId) && LinksTo(e, LicenseLink(v, l), n)
  {
    var later, link := Written(rules, items[j..], scanId), LicenseLink(v, l);
    if e :| e in later && LinksTo(e, link, n) {
      var k := LinkOfItem(rules, items, scanId, j, e);
      SameLicenceMatches(items[k].license, l, n);
    }
    if AllLicensedLater(items, j, v, l.spdxId) {
      var k :| j <= k < |items| && HasLink(items[k]) && items[k].license.spdxId == l.spdxId &&
        Covers(ByName(items[k].version), ByName(v));
      var e := ItemLinks(rules, items, scanId, j, k);
      SameLicenceMatches(items[k].license, l, n);
      assert LinksTo(e, link, n);
    }
  }

  // ---------- everything again ----------

  /** What item i's queries would do to a node like n is done again by the items from j on. */
  lemma ItemRepeats(rules: seq<Rule>, items: seq<Item>, scanId: string, i: nat, j: nat, n: Node)
    requires i < j <= |items|
    ensures ValuesAgain(rules, items, scanId, i, j, n) && LinkAgain(items, i, j, n) <==>
      forall v :: v in ItemWrites(rules, items[i], scanId) ==> Repeats(v, n, Written(rules, items[j..], scanId))
  {
    var later := Written(rules, items[j..], scanId);
    forall key
      ensures SetLater(rules, items, scanId, j, n, key) <==> SetBySome(later, key, n)
    {
      SetLaterIsSet(rules, items, scanId, j, n, key);
    }
    if HasMerge(items[i]) {
      ItemQueries(rules, items[i], scanId, MergeOf(rules, items[i], scanId));
    }
    if HasLink(items[i]) {
      LinkRepeats(rules, items, scanId, i, j, n);
      ItemQueries(rules, items[i], scanId, LicenseLink(items[i].version, items[i].license));
    }
    forall v | v in ItemWrites(rules, items[i], scanId)
      ensures v.MergeNode? ==> HasMerge(items[i]) && v == MergeOf(rules, items[i], scanId)
      ensures v.MergeEdge? ==> HasLink(items[i]) && v == LicenseLink(items[i].version, items[i].license)
    {
      ItemQueries(rules, items[i], scanId, v);
    }
  }

  lemma LinkRepeats(rules: seq<Rule>, items: seq<Item>, scanId: string, i: nat, j: nat, n: Node)
    requires i < j <= |items| && HasLink(items[i])
    ensures LinkAgain(items, i, j, n) <==>
      Repeats(LicenseLink(items[i].version, items[i].license), n, Written(rules, items[j..], scanId))
  {
    LicensedLaterIsLinked(rules, items, scanId, items[i].version, items[i].license, j, n);
    if Matches(LicensePattern(items[i].license), n) {
      AllLicensedLaterIsLinked(rules, items, scanId, items[i].version, items[i].license, j, n);
    }
  }

  // ---------- where the merges stand ----------

  /** The p-th query is the merge of item t. */
  ghost predicate StandsAt(rules: seq<Rule>, items: seq<Item>, scanId: string, t: nat, p: nat) {
    var ws := Written(rules, items, scanId);
    && t < |items| && HasMerge(items[t]) && p < |ws| && ws[p] == MergeOf(rules, items[t], scanId)
    && ws[..p] == Written(rules, items[..t], scanId) && ws[p..] == Written(rules, items[t..], scanId)
  }

  lemma PartsCut(rules: seq<Rule>, items: seq<Item>, scanId: string, t: nat)
    requires t <= |items|
    ensures Parts(rules, items[..t], scanId) == Parts(rules, items, scanId)[..t]
    ensures Parts(rules, items[t..], scanId) == Parts(rules, items, scanId)[t..]
  {
  }

  /** The queries come in three parts: before item t, its own, and after it. */
  lemma WrittenAround(rules: seq<Rule>, items: seq<Item>, scanId: string, t: nat)
    requires t < |items|
    ensures Written(rules, items, scanId) == Written(rules, items[..t], scanId) + Written(rules, items[t..], scanId)
    ensures Written(rules, items[t..], scanId) ==
            ItemWrites(rules, items[t], scanId) + Written(rules, items[t + 1..], scanId)
  {
    PartsCut(rules, items, scanId, t);
    PartsCut(rules, items, scanId, t + 1);
    FlatAround(Parts(rules, items, scanId), t);
  }

  lemma MergeIsFirst(rules: seq<Rule>, it: Item, scanId: string, rest: seq<Write>)
    requires HasMerge(it)
    ensures (ItemWrites(rules, it, scanId) + rest) != [] &&
      (ItemWrites(rules, it, scanId) + rest)[0] == MergeOf(rules, it, scanId)
  {
  }

  lemma ItemStands(rules: seq<Rule>, items: seq<Item>, scanId: string, t: nat) returns (p: nat)
    requires t < |items| && HasMerge(items[t])
    ensures StandsAt(rules, items, scanId, t, p) && p == |Written(rules, items[..t], scanId)|
  {
    WrittenAround(rules, items, scanId, t);
    MergeIsFirst(rules, items[t], scanId, Written(rules, items[t + 1..], scanId));
    CutAtFront(Written(rules, items[..t], scanId), Written(rules, items[t..], scanId));
    p := |Written(rules, items[..t], scanId)|;
  }

  /** Every merge among the queries is that of an item. */
  lemma MergeStands(rules: seq<Rule>, items: seq<Item>, scanId: string, p: nat) returns (t: nat)
    requires p < |Written(rules, items, scanId)| && Written(rules, items, scanId)[p].MergeNode?
    ensures StandsAt(rules, items, scanId, t, p)
  {
    t := PartOf(Parts(rules, items, scanId), p);
    PartsCut(rules, items, scanId, t);
    MergeComesFirst(rules, items[t], scanId, p - |Written(rules, items[..t], scanId)|);
    var q := ItemStands(rules, items, scanId, t);
  }

  lemma AgainForItem(rules: seq<Rule>, items: seq<Item>, scanId: string, t: nat, p: nat)
    requires StandsAt(rules, items, scanId, t, p)
    ensures AgainAt(Written(rules, items, scanId), p) <==> DoneAgain(rules, items, scanId, t)
  {
    var early, later := Written(rules, items[..t], scanId), Written(rules, items[t..], scanId);
    var n := Blank(MergeOf(rules, items[t], scanId));
    NewIsNovel(rules, items, scanId, t);
    forall i | 0 <= i < t
      ensures ValuesAgain(rules, items, scanId, i, t, n) && LinkAgain(items, i, t, n) <==>
        forall v :: v in ItemWrites(rules, items[i], scanId) ==> Repeats(v, n, later)
    {
      ItemRepeats(rules, items, scanId, i, t, n);
    }
    EarlyWrites(rules, items, scanId, t, n, later);
  }

  /** Quantifying over the queries of the first t items. */
  lemma EarlyWrites(rules: seq<Rule>, items: seq<Item>, scanId: string, t: nat, n: Node, later: seq<Write>)
    requires t <= |items|
    ensures (forall v :: v in Written(rules, items[..t], scanId) ==> Repeats(v, n, later)) <==>
      forall i :: 0 <= i < t ==> forall v :: v in ItemWrites(rules, items[i], scanId) ==> Repeats(v, n, later)
  {
    var early := Written(rules, items[..t], scanId);
    if forall i :: 0 <= i < t ==> forall v :: v in ItemWrites(rules, items[i], scanId) ==> Repeats(v, n, later) {
      forall v | v in early
        ensures Repeats(v, n, later)
      {
        var i := WrittenBy(rules, items[..t], scanId, v);
      }
    }
    forall i, v | 0 <= i < t && v in ItemWrites(rules, items[i], scanId)
      ensures v in early
    {
      ItemIsWritten(rules, items[..t], scanId, i, v);
    }
  }

  /** The queries of items do everything again exactly if the items do. */
  lemma ItemsAgain(rules: seq<Rule>, items: seq<Item>, scanId: string)
    ensures Again(Written(rules, items, scanId)) <==> AllDoneAgain(rules, items, scanId)
  {
    var ws := Written(rules, items, scanId);
    if AllDoneAgain(rules, items, scanId) {
      forall p | 0 <= p < |ws|
        ensures AgainAt(ws, p)
      {
        if ws[p].MergeNode? {
          var t := MergeStands(rules, items, scanId, p);
          AgainForItem(rules, items, scanId, t, p);
        }
      }
    }
    if Again(ws) {
      forall t | 0 <= t < |items|
        ensures DoneAgain(rules, items, scanId, t)
      {
        if HasMerge(items[t]) {
          var p := ItemStands(rules, items, scanId, t);
          AgainForItem(rules, items, scanId, t, p);
        }
      }
    }
  }

  /** The version and licence queries of a document do everything again exactly if the document is retryable. */
  lemma ProjectsAgain(rules: seq<Rule>, doc: Document)
    ensures Again(ProjectsPart(rules, doc.components, doc.scanId)) <==> Retryable(rules, doc)
  {
    ProjectsWritten(rules, doc.components, doc.scanId);
    ItemsAgain(rules, Items(doc.components), doc.scanId);
  }
}
