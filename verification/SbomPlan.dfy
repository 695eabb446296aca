/** The write queries that ingesting one SBOM document issues, in order. */
module SbomPlan {
  import opened Options
  import opened Text
  import opened PrefixRules
  import opened MergeStore

  datatype ProjectType = Application | Library

  datatype Project = Project(appId: Option<string>, publicId: Option<string>, names: Names, kind: Option<ProjectType>,
                             repo: Option<string>)

  datatype Version = Version(version: Option<string>, project: Project, sbomFormat: string)

  datatype License = License(spdxId: string, name: string, url: Option<string>, risk: string)

  datatype Source = Source(url: string, data: map<string, string>)

  datatype Component = Component(version: Version, licenses: seq<License>, source: Option<Source>)

  datatype Defect = Defect(id: string, data: map<string, string>)

  datatype Record = Record(recordId: string, data: map<string, string>)

  /** A parsed document. Dependencies and affected versions refer to components by position; a position
      past the end stands for a reference that does not resolve. */
  datatype Document = Document(components: seq<Component>, dependencies: seq<(nat, nat)>, defects: seq<Defect>,
                               affects: seq<(nat, nat)>, record: Record, scanId: string)

  // ---------- values and patterns ----------

  function Put<K>(m: map<K, string>, key: K, value: Option<string>): map<K, string> {
    if value.Some? then m[key := value.value] else m
  }

  function OrEmpty(value: Option<string>): string {
    if value.Some? then value.value else ""
  }

  predicate NonEmpty(value: Option<string>) {
    value.Some? && value.value != ""
  }

  function TypeName(kind: Option<ProjectType>): string {
    if kind == Some(Application) then "Application" else "Library"
  }

  function VersionLabels(rules: seq<Rule>, v: Version): set<string> {
    {"Version", TypeName(v.project.kind)} + (if IsInternal(rules, v.project.names) then {"INTERNAL"} else {})
  }

  /** The identity a version is merged on: the fields that are present, and a purl that is not empty. */
  function VersionIdent(v: Version): map<Field, string> {
    var names := v.project.names;
    var named := Put(Put(Put(map[], Name, v.version), ProjectName, names.name), ProjectGroup, names.group);
    if NonEmpty(names.purl) then named[PackageUrl := names.purl.value] else named
  }

  function VersionData(v: Version, scanId: string): map<string, string> {
    var p := v.project;
    var given := Put(Put(Put(map[], "app_id", p.appId), "public_id", p.publicId), "repo", p.repo);
    var data := given["sbom_format" := v.sbomFormat];
    var typed := if p.kind.Some? then data["type" := if p.kind.value.Application? then "0" else "1"] else data;
    if p.kind == Some(Application) then typed["scan_id" := scanId] else typed
  }

  function VersionMerge(rules: seq<Rule>, v: Version, scanId: string): Write {
    MergeNode(VersionLabels(rules, v), VersionIdent(v), VersionData(v, scanId))
  }

  /** The scan id is appended where version and project name are not empty; a missing group makes the
      query match nothing. */
  predicate AppendsScan(v: Version) {
    NonEmpty(v.version) && NonEmpty(v.project.names.name) && v.project.names.group.Some?
  }

  function ScanAppend(v: Version, scanId: string): Write {
    AppendScan(Pattern({"Version"}, VersionIdent(v), None), scanId)
  }

  /** create_project_version */
  function VersionWrites(rules: seq<Rule>, v: Version, scanId: string): seq<Write> {
    [VersionMerge(rules, v, scanId)] + (if AppendsScan(v) then [ScanAppend(v, scanId)] else [])
  }

  /** The pattern of the by-name links: missing names become "", a missing group is left out. */
  function ByName(v: Version): Pattern {
    Pattern({"Version"},
            Put(map[Name := OrEmpty(v.version), ProjectName := OrEmpty(v.project.names.name)],
                ProjectGroup, v.project.names.group),
            None)
  }

  // ---------- licences ----------

  function CleanLicense(s: string): string {
    var flat := Replace(Replace(Replace(s, '\r', ' '), '\n', ' '), '\t', ' ');
    var stripped := Strip(flat);
    if |stripped| > 255 then stripped[..255] else stripped
  }

  /** The ids that the clean-up leaves behind: it keeps them, or has cut them off after 255 characters. */
  predicate IsCleaned(id: string) {
    CleanLicense(id) == id || CleanLicense(id + "x") == id
  }

  function LicenseMerge(l: License): Write {
    var id, name := CleanLicense(l.spdxId), CleanLicense(l.name);
    MergeNode({"License"}, map[SpdxId := id],
              Put(map["name" := if name == "" then id else name, "risk_category" := l.risk], "url", l.url))
  }

  /** The licence that a link looks for; it uses the id as it came. */
  function LicensePattern(l: License): Pattern {
    Pattern({"License"}, map[SpdxId := l.spdxId], None)
  }

  function LicenseLink(v: Version, l: License): Write {
    MergeEdge(ByName(v), "HAS_LICENSE", LicensePattern(l))
  }

  /** create_license and create_version_license_by_name */
  function LicenseWrites(v: Version, l: License): seq<Write> {
    if l.spdxId == "" then []
    else (if CleanLicense(l.spdxId) == "" then [] else [LicenseMerge(l)]) + [LicenseLink(v, l)]
  }

  function LicensesWrites(v: Version, ls: seq<License>): seq<Write> {
    if ls == [] then [] else LicensesWrites(v, ls[..|ls| - 1]) + LicenseWrites(v, ls[|ls| - 1])
  }

  /** What _persist_projects writes for one component. */
  function ComponentWrites(rules: seq<Rule>, c: Component, scanId: string): seq<Write> {
    VersionWrites(rules, c.version, scanId) + LicensesWrites(c.version, c.licenses)
  }

  function ProjectsPart(rules: seq<Rule>, cs: seq<Component>, scanId: string): seq<Write> {
    if cs == [] then [] else ProjectsPart(rules, cs[..|cs| - 1], scanId) + ComponentWrites(rules, cs[|cs| - 1], scanId)
  }

  // ---------- source repositories ----------

  function SourceMerge(s: Source): Write {
    MergeNode({"SourceRepository"}, map[RepoUrl := s.url], s.data)
  }

  function SourceLink(v: Version, s: Source): Write {
    MergeEdge(ByName(v), "HAS_SOURCE", Pattern({"SourceRepository"}, map[RepoUrl := s.url], None))
  }

  function SourceWrites(c: Component): seq<Write> {
    if c.source.Some? && c.source.value.url != "" then
      [SourceMerge(c.source.value), SourceLink(c.version, c.source.value)]
    else []
  }

  function SourcesPart(cs: seq<Component>): seq<Write> {
    if cs == [] then [] else SourcesPart(cs[..|cs| - 1]) + SourceWrites(cs[|cs| - 1])
  }

  // ---------- dependencies ----------

  /** purl.rsplit("@")[0] + "@" */
  function PurlPrefix(purl: string): string {
    Split(purl, '@')[0] + "@"
  }

  /** The end of a dependency or defect edge: by group, or by purl prefix where there is no group. None
      if there is neither, and where a missing name makes the query match nothing. */
  function Endpoint(v: Version): Option<Pattern> {
    var names := v.project.names;
    if v.version.None? || names.name.None? then None
    else
      var ident := map[Name := v.version.value, ProjectName := names.name.value];
      if names.group.Some? then Some(Pattern({"Version"}, ident[ProjectGroup := names.group.value], None))
      else if names.purl.Some? then Some(Pattern({"Version"}, ident, Some(PurlPrefix(names.purl.value))))
      else None
  }

  /** create_dependency */
  function DependencyWrites(parent: Version, child: Version): seq<Write> {
    var p, c := Endpoint(parent), Endpoint(child);
    if p.Some? && c.Some? then [MergeEdge(p.value, "DEPENDENCY_VERSION", c.value)] else []
  }

  function DependenciesPart(cs: seq<Component>, deps: seq<(nat, nat)>): seq<Write> {
    if deps == [] then []
    else
      var d := deps[|deps| - 1];
      DependenciesPart(cs, deps[..|deps| - 1]) +
      if d.0 < |cs| && d.1 < |cs| then DependencyWrites(cs[d.0].version, cs[d.1].version) else []
  }

  // ---------- defects ----------

  /** create_defect */
  function DefectMerge(d: Defect): Write {
    MergeNode({"Defect"}, map[DefectId := d.id], d.data)
  }

  function DefectsPart(ds: seq<Defect>): seq<Write> {
    if ds == [] then [] else DefectsPart(ds[..|ds| - 1]) + [DefectMerge(ds[|ds| - 1])]
  }

  /** create_version_defect */
  function AffectWrites(v: Version, d: Defect): seq<Write> {
    var p := Endpoint(v);
    if p.Some? then [MergeEdge(p.value, "VERSION_DEFECT", Pattern({"Defect"}, map[DefectId := d.id], None))] else []
  }

  function AffectsPart(cs: seq<Component>, ds: seq<Defect>, affects: seq<(nat, nat)>): seq<Write> {
    if affects == [] then []
    else
      var a := affects[|affects| - 1];
      AffectsPart(cs, ds, affects[..|affects| - 1]) +
      if a.0 < |cs| && a.1 < |ds| then AffectWrites(cs[a.0].version, ds[a.1]) else []
  }

  // ---------- the SBOM record ----------

  /** create_sbom_record; ingested_at is the time of the attempt. */
  function RecordWrites(r: Record, now: string): seq<Write> {
    if r.recordId == "" then []
    else [MergeNode({"SBOMRecord"}, map[RecordId := r.recordId], r.data["ingested_at" := now])]
  }

  function RecordLink(p: Pattern, r: Record): seq<Write> {
    if r.recordId == "" then []
    else [MergeEdge(p, "PRODUCED_BY_SBOM", Pattern({"SBOMRecord"}, map[RecordId := r.recordId], None))]
  }

  /** _link_versions_to_sbom_record, for one version: by purl, or by name. */
  function LinkWrites(v: Version, r: Record): seq<Write> {
    var names := v.project.names;
    if NonEmpty(names.purl) then RecordLink(Pattern({"Version"}, map[PackageUrl := names.purl.value], None), r)
    else if NonEmpty(names.name) && NonEmpty(v.version) then RecordLink(ByName(v), r)
    else []
  }

  function LinksPart(cs: seq<Component>, r: Record): seq<Write> {
    if cs == [] then [] else LinksPart(cs[..|cs| - 1], r) + LinkWrites(cs[|cs| - 1].version, r)
  }

  // ---------- the whole document ----------

  /** process_cyclonedx and process_spdx. */
  function Plan(rules: seq<Rule>, doc: Document, now: string): seq<Write> {
    ProjectsPart(rules, doc.components, doc.scanId) + SourcesPart(doc.components)
    + DependenciesPart(doc.components, doc.dependencies)
    + DefectsPart(doc.defects) + AffectsPart(doc.components, doc.defects, doc.affects)
    + RecordWrites(doc.record, now) + LinksPart(doc.components, doc.record)
  }

  // ---------- the order of work ----------

  /** A version, or a licence of a version and whether it is linked to it. */
  datatype Item =
    | VersionItem(version: Version)
    | LicenceItem(version: Version, license: License, linked: bool)

  function ItemOf(v: Version, l: License): Item {
    LicenceItem(v, l, l.spdxId != "")
  }

  function LicenceItems(v: Version, ls: seq<License>): seq<Item> {
    if ls == [] then [] else LicenceItems(v, ls[..|ls| - 1]) + [ItemOf(v, ls[|ls| - 1])]
  }

  /** The versions and licences of a document in the order in which they are written. */
  function Items(cs: seq<Component>): seq<Item> {
    if cs == [] then []
    else
      var c := cs[|cs| - 1];
      Items(cs[..|cs| - 1]) + ([VersionItem(c.version)] + LicenceItems(c.version, c.licenses))
  }

  /** The item merges a node: a version always does, a licence if its cleaned id is not empty. */
  predicate HasMerge(it: Item) {
    it.VersionItem? || (it.license.spdxId != "" && CleanLicense(it.license.spdxId) != "")
  }

  function MergeOf(rules: seq<Rule>, it: Item, scanId: string): (w: Write)
    requires HasMerge(it)
    ensures w.MergeNode?
  {
    if it.VersionItem? then VersionMerge(rules, it.version, scanId) else LicenseMerge(it.license)
  }

  /** The item links a version to a licence. */
  predicate HasLink(it: Item) {
    it.LicenceItem? && it.linked
  }

  // ---------- when a document may be replayed ----------

  /** The node of item j is new: no earlier item leaves a node that its MERGE would find. */
  predicate IsNew(rules: seq<Rule>, items: seq<Item>, scanId: string, j: nat)
    requires j < |items|
  {
    && HasMerge(items[j])
    && forall k :: 0 <= k < j && HasMerge(items[k]) ==>
         !Matches(Key(MergeOf(rules, items[j], scanId)), Blank(MergeOf(rules, items[k], scanId)))
  }

  /** Some item from j on sets the property on a node like n. */
  predicate SetLater(rules: seq<Rule>, items: seq<Item>, scanId: string, j: nat, n: Node, key: string) {
    exists k :: j <= k < |items| && HasMerge(items[k]) &&
      Matches(Key(MergeOf(rules, items[k], scanId)), n) && key in MergeOf(rules, items[k], scanId).data
  }

  /** If item i's MERGE matches a node like n, what it sets there is set by some item from j on as well. */
  predicate ValuesAgain(rules: seq<Rule>, items: seq<Item>, scanId: string, i: nat, j: nat, n: Node)
    requires i < |items|
  {
    HasMerge(items[i]) && Matches(Key(MergeOf(rules, items[i], scanId)), n) ==>
      forall key :: key in MergeOf(rules, items[i], scanId).data ==> SetLater(rules, items, scanId, j, n, key)
  }

  /** Some item from j on links a version like n to the licence with this id. */
  predicate LicensedLater(items: seq<Item>, j: nat, n: Node, spdxId: string) {
    exists k :: j <= k < |items| && HasLink(items[k]) && items[k].license.spdxId == spdxId &&
      Matches(ByName(items[k].version), n)
  }

  /** Some item from j on links all versions of that name to the licence with this id. */
  predicate AllLicensedLater(items: seq<Item>, j: nat, v: Version, spdxId: string) {
    exists k :: j <= k < |items| && HasLink(items[k]) && items[k].license.spdxId == spdxId &&
      Covers(ByName(items[k].version), ByName(v))
  }

  /** If item i's licence link would link a node like n, as the version or as the licence, some item from j
      on makes the link as well. */
  predicate LinkAgain(items: seq<Item>, i: nat, j: nat, n: Node)
    requires i < |items|
  {
    HasLink(items[i]) ==>
      var v, l := items[i].version, items[i].license;
      && (Matches(ByName(v), n) ==> LicensedLater(items, j, n, l.spdxId))
      && (Matches(LicensePattern(l), n) ==> AllLicensedLater(items, j, v, l.spdxId))
  }

  /** Whatever an earlier item would do to the node of item j, if that is new, is done again from j on. */
  predicate DoneAgain(rules: seq<Rule>, items: seq<Item>, scanId: string, j: nat)
    requires j < |items|
  {
    IsNew(rules, items, scanId, j) ==>
      var n := Blank(MergeOf(rules, items[j], scanId));
      forall i :: 0 <= i < j ==> ValuesAgain(rules, items, scanId, i, j, n) && LinkAgain(items, i, j, n)
  }

  predicate AllDoneAgain(rules: seq<Rule>, items: seq<Item>, scanId: string) {
    forall j :: 0 <= j < |items| ==> DoneAgain(rules, items, scanId, j)
  }

  /** What a caller can check on a document to know that a crashed ingest may be retried. */
  predicate Retryable(rules: seq<Rule>, doc: Document) {
    AllDoneAgain(rules, Items(doc.components), doc.scanId)
  }
}
