/** What every statement on the tables keeps, and what it never undoes. */
module StoreRules {
  import opened Values
  import opened UiSpec
  import opened UiMode
  import opened UiState
  import opened Targets
  import opened Stamps
  import opened Render
  import opened Store

  type Templates = map<Id, TemplateRow>
  type Versions = map<Id, VersionRow>
  type Releases = map<Id, ReleaseRow>

  // --- The invariant ---

  ghost predicate Below(ids: set<Id>, n: Id) {
    forall id :: id in ids ==> id < n
  }

  ghost predicate Owned(vs: Versions, templates: set<Id>) {
    forall id :: id in vs ==> vs[id].template in templates
  }

  ghost predicate NamesUnique(ts: Templates) {
    forall i, j :: i in ts && j in ts && ts[i].name == ts[j].name ==> i == j
  }

  ghost predicate HasNumber(vs: Versions, template: Id, n: int) {
    exists id :: id in vs && vs[id].template == template && vs[id].version == n
  }

  ghost predicate NumbersUnique(vs: Versions) {
    forall i, j :: i in vs && j in vs && vs[i].template == vs[j].template && vs[i].version == vs[j].version ==> i == j
  }

  /** The numbers of a template are 1, 2, … without gaps. */
  ghost predicate NumbersRun(vs: Versions) {
    && (forall id :: id in vs ==> 1 <= vs[id].version <= MAX_INT32)
    && forall id, n :: id in vs && 1 <= n < vs[id].version ==> HasNumber(vs, vs[id].template, n)
  }

  /** A draft is the highest version of its template, hence the only draft. */
  ghost predicate DraftsLast(vs: Versions) {
    forall d, id :: d in vs && id in vs && vs[d].status == Draft && vs[id].template == vs[d].template ==>
      vs[id].version <= vs[d].version
  }

  ghost predicate IsReleased(vs: Versions, id: Id, template: Id) {
    id in vs && vs[id].template == template && vs[id].status != Draft
  }

  ghost predicate LatestIs(vs: Versions, template: Id, current: Option<Id>) {
    match current
    case None => forall id :: !IsReleased(vs, id, template)
    case Some(c) => IsReleased(vs, c, template) && forall id :: IsReleased(vs, id, template) ==> vs[id].version <= vs[c].version
  }

  /** The current version is the highest one that is no draft, if there is any. */
  ghost predicate CurrentIsLatest(ts: Templates, vs: Versions) {
    forall k :: k in ts ==> LatestIs(vs, k, ts[k].current)
  }

  ghost predicate PublishedHaveDates(vs: Versions) {
    forall id :: id in vs ==> (vs[id].publishedAt.Some? <==> vs[id].status != Draft)
  }

  /** Both halves come from one serialisation of the editor state. */
  ghost predicate Serialises(rs: seq<UIResource>, resources: Source<seq<Doc>>, spec: Source<seq<SpecEntry>>) {
    exists orders :: OrdersFor(rs, orders) && SerializeAllIn(rs, orders).Pair?
      && resources == Parsed(SerializeAllIn(rs, orders).docs) && spec == Parsed(SerializeAllIn(rs, orders).entries)
  }

  /** Stored content always parses, and in UI mode belongs to its own editor state. */
  ghost predicate ContentValid(t: Text, mode: Mode, c: Content) {
    && ValidateSpec(t, c.resources, c.spec)
    && match mode
       case FromYaml => c.uiState.None?
       case FromUi => c.uiState.Some? && Serialises(c.uiState.value, c.resources, c.spec)
  }

  ghost predicate ContentsValid(t: Text, vs: Versions) {
    forall id :: id in vs ==> ContentValid(t, vs[id].mode, vs[id].content)
  }

  /** The labels a release's documents may carry: by whom, when, and which requested version
      number is free, as long as that number converts to the version's own. */
  ghost predicate LabelsFor(l: Labels, release: string, template: string, version: int) {
    l.release == release && l.releaseId == release && l.template == template && Int32(l.version) == version
  }

  ghost predicate RendersTo(t: Text, c: Content, values: Source<Value>, release: string, template: string, version: int, rendered: seq<Doc>) {
    exists l :: LabelsFor(l, release, template, version) && RenderDocs(t, c.resources, c.spec, values, l) == Documents(rendered)
  }

  /** A release (or one about to be stored) stands on a version that is no draft and renders
      to what it stores. */
  ghost predicate Backed(t: Text, ts: Templates, vs: Versions, row: ReleaseRow) {
    && row.version in vs && vs[row.version].status != Draft && vs[row.version].template in ts
    && RendersTo(t, vs[row.version].content, row.values, row.key.name, ts[vs[row.version].template].name, vs[row.version].version, row.rendered)
  }

  ghost predicate ReleasesBacked(t: Text, ts: Templates, vs: Versions, rs: Releases) {
    forall r :: r in rs ==> Backed(t, ts, vs, rs[r])
  }

  ghost predicate KeysUnique(rs: Releases) {
    forall i, j :: i in rs && j in rs && rs[i].key == rs[j].key ==> i == j
  }

  ghost predicate WellKeyed(db: Db) {
    && Below(db.templates.Keys, db.nextId) && Below(db.versions.Keys, db.nextId) && Below(db.releases.Keys, db.nextId)
    && Owned(db.versions, db.templates.Keys) && NamesUnique(db.templates) && KeysUnique(db.releases)
  }

  ghost predicate VersionsInv(t: Text, ts: Templates, vs: Versions) {
    && NumbersUnique(vs) && NumbersRun(vs) && DraftsLast(vs) && CurrentIsLatest(ts, vs)
    && PublishedHaveDates(vs) && ContentsValid(t, vs)
  }

  ghost predicate DbInv(t: Text, db: Db) {
    && WellKeyed(db) && VersionsInv(t, db.templates, db.versions)
    && ReleasesBacked(t, db.templates, db.versions, db.releases)
  }

  // --- What never changes back ---

  ghost predicate NamesStay(ts: Templates, later: Templates) {
    forall k :: k in ts ==> k in later && later[k].name == ts[k].name
  }

  /** Once out of draft a version stays, with its content and publication date. */
  ghost predicate ReleasedStays(vs: Versions, later: Versions) {
    forall id :: id in vs && vs[id].status != Draft ==>
      && id in later && later[id].status != Draft
      && later[id].content == vs[id].content && later[id].publishedAt == vs[id].publishedAt
  }

  /** Below `n` no version appears anew, and those that stay keep their place and mode. */
  ghost predicate PlacesStay(vs: Versions, later: Versions, n: Id) {
    forall id :: id in later && id < n ==>
      id in vs && later[id].template == vs[id].template && later[id].version == vs[id].version && later[id].mode == vs[id].mode
  }

  ghost predicate KeysStay(rs: Releases, later: Releases, n: Id) {
    forall id :: id in later && id < n ==> id in rs && later[id].key == rs[id].key
  }

  ghost predicate Evolves(db: Db, later: Db) {
    && db.nextId <= later.nextId && NamesStay(db.templates, later.templates)
    && ReleasedStays(db.versions, later.versions) && PlacesStay(db.versions, later.versions, db.nextId)
    && KeysStay(db.releases, later.releases, db.nextId)
  }

  lemma EvolvesReflexive(db: Db)
    ensures Evolves(db, db)
  {
  }

  lemma EvolvesTransitive(a: Db, b: Db, c: Db)
    requires Evolves(a, b) && Evolves(b, c)
    ensures Evolves(a, c)
  {
  }

  /** What backs a release keeps backing it whatever happens to the tables. */
  lemma BackedStays(t: Text, db: Db, later: Db, row: ReleaseRow)
    requires Below(db.versions.Keys, db.nextId) && Evolves(db, later) && Backed(t, db.templates, db.versions, row)
    ensures Backed(t, later.templates, later.versions, row)
  {
  }

  lemma AllBackedStay(t: Text, db: Db, later: Db)
    requires Below(db.versions.Keys, db.nextId) && Evolves(db, later)
    requires ReleasesBacked(t, db.templates, db.versions, db.releases) && later.releases == db.releases
    ensures ReleasesBacked(t, later.templates, later.versions, later.releases)
  {
    forall r | r in later.releases ensures Backed(t, later.templates, later.versions, later.releases[r]) {
      BackedStays(t, db, later, db.releases[r]);
    }
  }

  // --- Inserting versions ---

  lemma NextIsFresh(db: Db, template: Id)
    requires NumbersRun(db.versions)
    ensures NextVersion(db, template) >= 1
    ensures forall id :: id in db.versions && db.versions[id].template == template ==> db.versions[id].version < NextVersion(db, template)
    ensures forall n :: 1 <= n < NextVersion(db, template) ==> HasNumber(db.versions, template, n)
  {
    var s, next := NumbersOf(db, template), NextVersion(db, template);
    forall id | id in db.versions && db.versions[id].template == template
      ensures db.versions[id].version < next
    {
      assert db.versions[id].version in s;
    }
    if s != {} {
      var top :| top in db.versions && db.versions[top].template == template && db.versions[top].version == next - 1;
    }
  }

  /** A new draft numbered one above all others. */
  ghost predicate Appended(vs: Versions, id: Id, row: VersionRow) {
    && id !in vs && row.status == Draft && row.publishedAt == None && 1 <= row.version <= MAX_INT32
    && (forall k :: k in vs && vs[k].template == row.template ==> vs[k].status != Draft && vs[k].version < row.version)
    && forall n :: 1 <= n < row.version ==> HasNumber(vs, row.template, n)
  }

  lemma NumbersGrow(vs: Versions, id: Id, row: VersionRow, template: Id, n: int)
    requires id !in vs && HasNumber(vs, template, n)
    ensures HasNumber(vs[id := row], template, n)
  {
    var k :| k in vs && vs[k].template == template && vs[k].version == n;
    assert vs[id := row][k] == vs[k];
  }

  lemma AppendKeepsNumbers(vs: Versions, id: Id, row: VersionRow)
    requires NumbersUnique(vs) && NumbersRun(vs) && DraftsLast(vs) && Appended(vs, id, row)
    ensures NumbersUnique(vs[id := row]) && NumbersRun(vs[id := row]) && DraftsLast(vs[id := row])
  {
    var later := vs[id := row];
    forall k, n | k in later && 1 <= n < later[k].version ensures HasNumber(later, later[k].template, n) {
      if k != id { assert HasNumber(vs, vs[k].template, n); }
      NumbersGrow(vs, id, row, later[k].template, n);
    }
  }

  lemma AppendKeepsCurrent(ts: Templates, vs: Versions, id: Id, row: VersionRow)
    requires CurrentIsLatest(ts, vs) && id !in vs && row.status == Draft
    ensures CurrentIsLatest(ts, vs[id := row])
  {
    var later := vs[id := row];
    forall k, u ensures IsReleased(later, k, u) <==> IsReleased(vs, k, u) { }
    forall k | k in ts ensures LatestIs(later, k, ts[k].current) {
      assert LatestIs(vs, k, ts[k].current);
    }
  }

  lemma AppendKeepsVersions(t: Text, ts: Templates, vs: Versions, id: Id, row: VersionRow)
    requires VersionsInv(t, ts, vs) && Appended(vs, id, row) && ContentValid(t, row.mode, row.content)
    ensures VersionsInv(t, ts, vs[id := row])
  {
    AppendKeepsNumbers(vs, id, row);
    AppendKeepsCurrent(ts, vs, id, row);
  }

  /** Creating a version keeps everything, as long as its content is valid. */
  lemma CreateVersionKeeps(t: Text, db: Db, template: Id, mode: Mode, content: Content)
    requires DbInv(t, db) && ContentValid(t, mode, content)
    requires CreateVersionTx(db, template, mode, content).Some?
    ensures DbInv(t, CreateVersionTx(db, template, mode, content).value)
    ensures Evolves(db, CreateVersionTx(db, template, mode, content).value)
  {
    var later, next := CreateVersionTx(db, template, mode, content).value, NextVersion(db, template);
    var row := VersionRow(template, next, content, Draft, None, mode);
    NextIsFresh(db, template);
    AppendKeepsVersions(t, db.templates, db.versions, db.nextId, row);
    InsertEvolves(db, later, row);
    AllBackedStay(t, db, later);
  }

  lemma InsertEvolves(db: Db, later: Db, row: VersionRow)
    requires WellKeyed(db) && row.template in db.templates
    requires later == db.(versions := db.versions[db.nextId := row], nextId := db.nextId + 1)
    ensures WellKeyed(later) && Evolves(db, later)
  {
  }

  lemma InsertTemplateKeeps(t: Text, db: Db, name: string)
    requires DbInv(t, db) && InsertTemplate(db, name).Some?
    ensures DbInv(t, InsertTemplate(db, name).value) && Evolves(db, InsertTemplate(db, name).value)
    ensures NumbersOf(InsertTemplate(db, name).value, db.nextId) == {}
  {
    var later := InsertTemplate(db, name).value;
    FreshTemplate(db, later, name);
    AllBackedStay(t, db, later);
  }

  lemma FreshTemplate(db: Db, later: Db, name: string)
    requires WellKeyed(db) && CurrentIsLatest(db.templates, db.versions) && InsertTemplate(db, name) == Some(later)
    ensures WellKeyed(later) && Evolves(db, later) && CurrentIsLatest(later.templates, later.versions)
    ensures NumbersOf(later, db.nextId) == {}
  {
    forall id ensures !IsReleased(db.versions, id, db.nextId) { }
    forall k | k in later.templates ensures LatestIs(db.versions, k, later.templates[k].current) {
      if k != db.nextId { assert LatestIs(db.versions, k, db.templates[k].current); }
    }
  }

  lemma CreateTemplateKeeps(t: Text, db: Db, name: string, mode: Mode, content: Content)
    requires DbInv(t, db) && ContentValid(t, mode, content)
    requires CreateTemplateTx(db, name, mode, content).Some?
    ensures DbInv(t, CreateTemplateTx(db, name, mode, content).value)
    ensures Evolves(db, CreateTemplateTx(db, name, mode, content).value)
  {
    var mid := InsertTemplate(db, name).value;
    InsertTemplateKeeps(t, db, name);
    assert NextVersion(mid, db.nextId) == 1;
    CreateVersionKeeps(t, mid, db.nextId, mode, content);
    EvolvesTransitive(db, mid, CreateTemplateTx(db, name, mode, content).value);
  }

  // --- Rewriting a version in place ---

  /** The new row of a version keeps its place in its template, and its mode. */
  ghost predicate SamePlace(v: VersionRow, w: VersionRow) {
    w.template == v.template && w.version == v.version && w.mode == v.mode
  }

  lemma RewriteKeepsNumbers(vs: Versions, id: Id, row: VersionRow)
    requires NumbersUnique(vs) && NumbersRun(vs) && id in vs && SamePlace(vs[id], row)
    ensures NumbersUnique(vs[id := row]) && NumbersRun(vs[id := row])
  {
    var later := vs[id := row];
    forall k | k in vs ensures later[k].template == vs[k].template && later[k].version == vs[k].version { }
    forall k, n | k in later && 1 <= n < later[k].version ensures HasNumber(later, later[k].template, n) {
      assert HasNumber(vs, vs[k].template, n);
      var j :| j in vs && vs[j].template == vs[k].template && vs[j].version == n;
      assert later[j].version == n;
    }
  }

  lemma RewriteEvolves(db: Db, later: Db, id: Id, row: VersionRow)
    requires WellKeyed(db) && id in db.versions && SamePlace(db.versions[id], row)
    requires later.versions == db.versions[id := row] && later.nextId == db.nextId && later.releases == db.releases
    requires later.templates.Keys == db.templates.Keys && NamesStay(db.templates, later.templates)
    requires db.versions[id].status != Draft ==>
               row.status != Draft && row.content == db.versions[id].content && row.publishedAt == db.versions[id].publishedAt
    ensures WellKeyed(later) && Evolves(db, later)
  {
    RewriteIsKeyed(db, later, id, row);
  }

  lemma RewriteIsKeyed(db: Db, later: Db, id: Id, row: VersionRow)
    requires WellKeyed(db) && id in db.versions && row.template == db.versions[id].template
    requires later.versions == db.versions[id := row] && later.nextId == db.nextId && later.releases == db.releases
    requires later.templates.Keys == db.templates.Keys && NamesStay(db.templates, later.templates)
    ensures WellKeyed(later)
  {
  }

  /** A rewrite that moves no version into or out of draft. */
  lemma SameStageKeeps(t: Text, ts: Templates, vs: Versions, id: Id, row: VersionRow)
    requires VersionsInv(t, ts, vs) && id in vs && SamePlace(vs[id], row)
    requires (row.status == Draft <==> vs[id].status == Draft) && row.publishedAt == vs[id].publishedAt
    requires ContentValid(t, row.mode, row.content)
    ensures VersionsInv(t, ts, vs[id := row])
  {
    var later := vs[id := row];
    RewriteKeepsNumbers(vs, id, row);
    SameStageKeepsOrder(ts, vs, id, row);
  }

  lemma SameStageKeepsOrder(ts: Templates, vs: Versions, id: Id, row: VersionRow)
    requires DraftsLast(vs) && CurrentIsLatest(ts, vs) && id in vs && SamePlace(vs[id], row)
    requires row.status == Draft <==> vs[id].status == Draft
    ensures DraftsLast(vs[id := row]) && CurrentIsLatest(ts, vs[id := row])
  {
    var later := vs[id := row];
    forall k, u ensures IsReleased(later, k, u) <==> IsReleased(vs, k, u) { }
    forall k | k in vs ensures later[k].version == vs[k].version { }
    forall k | k in ts ensures LatestIs(later, k, ts[k].current) {
      assert LatestIs(vs, k, ts[k].current);
    }
  }

  /** The draft that is published was the highest version, so it becomes the current one. */
  lemma PublishedIsLatest(ts: Templates, vs: Versions, id: Id, row: VersionRow)
    requires DraftsLast(vs) && CurrentIsLatest(ts, vs) && id in vs && vs[id].status == Draft && vs[id].template in ts
    requires SamePlace(vs[id], row) && row.status != Draft
    ensures DraftsLast(vs[id := row])
    ensures CurrentIsLatest(ts[row.template := ts[row.template].(current := Some(id))], vs[id := row])
  {
    var later, owner := vs[id := row], row.template;
    var now := ts[owner := ts[owner].(current := Some(id))];
    forall k, u ensures IsReleased(later, k, u) <==> IsReleased(vs, k, u) || (k == id && u == owner) { }
    forall k | k in vs ensures later[k].version == vs[k].version { }
    forall k | k in now ensures LatestIs(later, k, now[k].current) {
      assert LatestIs(vs, k, ts[k].current);
    }
  }

  lemma PublishKeepsVersions(t: Text, ts: Templates, vs: Versions, id: Id, row: VersionRow)
    requires VersionsInv(t, ts, vs) && id in vs && vs[id].status == Draft && vs[id].template in ts
    requires SamePlace(vs[id], row) && row.status != Draft && row.publishedAt.Some? && row.content == vs[id].content
    ensures VersionsInv(t, ts[row.template := ts[row.template].(current := Some(id))], vs[id := row])
  {
    RewriteKeepsNumbers(vs, id, row);
    PublishedIsLatest(ts, vs, id, row);
  }

  lemma PublishKeeps(t: Text, db: Db, id: Id, now: int)
    requires DbInv(t, db) && IsDraft(db, id)
    ensures PublishTx(db, id, db.versions[id].template, now).Some?
    ensures DbInv(t, PublishTx(db, id, db.versions[id].template, now).value)
    ensures Evolves(db, PublishTx(db, id, db.versions[id].template, now).value)
  {
    var owner := db.versions[id].template;
    var row := db.versions[id].(status := Published, publishedAt := Some(now));
    var later := PublishTx(db, id, owner, now).value;
    PublishKeepsVersions(t, db.templates, db.versions, id, row);
    RewriteEvolves(db, later, id, row);
    AllBackedStay(t, db, later);
  }

  lemma SetStatusKeeps(t: Text, db: Db, id: Id, to: Status, now: int)
    requires DbInv(t, db) && id in db.versions && db.versions[id].status != Draft && to != Draft
    ensures SetStatus(db, id, to, now).Some?
    ensures DbInv(t, SetStatus(db, id, to, now).value) && Evolves(db, SetStatus(db, id, to, now).value)
  {
    var later := SetStatus(db, id, to, now).value;
    var row := later.versions[id];
    SameStageKeeps(t, db.templates, db.versions, id, row);
    RewriteEvolves(db, later, id, row);
    AllBackedStay(t, db, later);
  }

  /** A patch the handler may send: valid halves, and in UI mode all three columns or none. */
  ghost predicate PatchValid(t: Text, mode: Mode, p: Patch) {
    && (p.resources.Some? ==> p.resources.value.Parsed?)
    && (p.spec.Some? ==> SpecParses(t, p.spec.value))
    && match mode
       case FromYaml => p.uiState.None?
       case FromUi =>
         if p.uiState.Some? then p.resources.Some? && p.spec.Some? && Serialises(p.uiState.value, p.resources.value, p.spec.value)
         else p.resources.None? && p.spec.None?
  }

  /** Whatever was patched before, a valid patch leaves valid content. */
  lemma PatchKeepsContent(t: Text, mode: Mode, c: Content, p: Patch)
    requires ContentValid(t, mode, c) && PatchValid(t, mode, p)
    ensures ContentValid(t, mode, Patched(c, p))
  {
  }

  lemma UpdateDraftKeeps(t: Text, db: Db, id: Id, p: Patch)
    requires DbInv(t, db) && IsDraft(db, id) && PatchValid(t, db.versions[id].mode, p)
    ensures UpdateDraft(db, id, p).Some?
    ensures DbInv(t, UpdateDraft(db, id, p).value) && Evolves(db, UpdateDraft(db, id, p).value)
  {
    var later := UpdateDraft(db, id, p).value;
    var row := later.versions[id];
    PatchKeepsContent(t, db.versions[id].mode, db.versions[id].content, p);
    SameStageKeeps(t, db.templates, db.versions, id, row);
    RewriteEvolves(db, later, id, row);
    AllBackedStay(t, db, later);
  }

  // --- Deleting a draft ---

  /** No release stands on a draft, so the foreign key never stops the deletion. */
  lemma NeverRestricted(t: Text, db: Db, id: Id)
    requires DbInv(t, db)
    ensures DeleteDraft(db, id) != Restricted
  {
    forall r | r in db.releases ensures !IsDraft(db, db.releases[r].version) {
      assert Backed(t, db.templates, db.versions, db.releases[r]);
    }
  }

  lemma DropKeepsNumbers(vs: Versions, id: Id)
    requires NumbersUnique(vs) && NumbersRun(vs) && DraftsLast(vs) && id in vs && vs[id].status == Draft
    ensures NumbersUnique(vs - {id}) && NumbersRun(vs - {id}) && DraftsLast(vs - {id})
  {
    var later := vs - {id};
    forall k, n | k in later && 1 <= n < later[k].version ensures HasNumber(later, later[k].template, n) {
      assert HasNumber(vs, vs[k].template, n);
      var j :| j in vs && vs[j].template == vs[k].template && vs[j].version == n;
      assert j != id && later[j] == vs[j];
    }
  }

  lemma DropKeepsCurrent(ts: Templates, vs: Versions, id: Id)
    requires CurrentIsLatest(ts, vs) && id in vs && vs[id].status == Draft
    ensures CurrentIsLatest(ts, vs - {id}) && forall k :: k in ts ==> ts[k].current != Some(id)
  {
    var later := vs - {id};
    forall k, u ensures IsReleased(later, k, u) <==> IsReleased(vs, k, u) { }
    forall k | k in ts ensures LatestIs(later, k, ts[k].current) && ts[k].current != Some(id) {
      assert LatestIs(vs, k, ts[k].current);
    }
  }

  lemma DeleteDraftKeeps(t: Text, db: Db, id: Id)
    requires DbInv(t, db) && DeleteDraft(db, id).Gone?
    ensures DbInv(t, DeleteDraft(db, id).db) && Evolves(db, DeleteDraft(db, id).db)
    ensures DeleteDraft(db, id).db == db.(versions := db.versions - {id})
  {
    var later := DeleteDraft(db, id).db;
    DropKeepsNumbers(db.versions, id);
    DropKeepsCurrent(db.templates, db.versions, id);
    assert later.templates == db.templates;
    DropEvolves(db, later, id);
    AllBackedStay(t, db, later);
  }

  lemma DropEvolves(db: Db, later: Db, id: Id)
    requires WellKeyed(db) && IsDraft(db, id) && later == db.(versions := db.versions - {id})
    ensures WellKeyed(later) && Evolves(db, later)
  {
  }

  // --- Releases ---

  lemma InsertReleaseKeeps(t: Text, db: Db, row: ReleaseRow)
    requires DbInv(t, db) && Backed(t, db.templates, db.versions, row) && InsertRelease(db, row).Some?
    ensures DbInv(t, InsertRelease(db, row).value) && Evolves(db, InsertRelease(db, row).value)
  {
    NewReleaseKeyed(db, row);
    OneMoreBacked(t, db.templates, db.versions, db.releases, db.nextId, row);
  }

  lemma NewReleaseKeyed(db: Db, row: ReleaseRow)
    requires WellKeyed(db) && InsertRelease(db, row).Some?
    ensures WellKeyed(InsertRelease(db, row).value) && Evolves(db, InsertRelease(db, row).value)
  {
  }

  lemma OneMoreBacked(t: Text, ts: Templates, vs: Versions, rs: Releases, id: Id, row: ReleaseRow)
    requires ReleasesBacked(t, ts, vs, rs) && Backed(t, ts, vs, row)
    ensures ReleasesBacked(t, ts, vs, rs[id := row])
  {
  }

  lemma DeleteReleaseKeeps(t: Text, db: Db, id: Id)
    requires DbInv(t, db)
    ensures DbInv(t, DeleteRelease(db, id)) && Evolves(db, DeleteRelease(db, id))
  {
  }

  lemma UpdateReleaseKeeps(t: Text, db: Db, id: Id, version: Id, values: Source<Value>, rendered: seq<Doc>)
    requires DbInv(t, db)
    requires id in db.releases ==> Backed(t, db.templates, db.versions, ReleaseRow(db.releases[id].key, version, values, rendered))
    ensures UpdateReleaseRow(db, id, version, values, rendered).Some?
    ensures DbInv(t, UpdateReleaseRow(db, id, version, values, rendered).value)
    ensures Evolves(db, UpdateReleaseRow(db, id, version, values, rendered).value)
  {
    if id in db.releases {
      var row := ReleaseRow(db.releases[id].key, version, values, rendered);
      OneMoreBacked(t, db.templates, db.versions, db.releases, id, row);
      SameKeyStays(db, id, row);
    }
  }

  lemma SameKeyStays(db: Db, id: Id, row: ReleaseRow)
    requires WellKeyed(db) && id in db.releases && row.key == db.releases[id].key
    ensures WellKeyed(db.(releases := db.releases[id := row])) && Evolves(db, db.(releases := db.releases[id := row]))
  {
  }

  // --- Why the read and the insert must be one step ---

  /** The number after the draft, with the draft gone, is not the next in the run. */
  lemma GapBelow(vs: Versions, d: Id, added: Id, row: VersionRow)
    requires NumbersUnique(vs) && d in vs && added !in vs && row.template == vs[d].template && vs[d].version >= 1
    requires row.version == vs[d].version + 1
    ensures !NumbersRun((vs - {d})[added := row])
  {
    var later := (vs - {d})[added := row];
    assert !HasNumber(later, row.template, vs[d].version) by {
      assert forall j :: j in later && j != added ==> j in vs && later[j] == vs[j] && j != d;
    }
    assert later[added] == row;
  }

  lemma NextAfterDraft(db: Db, d: Id)
    requires NumbersRun(db.versions) && DraftsLast(db.versions) && IsDraft(db, d)
    ensures NextVersion(db, db.versions[d].template) == db.versions[d].version + 1
  {
    var template := db.versions[d].template;
    NextIsFresh(db, template);
    assert db.versions[d].version in NumbersOf(db, template);
  }

  lemma OnlyDraft(db: Db, d: Id)
    requires NumbersUnique(db.versions) && DraftsLast(db.versions) && IsDraft(db, d)
    ensures !HasDraft(db.(versions := db.versions - {d}), db.versions[d].template)
  {
  }

  /** Between reading the next number and inserting under it, deleting the draft leaves a gap. */
  lemma SplitInsertLeavesGap(t: Text, db: Db, d: Id, mode: Mode, content: Content)
    requires DbInv(t, db) && IsDraft(db, d) && db.versions[d].version < MAX_INT32
    ensures
      var template := db.versions[d].template;
      var next := NextVersion(db, template);
      && DeleteDraft(db, d).Gone?
      && InsertVersion(DeleteDraft(db, d).db, template, next, mode, content).Some?
      && !NumbersRun(InsertVersion(DeleteDraft(db, d).db, template, next, mode, content).value.versions)
  {
    var template := db.versions[d].template;
    var next := NextVersion(db, template);
    NextAfterDraft(db, d);
    NeverRestricted(t, db, d);
    DeleteDraftKeeps(t, db, d);
    OnlyDraft(db, d);
    var mid := DeleteDraft(db, d).db;
    assert next !in NumbersOf(mid, template) by {
      assert NumbersOf(mid, template) <= NumbersOf(db, template);
    }
    GapBelow(db.versions, d, db.nextId, VersionRow(template, next, content, Draft, None, mode));
  }

  // --- Looking rows up ---

  /** Names and numbers identify a version. */
  lemma OneVersionNamed(db: Db, name: string, number: int, i: Id, j: Id)
    requires NamesUnique(db.templates) && NumbersUnique(db.versions)
    requires VersionNamed(db, name, number, i) && VersionNamed(db, name, number, j)
    ensures i == j
  {
  }

  /** The row a name and number identify. */
  method LookUp(d: Database, name: string, number: int) returns (r: Option<Id>)
    requires NamesUnique(d.templates) && NumbersUnique(d.versions)
    ensures r == FindVersion(d.View(), name, number)
  {
    r := d.GetTemplateVersion(name, number);
    ghost var spec := FindVersion(d.View(), name, number);
    if r.Some? { OneVersionNamed(d.View(), name, number, r.value, spec.value); }
  }

  method LookUpTemplate(d: Database, name: string) returns (r: Option<Id>)
    requires NamesUnique(d.templates)
    ensures r == FindTemplate(d.View(), name)
  {
    r := d.GetTemplateByName(name);
  }
}
