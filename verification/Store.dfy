/** The tables of templates, versions and releases, and the SQL statements on them. */
module Store {
  import opened Values
  import opened UiSpec
  import opened UiMode
  import opened Targets

  type Id = nat

  datatype Status = Draft | Published | Deprecated

  datatype Mode = FromYaml | FromUi

  datatype Content = Content(resources: Source<seq<Doc>>, spec: Source<seq<SpecEntry>>,
                             metadata: string, notes: string, uiState: Option<seq<UIResource>>)

  datatype VersionRow = VersionRow(template: Id, version: int, content: Content, status: Status,
                                   publishedAt: Option<int>, mode: Mode)

  datatype TemplateRow = TemplateRow(name: string, current: Option<Id>)

  /** What a release is called: its name is unique within a cluster and namespace. */
  datatype ReleaseKey = ReleaseKey(cluster: string, namespace: string, name: string)

  datatype ReleaseRow = ReleaseRow(key: ReleaseKey, version: Id, values: Source<Value>, rendered: seq<Doc>)

  datatype Db = Db(templates: map<Id, TemplateRow>, versions: map<Id, VersionRow>, releases: map<Id, ReleaseRow>, nextId: Id)

  /** Columns a patch leaves out keep their value. */
  datatype Patch = Patch(resources: Option<Source<seq<Doc>>>, spec: Option<Source<seq<SpecEntry>>>,
                         metadata: Option<string>, notes: Option<string>, uiState: Option<seq<UIResource>>)

  function Coalesce<T>(patch: Option<T>, column: T): T {
    if patch.Some? then patch.value else column
  }

  function Patched(c: Content, p: Patch): Content {
    Content(Coalesce(p.resources, c.resources), Coalesce(p.spec, c.spec), Coalesce(p.metadata, c.metadata),
            Coalesce(p.notes, c.notes), if p.uiState.Some? then p.uiState else c.uiState)
  }

  /** Each column a patch sends holds what was sent, each other one what it held before. */
  ghost predicate ColumnsSet(before: Content, after: Content, p: Patch) {
    && (p.resources.Some? ==> after.resources == p.resources.value) && (p.resources.None? ==> after.resources == before.resources)
    && (p.spec.Some? ==> after.spec == p.spec.value) && (p.spec.None? ==> after.spec == before.spec)
    && (p.metadata.Some? ==> after.metadata == p.metadata.value) && (p.metadata.None? ==> after.metadata == before.metadata)
    && (p.notes.Some? ==> after.notes == p.notes.value) && (p.notes.None? ==> after.notes == before.notes)
    && (p.uiState.Some? ==> after.uiState == p.uiState) && (p.uiState.None? ==> after.uiState == before.uiState)
  }

  /** The tables differ in the content of one version at most. */
  ghost predicate OnlyContentOf(before: Db, after: Db, id: Id) {
    && id in before.versions && id in after.versions
    && after == before.(versions := before.versions[id := before.versions[id].(content := after.versions[id].content)])
  }

  const MAX_INT32 := 0x7FFF_FFFF

  /** Conversion to a 32-bit integer: it wraps. */
  function Int32(n: int): (r: int)
    ensures -MAX_INT32 - 1 <= r <= MAX_INT32 && (n - r) % 0x1_0000_0000 == 0
    ensures 0 <= n ==> (r == n <==> n <= MAX_INT32)
  {
    (n + 0x8000_0000) % 0x1_0000_0000 - 0x8000_0000
  }

  // --- Reads ---

  function NumbersOf(db: Db, template: Id): set<int> {
    set id | id in db.versions && db.versions[id].template == template :: db.versions[id].version
  }

  ghost predicate IsMax(m: int, s: set<int>) {
    m in s && forall x :: x in s ==> x <= m
  }

  lemma {:induction false} HasMax(s: set<int>) returns (m: int)
    requires exists x :: x in s
    ensures IsMax(m, s)
    decreases |s|
  {
    var x: int :| x in s;
    m := x;
    if z: int :| z in s && z != x {
      var rest := s - {x};
      assert z in rest;
      var y := HasMax(rest);
      m := if x > y then x else y;
      assert forall e :: e in s ==> e == x || e in rest;
    }
  }

  /** `COALESCE(MAX(version), 0) + 1`. */
  ghost function NextVersion(db: Db, template: Id): (n: int)
    ensures NumbersOf(db, template) == {} ==> n == 1
    ensures NumbersOf(db, template) != {} ==> IsMax(n - 1, NumbersOf(db, template))
  {
    var s := NumbersOf(db, template);
    if s == {} then 1
    else
      assert exists m :: IsMax(m, s) by { var m := HasMax(s); }
      var m :| IsMax(m, s);
      m + 1
  }

  ghost predicate VersionNamed(db: Db, name: string, number: int, id: Id) {
    && id in db.versions && db.versions[id].version == number
    && db.versions[id].template in db.templates && db.templates[db.versions[id].template].name == name
  }

  ghost function FindVersion(db: Db, name: string, number: int): (r: Option<Id>)
    ensures r.Some? ==> VersionNamed(db, name, number, r.value)
    ensures r.None? ==> forall id :: !VersionNamed(db, name, number, id)
  {
    if exists id :: VersionNamed(db, name, number, id) then
      var id :| VersionNamed(db, name, number, id);
      Some(id)
    else None
  }

  ghost function FindTemplate(db: Db, name: string): (r: Option<Id>)
    ensures r.Some? ==> r.value in db.templates && db.templates[r.value].name == name
    ensures r.None? ==> forall id :: id in db.templates ==> db.templates[id].name != name
  {
    if exists id :: id in db.templates && db.templates[id].name == name then
      var id :| id in db.templates && db.templates[id].name == name;
      Some(id)
    else None
  }

  // --- Writes; `None` is a constraint violation or, where noted, no row ---

  predicate HasDraft(db: Db, template: Id) {
    exists id :: id in db.versions && db.versions[id].template == template && db.versions[id].status == Draft
  }

  /** One row, always a draft. Unique: the number within the template, and the draft. */
  function InsertVersion(db: Db, template: Id, number: int, mode: Mode, content: Content): Option<Db> {
    if template !in db.templates || number in NumbersOf(db, template) || HasDraft(db, template) || number > MAX_INT32 then None
    else Some(db.(versions := db.versions[db.nextId := VersionRow(template, number, content, Draft, None, mode)],
                  nextId := db.nextId + 1))
  }

  predicate HasName(db: Db, name: string) {
    exists id :: id in db.templates && db.templates[id].name == name
  }

  function InsertTemplate(db: Db, name: string): Option<Db> {
    if HasName(db, name) then None
    else Some(db.(templates := db.templates[db.nextId := TemplateRow(name, None)], nextId := db.nextId + 1))
  }

  /** The transaction creating a template with its first version. */
  function CreateTemplateTx(db: Db, name: string, mode: Mode, content: Content): Option<Db> {
    match InsertTemplate(db, name)
    case None => None
    case Some(d) => InsertVersion(d, db.nextId, 1, mode, content)
  }

  /** The transaction reading the next number and inserting under it. */
  ghost function CreateVersionTx(db: Db, template: Id, mode: Mode, content: Content): Option<Db> {
    InsertVersion(db, template, NextVersion(db, template), mode, content)
  }

  predicate IsDraft(db: Db, id: Id) {
    id in db.versions && db.versions[id].status == Draft
  }

  /** `None` when the row is no draft. */
  function PublishRow(db: Db, id: Id, now: int): Option<Db> {
    if !IsDraft(db, id) then None
    else Some(db.(versions := db.versions[id := db.versions[id].(status := Published, publishedAt := Some(now))]))
  }

  function SetCurrent(db: Db, template: Id, id: Id): Db {
    if template in db.templates then db.(templates := db.templates[template := db.templates[template].(current := Some(id))]) else db
  }

  function PublishTx(db: Db, id: Id, template: Id, now: int): Option<Db> {
    match PublishRow(db, id, now)
    case None => None
    case Some(d) => Some(SetCurrent(d, template, id))
  }

  /** `None` when the row is no draft. */
  function UpdateDraft(db: Db, id: Id, p: Patch): Option<Db> {
    if !IsDraft(db, id) then None
    else Some(db.(versions := db.versions[id := db.versions[id].(content := Patched(db.versions[id].content, p))]))
  }

  predicate Referenced(db: Db, id: Id) {
    exists r :: r in db.releases && db.releases[r].version == id
  }

  datatype Deletion = Gone(db: Db) | NoDraft | Restricted

  /** A deleted version also disappears as somebody's current version. */
  function DeleteDraft(db: Db, id: Id): Deletion {
    if !IsDraft(db, id) then NoDraft
    else if Referenced(db, id) then Restricted
    else Gone(db.(versions := db.versions - {id},
                  templates := map k | k in db.templates ::
                    if db.templates[k].current == Some(id) then db.templates[k].(current := None) else db.templates[k]))
  }

  /** Not guarded by the status; `None` when there is no row. */
  function SetStatus(db: Db, id: Id, to: Status, now: int): Option<Db> {
    if id !in db.versions then None
    else
      var v := db.versions[id];
      var at := if to == Published && v.publishedAt == None then Some(now) else v.publishedAt;
      Some(db.(versions := db.versions[id := v.(status := to, publishedAt := at)]))
  }

  predicate KeyTaken(db: Db, key: ReleaseKey) {
    exists r :: r in db.releases && db.releases[r].key == key
  }

  function InsertRelease(db: Db, row: ReleaseRow): Option<Db> {
    if KeyTaken(db, row.key) || row.version !in db.versions then None
    else Some(db.(releases := db.releases[db.nextId := row], nextId := db.nextId + 1))
  }

  function DeleteRelease(db: Db, id: Id): Db {
    db.(releases := db.releases - {id})
  }

  /** No row to update is no error. */
  function UpdateReleaseRow(db: Db, id: Id, version: Id, values: Source<Value>, rendered: seq<Doc>): Option<Db> {
    if id !in db.releases then Some(db)
    else if version !in db.versions then None
    else Some(db.(releases := db.releases[id := db.releases[id].(version := version, values := values, rendered := rendered)]))
  }

  // --- The tables as mutable state ---

  class Database {
    var templates: map<Id, TemplateRow>
    var versions: map<Id, VersionRow>
    var releases: map<Id, ReleaseRow>
    var nextId: Id

    function View(): Db
      reads this
    {
      Db(templates, versions, releases, nextId)
    }

    constructor ()
      ensures View() == Db(map[], map[], map[], 0)
    {
      templates, versions, releases, nextId := map[], map[], map[], 0;
    }

    /** `SELECT COALESCE(MAX(version), 0) + 1`, as a scan of the table. */
    method NextTemplateVersion(template: Id) returns (n: int)
      ensures n == NextVersion(View(), template)
    {
      var todo := versions.Keys;
      var seen: set<int> := {};
      var max := 0;
      while todo != {}
        invariant todo <= versions.Keys
        invariant seen == set id | id in versions && id !in todo && versions[id].template == template :: versions[id].version
        invariant if seen == {} then max == 0 else IsMax(max, seen)
        decreases todo
      {
        var id :| id in todo;
        todo := todo - {id};
        var v := versions[id];
        if v.template == template {
          if seen == {} || v.version > max { max := v.version; }
          seen := seen + {v.version};
        }
      }
      assert seen == NumbersOf(View(), template);
      n := max + 1;
    }

    /** Both statements of a publication, undone together when the second fails. */
    method PublishVersion(id: Id, template: Id, now: int, fault: bool) returns (ok: bool)
      modifies this
      ensures ok <==> !fault && PublishTx(old(View()), id, template, now).Some?
      ensures View() == if ok then PublishTx(old(View()), id, template, now).value else old(View())
    {
      if id !in versions || versions[id].status != Draft { return false; }
      var savedVersions := versions;
      versions := versions[id := versions[id].(status := Published, publishedAt := Some(now))];
      if fault {
        versions := savedVersions;
        return false;
      }
      if template in templates {
        templates := templates[template := templates[template].(current := Some(id))];
      }
      ok := true;
    }

    /** Reading the next number and inserting under it, in one transaction. */
    method CreateTemplateVersion(template: Id, mode: Mode, content: Content) returns (created: Option<Id>)
      modifies this
      ensures created.Some? <==> CreateVersionTx(old(View()), template, mode, content).Some?
      ensures View() == if created.Some? then CreateVersionTx(old(View()), template, mode, content).value else old(View())
      ensures created.Some? ==> created.value == old(nextId)
    {
      var number := NextTemplateVersion(template);
      var taken := template !in templates || number > MAX_INT32
        || exists id :: id in versions && versions[id].template == template && (versions[id].version == number || versions[id].status == Draft);
      assert taken <==> InsertVersion(View(), template, number, mode, content).None?;
      if taken { return None; }
      created := Some(nextId);
      versions := versions[nextId := VersionRow(template, number, content, Draft, None, mode)];
      nextId := nextId + 1;
    }

    /** The version of that number of the template of that name. */
    method GetTemplateVersion(name: string, number: int) returns (r: Option<Id>)
      ensures r.Some? ==> VersionNamed(View(), name, number, r.value)
      ensures r.None? ==> forall id :: !VersionNamed(View(), name, number, id)
    {
      var todo := versions.Keys;
      while todo != {}
        invariant todo <= versions.Keys
        invariant forall id :: id in versions && id !in todo ==> !VersionNamed(View(), name, number, id)
        decreases todo
      {
        var id :| id in todo;
        var v := versions[id];
        if v.version == number && v.template in templates && templates[v.template].name == name { return Some(id); }
        todo := todo - {id};
      }
      r := None;
    }

    method Insert(row: ReleaseRow, fault: bool) returns (id: Option<Id>)
      modifies this
      ensures id.Some? <==> !fault && InsertRelease(old(View()), row).Some?
      ensures id.Some? ==> id.value == old(nextId) && View() == InsertRelease(old(View()), row).value
      ensures id.None? ==> View() == old(View())
    {
      var taken := exists r :: r in releases && releases[r].key == row.key;
      if fault || taken || row.version !in versions { return None; }
      id := Some(nextId);
      releases := releases[nextId := row];
      nextId := nextId + 1;
    }

    method Delete(id: Id, fault: bool) returns (ok: bool)
      modifies this
      ensures ok <==> !fault
      ensures View() == if ok then DeleteRelease(old(View()), id) else old(View())
    {
      if fault { return false; }
      releases := releases - {id};
      ok := true;
    }

    method UpdateValuesAndVersion(id: Id, version: Id, values: Source<Value>, rendered: seq<Doc>, fault: bool) returns (ok: bool)
      modifies this
      ensures ok <==> !fault && UpdateReleaseRow(old(View()), id, version, values, rendered).Some?
      ensures View() == if ok then UpdateReleaseRow(old(View()), id, version, values, rendered).value else old(View())
    {
      if fault { return false; }
      if id !in releases { return true; }
      if version !in versions { return false; }
      releases := releases[id := releases[id].(version := version, values := values, rendered := rendered)];
      ok := true;
    }

    method GetTemplateByName(name: string) returns (r: Option<Id>)
      ensures r.Some? ==> r.value in templates && templates[r.value].name == name
      ensures r.None? ==> forall id :: id in templates ==> templates[id].name != name
    {
      var todo := templates.Keys;
      while todo != {}
        invariant todo <= templates.Keys
        invariant forall id :: id in templates && id !in todo ==> templates[id].name != name
        decreases todo
      {
        var id :| id in todo;
        if templates[id].name == name { return Some(id); }
        todo := todo - {id};
      }
      r := None;
    }

    /** Both inserts of a new template, or neither. */
    method CreateTemplate(name: string, mode: Mode, content: Content) returns (ok: bool)
      requires nextId !in templates && forall id :: id in versions ==> versions[id].template in templates
      modifies this
      ensures ok <==> CreateTemplateTx(old(View()), name, mode, content).Some?
      ensures View() == if ok then CreateTemplateTx(old(View()), name, mode, content).value else old(View())
    {
      var taken := exists id :: id in templates && templates[id].name == name;
      if taken { return false; }
      templates := templates[nextId := TemplateRow(name, None)];
      versions := versions[nextId + 1 := VersionRow(nextId, 1, content, Draft, None, mode)];
      nextId := nextId + 2;
      ok := true;
    }

    method UpdateDraftVersion(id: Id, p: Patch) returns (ok: bool)
      modifies this
      ensures ok <==> id in old(versions) && old(versions)[id].status == Draft
      ensures ok ==> OnlyContentOf(old(View()), View(), id) && ColumnsSet(old(versions)[id].content, versions[id].content, p)
      ensures ok <==> UpdateDraft(old(View()), id, p).Some?
      ensures View() == if ok then UpdateDraft(old(View()), id, p).value else old(View())
    {
      if id !in versions || versions[id].status != Draft { return false; }
      versions := versions[id := versions[id].(content := Patched(versions[id].content, p))];
      ok := true;
    }

    /** The foreign key of releases is checked, the one of current versions is cleared. */
    method DeleteDraftVersion(id: Id) returns (r: Deletion)
      modifies this
      ensures r == DeleteDraft(old(View()), id)
      ensures View() == if r.Gone? then r.db else old(View())
    {
      if id !in versions || versions[id].status != Draft { return NoDraft; }
      if exists x :: x in releases && releases[x].version == id { return Restricted; }
      versions := versions - {id};
      templates := map k | k in templates ::
        if templates[k].current == Some(id) then templates[k].(current := None) else templates[k];
      r := Gone(View());
    }

    method SetVersionStatus(id: Id, to: Status, now: int) returns (ok: bool)
      modifies this
      ensures ok <==> SetStatus(old(View()), id, to, now).Some?
      ensures View() == if ok then SetStatus(old(View()), id, to, now).value else old(View())
    {
      if id !in versions { return false; }
      var v := versions[id];
      var at := v.publishedAt;
      if to == Published && at == None { at := Some(now); }
      versions := versions[id := v.(status := to, publishedAt := at)];
      ok := true;
    }
  }
}
