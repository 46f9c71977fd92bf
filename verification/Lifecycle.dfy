/** What every interleaving of handler steps keeps true of the tables. */
module Lifecycle {
  import opened Values
  import opened PathGrammar
  import opened UiSpec
  import opened UiState
  import opened Stamps
  import opened Render
  import opened Store
  import opened StoreRules
  import opened Cluster
  import opened Handlers

  /** What a waiting task may rely on, although its reads may be stale. */
  ghost predicate TaskInv(t: Text, db: Db, task: Task) {
    match task
    case InsertingTemplate(_, mode, content) => ContentValid(t, mode, content)
    case InsertingVersion(_, mode, content) => ContentValid(t, mode, content)
    case Patching(id, patch) => id < db.nextId && (id in db.versions ==> PatchValid(t, db.versions[id].mode, patch))
    case Publishing(id, template) => id < db.nextId && (id in db.versions ==> db.versions[id].template == template)
    case SettingStatus(id, to) => id in db.versions && db.versions[id].status != Draft && to != Draft
    case Inserting(row) => Backed(t, db.templates, db.versions, row)
    case UpdateReading(id, row, _, _, _) => KnownRelease(db, id, row)
    case UpdateApplying(id, row, next, _, _) => KnownRelease(db, id, row) && next.key == row.key && Backed(t, db.templates, db.versions, next)
    case UpdateWriting(id, row, next) => KnownRelease(db, id, row) && next.key == row.key && Backed(t, db.templates, db.versions, next)
    case _ => true
  }

  /** A release that was read; it may be gone, but no other release gets its identifier. */
  ghost predicate KnownRelease(db: Db, id: Id, row: ReleaseRow) {
    id < db.nextId && (id in db.releases ==> db.releases[id].key == row.key)
  }

  ghost predicate WorldInv(t: Text, w: World) {
    DbInv(t, w.db) && forall tid :: tid in w.tasks ==> TaskInv(t, w.db, w.tasks[tid])
  }

  /** Stale snapshots stay usable: nothing a task relies on is undone by other tasks. */
  lemma TaskInvStays(t: Text, db: Db, later: Db, task: Task)
    requires Below(db.versions.Keys, db.nextId) && Evolves(db, later) && TaskInv(t, db, task)
    ensures TaskInv(t, later, task)
  {
    match task
    case Inserting(row) => BackedStays(t, db, later, row);
    case UpdateApplying(_, _, next, _, _) => BackedStays(t, db, later, next);
    case UpdateWriting(_, _, next) => BackedStays(t, db, later, next);
    case _ =>
  }

  // --- First steps ---

  lemma AuthoredIsValid(t: Text, b: Body, orders: seq<seq<string>>)
    requires Authored(t, b, orders).Some?
    ensures ContentValid(t, b.mode, Authored(t, b, orders).value)
  {
    if b.mode == FromUi {
      var c := Authored(t, b, orders).value;
      assert OrdersFor(b.uiState.value, orders) && Serialises(b.uiState.value, c.resources, c.spec);
    }
  }

  lemma PatchIsValid(t: Text, draft: VersionRow, b: Patch, orders: seq<seq<string>>)
    requires PatchFor(t, draft, b, orders).Some?
    ensures PatchValid(t, draft.mode, PatchFor(t, draft, b, orders).value)
  {
    if draft.mode == FromUi && b.uiState.Some? {
      var p := PatchFor(t, draft, b, orders).value;
      assert OrdersFor(b.uiState.value, orders) && Serialises(b.uiState.value, p.resources.value, p.spec.value);
    }
  }

  /** A prepared row is backed by the version it was rendered from. */
  lemma PreparedIsBacked(t: Text, db: Db, template: string, version: int, key: ReleaseKey, values: Source<Value>, missing: int, c: Choice)
    requires Prepare(t, db, template, version, key, values, missing, c).1.Some?
    ensures Backed(t, db.templates, db.versions, Prepare(t, db, template, version, key, values, missing, c).1.value)
  {
    var id := FindVersion(db, template, Int32(version)).value;
    var v := db.versions[id];
    assert LabelsFor(LabelsOf(key, template, version, c), key.name, template, v.version);
  }

  lemma PatchReadInv(t: Text, db: Db, name: string, number: int, patch: Patch, c: Choice)
    requires Below(db.versions.Keys, db.nextId)
    ensures TaskInv(t, db, FirstStep(t, db, PatchVersion(name, number, patch), c))
  {
    var found := FindVersion(db, name, Int32(number));
    if found.Some? && PatchFor(t, db.versions[found.value], patch, c.orders).Some? {
      PatchIsValid(t, db.versions[found.value], patch, c.orders);
    }
  }

  lemma AuthoringInv(t: Text, db: Db, req: Request, c: Choice)
    requires req.CreateTemplate? || req.CreateVersion?
    ensures TaskInv(t, db, FirstStep(t, db, req, c))
  {
    if Authored(t, req.body, c.orders).Some? { AuthoredIsValid(t, req.body, c.orders); }
  }

  lemma StatusReadInv(t: Text, db: Db, req: Request, c: Choice)
    requires Below(db.versions.Keys, db.nextId)
    requires req.DeleteVersion? || req.Publish? || req.Deprecate? || req.Undeprecate?
    ensures TaskInv(t, db, FirstStep(t, db, req, c))
  {
  }

  lemma ReleaseReadInv(t: Text, db: Db, req: Request, c: Choice)
    requires Below(db.releases.Keys, db.nextId)
    requires req.CreateRelease? || req.UpdateRelease? || req.RemoveRelease?
    ensures TaskInv(t, db, FirstStep(t, db, req, c))
  {
    if req.CreateRelease? && Prepare(t, db, req.template, req.version, req.key, req.values, 404, c).1.Some? {
      PreparedIsBacked(t, db, req.template, req.version, req.key, req.values, 404, c);
    }
  }

  /** Whatever is read first, its handler can rely on it from then on. */
  lemma FirstStepInv(t: Text, db: Db, req: Request, c: Choice)
    requires Below(db.versions.Keys, db.nextId) && Below(db.releases.Keys, db.nextId)
    ensures TaskInv(t, db, FirstStep(t, db, req, c))
  {
    match req
    case CreateTemplate(_, _) => AuthoringInv(t, db, req, c);
    case CreateVersion(_, _) => AuthoringInv(t, db, req, c);
    case PatchVersion(name, number, patch) => PatchReadInv(t, db, name, number, patch, c);
    case CreateRelease(_, _, _, _) => ReleaseReadInv(t, db, req, c);
    case UpdateRelease(_, _, _) => ReleaseReadInv(t, db, req, c);
    case RemoveRelease(_, _) => ReleaseReadInv(t, db, req, c);
    case _ => StatusReadInv(t, db, req, c);
  }

  // --- Later steps ---

  /** The step keeps the tables' invariant, only moves the tables forward, and leaves the
      handler with what it relies on. */
  ghost predicate Kept(t: Text, db: Db, out: Outcome) {
    DbInv(t, out.db) && Evolves(db, out.db) && TaskInv(t, out.db, out.task)
  }

  /** A step that leaves the tables alone. */
  lemma ReadKeeps(t: Text, db: Db, out: Outcome)
    requires DbInv(t, db) && out.db == db && TaskInv(t, db, out.task)
    ensures Kept(t, db, out)
  {
    EvolvesReflexive(db);
  }

  lemma WriteKeeps(t: Text, db: Db, objs: Objects, c: Choice, result: Option<Db>, refused: int, onward: Task)
    requires DbInv(t, db) && (onward.Finished? || onward.Connecting?)
    requires result.Some? ==> DbInv(t, result.value) && Evolves(db, result.value)
    ensures Kept(t, db, Write(db, objs, c, result, refused, onward))
  {
    EvolvesReflexive(db);
  }

  lemma AuthoringKeeps(t: Text, db: Db, objs: Objects, task: Task, c: Choice)
    requires DbInv(t, db) && TaskInv(t, db, task) && (task.InsertingTemplate? || task.InsertingVersion?)
    ensures Kept(t, db, VersionStep(db, objs, task, c))
  {
    match task
    case InsertingTemplate(name, mode, content) =>
      if CreateTemplateTx(db, name, mode, content).Some? { CreateTemplateKeeps(t, db, name, mode, content); }
      WriteKeeps(t, db, objs, c, CreateTemplateTx(db, name, mode, content), 409, Finished(201));
    case InsertingVersion(template, mode, content) =>
      if CreateVersionTx(db, template, mode, content).Some? { CreateVersionKeeps(t, db, template, mode, content); }
      WriteKeeps(t, db, objs, c, CreateVersionTx(db, template, mode, content), if Numberable(db, template) then 409 else 500, Finished(201));
  }

  lemma PatchingKeeps(t: Text, db: Db, objs: Objects, id: Id, patch: Patch, c: Choice)
    requires DbInv(t, db) && TaskInv(t, db, Patching(id, patch))
    ensures Kept(t, db, VersionStep(db, objs, Patching(id, patch), c))
  {
    if IsDraft(db, id) { UpdateDraftKeeps(t, db, id, patch); }
    WriteKeeps(t, db, objs, c, UpdateDraft(db, id, patch), 409, Finished(200));
  }

  lemma PublishingKeeps(t: Text, db: Db, objs: Objects, id: Id, template: Id, c: Choice)
    requires DbInv(t, db) && TaskInv(t, db, Publishing(id, template))
    ensures Kept(t, db, VersionStep(db, objs, Publishing(id, template), c))
  {
    if c.fail {
      ReadKeeps(t, db, VersionStep(db, objs, Publishing(id, template), c));
    } else {
      if IsDraft(db, id) { PublishKeeps(t, db, id, c.now); }
      WriteKeeps(t, db, objs, c, PublishTx(db, id, template, c.now), 409, Finished(200));
    }
  }

  lemma SettingStatusKeeps(t: Text, db: Db, objs: Objects, id: Id, to: Status, c: Choice)
    requires DbInv(t, db) && TaskInv(t, db, SettingStatus(id, to))
    ensures Kept(t, db, VersionStep(db, objs, SettingStatus(id, to), c))
  {
    SetStatusKeeps(t, db, id, to, c.now);
    WriteKeeps(t, db, objs, c, SetStatus(db, id, to, c.now), 500, Finished(200));
  }

  lemma DeletingKeeps(t: Text, db: Db, objs: Objects, id: Id, c: Choice)
    requires DbInv(t, db)
    ensures Kept(t, db, VersionStep(db, objs, Deleting(id), c))
  {
    match DeleteDraft(db, id)
    case Gone(later) => DeleteDraftKeeps(t, db, id); WriteKeeps(t, db, objs, c, Some(later), 500, Finished(204));
    case NoDraft => WriteKeeps(t, db, objs, c, None, 409, Finished(204));
    case Restricted => WriteKeeps(t, db, objs, c, None, 500, Finished(204));
  }

  lemma InsertingKeeps(t: Text, db: Db, objs: Objects, row: ReleaseRow, c: Choice)
    requires DbInv(t, db) && TaskInv(t, db, Inserting(row))
    ensures Kept(t, db, CreateStep(db, objs, Inserting(row), c))
  {
    if InsertRelease(db, row).Some? { InsertReleaseKeeps(t, db, row); }
    WriteKeeps(t, db, objs, c, InsertRelease(db, row), if KeyTaken(db, row.key) then 409 else 500, Connecting(db.nextId, row));
  }

  /** Deleting a release's row, or failing to. */
  lemma UndoKeeps(t: Text, db: Db, out: Outcome, id: Id)
    requires DbInv(t, db) && (out.db == db || out.db == DeleteRelease(db, id)) && out.task.Finished?
    ensures Kept(t, db, out)
  {
    EvolvesReflexive(db);
    DeleteReleaseKeeps(t, db, id);
  }

  lemma UpdateReadingKeeps(t: Text, db: Db, objs: Objects, task: Task, c: Choice)
    requires DbInv(t, db) && TaskInv(t, db, task) && task.UpdateReading?
    ensures Kept(t, db, UpdateStep(t, db, objs, task, c))
  {
    if Prepare(t, db, task.owner, task.version, task.row.key, task.values, 400, Joined(c)).1.Some? {
      PreparedIsBacked(t, db, task.owner, task.version, task.row.key, task.values, 400, Joined(c));
    }
    ReadKeeps(t, db, UpdateStep(t, db, objs, task, c));
  }

  /** What the write of an update leaves: the new row, or the steps that restore the cluster. */
  lemma UpdateWritten(t: Text, db: Db, objs: Objects, id: Id, row: ReleaseRow, next: ReleaseRow, c: Choice)
    ensures
      var out := UpdateStep(t, db, objs, UpdateWriting(id, row, next), c);
      var result := UpdateReleaseRow(db, id, next.version, next.values, next.rendered);
      || (out.db == db && out.task == UpdateRestoring(id, row, row.rendered))
      || (result == Some(out.db) && out.task == Finished(200))
  {
  }

  lemma UpdateWritingKeeps(t: Text, db: Db, objs: Objects, id: Id, row: ReleaseRow, next: ReleaseRow, c: Choice)
    requires DbInv(t, db) && TaskInv(t, db, UpdateWriting(id, row, next))
    ensures Kept(t, db, UpdateStep(t, db, objs, UpdateWriting(id, row, next), c))
  {
    var out := UpdateStep(t, db, objs, UpdateWriting(id, row, next), c);
    UpdateWritten(t, db, objs, id, row, next, c);
    if out.db == db {
      ReadKeeps(t, db, out);
    } else {
      UpdateReleaseKeeps(t, db, id, next.version, next.values, next.rendered);
    }
  }

  lemma ClusterStepReads(t: Text, db: Db, objs: Objects, task: Task, c: Choice)
    requires TaskInv(t, db, task) && (task.Connecting? || task.CreateApplying? || task.CreateCleaning? || task.RemoveCleaning?)
    ensures StepTask(t, db, objs, task, c).db == db && TaskInv(t, db, StepTask(t, db, objs, task, c).task)
  {
  }

  lemma UpdateCallReads(t: Text, db: Db, objs: Objects, task: Task, c: Choice)
    requires TaskInv(t, db, task) && (task.UpdateApplying? || task.UpdateRestoring?)
    ensures StepTask(t, db, objs, task, c).db == db && TaskInv(t, db, StepTask(t, db, objs, task, c).task)
  {
  }

  /** Steps that only call the cluster. */
  lemma ClusterStepKeeps(t: Text, db: Db, objs: Objects, task: Task, c: Choice)
    requires DbInv(t, db) && TaskInv(t, db, task)
    requires task.Connecting? || task.CreateApplying? || task.CreateCleaning? || task.UpdateApplying? || task.UpdateRestoring? || task.RemoveCleaning?
    ensures Kept(t, db, StepTask(t, db, objs, task, c))
  {
    if task.UpdateApplying? || task.UpdateRestoring? {
      UpdateCallReads(t, db, objs, task, c);
    } else {
      ClusterStepReads(t, db, objs, task, c);
    }
    ReadKeeps(t, db, StepTask(t, db, objs, task, c));
  }

  lemma ArrivedKeeps(t: Text, db: Db, objs: Objects, req: Request, c: Choice)
    requires DbInv(t, db)
    ensures Kept(t, db, StepTask(t, db, objs, Arrived(req), c))
  {
    FirstStepInv(t, db, req, c);
    ReadKeeps(t, db, StepTask(t, db, objs, Arrived(req), c));
  }

  lemma VersionStepKeeps(t: Text, db: Db, objs: Objects, task: Task, c: Choice)
    requires DbInv(t, db) && TaskInv(t, db, task)
    requires task.InsertingTemplate? || task.InsertingVersion? || task.Patching? || task.Deleting? || task.Publishing? || task.SettingStatus?
    ensures Kept(t, db, VersionStep(db, objs, task, c))
  {
    match task
    case InsertingTemplate(_, _, _) => AuthoringKeeps(t, db, objs, task, c);
    case InsertingVersion(_, _, _) => AuthoringKeeps(t, db, objs, task, c);
    case Patching(id, patch) => PatchingKeeps(t, db, objs, id, patch, c);
    case Publishing(id, template) => PublishingKeeps(t, db, objs, id, template, c);
    case SettingStatus(id, to) => SettingStatusKeeps(t, db, objs, id, to, c);
    case Deleting(id) => DeletingKeeps(t, db, objs, id, c);
  }

  /** Steps that read or write the row of a release. */
  lemma RowStepKeeps(t: Text, db: Db, objs: Objects, task: Task, c: Choice)
    requires DbInv(t, db) && TaskInv(t, db, task)
    requires task.Inserting? || task.CreateUndoing? || task.Removing? || task.UpdateReading? || task.UpdateWriting?
    ensures Kept(t, db, StepTask(t, db, objs, task, c))
  {
    match task
    case Inserting(row) => InsertingKeeps(t, db, objs, row, c);
    case CreateUndoing(id, _, _) => UndoKeeps(t, db, StepTask(t, db, objs, task, c), id);
    case Removing(id, _) => UndoKeeps(t, db, StepTask(t, db, objs, task, c), id);
    case UpdateReading(_, _, _, _, _) => UpdateReadingKeeps(t, db, objs, task, c);
    case UpdateWriting(id, row, next) => UpdateWritingKeeps(t, db, objs, id, row, next, c);
  }

  lemma StepTaskKeeps(t: Text, db: Db, objs: Objects, task: Task, c: Choice)
    requires DbInv(t, db) && TaskInv(t, db, task)
    ensures Kept(t, db, StepTask(t, db, objs, task, c))
  {
    if task.Finished? { ReadKeeps(t, db, StepTask(t, db, objs, task, c)); }
    else if task.Arrived? { ArrivedKeeps(t, db, objs, task.req, c); }
    else if task.Inserting? || task.CreateUndoing? || task.Removing? || task.UpdateReading? || task.UpdateWriting? {
      RowStepKeeps(t, db, objs, task, c);
    } else if task.Connecting? || task.CreateApplying? || task.CreateCleaning? || task.UpdateApplying? || task.UpdateRestoring? || task.RemoveCleaning? {
      ClusterStepKeeps(t, db, objs, task, c);
    } else {
      VersionStepKeeps(t, db, objs, task, c);
    }
  }

  // --- All runs ---

  /** Every event keeps the invariant and moves the tables forward only. */
  lemma NextKeeps(t: Text, w: World, e: Event)
    requires WorldInv(t, w) && Enabled(w, e)
    ensures WorldInv(t, Next(t, w, e)) && Evolves(w.db, Next(t, w, e).db)
  {
    EvolvesReflexive(w.db);
    match e
    case Arrive(_, _) =>
    case Crash(_) =>
    case Advance(tid, c) =>
      var later := Next(t, w, e);
      StepTaskKeeps(t, w.db, w.objs, w.tasks[tid], c);
      forall k | k in later.tasks ensures TaskInv(t, later.db, later.tasks[k]) {
        if k != tid { TaskInvStays(t, w.db, later.db, w.tasks[k]); }
      }
  }

  lemma {:induction false} RunKeeps(t: Text, w: World, es: seq<Event>, later: World)
    requires WorldInv(t, w) && Leads(t, w, es, later)
    ensures WorldInv(t, later) && Evolves(w.db, later.db)
    decreases |es|
  {
    EvolvesReflexive(w.db);
    if es != [] {
      var mid := Next(t, w, es[0]);
      NextKeeps(t, w, es[0]);
      RunKeeps(t, mid, es[1..], later);
      EvolvesTransitive(w.db, mid.db, later.db);
    }
  }

  ghost predicate Reachable(t: Text, w: World) {
    exists objs: Objects, es :: Leads(t, World(EMPTY, objs, map[]), es, w)
  }

  lemma ReachableInv(t: Text, w: World)
    requires Reachable(t, w)
    ensures WorldInv(t, w)
  {
    var objs: Objects, es :| Leads(t, World(EMPTY, objs, map[]), es, w);
    assert WorldInv(t, World(EMPTY, objs, map[]));
    RunKeeps(t, World(EMPTY, objs, map[]), es, w);
  }

  /** In every reachable state each release stands on an existing version that is no draft, and
      its stored documents are the rendering of that version's present content with the stored
      values, for labels that name the release, the template and a requested number converting
      to the version's own. */
  lemma ReleasesRenderTheirVersion(t: Text, w: World, r: Id)
    requires Reachable(t, w) && r in w.db.releases
    ensures
      var row := w.db.releases[r];
      && HasRelease(w.db, r) && w.db.versions[row.version].status != Draft
      && exists l :: LabelsFor(l, row.key.name, TemplateOf(w.db, r), w.db.versions[row.version].version)
           && RenderDocs(t, w.db.versions[row.version].content.resources, w.db.versions[row.version].content.spec, row.values, l)
              == Documents(row.rendered)
  {
    ReachableInv(t, w);
    assert Backed(t, w.db.templates, w.db.versions, w.db.releases[r]);
  }

  /** From any reachable state on, a version out of draft is never deleted, never a draft again,
      and never changes its content or publication date. */
  lemma PublishedForGood(t: Text, w: World, es: seq<Event>, later: World, id: Id)
    requires Reachable(t, w) && Leads(t, w, es, later)
    requires id in w.db.versions && w.db.versions[id].status != Draft
    ensures id in later.db.versions && later.db.versions[id].status != Draft
    ensures later.db.versions[id] == w.db.versions[id].(status := later.db.versions[id].status)
  {
    ReachableInv(t, w);
    RunKeeps(t, w, es, later);
  }

  /** The status update that checks nothing never meets a draft or a missing row, and deleting
      a draft never runs into a release's foreign key. */
  lemma UncheckedStatementsAreSafe(t: Text, w: World, tid: nat)
    requires Reachable(t, w) && tid in w.tasks
    ensures
      var task := w.tasks[tid];
      && (task.SettingStatus? ==> task.id in w.db.versions && w.db.versions[task.id].status != Draft)
      && (task.Deleting? ==> DeleteDraft(w.db, task.id) != Restricted)
      && (task.Inserting? ==> task.row.version in w.db.versions)
      && (task.UpdateWriting? ==> task.next.version in w.db.versions)
  {
    ReachableInv(t, w);
    var task := w.tasks[tid];
    assert TaskInv(t, w.db, task);
    if task.Deleting? { NeverRestricted(t, w.db, task.id); }
  }

  /** Version numbers of a template: 1 up to the number of versions, each once. */
  lemma VersionsAreNumbered(t: Text, w: World, template: Id)
    requires Reachable(t, w)
    ensures
      var n := NextVersion(w.db, template) - 1;
      && (forall k :: k in NumbersOf(w.db, template) <==> 1 <= k <= n)
      && NumbersUnique(w.db.versions)
      && (forall d :: IsDraft(w.db, d) && w.db.versions[d].template == template ==> w.db.versions[d].version == n)
  {
    ReachableInv(t, w);
    NextIsFresh(w.db, template);
    var vs, s, n := w.db.versions, NumbersOf(w.db, template), NextVersion(w.db, template) - 1;
    forall k: int ensures k in s <==> 1 <= k <= n {
      if 1 <= k <= n {
        assert HasNumber(vs, template, k);
        var id :| id in vs && vs[id].template == template && vs[id].version == k;
      }
    }
    forall d | IsDraft(w.db, d) && vs[d].template == template ensures vs[d].version == n {
      assert n in s;
    }
  }

  /** The current version is the highest that is no draft, and exactly those have a date. */
  lemma CurrentAndDates(t: Text, w: World)
    requires Reachable(t, w)
    ensures forall k :: k in w.db.templates ==> LatestIs(w.db.versions, k, w.db.templates[k].current)
    ensures forall id :: id in w.db.versions ==> (w.db.versions[id].publishedAt.Some? <==> w.db.versions[id].status != Draft)
  {
    ReachableInv(t, w);
  }

  /** Every stored version parses, and in UI mode its two texts are one serialisation of the
      editor state stored beside them, whatever patches were interleaved. */
  lemma StoredContentIsCoherent(t: Text, w: World, id: Id)
    requires Reachable(t, w) && id in w.db.versions
    ensures
      var v := w.db.versions[id];
      && ValidateSpec(t, v.content.resources, v.content.spec)
      && (v.mode == FromUi ==> v.content.uiState.Some? && Serialises(v.content.uiState.value, v.content.resources, v.content.spec))
  {
    ReachableInv(t, w);
    assert ContentValid(t, w.db.versions[id].mode, w.db.versions[id].content);
  }

  // --- The version label ---

  lemma DecimalsDiffer(m: nat, n: nat)
    ensures Decimal(m) == Decimal(n) <==> m == n
  {
    NumberOfDecimal(m);
    NumberOfDecimal(n);
  }

  /** The version label of a prepared release shows the number of the version it stands on
      exactly when the requested number fits into 32 bits. */
  lemma VersionLabel(t: Text, db: Db, template: string, version: int, key: ReleaseKey, values: Source<Value>, missing: int, c: Choice)
    requires NumbersRun(db.versions) && version >= 1
    requires Prepare(t, db, template, version, key, values, missing, c).1.Some?
    ensures
      var row := Prepare(t, db, template, version, key, values, missing, c).1.value;
      && row.version in db.versions
      && (version <= MAX_INT32 <==>
            LabelEntries(LabelsOf(key, template, version, c))[TEMPLATE_VERSION] == StrLeaf(IntText(db.versions[row.version].version)))
  {
    var row := Prepare(t, db, template, version, key, values, missing, c).1.value;
    DecimalsDiffer(version, db.versions[row.version].version);
  }

  /** Adding 2^32 to the requested number changes neither the answer nor the version: only the
      low 32 bits are looked up. */
  lemma WideVersionIsServed(t: Text, db: Db, template: string, version: int, key: ReleaseKey, values: Source<Value>, missing: int, c: Choice)
    ensures
      var narrow := Prepare(t, db, template, version, key, values, missing, c);
      var wide := Prepare(t, db, template, version + 0x1_0000_0000, key, values, missing, c);
      && narrow.0 == wide.0 && (narrow.1.Some? <==> wide.1.Some?)
      && (narrow.1.Some? ==> narrow.1.value.version == wide.1.value.version)
  {
    assert Int32(version + 0x1_0000_0000) == Int32(version);
  }

  /** Only a number that converts to a positive one can be served, so none above 2^31 - 1 and up
      to 2^32 is. */
  lemma NoVersionIsNegative(t: Text, db: Db, template: string, version: int, key: ReleaseKey, values: Source<Value>, missing: int, c: Choice)
    requires NumbersRun(db.versions)
    ensures Int32(version) < 1 ==> Prepare(t, db, template, version, key, values, missing, c) == (missing, None)
    ensures MAX_INT32 < version <= 0x1_0000_0000 ==> Int32(version) < 1
  {
  }
}
