/** No orphans: as long as handlers on one release run one at a time, every labelled object in
    a cluster has its row, at every step and after every crash. */
module Orphans {
  import opened Values
  import opened UiSpec
  import opened UiMode
  import opened Targets
  import opened Render
  import opened Store
  import opened StoreRules
  import opened Cluster
  import opened Handlers
  import opened Lifecycle

  // --- The conditions ---

  /** The release a task works on, from the moment it knows its row. */
  function Held(task: Task): Option<ReleaseKey> {
    match task
    case Inserting(row) => Some(row.key)
    case Connecting(_, row) => Some(row.key)
    case CreateApplying(_, row, _, _) => Some(row.key)
    case CreateCleaning(_, row, _) => Some(row.key)
    case CreateUndoing(_, row, _) => Some(row.key)
    case UpdateReading(_, row, _, _, _) => Some(row.key)
    case UpdateApplying(_, row, _, _, _) => Some(row.key)
    case UpdateWriting(_, row, _) => Some(row.key)
    case UpdateRestoring(_, row, _) => Some(row.key)
    case RemoveCleaning(_, row, _, _) => Some(row.key)
    case Removing(_, row) => Some(row.key)
    case _ => None
  }

  /** One handler at a time per release. */
  ghost predicate Exclusive(tasks: map<nat, Task>) {
    forall i, j :: i in tasks && j in tasks && i != j && Held(tasks[i]).Some? ==> Held(tasks[i]) != Held(tasks[j])
  }

  /** Applied for the release, the document ends up where the release's clean-up looks, or it
      is never applied at all. */
  predicate Homely(d: Doc, key: ReleaseKey) {
    match TargetOf(d, key.cluster, key.namespace)
    case None => true
    case Some(k) => k.namespace == key.namespace && k.resource in SUPPORTED
  }

  predicate AllHomely(docs: seq<Doc>, key: ReleaseKey) {
    forall d :: d in docs ==> Homely(d, key)
  }

  predicate HomelyTask(task: Task) {
    match task
    case Inserting(row) => AllHomely(row.rendered, row.key)
    case UpdateReading(_, row, _, _, _) => AllHomely(row.rendered, row.key)
    case UpdateApplying(_, _, next, _, _) => AllHomely(next.rendered, next.key)
    case _ => true
  }

  ghost predicate Orderly(tasks: map<nat, Task>) {
    Exclusive(tasks) && forall tid :: tid in tasks ==> HomelyTask(tasks[tid])
  }

  /** Clean-up calls succeed, and nobody deletes by force. */
  predicate Clean(w: World, e: Event)
    requires Enabled(w, e)
  {
    && (e.Advance? && w.tasks[e.tid].CreateCleaning? ==> !e.c.fail)
    && (e.Arrive? && e.req.RemoveRelease? ==> !e.req.force)
  }

  ghost predicate LeadsOrderly(t: Text, w: World, es: seq<Event>, later: World)
    decreases |es|
  {
    if es == [] then w == later
    else
      && Enabled(w, es[0]) && Clean(w, es[0]) && Orderly(Next(t, w, es[0]).tasks)
      && LeadsOrderly(t, Next(t, w, es[0]), es[1..], later)
  }

  // --- The invariant ---

  ghost predicate HasRow(rs: Releases, key: ReleaseKey) {
    exists r :: r in rs && rs[r].key == key
  }

  predicate Belongs(k: ObjKey, d: Doc, key: ReleaseKey) {
    k.cluster == key.cluster && k.namespace == key.namespace && ReleaseOf(d) == Some(key.name)
  }

  /** Every labelled object is of a supported kind and has its row. */
  ghost predicate NoOrphans(rs: Releases, objs: Objects) {
    forall k :: k in objs && ReleaseOf(objs[k]).Some? ==>
      k.resource in SUPPORTED && HasRow(rs, ReleaseKey(k.cluster, k.namespace, ReleaseOf(objs[k]).value))
  }

  /** No object of the release among these resources. */
  ghost predicate Cleared(objs: Objects, key: ReleaseKey, resources: seq<Resource>) {
    forall k :: k in objs && k.resource in resources ==> !Belongs(k, objs[k], key)
  }

  /** Applied for the release, the documents stay where its clean-up looks. */
  ghost predicate Tame(docs: seq<Doc>, key: ReleaseKey) {
    forall d :: d in docs ==> Homely(d, key) && ReleaseOf(InNamespace(d, key.namespace)) == Some(key.name)
  }

  ghost predicate RowOf(rs: Releases, id: Id, row: ReleaseRow) {
    id in rs && rs[id].key == row.key
  }

  /** What a task on a release can rely on while it alone works on it. */
  ghost predicate HolderInv(rs: Releases, objs: Objects, task: Task) {
    match task
    case Arrived(req) => req.RemoveRelease? ==> !req.force
    case Inserting(row) => Tame(row.rendered, row.key)
    case Connecting(id, row) => RowOf(rs, id, row) && Tame(row.rendered, row.key) && Cleared(objs, row.key, SUPPORTED)
    case CreateApplying(id, row, todo, _) => RowOf(rs, id, row) && Tame(todo, row.key)
    case CreateCleaning(id, row, left) => RowOf(rs, id, row) && ClearedBefore(objs, row.key, left)
    case CreateUndoing(id, row, _) => RowOf(rs, id, row) && Cleared(objs, row.key, SUPPORTED)
    case UpdateReading(id, row, _, _, _) => RowOf(rs, id, row) && Tame(row.rendered, row.key)
    case UpdateApplying(id, row, _, todo, _) => RowOf(rs, id, row) && Tame(row.rendered, row.key) && Tame(todo, row.key)
    case UpdateWriting(id, row, _) => RowOf(rs, id, row) && Tame(row.rendered, row.key)
    case UpdateRestoring(id, row, todo) => RowOf(rs, id, row) && Tame(todo, row.key)
    case RemoveCleaning(id, row, left, failed) => RowOf(rs, id, row) && (!failed ==> ClearedBefore(objs, row.key, left))
    case Removing(id, row) => RowOf(rs, id, row) && Cleared(objs, row.key, SUPPORTED)
    case _ => true
  }

  /** Everything before the resources still to come has been cleared. */
  ghost predicate ClearedBefore(objs: Objects, key: ReleaseKey, left: seq<Resource>) {
    |left| <= |SUPPORTED| && left == SUPPORTED[|SUPPORTED| - |left|..] && Cleared(objs, key, SUPPORTED[..|SUPPORTED| - |left|])
  }

  ghost predicate Tidy(w: World) {
    && NoOrphans(w.db.releases, w.objs)
    && forall tid :: tid in w.tasks ==> HolderInv(w.db.releases, w.objs, w.tasks[tid])
  }

  // --- What a step does to the objects and rows of other releases ---

  /** Objects change only by removal, or by objects that belong to `key`. */
  ghost predicate OnlyFor(objs: Objects, after: Objects, key: ReleaseKey) {
    forall k :: k in after ==>
      || (k in objs && after[k] == objs[k])
      || (k.resource in SUPPORTED && Belongs(k, after[k], key))
  }

  /** Rows change only under `key`. */
  ghost predicate RowsOnlyFor(rs: Releases, later: Releases, key: ReleaseKey) {
    forall r :: r in rs && rs[r].key != key ==> r in later && later[r].key == rs[r].key
  }

  lemma ApplyIsOnlyFor(objs: Objects, key: ReleaseKey, d: Doc, c: Choice)
    requires Homely(d, key) && ReleaseOf(InNamespace(d, key.namespace)) == Some(key.name)
    ensures OnlyFor(objs, ApplyStep(objs, key, d, c), key)
  {
  }

  lemma CleanIsOnlyFor(objs: Objects, key: ReleaseKey, r: Resource, c: Choice)
    ensures OnlyFor(objs, CleanStep(objs, key, r, c), key)
    ensures CleanStep(objs, key, r, c).Keys <= objs.Keys
  {
  }

  lemma OthersStayCleared(objs: Objects, after: Objects, key: ReleaseKey, other: ReleaseKey, resources: seq<Resource>)
    requires OnlyFor(objs, after, key) && key != other && Cleared(objs, other, resources)
    ensures Cleared(after, other, resources)
  {
  }

  /** A task on another release is not disturbed. */
  lemma OthersUndisturbed(rs: Releases, later: Releases, objs: Objects, after: Objects, key: ReleaseKey, task: Task)
    requires HolderInv(rs, objs, task) && Held(task) != Some(key)
    requires OnlyFor(objs, after, key) && RowsOnlyFor(rs, later, key)
    ensures HolderInv(later, after, task)
  {
    if Held(task).Some? {
      var other := Held(task).value;
      forall resources | Cleared(objs, other, resources) ensures Cleared(after, other, resources) {
        OthersStayCleared(objs, after, key, other, resources);
      }
    }
  }

  /** New objects of a release with a row make no orphans. */
  lemma StaysTidy(rs: Releases, objs: Objects, after: Objects, key: ReleaseKey)
    requires NoOrphans(rs, objs) && OnlyFor(objs, after, key) && HasRow(rs, key)
    ensures NoOrphans(rs, after)
  {
  }

  lemma CleanOneMore(objs: Objects, key: ReleaseKey, left: seq<Resource>, c: Choice)
    requires left != [] && ClearedBefore(objs, key, left) && !c.fail
    ensures ClearedBefore(CleanStep(objs, key, left[0], c), key, left[1..])
  {
    var n := |SUPPORTED| - |left|;
    assert left[0] == SUPPORTED[n] && left[1..] == SUPPORTED[n + 1..];
    assert forall x :: x in SUPPORTED[..n + 1] <==> x in SUPPORTED[..n] || x == left[0];
  }

  lemma AllCleared(objs: Objects, key: ReleaseKey)
    ensures ClearedBefore(objs, key, []) ==> Cleared(objs, key, SUPPORTED)
    ensures ClearedBefore(objs, key, SUPPORTED)
  {
    assert SUPPORTED[..|SUPPORTED|] == SUPPORTED && SUPPORTED[0..] == SUPPORTED;
  }

  /** Deleting the row of a cleared release orphans nothing. */
  lemma DeletedWithoutOrphans(rs: Releases, objs: Objects, id: Id, row: ReleaseRow)
    requires NoOrphans(rs, objs) && RowOf(rs, id, row) && Cleared(objs, row.key, SUPPORTED)
    ensures NoOrphans(rs - {id}, objs) && RowsOnlyFor(rs, rs - {id}, row.key)
  {
    forall k | k in objs && ReleaseOf(objs[k]).Some?
      ensures HasRow(rs - {id}, ReleaseKey(k.cluster, k.namespace, ReleaseOf(objs[k]).value))
    {
      var key := ReleaseKey(k.cluster, k.namespace, ReleaseOf(objs[k]).value);
      var r :| r in rs && rs[r].key == key;
      assert k.resource in SUPPORTED && !Belongs(k, objs[k], row.key);
      assert r in rs - {id};
    }
  }

  /** What a backed row renders to is labelled with its release. */
  lemma BackedIsTame(t: Text, ts: Templates, vs: Versions, row: ReleaseRow)
    requires Backed(t, ts, vs, row) && AllHomely(row.rendered, row.key)
    ensures Tame(row.rendered, row.key)
  {
    var v := vs[row.version];
    var l :| LabelsFor(l, row.key.name, ts[v.template].name, v.version)
          && RenderDocs(t, v.content.resources, v.content.spec, row.values, l) == Documents(row.rendered);
    var ds := ApplyFields(t, v.content.resources.content, v.content.spec.content, InputOf(row.values).value).docs;
    assert row.rendered == StampAll(ds, l);
    forall d | d in row.rendered ensures ReleaseOf(InNamespace(d, row.key.namespace)) == Some(row.key.name) {
      var i :| 0 <= i < |row.rendered| && row.rendered[i] == d;
      StampedIsLabelled(ds[i], l, row.key.namespace);
    }
  }

  // --- One step ---

  /** The step leaves no orphan, leaves its task what it relies on, and disturbs no other release. */
  ghost predicate TidyStep(db: Db, objs: Objects, task: Task, out: Outcome) {
    && NoOrphans(out.db.releases, out.objs) && HolderInv(out.db.releases, out.objs, out.task)
    && match Held(task)
       case None => out.objs == objs && out.db.releases == db.releases
       case Some(key) => OnlyFor(objs, out.objs, key) && RowsOnlyFor(db.releases, out.db.releases, key)
  }

  lemma VersionsLeaveReleases(db: Db, objs: Objects, task: Task, c: Choice)
    requires task.InsertingTemplate? || task.InsertingVersion? || task.Patching? || task.Deleting? || task.Publishing? || task.SettingStatus?
    ensures
      var out := VersionStep(db, objs, task, c);
      out.objs == objs && out.db.releases == db.releases && out.task.Finished?
  {
  }

  lemma CreateArrivalTidy(t: Text, db: Db, objs: Objects, req: Request, c: Choice)
    requires req.CreateRelease? && HomelyTask(FirstStep(t, db, req, c))
    ensures HolderInv(db.releases, objs, FirstStep(t, db, req, c))
  {
    var prepared := Prepare(t, db, req.template, req.version, req.key, req.values, 404, c);
    if prepared.1.Some? && FirstStep(t, db, req, c).Inserting? {
      PreparedIsBacked(t, db, req.template, req.version, req.key, req.values, 404, c);
      BackedIsTame(t, db.templates, db.versions, prepared.1.value);
    }
  }

  lemma UpdateArrivalTidy(t: Text, db: Db, objs: Objects, id: Id, version: int, values: Source<Value>, c: Choice)
    requires ReleasesBacked(t, db.templates, db.versions, db.releases)
    requires HomelyTask(FirstStep(t, db, Request.UpdateRelease(id, version, values), c))
    ensures HolderInv(db.releases, objs, FirstStep(t, db, Request.UpdateRelease(id, version, values), c))
  {
    if HasRelease(db, id) && FirstStep(t, db, Request.UpdateRelease(id, version, values), c).UpdateReading? {
      BackedIsTame(t, db.templates, db.versions, db.releases[id]);
    }
  }

  lemma RemoveArrivalTidy(t: Text, db: Db, objs: Objects, id: Id, c: Choice)
    ensures HolderInv(db.releases, objs, FirstStep(t, db, RemoveRelease(id, false), c))
  {
    if HasRelease(db, id) { AllCleared(objs, db.releases[id].key); }
  }

  /** Requests about versions hold no release. */
  lemma CreatingArrivalTidy(t: Text, db: Db, objs: Objects, req: Request, c: Choice)
    requires req.CreateTemplate? || req.CreateVersion?
    ensures HolderInv(db.releases, objs, FirstStep(t, db, req, c))
  {
  }

  lemma DraftArrivalTidy(t: Text, db: Db, objs: Objects, req: Request, c: Choice)
    requires req.PatchVersion? || req.DeleteVersion?
    ensures HolderInv(db.releases, objs, FirstStep(t, db, req, c))
  {
  }

  lemma StatusArrivalTidy(t: Text, db: Db, objs: Objects, req: Request, c: Choice)
    requires req.Publish? || req.Deprecate? || req.Undeprecate?
    ensures HolderInv(db.releases, objs, FirstStep(t, db, req, c))
  {
  }

  lemma ArrivalTidy(t: Text, db: Db, objs: Objects, req: Request, c: Choice)
    requires ReleasesBacked(t, db.templates, db.versions, db.releases)
    requires (req.RemoveRelease? ==> !req.force) && HomelyTask(FirstStep(t, db, req, c))
    ensures HolderInv(db.releases, objs, FirstStep(t, db, req, c))
  {
    match req
    case CreateRelease(_, _, _, _) => CreateArrivalTidy(t, db, objs, req, c);
    case UpdateRelease(id, version, values) => UpdateArrivalTidy(t, db, objs, id, version, values, c);
    case RemoveRelease(id, _) => RemoveArrivalTidy(t, db, objs, id, c);
    case CreateTemplate(_, _) => CreatingArrivalTidy(t, db, objs, req, c);
    case CreateVersion(_, _) => CreatingArrivalTidy(t, db, objs, req, c);
    case PatchVersion(_, _, _) => DraftArrivalTidy(t, db, objs, req, c);
    case DeleteVersion(_, _) => DraftArrivalTidy(t, db, objs, req, c);
    case _ => StatusArrivalTidy(t, db, objs, req, c);
  }

  lemma InsertingTidy(db: Db, objs: Objects, row: ReleaseRow, c: Choice)
    requires Below(db.releases.Keys, db.nextId) && NoOrphans(db.releases, objs) && HolderInv(db.releases, objs, Inserting(row))
    ensures TidyStep(db, objs, Inserting(row), CreateStep(db, objs, Inserting(row), c))
  {
    var out := CreateStep(db, objs, Inserting(row), c);
    if out.task.Connecting? {
      forall k | k in objs && k.resource in SUPPORTED ensures !Belongs(k, objs[k], row.key) {
        if Belongs(k, objs[k], row.key) {
          assert HasRow(db.releases, ReleaseKey(k.cluster, k.namespace, ReleaseOf(objs[k]).value));
          assert KeyTaken(db, row.key);
        }
      }
      forall key | HasRow(db.releases, key) ensures HasRow(out.db.releases, key) {
        var r :| r in db.releases && db.releases[r].key == key;
        assert out.db.releases[r] == db.releases[r];
      }
    }
  }

  /** One more document applied for the release. */
  lemma ApplyTidy(rs: Releases, objs: Objects, id: Id, row: ReleaseRow, todo: seq<Doc>, c: Choice)
    requires NoOrphans(rs, objs) && RowOf(rs, id, row) && Tame(todo, row.key) && todo != []
    ensures NoOrphans(rs, ApplyStep(objs, row.key, todo[0], c)) && OnlyFor(objs, ApplyStep(objs, row.key, todo[0], c), row.key)
    ensures Tame(todo[1..], row.key)
  {
    assert todo[0] in todo;
    ApplyIsOnlyFor(objs, row.key, todo[0], c);
    assert HasRow(rs, row.key);
    StaysTidy(rs, objs, ApplyStep(objs, row.key, todo[0], c), row.key);
  }

  lemma CleanTidy(rs: Releases, objs: Objects, id: Id, row: ReleaseRow, r: Resource, c: Choice)
    requires NoOrphans(rs, objs) && RowOf(rs, id, row)
    ensures NoOrphans(rs, CleanStep(objs, row.key, r, c)) && OnlyFor(objs, CleanStep(objs, row.key, r, c), row.key)
  {
    CleanIsOnlyFor(objs, row.key, r, c);
    assert HasRow(rs, row.key);
    StaysTidy(rs, objs, CleanStep(objs, row.key, r, c), row.key);
  }

  lemma ConnectingTidy(db: Db, objs: Objects, id: Id, row: ReleaseRow, c: Choice)
    requires NoOrphans(db.releases, objs) && HolderInv(db.releases, objs, Connecting(id, row))
    ensures TidyStep(db, objs, Connecting(id, row), CreateStep(db, objs, Connecting(id, row), c))
  {
  }

  lemma CreateApplyingTidy(db: Db, objs: Objects, id: Id, row: ReleaseRow, todo: seq<Doc>, failed: bool, c: Choice)
    requires NoOrphans(db.releases, objs) && HolderInv(db.releases, objs, CreateApplying(id, row, todo, failed))
    ensures TidyStep(db, objs, CreateApplying(id, row, todo, failed), CreateStep(db, objs, CreateApplying(id, row, todo, failed), c))
  {
    if todo == [] { AllCleared(objs, row.key); } else { ApplyTidy(db.releases, objs, id, row, todo, c); }
  }

  lemma CreateCleaningTidy(db: Db, objs: Objects, id: Id, row: ReleaseRow, left: seq<Resource>, c: Choice)
    requires NoOrphans(db.releases, objs) && HolderInv(db.releases, objs, CreateCleaning(id, row, left)) && !c.fail
    ensures TidyStep(db, objs, CreateCleaning(id, row, left), CreateStep(db, objs, CreateCleaning(id, row, left), c))
  {
    if left == [] {
      AllCleared(objs, row.key);
    } else {
      CleanTidy(db.releases, objs, id, row, left[0], c);
      CleanOneMore(objs, row.key, left, c);
    }
  }

  lemma CreateUndoingTidy(db: Db, objs: Objects, id: Id, row: ReleaseRow, status: int, c: Choice)
    requires NoOrphans(db.releases, objs) && HolderInv(db.releases, objs, CreateUndoing(id, row, status))
    ensures TidyStep(db, objs, CreateUndoing(id, row, status), CreateStep(db, objs, CreateUndoing(id, row, status), c))
  {
    DeletedWithoutOrphans(db.releases, objs, id, row);
  }

  lemma RemoveTidy(db: Db, objs: Objects, task: Task, c: Choice)
    requires NoOrphans(db.releases, objs) && HolderInv(db.releases, objs, task) && (task.RemoveCleaning? || task.Removing?)
    ensures TidyStep(db, objs, task, RemoveStep(db, objs, task, c))
  {
    match task
    case RemoveCleaning(id, row, left, failed) =>
      if left == [] {
        AllCleared(objs, row.key);
      } else {
        CleanTidy(db.releases, objs, id, row, left[0], c);
        if !failed && !c.fail { CleanOneMore(objs, row.key, left, c); }
      }
    case Removing(id, row) => DeletedWithoutOrphans(db.releases, objs, id, row);
  }

  lemma UpdateReadingTidy(t: Text, db: Db, objs: Objects, task: Task, c: Choice)
    requires NoOrphans(db.releases, objs) && HolderInv(db.releases, objs, task) && task.UpdateReading?
    requires HomelyTask(UpdateStep(t, db, objs, task, c).task)
    ensures TidyStep(db, objs, task, UpdateStep(t, db, objs, task, c))
  {
    var prepared := Prepare(t, db, task.owner, task.version, task.row.key, task.values, 400, Joined(c));
    if prepared.1.Some? && UpdateStep(t, db, objs, task, c).task.UpdateApplying? {
      PreparedIsBacked(t, db, task.owner, task.version, task.row.key, task.values, 400, Joined(c));
      BackedIsTame(t, db.templates, db.versions, prepared.1.value);
    }
  }

  lemma UpdateApplyingTidy(t: Text, db: Db, objs: Objects, task: Task, c: Choice)
    requires NoOrphans(db.releases, objs) && HolderInv(db.releases, objs, task) && (task.UpdateApplying? || task.UpdateRestoring?)
    ensures TidyStep(db, objs, task, UpdateStep(t, db, objs, task, c))
  {
    if task.todo != [] { ApplyTidy(db.releases, objs, task.id, task.row, task.todo, c); }
  }

  lemma UpdateWritingTidy(t: Text, db: Db, objs: Objects, id: Id, row: ReleaseRow, next: ReleaseRow, c: Choice)
    requires NoOrphans(db.releases, objs) && HolderInv(db.releases, objs, UpdateWriting(id, row, next))
    ensures TidyStep(db, objs, UpdateWriting(id, row, next), UpdateStep(t, db, objs, UpdateWriting(id, row, next), c))
  {
    var out := UpdateStep(t, db, objs, UpdateWriting(id, row, next), c);
    UpdateWritten(t, db, objs, id, row, next, c);
    forall key | HasRow(db.releases, key) ensures HasRow(out.db.releases, key) {
      var r :| r in db.releases && db.releases[r].key == key;
      assert out.db.releases[r].key == key;
    }
  }

  lemma CreateStepTidy(t: Text, db: Db, objs: Objects, task: Task, c: Choice)
    requires Below(db.releases.Keys, db.nextId) && NoOrphans(db.releases, objs) && HolderInv(db.releases, objs, task)
    requires task.CreateCleaning? ==> !c.fail
    requires task.Inserting? || task.Connecting? || task.CreateApplying? || task.CreateCleaning? || task.CreateUndoing?
    ensures TidyStep(db, objs, task, StepTask(t, db, objs, task, c))
  {
    match task
    case Inserting(row) => InsertingTidy(db, objs, row, c);
    case Connecting(id, row) => ConnectingTidy(db, objs, id, row, c);
    case CreateApplying(id, row, todo, failed) => CreateApplyingTidy(db, objs, id, row, todo, failed, c);
    case CreateCleaning(id, row, left) => CreateCleaningTidy(db, objs, id, row, left, c);
    case CreateUndoing(id, row, status) => CreateUndoingTidy(db, objs, id, row, status, c);
  }

  lemma UpdateStepTidy(t: Text, db: Db, objs: Objects, task: Task, c: Choice)
    requires NoOrphans(db.releases, objs) && HolderInv(db.releases, objs, task)
    requires HomelyTask(StepTask(t, db, objs, task, c).task)
    requires task.UpdateReading? || task.UpdateApplying? || task.UpdateWriting? || task.UpdateRestoring?
    ensures TidyStep(db, objs, task, StepTask(t, db, objs, task, c))
  {
    match task
    case UpdateReading(_, _, _, _, _) => UpdateReadingTidy(t, db, objs, task, c);
    case UpdateApplying(_, _, _, _, _) => UpdateApplyingTidy(t, db, objs, task, c);
    case UpdateRestoring(_, _, _) => UpdateApplyingTidy(t, db, objs, task, c);
    case UpdateWriting(id, row, next) => UpdateWritingTidy(t, db, objs, id, row, next, c);
  }

  lemma StepTidy(t: Text, db: Db, objs: Objects, task: Task, c: Choice)
    requires Below(db.releases.Keys, db.nextId) && ReleasesBacked(t, db.templates, db.versions, db.releases)
    requires NoOrphans(db.releases, objs) && HolderInv(db.releases, objs, task)
    requires HomelyTask(StepTask(t, db, objs, task, c).task) && (task.CreateCleaning? ==> !c.fail)
    ensures TidyStep(db, objs, task, StepTask(t, db, objs, task, c))
  {
    if task.Arrived? { ArrivalTidy(t, db, objs, task.req, c); }
    else if task.Inserting? || task.Connecting? || task.CreateApplying? || task.CreateCleaning? || task.CreateUndoing? {
      CreateStepTidy(t, db, objs, task, c);
    } else if task.UpdateReading? || task.UpdateApplying? || task.UpdateWriting? || task.UpdateRestoring? {
      UpdateStepTidy(t, db, objs, task, c);
    } else if task.RemoveCleaning? || task.Removing? {
      RemoveTidy(db, objs, task, c);
    } else if !task.Finished? {
      VersionsLeaveReleases(db, objs, task, c);
    }
  }

  // --- All runs ---

  lemma NextTidy(t: Text, w: World, e: Event)
    requires WorldInv(t, w) && Tidy(w) && Orderly(w.tasks)
    requires Enabled(w, e) && Clean(w, e) && Orderly(Next(t, w, e).tasks)
    ensures Tidy(Next(t, w, e))
  {
    match e
    case Arrive(_, _) =>
    case Crash(_) =>
    case Advance(tid, c) =>
      var task, later := w.tasks[tid], Next(t, w, e);
      assert later.tasks[tid] == StepTask(t, w.db, w.objs, task, c).task;
      StepTidy(t, w.db, w.objs, task, c);
      forall k | k in later.tasks ensures HolderInv(later.db.releases, later.objs, later.tasks[k]) {
        if k != tid && Held(task).Some? {
          OthersUndisturbed(w.db.releases, later.db.releases, w.objs, later.objs, Held(task).value, w.tasks[k]);
        }
      }
  }

  lemma {:induction false} RunTidy(t: Text, w: World, es: seq<Event>, later: World)
    requires WorldInv(t, w) && Tidy(w) && Orderly(w.tasks) && LeadsOrderly(t, w, es, later)
    ensures WorldInv(t, later) && Tidy(later)
    decreases |es|
  {
    if es != [] {
      NextKeeps(t, w, es[0]);
      NextTidy(t, w, es[0]);
      RunTidy(t, Next(t, w, es[0]), es[1..], later);
    }
  }

  /** The clusters may hold anything at first, except objects labelled with a release. */
  ghost predicate Unlabelled(objs: Objects) {
    forall k :: k in objs ==> ReleaseOf(objs[k]).None?
  }

  /** Crash-safe: along every orderly run, at every step, each object labelled with a release
      has the row of that release, in its own cluster and namespace. */
  lemma EveryObjectHasItsRow(t: Text, objs: Objects, es: seq<Event>, w: World, k: ObjKey)
    requires Unlabelled(objs) && LeadsOrderly(t, World(EMPTY, objs, map[]), es, w)
    requires k in w.objs && ReleaseOf(w.objs[k]).Some?
    ensures exists r :: r in w.db.releases && w.db.releases[r].key == ReleaseKey(k.cluster, k.namespace, ReleaseOf(w.objs[k]).value)
  {
    var start := World(EMPTY, objs, map[]);
    assert WorldInv(t, start) && Tidy(start) && Orderly(start.tasks);
    RunTidy(t, start, es, w);
    assert HasRow(w.db.releases, ReleaseKey(k.cluster, k.namespace, ReleaseOf(w.objs[k]).value));
  }

  /** When deleting a release is answered with success, none of its objects is left and its row
      is gone. */
  lemma SuccessfulDeleteLeavesNothing(t: Text, objs: Objects, es: seq<Event>, w: World, e: Event, k: ObjKey)
    requires Unlabelled(objs) && LeadsOrderly(t, World(EMPTY, objs, map[]), es, w)
    requires Enabled(w, e) && e.Advance? && w.tasks[e.tid].Removing? && Next(t, w, e).tasks[e.tid] == Finished(200)
    ensures
      var task, later := w.tasks[e.tid], Next(t, w, e);
      && task.id !in later.db.releases
      && (k in later.objs ==> !Belongs(k, later.objs[k], task.row.key))
  {
    var start := World(EMPTY, objs, map[]);
    assert WorldInv(t, start) && Tidy(start) && Orderly(start.tasks);
    RunTidy(t, start, es, w);
    RemovedAll(t, w, e.tid, e.c, k);
  }

  lemma RemovedAll(t: Text, w: World, tid: nat, c: Choice, k: ObjKey)
    requires Tidy(w) && tid in w.tasks && w.tasks[tid].Removing?
    requires StepTask(t, w.db, w.objs, w.tasks[tid], c).task == Finished(200)
    ensures
      var out := StepTask(t, w.db, w.objs, w.tasks[tid], c);
      w.tasks[tid].id !in out.db.releases && (k in out.objs ==> !Belongs(k, out.objs[k], w.tasks[tid].row.key))
  {
    assert HolderInv(w.db.releases, w.objs, w.tasks[tid]);
  }

  // --- The condition on documents is exact ---

  /** An applied document of a release is within reach of a complete clean-up exactly when it is
      homely: it lands in the release's namespace, as a resource the clean-up goes through. */
  lemma WithinReach(objs: Objects, key: ReleaseKey, d: Doc, oks: seq<bool>, lost: set<ObjKey>)
    requires TargetOf(d, key.cluster, key.namespace).Some? && ReleaseOf(InNamespace(d, key.namespace)) == Some(key.name)
    requires |oks| == |SUPPORTED| && AllOk(oks, |oks|)
    ensures
      var applied := ApplyOne(objs, key.cluster, key.namespace, d, Answered);
      var cleaned := DeleteFirst(applied, key.cluster, SUPPORTED, key.namespace, key.name, oks, lost, |SUPPORTED|);
      TargetOf(d, key.cluster, key.namespace).value !in cleaned <==> Homely(d, key)
  {
    var applied, n := ApplyOne(objs, key.cluster, key.namespace, d, Answered), |SUPPORTED|;
    DeletedFirst(applied, key.cluster, SUPPORTED, key.namespace, key.name, oks, lost, n);
    assert SUPPORTED[..n] == SUPPORTED;
  }

  /** In particular a document with another namespace of its own escapes. */
  lemma OwnNamespaceEscapes(objs: Objects, key: ReleaseKey, d: Doc, after: Objects)
    requires TargetOf(d, key.cluster, key.namespace).Some?
    requires TextAt(MetaOf(d), "namespace") != "" && TextAt(MetaOf(d), "namespace") != key.namespace
    requires OthersKept(ApplyOne(objs, key.cluster, key.namespace, d, Answered), after, key.cluster, key.namespace, key.name)
    ensures TargetOf(d, key.cluster, key.namespace).value in after
    ensures after[TargetOf(d, key.cluster, key.namespace).value] == d
  {
  }
}
