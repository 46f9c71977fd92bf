/** The release handlers run on their own, from request to answer, with their compensations.
    Each method computes what its task does when no other task takes a step. */
module ReleaseHandlers {
  import opened Values
  import opened UiSpec
  import opened Targets
  import opened Stamps
  import opened Render
  import opened Store
  import opened StoreRules
  import opened Cluster
  import opened Handlers

  /** What goes wrong during one request. `write` also stands for the upsert of the user that
      comes before a release is inserted. */
  datatype Faults = Faults(connect: bool, write: bool, undo: bool, apply: nat -> Fate, restore: nat -> Fate, delete: nat -> bool, lost: set<ObjKey>)

  function Fates(docs: seq<Doc>, f: nat -> Fate): seq<Fate> {
    seq(|docs|, i requires 0 <= i < |docs| => f(i))
  }

  function DeleteOutcomes(f: nat -> bool): seq<bool> {
    seq(|SUPPORTED|, i requires 0 <= i < |SUPPORTED| => f(i))
  }

  /** Every clean-up call is answered. */
  ghost predicate AllDelete(f: nat -> bool) {
    forall i :: 0 <= i < |SUPPORTED| ==> f(i)
  }

  /** The row stands on the requested version, which is published, and stores its rendering
      with the sent values and the labels of the release. */
  ghost predicate StandsOnPublished(t: Text, db: Db, template: string, version: int, row: ReleaseRow, values: Source<Value>, c: Choice) {
    && VersionNamed(db, template, Int32(version), row.version) && db.versions[row.version].status == Published
    && row.values == values
    && RenderDocs(t, db.versions[row.version].content.resources, db.versions[row.version].content.spec, values,
                  Labels(row.key.name, template, version, row.key.name, c.user, c.at)) == Documents(row.rendered)
  }

  /** A deprecated version is answered with 400 and a draft with 409, and nothing is done. */
  ghost predicate Gated(db: Db, template: string, version: int, status: int, idle: bool) {
    forall id: Id :: VersionNamed(db, template, Int32(version), id) ==>
      && (db.versions[id].status == Deprecated ==> status == 400 && idle)
      && (db.versions[id].status == Draft ==> status == 409 && idle)
  }

  lemma PrepareIsGated(t: Text, db: Db, template: string, version: int, key: ReleaseKey, values: Source<Value>, missing: int, c: Choice)
    requires NamesUnique(db.templates) && NumbersUnique(db.versions)
    ensures
      var prepared := Prepare(t, db, template, version, key, values, missing, c);
      Gated(db, template, version, prepared.0, prepared.1.None?)
  {
    forall id: Id | VersionNamed(db, template, Int32(version), id) ensures FindVersion(db, template, Int32(version)) == Some(id) {
      OneVersionNamed(db, template, Int32(version), id, FindVersion(db, template, Int32(version)).value);
    }
  }

  /** Choosing a version and rendering it, as both handlers do. */
  method PrepareRelease(t: Text, d: Database, template: string, version: int, key: ReleaseKey, values: Source<Value>, missing: int, c: Choice)
    returns (status: int, row: Option<ReleaseRow>)
    requires NamesUnique(d.templates) && NumbersUnique(d.versions)
    ensures (status, row) == Prepare(t, d.View(), template, version, key, values, missing, c)
    ensures row.Some? ==> row.value.key == key && StandsOnPublished(t, d.View(), template, version, row.value, values, c)
    ensures Gated(d.View(), template, version, status, row.None?)
  {
    PrepareIsGated(t, d.View(), template, version, key, values, missing, c);
    var found := LookUp(d, template, Int32(version));
    if found.None? { return missing, None; }
    var v := d.versions[found.value];
    var refused := Undeployable(v);
    if refused.Some? { return refused.value, None; }
    if !c.known { return 404, None; }
    var rendered := Run(t, v.content.resources, v.content.spec, values, LabelsOf(key, template, version, c));
    match rendered {
      case Failed(_) => return 400, None;
      case Documents(docs) => return 200, Some(ReleaseRow(key, found.value, values, docs));
    }
  }

  /** The objects as an update that had to be taken back leaves them: what the old row asked
      for is in place again, anything else that changed is an object of the new rendering and
      still carries the release label. */
  ghost predicate Restored(before: Objects, after: Objects, row: ReleaseRow, next: ReleaseRow) {
    var wanted, tried := Desired(row.rendered, row.key.cluster, row.key.namespace), Desired(next.rendered, row.key.cluster, row.key.namespace);
    && (forall k :: k in wanted ==> k in after && after[k] == wanted[k])
    && (forall k :: k in tried && k !in wanted ==> k in after && after[k] == tried[k] && ReleaseOf(after[k]) == Some(row.key.name))
    && (forall k :: k !in wanted && k !in tried ==> (k in after <==> k in before) && (k in before ==> after[k] == before[k]))
  }

  ghost predicate AllLabelled(docs: seq<Doc>, key: ReleaseKey) {
    forall d :: d in docs ==> ReleaseOf(InNamespace(d, key.namespace)) == Some(key.name)
  }

  lemma {:induction false} DesiredIsLabelled(docs: seq<Doc>, key: ReleaseKey)
    requires AllLabelled(docs, key)
    ensures forall k :: k in Desired(docs, key.cluster, key.namespace) ==>
      ReleaseOf(Desired(docs, key.cluster, key.namespace)[k]) == Some(key.name)
    decreases |docs|
  {
    if docs != [] {
      DesiredIsLabelled(docs[..|docs| - 1], key);
    }
  }

  lemma RenderedIsLabelled(t: Text, c: Content, values: Source<Value>, l: Labels, docs: seq<Doc>, key: ReleaseKey)
    requires RenderDocs(t, c.resources, c.spec, values, l) == Documents(docs) && l.release == key.name
    ensures AllLabelled(docs, key)
  {
    var ds := ApplyFields(t, c.resources.content, c.spec.content, InputOf(values).value).docs;
    forall d | d in docs ensures ReleaseOf(InNamespace(d, key.namespace)) == Some(key.name) {
      var i :| 0 <= i < |docs| && docs[i] == d;
      StampedIsLabelled(ds[i], l, key.namespace);
    }
  }

  lemma PreparedIsLabelled(t: Text, db: Db, template: string, version: int, key: ReleaseKey, values: Source<Value>, missing: int, c: Choice)
    requires Prepare(t, db, template, version, key, values, missing, c).1.Some?
    ensures AllLabelled(Prepare(t, db, template, version, key, values, missing, c).1.value.rendered, key)
  {
    var v := db.versions[FindVersion(db, template, Int32(version)).value];
    RenderedIsLabelled(t, v.content, values, LabelsOf(key, template, version, c),
                       Prepare(t, db, template, version, key, values, missing, c).1.value.rendered, key);
  }

  lemma TakenBack(before: Objects, row: ReleaseRow, next: ReleaseRow)
    requires AllLabelled(next.rendered, row.key)
    ensures Restored(before, before + Desired(next.rendered, row.key.cluster, row.key.namespace)
                                    + Desired(row.rendered, row.key.cluster, row.key.namespace), row, next)
  {
    DesiredIsLabelled(next.rendered, row.key);
  }

  /** The row an update would store, if the request gets that far. */
  ghost function UpdatedRow(t: Text, db: Db, id: Id, version: int, values: Source<Value>, c: Choice): Option<ReleaseRow> {
    if version < 1 || values == Malformed || values == Parsed(Null) || !HasRelease(db, id) then None
    else Prepare(t, db, TemplateOf(db, id), version, db.releases[id].key, values, 400, Joined(c)).1
  }

  ghost function CreatedRow(t: Text, db: Db, template: string, version: int, key: ReleaseKey, values: Source<Value>, c: Choice): Option<ReleaseRow> {
    if version < 1 then None else Prepare(t, db, template, version, key, values, 404, c).1
  }

  /** Every document of the row is applied and answered. */
  ghost predicate Deploys(row: ReleaseRow, f: nat -> Fate) {
    AllApplied(row.key.cluster, row.key.namespace, row.rendered, Fates(row.rendered, f))
  }

  /** That is, each names an object and its own call is answered. */
  lemma DeploysCallByCall(row: ReleaseRow, f: nat -> Fate)
    ensures Deploys(row, f) <==>
            forall i :: 0 <= i < |row.rendered| ==> TargetOf(row.rendered[i], row.key.cluster, row.key.namespace).Some? && f(i) == Answered
  {
    var fates := Fates(row.rendered, f);
    assert forall i :: 0 <= i < |row.rendered| ==> fates[i] == f(i);
    if Deploys(row, f) {
      forall i | 0 <= i < |row.rendered|
        ensures TargetOf(row.rendered[i], row.key.cluster, row.key.namespace).Some? && f(i) == Answered
      {
        assert AppliedWell(row.key.cluster, row.key.namespace, row.rendered[i], fates[i]);
      }
    }
  }

  function ApplyRow(objs: Objects, row: ReleaseRow, f: nat -> Fate): Objects {
    ApplyDocs(objs, row.key.cluster, row.key.namespace, row.rendered, Fates(row.rendered, f))
  }

  function CleanUp(objs: Objects, key: ReleaseKey, faults: Faults): Objects {
    DeleteFirst(objs, key.cluster, SUPPORTED, key.namespace, key.name, DeleteOutcomes(faults.delete), faults.lost, |SUPPORTED|)
  }

  // --- A whole request as one function ---

  ghost function UpdateAlone(t: Text, db: Db, objs: Objects, id: Id, version: int, values: Source<Value>, c: Choice, faults: Faults): Outcome {
    if version < 1 || values == Malformed || values == Parsed(Null) then Outcome(db, objs, Finished(400))
    else if !HasRelease(db, id) then Outcome(db, objs, Finished(404))
    else
      var row := db.releases[id];
      var prepared := Prepare(t, db, TemplateOf(db, id), version, row.key, values, 400, Joined(c));
      if prepared.1.None? then Outcome(db, objs, Finished(prepared.0))
      else if faults.connect then Outcome(db, objs, Finished(500))
      else UpdateDeployed(db, objs, id, row, prepared.1.value, faults)
  }

  ghost function UpdateDeployed(db: Db, objs: Objects, id: Id, row: ReleaseRow, next: ReleaseRow, faults: Faults): Outcome {
    var mid := ApplyDocs(objs, row.key.cluster, row.key.namespace, next.rendered, Fates(next.rendered, faults.apply));
    if !AllApplied(row.key.cluster, row.key.namespace, next.rendered, Fates(next.rendered, faults.apply)) then Outcome(db, mid, Finished(502))
    else UpdateStored(db, mid, id, row, next, faults)
  }

  ghost function UpdateStored(db: Db, mid: Objects, id: Id, row: ReleaseRow, next: ReleaseRow, faults: Faults): Outcome {
    var result := UpdateReleaseRow(db, id, next.version, next.values, next.rendered);
    if faults.write || result.None? then Outcome(db, ApplyRow(mid, row, faults.restore), Finished(500))
    else Outcome(result.value, mid, Finished(200))
  }

  ghost function CreateAlone(t: Text, db: Db, objs: Objects, template: string, version: int, key: ReleaseKey, values: Source<Value>, c: Choice, faults: Faults): Outcome {
    if version < 1 then Outcome(db, objs, Finished(400))
    else
      var prepared := Prepare(t, db, template, version, key, values, 404, c);
      if prepared.1.None? then Outcome(db, objs, Finished(prepared.0))
      else CreatePrepared(db, objs, prepared.1.value, faults)
  }

  ghost function CreatePrepared(db: Db, objs: Objects, row: ReleaseRow, faults: Faults): Outcome {
    if faults.write then Outcome(db, objs, Finished(500))
    else if InsertRelease(db, row).None? then Outcome(db, objs, Finished(if KeyTaken(db, row.key) then 409 else 500))
    else
      var inserted := InsertRelease(db, row).value;
      var undone := if faults.undo then inserted else DeleteRelease(inserted, db.nextId);
      if faults.connect then Outcome(undone, objs, Finished(500))
      else if Deploys(row, faults.apply) then Outcome(inserted, ApplyRow(objs, row, faults.apply), Finished(201))
      else Outcome(undone, CleanUp(ApplyRow(objs, row, faults.apply), row.key, faults), Finished(502))
  }

  ghost function RemoveAlone(db: Db, objs: Objects, id: Id, force: bool, faults: Faults): Outcome {
    if !HasRelease(db, id) then Outcome(db, objs, Finished(404))
    else if !force && faults.connect then Outcome(db, objs, Finished(500))
    else
      var cleaned := if force then objs else CleanUp(objs, db.releases[id].key, faults);
      if !force && !AllDelete(faults.delete) then Outcome(db, cleaned, Finished(502))
      else if faults.write then Outcome(db, cleaned, Finished(500))
      else Outcome(DeleteRelease(db, id), cleaned, Finished(200))
  }

  // --- It is what the handler's steps add up to when no other handler takes one ---

  /** Applying everything and finding nothing left. */
  lemma ApplyingEnds(t: Text, db: Db, objs: Objects, task: Task, docs: seq<Doc>, fates: seq<Fate>, c: Choice) returns (cs: seq<Choice>)
    requires (task.CreateApplying? || task.UpdateApplying? || task.UpdateRestoring?) && |docs| == |fates|
    ensures
      var key := task.row.key;
      RunTask(t, db, objs, Applying(task, docs, false), cs)
        == StepTask(t, db, ApplyDocs(objs, key.cluster, key.namespace, docs, fates),
                    Applying(task, [], !AllApplied(key.cluster, key.namespace, docs, fates)), c)
  {
    var n := |docs|;
    var steps := FateChoices(c, fates);
    ApplyingRuns(t, db, objs, task, docs, fates, c, n);
    assert steps[..n] == steps && docs[..n] == docs && fates[..n] == fates && docs[n..] == [];
    RunOneMore(t, db, objs, Applying(task, docs, false), steps, c);
    cs := steps + [c];
  }

  /** Clearing everything and finding nothing left. */
  lemma CleaningEnds(t: Text, db: Db, objs: Objects, task: Task, faults: Faults, c: Choice) returns (cs: seq<Choice>)
    requires task.CreateCleaning? || task.RemoveCleaning?
    ensures RunTask(t, db, objs, Cleaning(task, SUPPORTED, false), cs)
         == StepTask(t, db, CleanUp(objs, task.row.key, faults), Cleaning(task, [], !AllDelete(faults.delete)), c)
  {
    var oks, n := DeleteOutcomes(faults.delete), |SUPPORTED|;
    var steps := DeleteChoices(c, oks, faults.lost);
    CleaningRuns(t, db, objs, task, SUPPORTED, oks, faults.lost, c, n);
    assert AllOk(oks, n) <==> AllDelete(faults.delete) by { assert forall i :: 0 <= i < n ==> oks[i] == faults.delete(i); }
    NothingAfterAll(SUPPORTED, steps);
    RunOneMore(t, db, objs, Cleaning(task, SUPPORTED, false), steps, c);
    cs := steps + [c];
  }

  lemma NothingAfterAll(all: seq<Resource>, steps: seq<Choice>)
    requires |steps| == |all|
    ensures all[|all|..] == [] && steps[..|all|] == steps
  {
  }

  /** Taken alone, a handler at this point can end with `out`. */
  ghost predicate Ends(t: Text, db: Db, objs: Objects, task: Task, out: Outcome) {
    exists cs :: RunTask(t, db, objs, task, cs) == out
  }

  lemma EndsHere(t: Text, out: Outcome)
    ensures Ends(t, out.db, out.objs, out.task, out)
  {
    assert RunTask(t, out.db, out.objs, out.task, []) == out;
  }

  lemma RunThenEnds(t: Text, db: Db, objs: Objects, task: Task, cs: seq<Choice>, mid: Outcome, out: Outcome)
    requires RunTask(t, db, objs, task, cs) == mid && Ends(t, mid.db, mid.objs, mid.task, out)
    ensures Ends(t, db, objs, task, out)
  {
    var more :| RunTask(t, mid.db, mid.objs, mid.task, more) == out;
    RunConcat(t, db, objs, task, cs, more);
  }

  lemma StepThenEnds(t: Text, db: Db, objs: Objects, task: Task, c: Choice, mid: Outcome, out: Outcome)
    requires StepTask(t, db, objs, task, c) == mid && Ends(t, mid.db, mid.objs, mid.task, out)
    ensures Ends(t, db, objs, task, out)
  {
    assert [c][1..] == [];
    assert RunTask(t, db, objs, task, [c]) == mid;
    RunThenEnds(t, db, objs, task, [c], mid, out);
  }

  lemma StepEnds(t: Text, db: Db, objs: Objects, task: Task, c: Choice, out: Outcome)
    requires StepTask(t, db, objs, task, c) == out
    ensures Ends(t, db, objs, task, out)
  {
    EndsHere(t, out);
    StepThenEnds(t, db, objs, task, c, out, out);
  }

  lemma ApplyThenEnds(t: Text, db: Db, objs: Objects, task: Task, docs: seq<Doc>, fates: seq<Fate>, c: Choice, mid: Outcome, out: Outcome)
    requires (task.CreateApplying? || task.UpdateApplying? || task.UpdateRestoring?) && |docs| == |fates|
    requires
      var key := task.row.key;
      mid == StepTask(t, db, ApplyDocs(objs, key.cluster, key.namespace, docs, fates),
                      Applying(task, [], !AllApplied(key.cluster, key.namespace, docs, fates)), c)
    requires Ends(t, mid.db, mid.objs, mid.task, out)
    ensures Ends(t, db, objs, Applying(task, docs, false), out)
  {
    var cs := ApplyingEnds(t, db, objs, task, docs, fates, c);
    RunThenEnds(t, db, objs, Applying(task, docs, false), cs, mid, out);
  }

  lemma CleanThenEnds(t: Text, db: Db, objs: Objects, task: Task, faults: Faults, c: Choice, mid: Outcome, out: Outcome)
    requires task.CreateCleaning? || task.RemoveCleaning?
    requires mid == StepTask(t, db, CleanUp(objs, task.row.key, faults), Cleaning(task, [], !AllDelete(faults.delete)), c)
    requires Ends(t, mid.db, mid.objs, mid.task, out)
    ensures Ends(t, db, objs, Cleaning(task, SUPPORTED, false), out)
  {
    var cs := CleaningEnds(t, db, objs, task, faults, c);
    RunThenEnds(t, db, objs, Cleaning(task, SUPPORTED, false), cs, mid, out);
  }

  // Updating

  lemma UpdateApplied(t: Text, db: Db, objs: Objects, id: Id, row: ReleaseRow, next: ReleaseRow, failed: bool, c: Choice)
    ensures Applying(UpdateApplying(id, row, next, next.rendered, false), [], failed) == UpdateApplying(id, row, next, [], failed)
    ensures StepTask(t, db, objs, UpdateApplying(id, row, next, [], failed), c)
         == Outcome(db, objs, if failed then Finished(502) else UpdateWriting(id, row, next))
  {
  }

  lemma RestoreApplied(t: Text, db: Db, objs: Objects, id: Id, row: ReleaseRow, failed: bool, c: Choice)
    ensures Applying(UpdateRestoring(id, row, row.rendered), [], failed) == UpdateRestoring(id, row, [])
    ensures StepTask(t, db, objs, UpdateRestoring(id, row, []), c) == Outcome(db, objs, Finished(500))
  {
  }

  lemma RestoringRuns(t: Text, db: Db, mid: Objects, id: Id, row: ReleaseRow, c: Choice, faults: Faults)
    ensures Ends(t, db, mid, UpdateRestoring(id, row, row.rendered), Outcome(db, ApplyRow(mid, row, faults.restore), Finished(500)))
  {
    var restoring, out := UpdateRestoring(id, row, row.rendered), Outcome(db, ApplyRow(mid, row, faults.restore), Finished(500));
    EndsHere(t, out);
    RestoreApplied(t, db, ApplyRow(mid, row, faults.restore), id, row,
                   !AllApplied(row.key.cluster, row.key.namespace, row.rendered, Fates(row.rendered, faults.restore)), c);
    ApplyThenEnds(t, db, mid, restoring, row.rendered, Fates(row.rendered, faults.restore), c, out, out);
  }

  lemma UpdateWritingRuns(t: Text, db: Db, mid: Objects, id: Id, row: ReleaseRow, next: ReleaseRow, c: Choice, faults: Faults)
    ensures Ends(t, db, mid, UpdateWriting(id, row, next), UpdateStored(db, mid, id, row, next, faults))
  {
    var w, out := c.(fail := faults.write), UpdateStored(db, mid, id, row, next, faults);
    if faults.write || UpdateReleaseRow(db, id, next.version, next.values, next.rendered).None? {
      RestoringRuns(t, db, mid, id, row, c, faults);
      StepThenEnds(t, db, mid, UpdateWriting(id, row, next), w, Outcome(db, mid, UpdateRestoring(id, row, row.rendered)), out);
    } else {
      StepEnds(t, db, mid, UpdateWriting(id, row, next), w, out);
    }
  }

  lemma UpdateDeployedRuns(t: Text, db: Db, objs: Objects, id: Id, row: ReleaseRow, next: ReleaseRow, c: Choice, faults: Faults)
    ensures Ends(t, db, objs, UpdateApplying(id, row, next, next.rendered, false), UpdateDeployed(db, objs, id, row, next, faults))
  {
    var key, fates, start := row.key, Fates(next.rendered, faults.apply), UpdateApplying(id, row, next, next.rendered, false);
    var mid := ApplyDocs(objs, key.cluster, key.namespace, next.rendered, fates);
    var out := UpdateDeployed(db, objs, id, row, next, faults);
    UpdateApplied(t, db, mid, id, row, next, !AllApplied(key.cluster, key.namespace, next.rendered, fates), c);
    if AllApplied(key.cluster, key.namespace, next.rendered, fates) {
      UpdateWritingRuns(t, db, mid, id, row, next, c, faults);
      ApplyThenEnds(t, db, objs, start, next.rendered, fates, c, Outcome(db, mid, UpdateWriting(id, row, next)), out);
    } else {
      EndsHere(t, out);
      ApplyThenEnds(t, db, objs, start, next.rendered, fates, c, out, out);
    }
  }

  lemma UpdateReadingRuns(t: Text, db: Db, objs: Objects, id: Id, row: ReleaseRow, owner: string, version: int, values: Source<Value>, c: Choice, faults: Faults)
    ensures
      var prepared := Prepare(t, db, owner, version, row.key, values, 400, Joined(c));
      Ends(t, db, objs, UpdateReading(id, row, owner, version, values),
           if prepared.1.None? then Outcome(db, objs, Finished(prepared.0))
           else if faults.connect then Outcome(db, objs, Finished(500))
           else UpdateDeployed(db, objs, id, row, prepared.1.value, faults))
  {
    var prepared, reading := Prepare(t, db, owner, version, row.key, values, 400, Joined(c)), UpdateReading(id, row, owner, version, values);
    var ok := c.(fail := false);
    assert prepared == Prepare(t, db, owner, version, row.key, values, 400, Joined(ok));
    if prepared.1.None? {
      StepEnds(t, db, objs, reading, ok, Outcome(db, objs, Finished(prepared.0)));
    } else if faults.connect {
      StepEnds(t, db, objs, reading, c.(fail := true), Outcome(db, objs, Finished(500)));
    } else {
      var next := prepared.1.value;
      UpdateDeployedRuns(t, db, objs, id, row, next, c, faults);
      StepThenEnds(t, db, objs, reading, ok, Outcome(db, objs, UpdateApplying(id, row, next, next.rendered, false)),
                   UpdateDeployed(db, objs, id, row, next, faults));
    }
  }

  /** The update handler on its own is a run of its task. */
  lemma UpdateIsARun(t: Text, db: Db, objs: Objects, id: Id, version: int, values: Source<Value>, c: Choice, faults: Faults)
    ensures Ends(t, db, objs, Arrived(Request.UpdateRelease(id, version, values)), UpdateAlone(t, db, objs, id, version, values, c, faults))
  {
    var ok, req := c.(fail := false), Request.UpdateRelease(id, version, values);
    var out := UpdateAlone(t, db, objs, id, version, values, c, faults);
    var first := FirstStep(t, db, req, ok);
    if first.Finished? {
      StepEnds(t, db, objs, Arrived(req), ok, out);
    } else {
      UpdateReadingRuns(t, db, objs, id, db.releases[id], TemplateOf(db, id), version, values, c, faults);
      StepThenEnds(t, db, objs, Arrived(req), ok, Outcome(db, objs, first), out);
    }
  }

  // Creating

  lemma UndoingRuns(t: Text, db: Db, objs: Objects, id: Id, row: ReleaseRow, status: int, c: Choice, faults: Faults)
    ensures Ends(t, db, objs, CreateUndoing(id, row, status),
                 Outcome(if faults.undo then db else DeleteRelease(db, id), objs, Finished(status)))
  {
    StepEnds(t, db, objs, CreateUndoing(id, row, status), c.(fail := faults.undo),
             Outcome(if faults.undo then db else DeleteRelease(db, id), objs, Finished(status)));
  }

  lemma CleaningRunsUndo(t: Text, db: Db, mid: Objects, id: Id, row: ReleaseRow, c: Choice, faults: Faults)
    ensures Ends(t, db, mid, CreateCleaning(id, row, SUPPORTED),
                 Outcome(if faults.undo then db else DeleteRelease(db, id), CleanUp(mid, row.key, faults), Finished(502)))
  {
    var cleaned := CleanUp(mid, row.key, faults);
    var out := Outcome(if faults.undo then db else DeleteRelease(db, id), cleaned, Finished(502));
    UndoingRuns(t, db, cleaned, id, row, 502, c, faults);
    CleanThenEnds(t, db, mid, CreateCleaning(id, row, SUPPORTED), faults, c, Outcome(db, cleaned, CreateUndoing(id, row, 502)), out);
  }

  lemma CreateApplied(t: Text, db: Db, objs: Objects, id: Id, row: ReleaseRow, failed: bool, c: Choice)
    ensures Applying(CreateApplying(id, row, row.rendered, false), [], failed) == CreateApplying(id, row, [], failed)
    ensures StepTask(t, db, objs, CreateApplying(id, row, [], failed), c)
         == Outcome(db, objs, if failed then CreateCleaning(id, row, SUPPORTED) else Finished(201))
  {
  }

  lemma DeployedRuns(t: Text, db: Db, objs: Objects, id: Id, row: ReleaseRow, c: Choice, faults: Faults)
    ensures Ends(t, db, objs, CreateApplying(id, row, row.rendered, false),
            if Deploys(row, faults.apply) then Outcome(db, ApplyRow(objs, row, faults.apply), Finished(201))
            else Outcome(if faults.undo then db else DeleteRelease(db, id),
                         CleanUp(ApplyRow(objs, row, faults.apply), row.key, faults), Finished(502)))
  {
    var start, mid, fates := CreateApplying(id, row, row.rendered, false), ApplyRow(objs, row, faults.apply), Fates(row.rendered, faults.apply);
    CreateApplied(t, db, mid, id, row, !Deploys(row, faults.apply), c);
    if Deploys(row, faults.apply) {
      var out := Outcome(db, mid, Finished(201));
      EndsHere(t, out);
      ApplyThenEnds(t, db, objs, start, row.rendered, fates, c, out, out);
    } else {
      var out := Outcome(if faults.undo then db else DeleteRelease(db, id), CleanUp(mid, row.key, faults), Finished(502));
      CleaningRunsUndo(t, db, mid, id, row, c, faults);
      ApplyThenEnds(t, db, objs, start, row.rendered, fates, c, Outcome(db, mid, CreateCleaning(id, row, SUPPORTED)), out);
    }
  }

  lemma InsertedRuns(t: Text, inserted: Db, objs: Objects, id: Id, row: ReleaseRow, c: Choice, faults: Faults)
    ensures
      var undone := if faults.undo then inserted else DeleteRelease(inserted, id);
      Ends(t, inserted, objs, Connecting(id, row),
           if faults.connect then Outcome(undone, objs, Finished(500))
           else if Deploys(row, faults.apply) then Outcome(inserted, ApplyRow(objs, row, faults.apply), Finished(201))
           else Outcome(undone, CleanUp(ApplyRow(objs, row, faults.apply), row.key, faults), Finished(502)))
  {
    var undone := if faults.undo then inserted else DeleteRelease(inserted, id);
    if faults.connect {
      UndoingRuns(t, inserted, objs, id, row, 500, c, faults);
      StepThenEnds(t, inserted, objs, Connecting(id, row), c.(fail := true), Outcome(inserted, objs, CreateUndoing(id, row, 500)),
                   Outcome(undone, objs, Finished(500)));
    } else {
      var out := if Deploys(row, faults.apply) then Outcome(inserted, ApplyRow(objs, row, faults.apply), Finished(201))
                 else Outcome(undone, CleanUp(ApplyRow(objs, row, faults.apply), row.key, faults), Finished(502));
      DeployedRuns(t, inserted, objs, id, row, c, faults);
      StepThenEnds(t, inserted, objs, Connecting(id, row), c.(fail := false),
                   Outcome(inserted, objs, CreateApplying(id, row, row.rendered, false)), out);
    }
  }

  lemma PreparedRuns(t: Text, db: Db, objs: Objects, row: ReleaseRow, c: Choice, faults: Faults)
    ensures Ends(t, db, objs, Inserting(row), CreatePrepared(db, objs, row, faults))
  {
    var w, out := c.(fail := faults.write), CreatePrepared(db, objs, row, faults);
    if faults.write || InsertRelease(db, row).None? {
      StepEnds(t, db, objs, Inserting(row), w, out);
    } else {
      var inserted := InsertRelease(db, row).value;
      InsertedRuns(t, inserted, objs, db.nextId, row, c, faults);
      StepThenEnds(t, db, objs, Inserting(row), w, Outcome(inserted, objs, Connecting(db.nextId, row)), out);
    }
  }

  /** The create handler on its own is a run of its task. */
  lemma CreateIsARun(t: Text, db: Db, objs: Objects, template: string, version: int, key: ReleaseKey, values: Source<Value>, c: Choice, faults: Faults)
    ensures Ends(t, db, objs, Arrived(Request.CreateRelease(template, version, key, values)),
                 CreateAlone(t, db, objs, template, version, key, values, c, faults))
  {
    var ok, req := c.(fail := false), Request.CreateRelease(template, version, key, values);
    var out := CreateAlone(t, db, objs, template, version, key, values, c, faults);
    var prepared := Prepare(t, db, template, version, key, values, 404, c);
    assert prepared == Prepare(t, db, template, version, key, values, 404, ok);
    if version >= 1 && prepared.1.Some? {
      PreparedRuns(t, db, objs, prepared.1.value, c, faults);
      StepThenEnds(t, db, objs, Arrived(req), ok, Outcome(db, objs, Inserting(prepared.1.value)), out);
    } else {
      StepEnds(t, db, objs, Arrived(req), ok, out);
    }
  }

  // Deleting

  lemma RemovingRuns(t: Text, db: Db, objs: Objects, id: Id, row: ReleaseRow, c: Choice, faults: Faults)
    ensures Ends(t, db, objs, Removing(id, row),
                 if faults.write then Outcome(db, objs, Finished(500)) else Outcome(DeleteRelease(db, id), objs, Finished(200)))
  {
    StepEnds(t, db, objs, Removing(id, row), c.(fail := faults.write),
             if faults.write then Outcome(db, objs, Finished(500)) else Outcome(DeleteRelease(db, id), objs, Finished(200)));
  }

  lemma RemoveCleaningRuns(t: Text, db: Db, objs: Objects, id: Id, row: ReleaseRow, c: Choice, faults: Faults)
    ensures
      var cleaned := CleanUp(objs, row.key, faults);
      Ends(t, db, objs, RemoveCleaning(id, row, SUPPORTED, false),
           if !AllDelete(faults.delete) then Outcome(db, cleaned, Finished(502))
           else if faults.write then Outcome(db, cleaned, Finished(500))
           else Outcome(DeleteRelease(db, id), cleaned, Finished(200)))
  {
    var cleaned, cleaning := CleanUp(objs, row.key, faults), RemoveCleaning(id, row, SUPPORTED, false);
    if AllDelete(faults.delete) {
      var out := if faults.write then Outcome(db, cleaned, Finished(500)) else Outcome(DeleteRelease(db, id), cleaned, Finished(200));
      RemovingRuns(t, db, cleaned, id, row, c, faults);
      CleanThenEnds(t, db, objs, cleaning, faults, c, Outcome(db, cleaned, Removing(id, row)), out);
    } else {
      var out := Outcome(db, cleaned, Finished(502));
      EndsHere(t, out);
      CleanThenEnds(t, db, objs, cleaning, faults, c, out, out);
    }
  }

  /** The delete handler on its own is a run of its task. */
  lemma RemoveIsARun(t: Text, db: Db, objs: Objects, id: Id, force: bool, c: Choice, faults: Faults)
    ensures Ends(t, db, objs, Arrived(Request.RemoveRelease(id, force)), RemoveAlone(db, objs, id, force, faults))
  {
    var ok, task, out := c.(fail := false), Arrived(Request.RemoveRelease(id, force)), RemoveAlone(db, objs, id, force, faults);
    if !HasRelease(db, id) {
      StepEnds(t, db, objs, task, ok, out);
    } else if !force && faults.connect {
      StepEnds(t, db, objs, task, c.(fail := true), out);
    } else if force {
      RemovingRuns(t, db, objs, id, db.releases[id], c, faults);
      StepThenEnds(t, db, objs, task, ok, Outcome(db, objs, Removing(id, db.releases[id])), out);
    } else {
      RemoveCleaningRuns(t, db, objs, id, db.releases[id], c, faults);
      StepThenEnds(t, db, objs, task, ok, Outcome(db, objs, RemoveCleaning(id, db.releases[id], SUPPORTED, false)), out);
    }
  }

  // --- The handlers ---

  /** Updating a release: the row changes exactly when the answer is 200. `restored` reports
      that the write failed and the old documents were applied again. */
  method UpdateRelease(t: Text, d: Database, a: Api, id: Id, version: int, values: Source<Value>, c: Choice, faults: Faults)
    returns (status: int, restored: bool)
    requires WellKeyed(d.View()) && NumbersUnique(d.versions)
    modifies d, a
    ensures Outcome(d.View(), a.objects, Finished(status)) == UpdateAlone(t, old(d.View()), old(a.objects), id, version, values, c, faults)
    ensures
      var next := UpdatedRow(t, old(d.View()), id, version, values, c);
      && (status == 200 <==> next.Some? && !faults.connect && Deploys(next.value, faults.apply) && !faults.write)
      && (status == 502 <==> next.Some? && !faults.connect && !Deploys(next.value, faults.apply))
      && (restored <==> next.Some? && !faults.connect && Deploys(next.value, faults.apply) && faults.write
                          && Deploys(old(d.View()).releases[id], faults.restore))
      && (next.None? || faults.connect ==> a.objects == old(a.objects))
    ensures status != 200 ==> d.View() == old(d.View())
    ensures status == 200 ==>
      && HasRelease(old(d.View()), id) && id in d.releases && d.releases[id].key == old(d.releases)[id].key
      && StandsOnPublished(t, old(d.View()), TemplateOf(old(d.View()), id), version, d.releases[id], values, c)
    ensures version >= 1 && values != Malformed && values != Parsed(Null) && HasRelease(old(d.View()), id) ==>
      Gated(old(d.View()), TemplateOf(old(d.View()), id), version, status, d.View() == old(d.View()) && a.objects == old(a.objects))
    ensures status == 200 ==>
      var next := UpdatedRow(t, old(d.View()), id, version, values, c).value;
      && d.View() == old(d.View()).(releases := old(d.View()).releases[id := next])
      && a.objects == old(a.objects) + Desired(next.rendered, next.key.cluster, next.key.namespace)
    ensures restored ==>
      && status == 500
      && Restored(old(a.objects), a.objects, old(d.View()).releases[id], UpdatedRow(t, old(d.View()), id, version, values, c).value)
  {
    restored := false;
    if version < 1 || values == Malformed || values == Parsed(Null) { return 400, restored; }
    if id !in d.releases { return 404, restored; }
    var row := d.releases[id];
    if row.version !in d.versions || d.versions[row.version].template !in d.templates { return 404, restored; }
    var owner := d.templates[d.versions[row.version].template].name;
    var prepared;
    status, prepared := PrepareRelease(t, d, owner, version, row.key, values, 400, Joined(c));
    ghost var spec := UpdatedRow(t, old(d.View()), id, version, values, c);
    assert spec == prepared;
    if prepared.None? { return status, restored; }
    var next := prepared.value;
    if faults.connect { return 500, restored; }
    var key := row.key;
    var applied := a.ApplyAll(key.cluster, key.namespace, next.rendered, Fates(next.rendered, faults.apply));
    if !applied { return 502, restored; }
    AppliedIsDesired(old(a.objects), key.cluster, key.namespace, next.rendered, Fates(next.rendered, faults.apply));
    ghost var mid := a.objects;
    var written := d.UpdateValuesAndVersion(id, next.version, next.values, next.rendered, faults.write);
    if !written {
      restored := a.ApplyAll(key.cluster, key.namespace, row.rendered, Fates(row.rendered, faults.restore));
      if restored {
        AppliedIsDesired(mid, key.cluster, key.namespace, row.rendered, Fates(row.rendered, faults.restore));
        PreparedIsLabelled(t, old(d.View()), owner, version, key, values, 400, Joined(c));
        TakenBack(old(a.objects), row, next);
      }
      return 500, restored;
    }
    status := 200;
  }

  /** An update joins the cluster from the stored release, whether or not one of that name could
      be looked up. */
  lemma UpdateNeedsNoLookUp(t: Text, db: Db, objs: Objects, id: Id, version: int, values: Source<Value>, c: Choice, faults: Faults)
    ensures UpdateAlone(t, db, objs, id, version, values, c, faults)
         == UpdateAlone(t, db, objs, id, version, values, c.(known := !c.known), faults)
  {
    if HasRelease(db, id) {
      var row := db.releases[id];
      assert Prepare(t, db, TemplateOf(db, id), version, row.key, values, 400, Joined(c))
          == Prepare(t, db, TemplateOf(db, id), version, row.key, values, 400, Joined(c.(known := !c.known)));
    }
  }

  /** Creating a release in a cluster that is not registered is answered with 404. */
  lemma CreateNeedsCluster(t: Text, db: Db, objs: Objects, template: string, version: int, key: ReleaseKey, values: Source<Value>, c: Choice, faults: Faults)
    requires version >= 1 && !c.known && FindVersion(db, template, Int32(version)).Some?
    requires db.versions[FindVersion(db, template, Int32(version)).value].status == Published
    ensures CreateAlone(t, db, objs, template, version, key, values, c, faults) == Outcome(db, objs, Finished(404))
  {
  }

  /** Neither asked for by the documents nor labelled with the release. */
  ghost predicate Unrelated(k: ObjKey, d: Doc, docs: seq<Doc>, key: ReleaseKey) {
    ReleaseOf(d) != Some(key.name) && forall x :: x in docs ==> TargetOf(x, key.cluster, key.namespace) != Some(k)
  }

  /** Objects unrelated to the release are as before. */
  ghost predicate UnrelatedKept(before: Objects, after: Objects, docs: seq<Doc>, key: ReleaseKey) {
    forall k :: k in before && Unrelated(k, before[k], docs, key) ==> k in after && after[k] == before[k]
  }

  /** Applying the documents of a new release, and cleaning up when that fails. */
  method Deploy(a: Api, row: ReleaseRow, faults: Faults) returns (ok: bool)
    modifies a
    ensures ok <==> Deploys(row, faults.apply)
    ensures a.objects == if ok then ApplyRow(old(a.objects), row, faults.apply) else CleanUp(ApplyRow(old(a.objects), row, faults.apply), row.key, faults)
    ensures ok ==> a.objects == old(a.objects) + Desired(row.rendered, row.key.cluster, row.key.namespace)
    ensures !ok ==> UnrelatedKept(old(a.objects), a.objects, row.rendered, row.key)
    ensures !ok && AllDelete(faults.delete) ==>
      NoneLeft(a.objects, row.key.cluster, SUPPORTED, row.key.namespace, row.key.name)
  {
    var key, fates := row.key, Fates(row.rendered, faults.apply);
    ok := a.ApplyAll(key.cluster, key.namespace, row.rendered, fates);
    if ok {
      AppliedIsDesired(old(a.objects), key.cluster, key.namespace, row.rendered, fates);
    } else {
      ghost var mid := a.objects;
      forall k | k in old(a.objects) && Unrelated(k, old(a.objects)[k], row.rendered, key)
        ensures k in mid && mid[k] == old(a.objects)[k]
      {
        AppliedWithin(old(a.objects), key.cluster, key.namespace, row.rendered, fates, k);
      }
      var oks := DeleteOutcomes(faults.delete);
      assert forall i :: 0 <= i < |oks| ==> oks[i] == faults.delete(i);
      var cleaned := a.DeleteByRelease(key.cluster, key.namespace, key.name, oks, faults.lost);
    }
  }

  /** Creating a release: 201 means the row and all its objects are there; after any other
      answer, compensations that succeed leave neither. */
  method CreateRelease(t: Text, d: Database, a: Api, template: string, version: int, key: ReleaseKey, values: Source<Value>, c: Choice, faults: Faults)
    returns (status: int)
    requires WellKeyed(d.View()) && NumbersUnique(d.versions)
    modifies d, a
    ensures d.templates == old(d.templates) && d.versions == old(d.versions)
    ensures Outcome(d.View(), a.objects, Finished(status)) == CreateAlone(t, old(d.View()), old(a.objects), template, version, key, values, c, faults)
    ensures
      var next := CreatedRow(t, old(d.View()), template, version, key, values, c);
      && (status == 201 <==> next.Some? && !KeyTaken(old(d.View()), key) && !faults.write && !faults.connect && Deploys(next.value, faults.apply))
      && (status == 502 <==> next.Some? && !KeyTaken(old(d.View()), key) && !faults.write && !faults.connect && !Deploys(next.value, faults.apply))
      && (status == 201 ==>
            && d.releases == old(d.releases)[old(d.nextId) := next.value]
            && a.objects == old(a.objects) + Desired(next.value.rendered, key.cluster, key.namespace))
      && (status == 502 ==> UnrelatedKept(old(a.objects), a.objects, next.value.rendered, key))
    ensures status == 201 ==>
      exists row: ReleaseRow :: row.key == key && StandsOnPublished(t, old(d.View()), template, version, row, values, c)
        && NewRow(old(d.releases), d.releases, row)
    ensures version >= 1 ==>
      Gated(old(d.View()), template, version, status, d.View() == old(d.View()) && a.objects == old(a.objects))
    ensures status != 201 && !faults.undo ==> d.releases == old(d.releases)
    ensures status == 502 && AllDelete(faults.delete) ==>
      NoneLeft(a.objects, key.cluster, SUPPORTED, key.namespace, key.name)
    ensures status !in {201, 502} ==> a.objects == old(a.objects)
  {
    if version < 1 { return 400; }
    var prepared;
    status, prepared := PrepareRelease(t, d, template, version, key, values, 404, c);
    if prepared.None? { return status; }
    status := Launch(d, a, prepared.value, faults);
  }

  ghost predicate NewRow(before: Releases, after: Releases, row: ReleaseRow) {
    exists id: Id :: id !in before && after == before[id := row]
  }

  /** Inserting the row, then deploying; both are taken back when the deployment fails. */
  method Launch(d: Database, a: Api, row: ReleaseRow, faults: Faults) returns (status: int)
    requires Below(d.releases.Keys, d.nextId) && row.version in d.versions
    modifies d, a
    ensures d.templates == old(d.templates) && d.versions == old(d.versions)
    ensures Outcome(d.View(), a.objects, Finished(status)) == CreatePrepared(old(d.View()), old(a.objects), row, faults)
    ensures status == 201 <==> !KeyTaken(old(d.View()), row.key) && !faults.write && !faults.connect && Deploys(row, faults.apply)
    ensures status == 502 <==> !KeyTaken(old(d.View()), row.key) && !faults.write && !faults.connect && !Deploys(row, faults.apply)
    ensures status == 201 ==>
      && d.releases == old(d.releases)[old(d.nextId) := row] && NewRow(old(d.releases), d.releases, row)
      && a.objects == old(a.objects) + Desired(row.rendered, row.key.cluster, row.key.namespace)
    ensures status != 201 && !faults.undo ==> d.releases == old(d.releases)
    ensures status == 502 ==> UnrelatedKept(old(a.objects), a.objects, row.rendered, row.key)
    ensures status == 502 && AllDelete(faults.delete) ==> NoneLeft(a.objects, row.key.cluster, SUPPORTED, row.key.namespace, row.key.name)
    ensures status !in {201, 502} ==> a.objects == old(a.objects)
  {
    var inserted := d.Insert(row, faults.write);
    if inserted.None? { return if faults.write then 500 else 409; }
    assert old(d.nextId) !in old(d.releases);
    if faults.connect {
      var undone := d.Delete(inserted.value, faults.undo);
      return 500;
    }
    var deployed := Deploy(a, row, faults);
    if !deployed {
      var undone := d.Delete(inserted.value, faults.undo);
      return 502;
    }
    status := 201;
    assert old(d.nextId) !in old(d.releases) && d.releases == old(d.releases)[old(d.nextId) := row];
  }

  /** Deleting a release: 200 means the row is gone, and without force also every object of it;
      any other answer leaves the row. Objects of other releases are never touched. */
  method RemoveRelease(d: Database, a: Api, id: Id, force: bool, faults: Faults)
    returns (status: int)
    modifies d, a
    ensures Outcome(d.View(), a.objects, Finished(status)) == RemoveAlone(old(d.View()), old(a.objects), id, force, faults)
    ensures status == 200 ==> id in old(d.releases) && d.View() == DeleteRelease(old(d.View()), id)
    ensures status != 200 ==> d.View() == old(d.View())
    ensures status == 404 <==> !HasRelease(old(d.View()), id)
    ensures status == 200 <==>
            (HasRelease(old(d.View()), id) && !faults.write && (force || (!faults.connect && AllDelete(faults.delete))))
    ensures status == 404 || force ==> a.objects == old(a.objects)
    ensures status != 404 ==>
      var key := old(d.releases)[id].key;
      && OthersKept(old(a.objects), a.objects, key.cluster, key.namespace, key.name)
      && (status == 200 && !force ==> NoneLeft(a.objects, key.cluster, SUPPORTED, key.namespace, key.name))
  {
    if id !in d.releases { return 404; }
    var row := d.releases[id];
    if row.version !in d.versions || d.versions[row.version].template !in d.templates { return 404; }
    if !force {
      if faults.connect { return 500; }
      var oks := DeleteOutcomes(faults.delete);
      var cleaned := a.DeleteByRelease(row.key.cluster, row.key.namespace, row.key.name, oks, faults.lost);
      assert forall i :: 0 <= i < |oks| ==> oks[i] == faults.delete(i);
      if !cleaned { return 502; }
    }
    var gone := d.Delete(id, faults.write);
    status := if gone then 200 else 500;
  }
}
