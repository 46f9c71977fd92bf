/** The request handlers as interleaved tasks. A task remembers what it has read, and each of
    its steps is one statement on the tables, one transaction, or one call to a cluster. */
module Handlers {
  import opened Values
  import opened UiSpec
  import opened UiMode
  import opened UiState
  import opened Targets
  import opened Stamps
  import opened Render
  import opened Store
  import opened Cluster

  // --- Requests ---

  /** The content of a new version; an absent text is `None`. */
  datatype Body = Body(mode: Mode, resources: Option<Source<seq<Doc>>>, spec: Option<Source<seq<SpecEntry>>>,
                       uiState: Option<seq<UIResource>>, metadata: string, notes: string)

  datatype Request =
    | CreateTemplate(name: string, body: Body)
    | CreateVersion(name: string, body: Body)
    | PatchVersion(name: string, number: int, patch: Patch)
    | DeleteVersion(name: string, number: int)
    | Publish(name: string, number: int)
    | Deprecate(name: string, number: int)
    | Undeprecate(name: string, number: int)
    | CreateRelease(template: string, version: int, key: ReleaseKey, values: Source<Value>)
    | UpdateRelease(id: Id, version: int, values: Source<Value>)
    | RemoveRelease(id: Id, force: bool)

  /** A task between two of its steps. */
  datatype Task =
    | Arrived(req: Request)
    | InsertingTemplate(name: string, mode: Mode, content: Content)
    | InsertingVersion(template: Id, mode: Mode, content: Content)
    | Patching(id: Id, patch: Patch)
    | Deleting(id: Id)
    | Publishing(id: Id, template: Id)
    | SettingStatus(id: Id, to: Status)
    | Inserting(row: ReleaseRow)
    | Connecting(id: Id, row: ReleaseRow)
    | CreateApplying(id: Id, row: ReleaseRow, todo: seq<Doc>, failed: bool)
    | CreateCleaning(id: Id, row: ReleaseRow, left: seq<Resource>)
    | CreateUndoing(id: Id, row: ReleaseRow, status: int)
    | UpdateReading(id: Id, row: ReleaseRow, owner: string, version: int, values: Source<Value>)
    | UpdateApplying(id: Id, row: ReleaseRow, next: ReleaseRow, todo: seq<Doc>, failed: bool)
    | UpdateWriting(id: Id, row: ReleaseRow, next: ReleaseRow)
    | UpdateRestoring(id: Id, row: ReleaseRow, todo: seq<Doc>)
    | RemoveCleaning(id: Id, row: ReleaseRow, left: seq<Resource>, failed: bool)
    | Removing(id: Id, row: ReleaseRow)
    | Finished(status: int)

  /** What the surroundings decide in one step: whether the call fails (or the caller is not
      permitted), how a cluster call ends, whether the cluster a request names is registered,
      the clock, the user, and map iteration orders. */
  datatype Choice = Choice(fail: bool, fate: Fate, lost: set<ObjKey>, known: bool, now: int, user: string, at: string, orders: seq<seq<string>>)

  /** A stored release comes joined with its cluster. */
  function Joined(c: Choice): Choice {
    c.(known := true)
  }

  // --- Content checks ---

  /** Serialising an editor state, when the chosen orders are orders of its fields. */
  ghost function Serialised(rs: seq<UIResource>, orders: seq<seq<string>>): SerializedAll {
    if OrdersFor(rs, orders) then SerializeAllIn(rs, orders) else Refused(BadMode)
  }

  /** The content a new version gets, or `None` for a bad request. */
  ghost function Authored(t: Text, b: Body, orders: seq<seq<string>>): Option<Content> {
    var c: Option<Content> :=
      match b.mode
      case FromUi =>
        if b.uiState.None? || b.resources.Some? || b.spec.Some? then None
        else (
          match Serialised(b.uiState.value, orders)
          case Refused(_) => None
          case Pair(docs, entries) => Some(Content(Parsed(docs), Parsed(entries), b.metadata, b.notes, b.uiState))
        )
      case FromYaml =>
        if b.uiState.Some? || b.resources.None? || b.spec.None? then None
        else Some(Content(b.resources.value, b.spec.value, b.metadata, b.notes, None));
    if c.Some? && ValidateSpec(t, c.value.resources, c.value.spec) then c else None
  }

  /** The columns a patch of a draft sets, or `None` for a bad request. The halves are checked
      together with the draft as it was read. */
  ghost function PatchFor(t: Text, draft: VersionRow, b: Patch, orders: seq<seq<string>>): Option<Patch> {
    var p: Option<Patch> :=
      match draft.mode
      case FromUi =>
        if b.resources.Some? || b.spec.Some? then None
        else if b.uiState.None? then Some(b)
        else (
          match Serialised(b.uiState.value, orders)
          case Refused(_) => None
          case Pair(docs, entries) => Some(b.(resources := Some(Parsed(docs)), spec := Some(Parsed(entries))))
        )
      case FromYaml => if b.uiState.Some? then None else Some(b);
    if p.Some? && ValidateSpec(t, Coalesce(p.value.resources, draft.content.resources), Coalesce(p.value.spec, draft.content.spec))
    then p else None
  }

  /** The status that turns a version down for deployment. */
  function Undeployable(v: VersionRow): Option<int> {
    match v.status
    case Deprecated => Some(400)
    case Draft => Some(409)
    case Published => None
  }

  function LabelsOf(key: ReleaseKey, template: string, version: int, c: Choice): Labels {
    Labels(key.name, template, version, key.name, c.user, c.at)
  }

  /** Choosing a version for a release, looking up the cluster, and rendering: the row to store,
      or a status. */
  ghost function Prepare(t: Text, db: Db, template: string, version: int, key: ReleaseKey, values: Source<Value>, missing: int, c: Choice): (r: (int, Option<ReleaseRow>))
    ensures r.1.Some? ==> r.1.value.key == key && r.1.value.values == values
  {
    match FindVersion(db, template, Int32(version))
    case None => (missing, None)
    case Some(id) =>
      var v := db.versions[id];
      if Undeployable(v).Some? then (Undeployable(v).value, None)
      else if !c.known then (404, None)
      else match RenderDocs(t, v.content.resources, v.content.spec, values, LabelsOf(key, template, version, c))
        case Failed(_) => (400, None)
        case Documents(docs) => (200, Some(ReleaseRow(key, id, values, docs)))
  }

  // --- First steps: reading the tables ---

  ghost function FirstStep(t: Text, db: Db, req: Request, c: Choice): Task {
    if c.fail then Finished(500)
    else match req
      case CreateTemplate(name, body) => (
        match Authored(t, body, c.orders)
        case None => Finished(400)
        case Some(content) => InsertingTemplate(name, body.mode, content)
      )
      case CreateVersion(name, body) => (
        match FindTemplate(db, name)
        case None => Finished(404)
        case Some(id) => (
          match Authored(t, body, c.orders)
          case None => Finished(400)
          case Some(content) => InsertingVersion(id, body.mode, content)
        )
      )
      case PatchVersion(name, number, patch) => (
        match FindVersion(db, name, Int32(number))
        case None => Finished(404)
        case Some(id) =>
          if db.versions[id].status != Draft then Finished(409)
          else match PatchFor(t, db.versions[id], patch, c.orders)
            case None => Finished(400)
            case Some(p) => Patching(id, p)
      )
      case DeleteVersion(name, number) => (
        match FindVersion(db, name, Int32(number))
        case None => Finished(404)
        case Some(id) => if db.versions[id].status != Draft then Finished(409) else Deleting(id)
      )
      case Publish(name, number) =>
        if Int32(number) != number then Finished(400)
        else (
          match FindVersion(db, name, number)
          case None => Finished(404)
          case Some(id) => Publishing(id, db.versions[id].template)
        )
      case Deprecate(name, number) => ReadStatus(db, name, number, Published, Deprecated)
      case Undeprecate(name, number) => ReadStatus(db, name, number, Deprecated, Published)
      case CreateRelease(template, version, key, values) =>
        if version < 1 then Finished(400)
        else
          var prepared := Prepare(t, db, template, version, key, values, 404, c);
          if prepared.1.None? then Finished(prepared.0) else Inserting(prepared.1.value)
      case UpdateRelease(id, version, values) =>
        if version < 1 || values == Malformed || values == Parsed(Null) then Finished(400)
        else if !HasRelease(db, id) then Finished(404)
        else UpdateReading(id, db.releases[id], TemplateOf(db, id), version, values)
      case RemoveRelease(id, force) =>
        if !HasRelease(db, id) then Finished(404)
        else if force then Removing(id, db.releases[id])
        else RemoveCleaning(id, db.releases[id], SUPPORTED, false)
  }

  ghost function ReadStatus(db: Db, name: string, number: int, expected: Status, to: Status): Task {
    match FindVersion(db, name, Int32(number))
    case None => Finished(404)
    case Some(id) => if db.versions[id].status != expected then Finished(409) else SettingStatus(id, to)
  }

  /** A release is read together with its version and template. */
  predicate HasRelease(db: Db, id: Id) {
    && id in db.releases && db.releases[id].version in db.versions
    && db.versions[db.releases[id].version].template in db.templates
  }

  function TemplateOf(db: Db, id: Id): string
    requires HasRelease(db, id)
  {
    db.templates[db.versions[db.releases[id].version].template].name
  }

  // --- Later steps ---

  datatype Outcome = Outcome(db: Db, objs: Objects, task: Task)

  /** The template exists and its next number fits the column; what else can stop an insert is
      a unique index. */
  ghost predicate Numberable(db: Db, template: Id) {
    template in db.templates && NextVersion(db, template) <= MAX_INT32
  }

  /** A statement that fails, finds no row or violates a constraint changes nothing. */
  function Write(db: Db, objs: Objects, c: Choice, result: Option<Db>, refused: int, onward: Task): Outcome {
    if c.fail then Outcome(db, objs, Finished(500))
    else if result.None? then Outcome(db, objs, Finished(refused))
    else Outcome(result.value, objs, onward)
  }

  /** Publishing answers 409 whenever its first statement fails, for whatever reason. */
  ghost function VersionStep(db: Db, objs: Objects, task: Task, c: Choice): Outcome
    requires task.InsertingTemplate? || task.InsertingVersion? || task.Patching? || task.Deleting? || task.Publishing? || task.SettingStatus?
  {
    match task
    case InsertingTemplate(name, mode, content) => Write(db, objs, c, CreateTemplateTx(db, name, mode, content), 409, Finished(201))
    case InsertingVersion(template, mode, content) =>
      Write(db, objs, c, CreateVersionTx(db, template, mode, content), if Numberable(db, template) then 409 else 500, Finished(201))
    case Patching(id, patch) => Write(db, objs, c, UpdateDraft(db, id, patch), 409, Finished(200))
    case Publishing(id, template) =>
      if c.fail && (c.fate == Denied || !IsDraft(db, id)) then Outcome(db, objs, Finished(409))
      else Write(db, objs, c, PublishTx(db, id, template, c.now), 409, Finished(200))
    case SettingStatus(id, to) => Write(db, objs, c, SetStatus(db, id, to, c.now), 500, Finished(200))
    case Deleting(id) =>
      match DeleteDraft(db, id)
      case Gone(later) => Write(db, objs, c, Some(later), 500, Finished(204))
      case NoDraft => Write(db, objs, c, None, 409, Finished(204))
      case Restricted => Write(db, objs, c, None, 500, Finished(204))
  }

  function ApplyStep(objs: Objects, key: ReleaseKey, d: Doc, c: Choice): Objects {
    ApplyOne(objs, key.cluster, key.namespace, d, c.fate)
  }

  predicate StepWell(key: ReleaseKey, d: Doc, c: Choice) {
    AppliedWell(key.cluster, key.namespace, d, c.fate)
  }

  function CleanStep(objs: Objects, key: ReleaseKey, r: Resource, c: Choice): Objects {
    DeleteOne(objs, key.cluster, r, key.namespace, key.name, !c.fail, c.lost)
  }

  /** The steps of creating a release: insert, apply, and on failure clean up and undo. */
  function CreateStep(db: Db, objs: Objects, task: Task, c: Choice): Outcome
    requires task.Inserting? || task.Connecting? || task.CreateApplying? || task.CreateCleaning? || task.CreateUndoing?
  {
    match task
    case Inserting(row) =>
      Write(db, objs, c, InsertRelease(db, row), if KeyTaken(db, row.key) then 409 else 500, Connecting(db.nextId, row))
    case Connecting(id, row) =>
      Outcome(db, objs, if c.fail then CreateUndoing(id, row, 500) else CreateApplying(id, row, row.rendered, false))
    case CreateApplying(id, row, todo, failed) =>
      if todo == [] then Outcome(db, objs, if failed then CreateCleaning(id, row, SUPPORTED) else Finished(201))
      else Outcome(db, ApplyStep(objs, row.key, todo[0], c), CreateApplying(id, row, todo[1..], failed || !StepWell(row.key, todo[0], c)))
    case CreateCleaning(id, row, left) =>
      if left == [] then Outcome(db, objs, CreateUndoing(id, row, 502))
      else Outcome(db, CleanStep(objs, row.key, left[0], c), CreateCleaning(id, row, left[1..]))
    case CreateUndoing(id, row, status) =>
      Outcome(if c.fail then db else DeleteRelease(db, id), objs, Finished(status))
  }

  /** The steps of updating a release: apply, then write, then re-apply the old on failure. */
  ghost function UpdateStep(t: Text, db: Db, objs: Objects, task: Task, c: Choice): Outcome
    requires task.UpdateReading? || task.UpdateApplying? || task.UpdateWriting? || task.UpdateRestoring?
  {
    match task
    case UpdateReading(id, row, owner, version, values) =>
      var prepared := Prepare(t, db, owner, version, row.key, values, 400, Joined(c));
      Outcome(db, objs,
        if c.fail then Finished(500)
        else if prepared.1.None? then Finished(prepared.0)
        else UpdateApplying(id, row, prepared.1.value, prepared.1.value.rendered, false))
    case UpdateApplying(id, row, next, todo, failed) =>
      if todo == [] then Outcome(db, objs, if failed then Finished(502) else UpdateWriting(id, row, next))
      else Outcome(db, ApplyStep(objs, row.key, todo[0], c), UpdateApplying(id, row, next, todo[1..], failed || !StepWell(row.key, todo[0], c)))
    case UpdateWriting(id, row, next) =>
      var result := UpdateReleaseRow(db, id, next.version, next.values, next.rendered);
      if c.fail || result.None? then Outcome(db, objs, UpdateRestoring(id, row, row.rendered))
      else Outcome(result.value, objs, Finished(200))
    case UpdateRestoring(id, row, todo) =>
      if todo == [] then Outcome(db, objs, Finished(500))
      else Outcome(db, ApplyStep(objs, row.key, todo[0], c), UpdateRestoring(id, row, todo[1..]))
  }

  /** The steps of deleting a release: clean up, then delete the row. */
  function RemoveStep(db: Db, objs: Objects, task: Task, c: Choice): Outcome
    requires task.RemoveCleaning? || task.Removing?
  {
    match task
    case RemoveCleaning(id, row, left, failed) =>
      if left == [] then Outcome(db, objs, if failed then Finished(502) else Removing(id, row))
      else Outcome(db, CleanStep(objs, row.key, left[0], c), RemoveCleaning(id, row, left[1..], failed || c.fail))
    case Removing(id, row) => Write(db, objs, c, Some(DeleteRelease(db, id)), 500, Finished(200))
  }

  ghost function StepTask(t: Text, db: Db, objs: Objects, task: Task, c: Choice): Outcome {
    match task
    case Finished(_) => Outcome(db, objs, task)
    case Arrived(req) => Outcome(db, objs, FirstStep(t, db, req, c))
    case UpdateReading(_, _, _, _, _) => UpdateStep(t, db, objs, task, c)
    case UpdateApplying(_, _, _, _, _) => UpdateStep(t, db, objs, task, c)
    case UpdateWriting(_, _, _) => UpdateStep(t, db, objs, task, c)
    case UpdateRestoring(_, _, _) => UpdateStep(t, db, objs, task, c)
    case RemoveCleaning(_, _, _, _) => RemoveStep(db, objs, task, c)
    case Removing(_, _) => RemoveStep(db, objs, task, c)
    case Inserting(_) => CreateStep(db, objs, task, c)
    case Connecting(_, _) => CreateStep(db, objs, task, c)
    case CreateApplying(_, _, _, _) => CreateStep(db, objs, task, c)
    case CreateCleaning(_, _, _) => CreateStep(db, objs, task, c)
    case CreateUndoing(_, _, _) => CreateStep(db, objs, task, c)
    case _ => VersionStep(db, objs, task, c)
  }

  /** A task left to itself for some steps. */
  ghost function RunTask(t: Text, db: Db, objs: Objects, task: Task, cs: seq<Choice>): Outcome
    decreases |cs|
  {
    if cs == [] then Outcome(db, objs, task)
    else
      var out := StepTask(t, db, objs, task, cs[0]);
      RunTask(t, out.db, out.objs, out.task, cs[1..])
  }

  lemma {:induction false} RunConcat(t: Text, db: Db, objs: Objects, task: Task, cs: seq<Choice>, more: seq<Choice>)
    ensures
      var mid := RunTask(t, db, objs, task, cs);
      RunTask(t, db, objs, task, cs + more) == RunTask(t, mid.db, mid.objs, mid.task, more)
    decreases |cs|
  {
    if cs == [] {
      assert cs + more == more;
    } else {
      assert (cs + more)[0] == cs[0] && (cs + more)[1..] == cs[1..] + more;
      var out := StepTask(t, db, objs, task, cs[0]);
      RunConcat(t, out.db, out.objs, out.task, cs[1..], more);
    }
  }

  lemma RunOneMore(t: Text, db: Db, objs: Objects, task: Task, cs: seq<Choice>, c: Choice)
    ensures
      var mid := RunTask(t, db, objs, task, cs);
      RunTask(t, db, objs, task, cs + [c]) == StepTask(t, mid.db, mid.objs, mid.task, c)
  {
    var mid := RunTask(t, db, objs, task, cs);
    RunConcat(t, db, objs, task, cs, [c]);
    assert [c][1..] == [];
  }

  /** A task that has `todo` left to apply. */
  function Applying(task: Task, todo: seq<Doc>, failed: bool): Task
    requires task.CreateApplying? || task.UpdateApplying? || task.UpdateRestoring?
  {
    match task
    case CreateApplying(id, row, _, _) => CreateApplying(id, row, todo, failed)
    case UpdateApplying(id, row, next, _, _) => UpdateApplying(id, row, next, todo, failed)
    case UpdateRestoring(id, row, _) => UpdateRestoring(id, row, todo)
  }

  /** A task that has the resources `left` to clear. */
  function Cleaning(task: Task, left: seq<Resource>, failed: bool): Task
    requires task.CreateCleaning? || task.RemoveCleaning?
  {
    match task
    case CreateCleaning(id, row, _) => CreateCleaning(id, row, left)
    case RemoveCleaning(id, row, _, _) => RemoveCleaning(id, row, left, failed)
  }

  function FateChoices(c: Choice, fates: seq<Fate>): (cs: seq<Choice>)
    ensures |cs| == |fates|
  {
    seq(|fates|, i requires 0 <= i < |fates| => c.(fate := fates[i]))
  }

  function DeleteChoices(c: Choice, oks: seq<bool>, lost: set<ObjKey>): (cs: seq<Choice>)
    ensures |cs| == |oks|
  {
    seq(|oks|, i requires 0 <= i < |oks| => c.(fail := !oks[i], lost := lost))
  }

  lemma UpdateCallStep(t: Text, db: Db, objs: Objects, task: Task, todo: seq<Doc>, failed: bool, c: Choice)
    requires (task.UpdateApplying? || task.UpdateRestoring?) && todo != []
    ensures UpdateStep(t, db, objs, Applying(task, todo, failed), c)
         == Outcome(db, ApplyStep(objs, task.row.key, todo[0], c), Applying(task, todo[1..], failed || !StepWell(task.row.key, todo[0], c)))
  {
  }

  lemma ApplyingStep(t: Text, db: Db, objs: Objects, task: Task, todo: seq<Doc>, failed: bool, c: Choice)
    requires (task.CreateApplying? || task.UpdateApplying? || task.UpdateRestoring?) && todo != []
    ensures StepTask(t, db, objs, Applying(task, todo, failed), c)
         == Outcome(db, ApplyStep(objs, task.row.key, todo[0], c), Applying(task, todo[1..], failed || !StepWell(task.row.key, todo[0], c)))
  {
    if !task.CreateApplying? { UpdateCallStep(t, db, objs, task, todo, failed, c); }
  }

  lemma ApplyingAt(t: Text, db: Db, mid: Objects, task: Task, docs: seq<Doc>, i: nat, failed: bool, fate: Fate, c: Choice)
    requires (task.CreateApplying? || task.UpdateApplying? || task.UpdateRestoring?) && i < |docs|
    ensures
      var key := task.row.key;
      StepTask(t, db, mid, Applying(task, docs[i..], failed), c.(fate := fate))
        == Outcome(db, ApplyOne(mid, key.cluster, key.namespace, docs[i], fate),
                   Applying(task, docs[i + 1..], failed || !AppliedWell(key.cluster, key.namespace, docs[i], fate)))
  {
    assert docs[i..][0] == docs[i] && docs[i..][1..] == docs[i + 1..];
    ApplyingStep(t, db, mid, task, docs[i..], failed, c.(fate := fate));
  }

  /** Where a task stands after applying the first `n` documents. */
  ghost function AppliedUpTo(db: Db, objs: Objects, task: Task, docs: seq<Doc>, fates: seq<Fate>, n: nat): Outcome
    requires (task.CreateApplying? || task.UpdateApplying? || task.UpdateRestoring?) && n <= |docs| == |fates|
  {
    var key := task.row.key;
    Outcome(db, ApplyDocs(objs, key.cluster, key.namespace, docs[..n], fates[..n]),
            Applying(task, docs[n..], !AllApplied(key.cluster, key.namespace, docs[..n], fates[..n])))
  }

  lemma ApplyingNext(t: Text, db: Db, objs: Objects, task: Task, docs: seq<Doc>, fates: seq<Fate>, c: Choice, i: nat)
    requires (task.CreateApplying? || task.UpdateApplying? || task.UpdateRestoring?) && i < |docs| == |fates|
    ensures
      var mid := AppliedUpTo(db, objs, task, docs, fates, i);
      StepTask(t, mid.db, mid.objs, mid.task, c.(fate := fates[i])) == AppliedUpTo(db, objs, task, docs, fates, i + 1)
  {
    var key := task.row.key;
    var mid := ApplyDocs(objs, key.cluster, key.namespace, docs[..i], fates[..i]);
    ApplyingAt(t, db, mid, task, docs, i, !AllApplied(key.cluster, key.namespace, docs[..i], fates[..i]), fates[i], c);
    ApplyOneMore(objs, key.cluster, key.namespace, docs, fates, i);
    AllOneMore(key.cluster, key.namespace, docs, fates, i);
  }

  lemma RunExtends(t: Text, db: Db, objs: Objects, task: Task, cs: seq<Choice>, c: Choice, mid: Outcome, after: Outcome)
    requires RunTask(t, db, objs, task, cs) == mid && StepTask(t, mid.db, mid.objs, mid.task, c) == after
    ensures RunTask(t, db, objs, task, cs + [c]) == after
  {
    RunOneMore(t, db, objs, task, cs, c);
  }

  lemma NothingApplied(db: Db, objs: Objects, task: Task, docs: seq<Doc>, fates: seq<Fate>)
    requires (task.CreateApplying? || task.UpdateApplying? || task.UpdateRestoring?) && |docs| == |fates|
    ensures AppliedUpTo(db, objs, task, docs, fates, 0) == Outcome(db, objs, Applying(task, docs, false))
  {
    assert docs[..0] == [] && docs[0..] == docs;
  }

  lemma OneChoiceMore(cs: seq<Choice>, n: nat)
    requires 0 < n <= |cs|
    ensures cs[..n] == cs[..n - 1] + [cs[n - 1]]
  {
  }

  /** Applying one document per step is applying them all. */
  lemma {:induction false} ApplyingRuns(t: Text, db: Db, objs: Objects, task: Task, docs: seq<Doc>, fates: seq<Fate>, c: Choice, n: nat)
    requires (task.CreateApplying? || task.UpdateApplying? || task.UpdateRestoring?) && n <= |docs| == |fates|
    ensures RunTask(t, db, objs, Applying(task, docs, false), FateChoices(c, fates)[..n]) == AppliedUpTo(db, objs, task, docs, fates, n)
    decreases n
  {
    var cs := FateChoices(c, fates);
    if n > 0 {
      var i := n - 1;
      ApplyingRuns(t, db, objs, task, docs, fates, c, i);
      ApplyingNext(t, db, objs, task, docs, fates, c, i);
      RunExtends(t, db, objs, Applying(task, docs, false), cs[..i], cs[i],
                 AppliedUpTo(db, objs, task, docs, fates, i), AppliedUpTo(db, objs, task, docs, fates, n));
      OneChoiceMore(cs, n);
    } else {
      NothingApplied(db, objs, task, docs, fates);
      assert cs[..0] == [];
    }
  }

  lemma CleaningStep(t: Text, db: Db, objs: Objects, task: Task, left: seq<Resource>, failed: bool, c: Choice)
    requires (task.CreateCleaning? || task.RemoveCleaning?) && left != []
    ensures StepTask(t, db, objs, Cleaning(task, left, failed), c)
         == Outcome(db, CleanStep(objs, task.row.key, left[0], c), Cleaning(task, left[1..], failed || c.fail))
  {
  }

  lemma CleaningAt(t: Text, db: Db, objs: Objects, task: Task, all: seq<Resource>, i: nat, failed: bool, c: Choice)
    requires (task.CreateCleaning? || task.RemoveCleaning?) && i < |all|
    ensures StepTask(t, db, objs, Cleaning(task, all[i..], failed), c)
         == Outcome(db, CleanStep(objs, task.row.key, all[i], c), Cleaning(task, all[i + 1..], failed || c.fail))
  {
    assert all[i..][0] == all[i] && all[i..][1..] == all[i + 1..];
    CleaningStep(t, db, objs, task, all[i..], failed, c);
  }

  ghost predicate AllOk(oks: seq<bool>, n: nat)
    requires n <= |oks|
  {
    forall i :: 0 <= i < n ==> oks[i]
  }

  /** Clearing one resource per step is clearing them all. */
  lemma {:induction false} CleaningRuns(t: Text, db: Db, objs: Objects, task: Task, all: seq<Resource>, oks: seq<bool>, lost: set<ObjKey>, c: Choice, n: nat)
    requires (task.CreateCleaning? || task.RemoveCleaning?) && n <= |all| == |oks|
    ensures
      var key := task.row.key;
      RunTask(t, db, objs, Cleaning(task, all, false), DeleteChoices(c, oks, lost)[..n])
        == Outcome(db, DeleteFirst(objs, key.cluster, all, key.namespace, key.name, oks, lost, n), Cleaning(task, all[n..], !AllOk(oks, n)))
    decreases n
  {
    var cs, key := DeleteChoices(c, oks, lost), task.row.key;
    if n > 0 {
      var i := n - 1;
      var mid := DeleteFirst(objs, key.cluster, all, key.namespace, key.name, oks, lost, i);
      CleaningRuns(t, db, objs, task, all, oks, lost, c, i);
      CleaningAt(t, db, mid, task, all, i, !AllOk(oks, i), cs[i]);
      RunExtends(t, db, objs, Cleaning(task, all, false), cs[..i], cs[i], Outcome(db, mid, Cleaning(task, all[i..], !AllOk(oks, i))),
                 Outcome(db, DeleteFirst(objs, key.cluster, all, key.namespace, key.name, oks, lost, n), Cleaning(task, all[n..], !AllOk(oks, n))));
      assert cs[..n] == cs[..i] + [cs[i]];
    } else {
      assert all[0..] == all && cs[..0] == [];
    }
  }

  // --- The world ---

  datatype World = World(db: Db, objs: Objects, tasks: map<nat, Task>)

  datatype Event = Arrive(tid: nat, req: Request) | Advance(tid: nat, c: Choice) | Crash(tid: nat)

  predicate Enabled(w: World, e: Event) {
    match e
    case Arrive(tid, _) => tid !in w.tasks
    case Advance(tid, _) => tid in w.tasks && !w.tasks[tid].Finished?
    case Crash(tid) => tid in w.tasks
  }

  ghost function Next(t: Text, w: World, e: Event): World
    requires Enabled(w, e)
  {
    match e
    case Arrive(tid, req) => w.(tasks := w.tasks[tid := Arrived(req)])
    case Advance(tid, c) =>
      var out := StepTask(t, w.db, w.objs, w.tasks[tid], c);
      World(out.db, out.objs, w.tasks[tid := out.task])
    case Crash(tid) => w.(tasks := w.tasks - {tid})
  }

  /** `later` is reached from `w` by enabled events. */
  ghost predicate Leads(t: Text, w: World, es: seq<Event>, later: World)
    decreases |es|
  {
    if es == [] then w == later else Enabled(w, es[0]) && Leads(t, Next(t, w, es[0]), es[1..], later)
  }

  const EMPTY := Db(map[], map[], map[], 0)
}
