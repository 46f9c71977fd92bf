/** The template handlers run on their own: a read, the checks, and one guarded write. Each
    method computes what its task does in its two steps. */
module TemplateHandlers {
  import opened Values
  import opened UiSpec
  import opened UiState
  import opened Render
  import opened Store
  import opened StoreRules
  import opened Cluster
  import opened Handlers

  /** A request taken through its read (under `c`) and, if that does not end it, its write (under `w`). */
  ghost function Handled(t: Text, db: Db, req: Request, c: Choice, w: Choice): (Db, Task) {
    var first := FirstStep(t, db, req, c);
    if first.Finished? then (db, first)
    else
      var out := StepTask(t, db, map[], first, w);
      (out.db, out.task)
  }

  /** What a new version stores of its request: the texts as sent, or one serialisation of the
      state that was sent. */
  ghost predicate StoresBody(b: Body, c: Content) {
    && c.metadata == b.metadata && c.notes == b.notes && c.uiState == b.uiState
    && match b.mode
       case FromYaml => b.resources == Some(c.resources) && b.spec == Some(c.spec)
       case FromUi => b.uiState.Some? && Serialises(b.uiState.value, c.resources, c.spec)
  }

  /** A new draft, and no other version is touched. */
  ghost predicate NewDraft(before: Db, after: Db, id: Id, mode: Mode, number: int, b: Body) {
    && id !in before.versions && id in after.versions && after.versions == before.versions[id := after.versions[id]]
    && after.versions[id].status == Draft && after.versions[id].publishedAt == None
    && after.versions[id].mode == mode && after.versions[id].version == number
    && StoresBody(b, after.versions[id].content)
  }

  lemma AuthoredStoresBody(t: Text, b: Body, orders: seq<seq<string>>)
    requires Authored(t, b, orders).Some?
    ensures StoresBody(b, Authored(t, b, orders).value)
  {
    if b.mode == FromUi { assert OrdersFor(b.uiState.value, orders) && SerializeAllIn(b.uiState.value, orders).Pair?; }
  }

  /** A patched draft: the sent metadata, notes and state are stored, the texts as sent or as
      one serialisation of the sent state, and nothing else changes. */
  ghost predicate PatchStored(before: Db, after: Db, id: Id, b: Patch)
    requires id in before.versions
  {
    && OnlyContentOf(before, after, id)
    && var was, now := before.versions[id].content, after.versions[id].content;
       match before.versions[id].mode
       case FromYaml => b.uiState.None? && ColumnsSet(was, now, b)
       case FromUi =>
         && b.resources.None? && b.spec.None?
         && ColumnsSet(was, now, b.(resources := Some(now.resources), spec := Some(now.spec)))
         && match b.uiState
            case Some(rs) => Serialises(rs, now.resources, now.spec)
            case None => now.resources == was.resources && now.spec == was.spec
  }

  lemma PatchForStores(t: Text, before: Db, after: Db, id: Id, b: Patch, orders: seq<seq<string>>)
    requires id in before.versions && PatchFor(t, before.versions[id], b, orders).Some?
    requires OnlyContentOf(before, after, id)
    requires ColumnsSet(before.versions[id].content, after.versions[id].content, PatchFor(t, before.versions[id], b, orders).value)
    ensures PatchStored(before, after, id, b)
  {
    if before.versions[id].mode == FromUi && b.uiState.Some? {
      assert OrdersFor(b.uiState.value, orders) && SerializeAllIn(b.uiState.value, orders).Pair?;
    }
  }

  /** The content checks shared by the two creating handlers. */
  method Check(t: Text, body: Body) returns (content: Option<Content>, ghost orders: seq<seq<string>>)
    ensures content == Authored(t, body, orders)
    ensures exists os :: content == Authored(t, body, os)
  {
    orders := [];
    var c: Content;
    match body.mode {
      case FromUi =>
        if body.uiState.None? || body.resources.Some? || body.spec.Some? { return None, orders; }
        var out;
        out, orders := SerializeUIMode(body.uiState.value);
        match out {
          case Refused(_) => return None, orders;
          case Pair(docs, entries) => c := Content(Parsed(docs), Parsed(entries), body.metadata, body.notes, body.uiState);
        }
      case FromYaml =>
        if body.uiState.Some? || body.resources.None? || body.spec.None? { return None, orders; }
        c := Content(body.resources.value, body.spec.value, body.metadata, body.notes, None);
    }
    content := if ValidateSpec(t, c.resources, c.spec) then Some(c) else None;
  }

  method CreateTemplate(t: Text, d: Database, name: string, body: Body, c: Choice, w: Choice)
    returns (status: int, ghost orders: seq<seq<string>>)
    requires WellKeyed(d.View())
    modifies d
    ensures !c.fail ==>
      (d.View(), Finished(status)) == Handled(t, old(d.View()), Request.CreateTemplate(name, body), c.(orders := orders), w)
    ensures status == 201 ==> exists id :: NewDraft(old(d.View()), d.View(), id, body.mode, 1, body)
    ensures status != 201 ==> d.View() == old(d.View())
  {
    var content;
    content, orders := Check(t, body);
    if content.None? { return 400, orders; }
    if w.fail { return 500, orders; }
    AuthoredStoresBody(t, body, orders);
    var ok := d.CreateTemplate(name, body.mode, content.value);
    assert ok ==> NewDraft(old(d.View()), d.View(), old(d.nextId) + 1, body.mode, 1, body);
    status := if ok then 201 else 409;
  }

  method CreateVersion(t: Text, d: Database, name: string, body: Body, c: Choice, w: Choice)
    returns (status: int, ghost orders: seq<seq<string>>)
    requires WellKeyed(d.View())
    modifies d
    ensures !c.fail ==>
      (d.View(), Finished(status)) == Handled(t, old(d.View()), Request.CreateVersion(name, body), c.(orders := orders), w)
    ensures status == 201 ==>
      exists template, id :: template in old(d.templates) && old(d.templates)[template].name == name
        && NewDraft(old(d.View()), d.View(), id, body.mode, NextVersion(old(d.View()), template), body)
    ensures status != 201 ==> d.View() == old(d.View())
  {
    orders := [];
    var template := LookUpTemplate(d, name);
    if template.None? { return 404, orders; }
    var content;
    content, orders := Check(t, body);
    if content.None? { return 400, orders; }
    if w.fail { return 500, orders; }
    var next := d.NextTemplateVersion(template.value);
    AuthoredStoresBody(t, body, orders);
    var created := d.CreateTemplateVersion(template.value, body.mode, content.value);
    assert created.Some? ==> NewDraft(old(d.View()), d.View(), created.value, body.mode, next, body);
    status := if created.Some? then 201 else if next > MAX_INT32 then 500 else 409;
  }

  /** The columns a patch sets; the halves are checked next to the draft as read. */
  method PatchColumns(t: Text, draft: VersionRow, b: Patch) returns (p: Option<Patch>, ghost orders: seq<seq<string>>)
    ensures p == PatchFor(t, draft, b, orders)
    ensures exists os :: p == PatchFor(t, draft, b, os)
  {
    orders := [];
    var q := b;
    match draft.mode {
      case FromUi =>
        if b.resources.Some? || b.spec.Some? { return None, orders; }
        if b.uiState.Some? {
          var out;
          out, orders := SerializeUIMode(b.uiState.value);
          match out {
            case Refused(_) => return None, orders;
            case Pair(docs, entries) => q := b.(resources := Some(Parsed(docs)), spec := Some(Parsed(entries)));
          }
        }
      case FromYaml =>
        if b.uiState.Some? { return None, orders; }
    }
    var resources, spec := draft.content.resources, draft.content.spec;
    if q.resources.Some? { resources := q.resources.value; }
    if q.spec.Some? { spec := q.spec.value; }
    p := if ValidateSpec(t, resources, spec) then Some(q) else None;
  }

  method PatchVersion(t: Text, d: Database, name: string, number: int, b: Patch, c: Choice, w: Choice)
    returns (status: int, ghost orders: seq<seq<string>>)
    requires WellKeyed(d.View()) && NumbersUnique(d.versions)
    modifies d
    ensures !c.fail ==>
      (d.View(), Finished(status)) == Handled(t, old(d.View()), Request.PatchVersion(name, number, b), c.(orders := orders), w)
    ensures status == 200 ==>
      exists id :: VersionNamed(old(d.View()), name, Int32(number), id) && old(d.View()).versions[id].status == Draft
        && PatchStored(old(d.View()), d.View(), id, b)
    ensures status != 200 ==> d.View() == old(d.View())
  {
    orders := [];
    var found := LookUp(d, name, Int32(number));
    if found.None? { return 404, orders; }
    var draft := d.versions[found.value];
    if draft.status != Draft { return 409, orders; }
    var p;
    p, orders := PatchColumns(t, draft, b);
    if p.None? { return 400, orders; }
    if w.fail { return 500, orders; }
    var ok := d.UpdateDraftVersion(found.value, p.value);
    if !ok { return 409, orders; }
    status := 200;
    PatchForStores(t, old(d.View()), d.View(), found.value, b, orders);
  }

  method DeleteVersion(t: Text, d: Database, name: string, number: int, c: Choice, w: Choice) returns (status: int)
    requires WellKeyed(d.View()) && NumbersUnique(d.versions)
    modifies d
    ensures !c.fail ==> (d.View(), Finished(status)) == Handled(t, old(d.View()), Request.DeleteVersion(name, number), c, w)
  {
    var found := LookUp(d, name, Int32(number));
    if found.None? { return 404; }
    if d.versions[found.value].status != Draft { return 409; }
    if w.fail { return 500; }
    var gone := d.DeleteDraftVersion(found.value);
    status := match gone case Gone(_) => 204 case NoDraft => 409 case Restricted => 500;
  }

  method PublishVersion(t: Text, d: Database, name: string, number: int, c: Choice, w: Choice) returns (status: int)
    requires WellKeyed(d.View()) && NumbersUnique(d.versions)
    modifies d
    ensures !c.fail ==> (d.View(), Finished(status)) == Handled(t, old(d.View()), Request.Publish(name, number), c, w)
  {
    if Int32(number) != number { return 400; }
    var found := LookUp(d, name, number);
    if found.None? { return 404; }
    var notDraft := d.versions[found.value].status != Draft;
    var ok := d.PublishVersion(found.value, d.versions[found.value].template, w.now, w.fail);
    status := if ok then 200 else if notDraft || w.fate == Denied then 409 else 500;
  }

  /** Deprecating and undeprecating: the status is compared first and then set unconditionally. */
  method SetStatusOf(t: Text, d: Database, name: string, number: int, deprecate: bool, c: Choice, w: Choice) returns (status: int)
    requires WellKeyed(d.View()) && NumbersUnique(d.versions)
    modifies d
    ensures !c.fail ==>
      (d.View(), Finished(status)) ==
      Handled(t, old(d.View()), if deprecate then Request.Deprecate(name, number) else Request.Undeprecate(name, number), c, w)
  {
    var expected, to := if deprecate then Published else Deprecated, if deprecate then Deprecated else Published;
    var found := LookUp(d, name, Int32(number));
    if found.None? { return 404; }
    if d.versions[found.value].status != expected { return 409; }
    if w.fail { return 500; }
    var ok := d.SetVersionStatus(found.value, to, w.now);
    status := if ok then 200 else 500;
  }
}
