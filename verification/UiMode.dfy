/** Flattening a document into UI-mode fields and serialising the fields back. */
module UiMode {
  import opened Values
  import opened PathGrammar
  import opened Confluence
  import opened Exactness
  import opened UiSpec
  import DocHeap

  datatype UIField = Fixed(value: Value) | Exposed(spec: Option<SpecEntry>) | UnknownMode

  datatype UIResource = UIResource(apiVersion: string, kind: string, name: string, fields: map<string, UIField>)

  // --- Flattening ---

  /** A document seen as a target whose fields are its leaves. */
  function TreeOf(v: Value): Tree {
    match v
    case Null => Done(Null)
    case Leaf(_) => Done(v)
    case Map(m) => Node(map k | k in m :: TreeOf(m[k]))
    case Arr(a) => List(seq(|a|, i requires 0 <= i < |a| => TreeOf(a[i])))
  }

  lemma {:induction false} TreeOfDocument(v: Value)
    ensures Erase(TreeOf(v)) == v && Plain(TreeOf(v))
  {
    match v
    case Null =>
    case Leaf(_) =>
    case Map(m) =>
      forall k | k in m ensures Erase(TreeOf(m[k])) == m[k] && Plain(TreeOf(m[k])) { TreeOfDocument(m[k]); }
      assert Erase(TreeOf(v)).m == m;
    case Arr(a) =>
      forall i | 0 <= i < |a| ensures Erase(TreeOf(a[i])) == a[i] && Plain(TreeOf(a[i])) { TreeOfDocument(a[i]); }
      assert Erase(TreeOf(v)).a == a;
  }

  /** `s` is the text, below `path`, of the field of `t` at `p`. */
  ghost predicate TextOf(t: Tree, path: string, p: Path, s: string) {
    FieldAt(t, p).Some? && PathText(path, p) == s
  }

  /** `after` is `before` with an entry for every field of `t`. Where two fields share one
      text, one of them is kept. */
  ghost predicate Walked(before: map<string, UIField>, after: map<string, UIField>, t: Tree, path: string) {
    && before.Keys <= after.Keys
    && (forall p, s :: TextOf(t, path, p, s) ==> s in after)
    && (forall s :: s in after ==> Kept(before, after, t, path, s))
  }

  lemma WalkedNothing(f: map<string, UIField>, t: Tree, path: string)
    requires Bare(t)
    ensures Walked(f, f, t, path)
  {
  }

  /** The fields of `whole` are those of `part` and, below `step`, those of `child`. */
  ghost predicate Splits(whole: Tree, part: Tree, step: Seg, child: Tree) {
    forall p :: FieldAt(whole, p) == (if p != [] && p[0] == step then FieldAt(child, p[1..]) else FieldAt(part, p))
  }

  lemma SplitText(whole: Tree, part: Tree, step: Seg, child: Tree, path: string, p: Path, s: string)
    requires Splits(whole, part, step, child)
    ensures TextOf(whole, path, p, s) <==>
            if p != [] && p[0] == step then TextOf(child, Extend(path, step), p[1..], s) else TextOf(part, path, p, s)
  {
  }

  lemma ChildText(whole: Tree, part: Tree, step: Seg, child: Tree, path: string, p: Path, s: string)
    requires Splits(whole, part, step, child) && TextOf(child, Extend(path, step), p, s)
    ensures TextOf(whole, path, [step] + p, s) && FieldAt(whole, [step] + p) == FieldAt(child, p)
  {
    assert ([step] + p)[1..] == p;
    SplitText(whole, part, step, child, path, [step] + p, s);
  }

  /** Walking one more child extends what has been walked. */
  lemma WalkedChild(f: map<string, UIField>, g: map<string, UIField>, h: map<string, UIField>,
                    part: Tree, step: Seg, child: Tree, whole: Tree, path: string)
    requires Walked(f, g, part, path) && Walked(g, h, child, Extend(path, step))
    requires Splits(whole, part, step, child)
    requires forall p :: p != [] && p[0] == step ==> FieldAt(part, p) == None
    ensures Walked(f, h, whole, path)
  {
    forall p, s | TextOf(whole, path, p, s) ensures s in h {
      SplitText(whole, part, step, child, path, p, s);
    }
    forall s | s in h ensures Kept(f, h, whole, path, s) {
      WalkedChildText(f, g, h, part, step, child, whole, path, s);
    }
  }

  /** The entry `s` comes from a field of `t`, or was there before. */
  ghost predicate Kept(before: map<string, UIField>, after: map<string, UIField>, t: Tree, path: string, s: string)
    requires s in after
  {
    || (exists p :: TextOf(t, path, p, s) && after[s] == Fixed(FieldAt(t, p).value))
    || (s in before && after[s] == before[s] && forall p :: !TextOf(t, path, p, s))
  }

  lemma WalkedChildText(f: map<string, UIField>, g: map<string, UIField>, h: map<string, UIField>,
                        part: Tree, step: Seg, child: Tree, whole: Tree, path: string, s: string)
    requires Walked(f, g, part, path) && Walked(g, h, child, Extend(path, step))
    requires Splits(whole, part, step, child) && s in h
    requires forall p :: p != [] && p[0] == step ==> FieldAt(part, p) == None
    ensures Kept(f, h, whole, path, s)
  {
    assert Kept(g, h, child, Extend(path, step), s);
    assert s in g ==> Kept(f, g, part, path, s);
    if p :| TextOf(child, Extend(path, step), p, s) && h[s] == Fixed(FieldAt(child, p).value) {
      ChildText(whole, part, step, child, path, p, s);
    } else if p :| TextOf(part, path, p, s) && g[s] == Fixed(FieldAt(part, p).value) {
      SplitText(whole, part, step, child, path, p, s);
    } else {
      forall p ensures !TextOf(whole, path, p, s) { SplitText(whole, part, step, child, path, p, s); }
    }
  }

  /** The shared table the flattening writes into. */
  class FieldTable {
    var fields: map<string, UIField>

    constructor ()
      ensures fields == map[]
    {
      fields := map[];
    }

    /** One entry per scalar leaf; empty containers leave no trace. */
    method WalkScalars(value: Value, path: string)
      modifies this
      ensures Walked(old(fields), fields, TreeOf(value), path)
      decreases value
    {
      match value {
        case Null =>
          fields := fields[path := Fixed(value)];
          assert TextOf(TreeOf(value), path, [], path);
        case Leaf(_) =>
          fields := fields[path := Fixed(value)];
          assert TextOf(TreeOf(value), path, [], path);
        case Arr(a) =>
          ghost var t := TreeOf(value).a;
          var i := 0;
          WalkedNothing(fields, List(t[..0]), path);
          while i < |a|
            invariant 0 <= i <= |a|
            invariant Walked(old(fields), fields, List(t[..i]), path)
          {
            ghost var g := fields;
            WalkScalars(a[i], Extend(path, Idx(i)));
            WalkedChild(old(fields), g, fields, List(t[..i]), Idx(i), t[i], List(t[..i + 1]), path);
            i := i + 1;
          }
          assert t[..i] == t;
        case Map(m) =>
          ghost var t := TreeOf(value).m;
          var todo := m.Keys;
          ghost var walked: map<string, Tree> := map[];
          WalkedNothing(fields, Node(walked), path);
          while todo != {}
            invariant todo <= m.Keys && walked == (map k | k in m && k !in todo :: t[k])
            invariant Walked(old(fields), fields, Node(walked), path)
            decreases todo
          {
            var k :| k in todo;
            ghost var g := fields;
            WalkScalars(m[k], Extend(path, Key(k)));
            ghost var more := walked[k := t[k]];
            WalkedChild(old(fields), g, fields, Node(walked), Key(k), t[k], Node(more), path);
            walked, todo := more, todo - {k};
          }
          assert walked == t;
      }
    }
  }

  // --- Documents and resources ---

  predicate IsText(m: map<string, Value>, k: string) {
    k in m && m[k].Leaf? && m[k].s.Str?
  }

  function TextAt(m: map<string, Value>, k: string): string {
    if IsText(m, k) then m[k].s.s else ""
  }

  function MetaOf(m: map<string, Value>): map<string, Value> {
    if "metadata" in m && m["metadata"].Map? then m["metadata"].m else map[]
  }

  /** A document the editor accepts: apiVersion, kind and metadata.name are non-empty strings. */
  predicate Named(m: map<string, Value>) {
    TextAt(m, "apiVersion") != "" && TextAt(m, "kind") != "" && TextAt(MetaOf(m), "name") != ""
  }

  /** The document without the three places a resource stores on its own. */
  function BodyOf(m: map<string, Value>): map<string, Value>
    requires Named(m)
  {
    (m - {"apiVersion", "kind"})["metadata" := Map(MetaOf(m) - {"name"})]
  }

  function BodyTree(m: map<string, Value>): Tree
    requires Named(m)
  {
    TreeOf(Map(BodyOf(m)))
  }

  ghost predicate ResourceFor(m: map<string, Value>, r: UIResource)
    requires Named(m)
  {
    && r.apiVersion == TextAt(m, "apiVersion") && r.kind == TextAt(m, "kind") && r.name == TextAt(MetaOf(m), "name")
    && Walked(map[], r.fields, BodyTree(m), "")
  }

  /** One parsed document becomes one resource, unless its identity is incomplete. */
  method ResourceOf(m: map<string, Value>) returns (r: Option<UIResource>)
    ensures r.Some? <==> Named(m)
    ensures r.Some? ==> ResourceFor(m, r.value)
  {
    var apiVersion, kind, name := TextAt(m, "apiVersion"), TextAt(m, "kind"), TextAt(MetaOf(m), "name");
    if apiVersion == "" || kind == "" || name == "" {
      return None;
    }
    var table := new FieldTable();
    table.WalkScalars(Map(BodyOf(m)), "");
    r := Some(UIResource(apiVersion, kind, name, table.fields));
  }

  // --- Serialising ---

  datatype SerializeError = MissingIdentity | BadField(path: string, e: PathError) | MissingSpec(path: string) | BadMode

  datatype Serialized = Rejected(e: SerializeError) | Document(doc: Value, entries: seq<SpecEntry>)

  function Base(r: UIResource): Value {
    Map(map["apiVersion" := Leaf(Str(r.apiVersion)), "kind" := Leaf(Str(r.kind)),
            "metadata" := Map(map["name" := Leaf(Str(r.name))])])
  }

  function EntryPath(r: UIResource, path: string): string {
    r.kind + "[" + r.name + "]." + path
  }

  /** The effect of one field on the document and the ui-spec entries so far. */
  function WriteField(r: UIResource, path: string, doc: Value, entries: seq<SpecEntry>): Serialized
    requires path in r.fields
  {
    match r.fields[path]
    case Fixed(v) => (
      match DocHeap.PutText(doc, path, v)
      case Err(e) => Rejected(BadField(path, e))
      case Ok(d) => Document(d, entries)
    )
    case Exposed(None) => Rejected(MissingSpec(path))
    case Exposed(Some(spec)) => (
      var named := entries + [spec.(path := EntryPath(r, path))];
      if spec.default == Null then Document(doc, named)
      else match DocHeap.PutText(doc, path, spec.default)
        case Err(e) => Rejected(BadField(path, e))
        case Ok(d) => Document(d, named)
    )
    case UnknownMode => Rejected(BadMode)
  }

  function WriteFields(r: UIResource, order: seq<string>, doc: Value, entries: seq<SpecEntry>): Serialized
    requires forall s :: s in order ==> s in r.fields
    decreases |order|
  {
    if order == [] then Document(doc, entries)
    else match WriteField(r, order[0], doc, entries)
      case Rejected(e) => Rejected(e)
      case Document(d, es) => WriteFields(r, order[1..], d, es)
  }

  /** Serialising one resource when its field map is iterated in `order`. */
  function SerializeIn(r: UIResource, order: seq<string>): Serialized
    requires forall s :: s in order ==> s in r.fields
  {
    if r.apiVersion == "" || r.kind == "" || r.name == "" then Rejected(MissingIdentity)
    else WriteFields(r, order, Base(r), [])
  }

  ghost predicate KeyOrder(order: seq<string>, keys: set<string>) {
    NoDuplicates(order) && forall s :: s in order <==> s in keys
  }

  lemma {:induction false} SomeKeyOrder(keys: set<string>) returns (order: seq<string>)
    ensures KeyOrder(order, keys)
    decreases |keys|
  {
    if keys == {} {
      order := [];
    } else {
      var k :| k in keys;
      var rest := SomeKeyOrder(keys - {k});
      order := [k] + rest;
    }
  }

  lemma JoinOrders(a: seq<string>, s: set<string>, b: seq<string>, t: set<string>)
    requires KeyOrder(a, s) && KeyOrder(b, t) && s !! t
    ensures KeyOrder(a + b, s + t)
  {
    forall i, j | 0 <= i < j < |a + b|
      ensures (a + b)[i] != (a + b)[j]
    {
      assert (a + b)[j] == if j < |a| then a[j] else b[j - |a|];
      assert (a + b)[i] == if i < |a| then a[i] else b[i - |a|];
      assert i < |a| ==> a[i] in s;
      assert j >= |a| ==> b[j - |a|] in t;
    }
  }

  lemma {:induction false} WriteFieldsOneMore(r: UIResource, order: seq<string>, s: string, doc: Value, entries: seq<SpecEntry>)
    requires s in r.fields && forall x :: x in order ==> x in r.fields
    ensures WriteFields(r, order + [s], doc, entries) ==
            (match WriteFields(r, order, doc, entries)
             case Rejected(e) => Rejected(e)
             case Document(d, es) => WriteField(r, s, d, es))
    decreases |order|
  {
    if order == [] {
      assert order + [s] == [s] && [s][1..] == [];
    } else {
      assert (order + [s])[0] == order[0] && (order + [s])[1..] == order[1..] + [s];
      var first := WriteField(r, order[0], doc, entries);
      if first.Document? { WriteFieldsOneMore(r, order[1..], s, first.doc, first.entries); }
    }
  }

  lemma {:induction false} RejectedStays(r: UIResource, order: seq<string>, more: seq<string>, doc: Value, entries: seq<SpecEntry>)
    requires forall x :: x in order + more ==> x in r.fields
    requires forall x :: x in order ==> x in r.fields
    requires WriteFields(r, order, doc, entries).Rejected?
    ensures WriteFields(r, order + more, doc, entries) == WriteFields(r, order, doc, entries)
    decreases |order|
  {
    assert (order + more)[1..] == order[1..] + more;
    var first := WriteField(r, order[0], doc, entries);
    if first.Document? { RejectedStays(r, order[1..], more, first.doc, first.entries); }
  }

  /** One field written into the document being built. */
  method WriteFieldInto(r: UIResource, path: string, obj: DocHeap.MapObj, entries: seq<SpecEntry>, ghost doc: DocHeap.Shape)
    returns (e: Option<SerializeError>, es: seq<SpecEntry>, ghost after: DocHeap.Shape)
    requires path in r.fields && DocHeap.Stored(doc) && DocHeap.RefOf(doc) == DocHeap.MapRef(obj)
    modifies DocHeap.Foot(doc)
    ensures DocHeap.Stored(after) && DocHeap.RefOf(after) == DocHeap.MapRef(obj) && fresh(DocHeap.Foot(after) - DocHeap.Foot(doc))
    ensures WriteField(r, path, DocHeap.ValueOf(doc), entries) ==
            if e.Some? then Rejected(e.value) else Document(DocHeap.ValueOf(after), es)
  {
    e, es, after := None, entries, doc;
    var value: Value;
    match r.fields[path] {
      case Fixed(v) => value := v;
      case Exposed(None) => return Some(MissingSpec(path)), es, after;
      case Exposed(Some(spec)) =>
        es := entries + [spec.(path := EntryPath(r, path))];
        if spec.default == Null { return e, es, after; }
        value := spec.default;
      case UnknownMode => return Some(BadMode), es, after;
    }
    var v, out;
    ghost var shape;
    v, shape := DocHeap.Decode(value, DocHeap.Foot(doc));
    out, after := DocHeap.SetJSONPathAbsolute(obj, path, v, doc, shape);
    if out.Err? { e := Some(BadField(path, out.e)); }
  }

  /** The serialiser's loop over one resource: the map is iterated in an order the runtime
      picks, and the document grows in place. */
  method SerializeResource(r: UIResource) returns (out: Serialized, ghost order: seq<string>)
    ensures KeyOrder(order, r.fields.Keys) && out == SerializeIn(r, order)
    ensures exists o :: KeyOrder(o, r.fields.Keys) && out == SerializeIn(r, o)
  {
    order := SomeKeyOrder(r.fields.Keys);
    if r.apiVersion == "" || r.kind == "" || r.name == "" {
      return Rejected(MissingIdentity), order;
    }
    var root;
    ghost var doc;
    root, doc := DocHeap.Decode(Base(r), {});
    var obj, entries, todo := root.o, [], r.fields.Keys;
    order := [];
    while todo != {}
      invariant todo <= r.fields.Keys && KeyOrder(order, r.fields.Keys - todo)
      invariant DocHeap.Stored(doc) && DocHeap.RefOf(doc) == DocHeap.MapRef(obj) && fresh(DocHeap.Foot(doc))
      invariant WriteFields(r, order, Base(r), []) == Document(DocHeap.ValueOf(doc), entries)
      decreases todo
    {
      var s :| s in todo;
      WriteFieldsOneMore(r, order, s, Base(r), []);
      order, todo := order + [s], todo - {s};
      var e, es;
      ghost var after;
      e, es, after := WriteFieldInto(r, s, obj, entries, doc);
      if e.Some? {
        order := RejectedOrder(r, order, todo);
        return Rejected(e.value), order;
      }
      doc, entries := after, es;
    }
    var value := DocHeap.Encode(DocHeap.MapRef(obj), doc);
    out := Document(value, entries);
  }

  /** A rejection stays, in whatever order the remaining fields would have come. */
  lemma RejectedOrder(r: UIResource, order: seq<string>, todo: set<string>) returns (all: seq<string>)
    requires todo <= r.fields.Keys && KeyOrder(order, r.fields.Keys - todo) && WriteFields(r, order, Base(r), []).Rejected?
    ensures KeyOrder(all, r.fields.Keys) && WriteFields(r, all, Base(r), []) == WriteFields(r, order, Base(r), [])
  {
    var rest := SomeKeyOrder(todo);
    JoinOrders(order, r.fields.Keys - todo, rest, todo);
    assert r.fields.Keys - todo + todo == r.fields.Keys;
    RejectedStays(r, order, rest, Base(r), []);
    all := order + rest;
  }
}
