/** Flatten, then serialise: the exact documents the trip reproduces. */
module RoundTrip {
  import opened Values
  import opened PathGrammar
  import opened PathWriters
  import opened Confluence
  import opened Exactness
  import opened UiSpec
  import opened UiMode

  /** Whatever the flattening stored and in whatever order the fields are written, the
      document comes back unchanged. */
  ghost predicate RoundTrips(m: map<string, Value>)
    requires Named(m)
  {
    forall r, order :: ResourceFor(m, r) && KeyOrder(order, r.fields.Keys) ==>
      SerializeIn(r, order) == Document(Map(m), [])
  }

  /** Every key is an identifier of the path grammar, every array at most 1025 long. */
  predicate Addressable(v: Value) {
    match v
    case Null => true
    case Leaf(_) => true
    case Map(m) => forall k :: k in m ==> IsIdent(k) && Addressable(m[k])
    case Arr(a) => |a| <= MAX_ARRAY_INDEX + 1 && forall i :: 0 <= i < |a| ==> Addressable(a[i])
  }

  // --- What any serialised document looks like ---

  lemma {:induction false} PutKeepsAddressable(c: Value, p: Path, v: Value)
    requires Addressable(c) && Addressable(v) && Put(c, p, v).Ok?
    requires forall i :: 0 <= i < |p| && p[i].Key? ==> IsIdent(p[i].k)
    ensures Addressable(Put(c, p, v).v)
    decreases |p|
  {
    if |p| > 1 {
      assert forall i :: 0 <= i < |p[1..]| ==> p[1..][i] == p[i + 1];
      match p[0]
      case Key(k) => PutKeepsAddressable(KeyChild(c.m, k, p[1]), p[1..], v);
      case Idx(i) => PutKeepsAddressable(SlotChild(Grow(c.a, i + 1, Placeholder(p[1]))[i], p[1]), p[1..], v);
    }
  }

  ghost predicate PlainFixed(r: UIResource) {
    forall s :: s in r.fields ==> r.fields[s].Fixed? && (r.fields[s].value.Leaf? || r.fields[s].value.Null?)
  }

  lemma {:induction false} WrittenIsAddressableAndSolid(r: UIResource, order: seq<string>, doc: Value, entries: seq<SpecEntry>)
    requires forall s :: s in order ==> s in r.fields
    requires PlainFixed(r) && Addressable(doc) && Solid(doc)
    requires WriteFields(r, order, doc, entries).Document?
    ensures Addressable(WriteFields(r, order, doc, entries).doc) && Solid(WriteFields(r, order, doc, entries).doc)
    decreases |order|
  {
    if order != [] {
      var v := r.fields[order[0]].value;
      var p := Tokens(order[0]).v;
      PutKeepsAddressable(doc, p, v);
      PutKeepsSolid(doc, p, v);
      WrittenIsAddressableAndSolid(r, order[1..], Put(doc, p, v).v, entries);
    }
  }

  lemma {:induction false} FieldsExpressible(v: Value, p: Path)
    requires Addressable(v) && FieldAt(TreeOf(v), p).Some?
    ensures Expressible(p)
    decreases |p|
  {
    if p != [] {
      var child := if v.Map? then v.m[p[0].k] else v.a[p[0].i];
      FieldsExpressible(child, p[1..]);
      assert forall i :: 1 <= i < |p| ==> p[i] == p[1..][i - 1];
    }
  }

  // --- Path orders and text orders ---

  /** The body fields of an addressable document are read back from their texts. */
  lemma BodyText(m: map<string, Value>, p: Path)
    requires Named(m) && Addressable(Map(m)) && FieldAt(BodyTree(m), p).Some?
    ensures Tokens(PathText("", p)) == Ok(p)
  {
    assert Addressable(Map(BodyOf(m)));
    FieldsExpressible(Map(BodyOf(m)), p);
    TokensOfPathText(p);
  }

  ghost predicate InBody(p: Path) {
    p != [Key("apiVersion")] && p != [Key("kind")] && p != [Key("metadata"), Key("name")]
  }

  /** The body has exactly the fields outside the resource's identity. */
  lemma BodyFields(m: map<string, Value>, p: Path)
    requires Named(m)
    ensures FieldAt(BodyTree(m), p) == if InBody(p) then FieldAt(TreeOf(Map(m)), p) else None
  {
    var body, meta := BodyOf(m), MetaOf(m);
    if p != [] && p[0].Key? {
      var k, q := p[0].k, p[1..];
      assert p == [Key(k)] + q;
      if k == "metadata" {
        MetaFields(meta, q);
        assert m["metadata"] == Map(meta) && body["metadata"] == Map(meta - {"name"});
      } else if k in body {
        assert body[k] == m[k];
      }
    }
  }

  lemma MetaFields(meta: map<string, Value>, q: Path)
    requires IsText(meta, "name")
    ensures FieldAt(TreeOf(Map(meta - {"name"})), q) == if q == [Key("name")] then None else FieldAt(TreeOf(Map(meta)), q)
  {
    var trimmed := meta - {"name"};
    if q != [] && q[0].Key? {
      assert q == [q[0]] + q[1..];
      if q[0].k in trimmed { assert trimmed[q[0].k] == meta[q[0].k]; }
    }
  }

  /** With addressable keys, what is stored is determined: one entry per body field. */
  lemma StoredFields(m: map<string, Value>, r: UIResource)
    requires Named(m) && Addressable(Map(m)) && ResourceFor(m, r)
    ensures forall s :: s in r.fields <==> TextOf(BodyTree(m), "", PathOf(s), s)
    ensures forall s :: s in r.fields ==> r.fields[s] == Fixed(FieldAt(BodyTree(m), PathOf(s)).value)
  {
    forall s | s in r.fields
      ensures TextOf(BodyTree(m), "", PathOf(s), s) && r.fields[s] == Fixed(FieldAt(BodyTree(m), PathOf(s)).value)
    {
      var p :| TextOf(BodyTree(m), "", p, s) && r.fields[s] == Fixed(FieldAt(BodyTree(m), p).value);
      BodyText(m, p);
    }
  }

  /** Writing texts is writing the paths they stand for. */
  lemma {:induction false} TextsArePaths(r: UIResource, t: Tree, order: seq<string>, doc: Value)
    requires forall s :: s in order ==>
      s in r.fields && Tokens(s).Ok? && FieldAt(t, PathOf(s)).Some? && r.fields[s] == Fixed(FieldAt(t, PathOf(s)).value)
    ensures
      var paths := seq(|order|, i requires 0 <= i < |order| => PathOf(order[i]));
      && (forall p :: p in paths ==> FieldAt(t, p).Some?)
      && (WriteAll(doc, t, paths).Ok? <==> WriteFields(r, order, doc, []).Document?)
      && (WriteAll(doc, t, paths).Ok? ==> WriteFields(r, order, doc, []) == Document(WriteAll(doc, t, paths).v, []))
    decreases |order|
  {
    var paths := seq(|order|, i requires 0 <= i < |order| => PathOf(order[i]));
    if order != [] {
      var rest := order[1..];
      assert paths[1..] == seq(|rest|, i requires 0 <= i < |rest| => PathOf(rest[i]));
      var first := Put(doc, paths[0], FieldAt(t, paths[0]).value);
      TextsArePaths(r, t, rest, if first.Ok? then first.v else doc);
    }
  }

  function BodyFieldSet(r: UIResource): set<Path> {
    set s | s in r.fields :: PathOf(s)
  }

  lemma BodyFieldSetIsBody(m: map<string, Value>, r: UIResource)
    requires Named(m) && Addressable(Map(m)) && ResourceFor(m, r)
    ensures forall p :: p in BodyFieldSet(r) <==> FieldAt(BodyTree(m), p).Some?
    ensures forall p :: p in BodyFieldSet(r) ==> FieldAt(TreeOf(Map(m)), p) == FieldAt(BodyTree(m), p)
  {
    StoredFields(m, r);
    forall p
      ensures p in BodyFieldSet(r) <==> FieldAt(BodyTree(m), p).Some?
      ensures p in BodyFieldSet(r) ==> FieldAt(TreeOf(Map(m)), p) == FieldAt(BodyTree(m), p)
    {
      BodyFields(m, p);
      if FieldAt(BodyTree(m), p).Some? {
        BodyText(m, p);
        var s := PathText("", p);
        assert TextOf(BodyTree(m), "", p, s);
        assert s in r.fields && PathOf(s) == p;
      }
    }
  }

  lemma BaseIsSolid(r: UIResource)
    ensures NoSlots(Base(r)) && Solid(Base(r)) && Addressable(Base(r))
  {
    var name := map["name" := Leaf(Str(r.name))];
    assert name["name"] == Leaf(Str(r.name)) && name != map[];
    var top := Base(r).m;
    assert top.Keys == {"apiVersion", "kind", "metadata"};
    assert top["metadata"] == Map(name) && top["kind"].Leaf? && top["apiVersion"].Leaf?;
    var inner := Map(name);
    assert inner.m["name"].Leaf? && inner.m.Keys == {"name"};
    assert forall k :: k in inner.m ==> k == "name";
    assert !IsEmpty(inner.m["name"]) && Solid(inner.m["name"]);
    assert Solid(inner) && !IsEmpty(inner);
    assert forall k :: k in top ==> Solid(top[k]) && !IsEmpty(top[k]);
  }

  lemma BaseIsPartial(m: map<string, Value>, r: UIResource)
    requires Named(m)
    ensures Partial(Base(r), TreeOf(Map(m)))
  {
    var top, t := Base(r).m, TreeOf(Map(m)).m;
    assert top["metadata"] == Map(map["name" := Leaf(Str(r.name))]);
    var meta := MetaOf(m);
    assert m["metadata"] == Map(meta) && t["metadata"] == TreeOf(Map(meta));
    assert TreeOf(Map(meta)).m["name"] == TreeOf(meta["name"]) == Done(meta["name"]);
    assert Partial(top["metadata"], t["metadata"]);
    assert t["kind"] == TreeOf(m["kind"]) && t["apiVersion"] == TreeOf(m["apiVersion"]);
  }

  lemma BaseIdentity(m: map<string, Value>, r: UIResource, p: Path)
    requires Named(m) && !InBody(p)
    requires r.apiVersion == TextAt(m, "apiVersion") && r.kind == TextAt(m, "kind") && r.name == TextAt(MetaOf(m), "name")
    ensures HasField(Base(r), TreeOf(Map(m)), p)
  {
    var top := Base(r).m;
    if |p| == 1 {
      assert p[1..] == [];
      assert top[p[0].k] == m[p[0].k];
    } else {
      var q := p[1..];
      assert q == [Key("name")] && q[1..] == [];
      var meta := MetaOf(m);
      assert m["metadata"] == Map(meta) && top["metadata"] == Map(map["name" := Leaf(Str(r.name))]);
      assert Get(top["metadata"], q) == Some(meta["name"]);
      assert FieldAt(TreeOf(Map(meta)), q) == Some(meta["name"]);
    }
  }

  /** The base document is a slotless partial copy carrying exactly the identity fields. */
  lemma BaseSeeds(m: map<string, Value>, r: UIResource)
    requires Named(m) && Addressable(Map(m)) && ResourceFor(m, r)
    ensures Seeds(Base(r), TreeOf(Map(m)), BodyFieldSet(r))
  {
    BodyFieldSetIsBody(m, r);
    forall p | p !in BodyFieldSet(r)
      ensures HasField(Base(r), TreeOf(Map(m)), p)
    {
      BodyFields(m, p);
      if !InBody(p) { BaseIdentity(m, r, p); }
    }
  }

  lemma TextsToPaths(m: map<string, Value>, r: UIResource, order: seq<string>)
    requires Named(m) && Addressable(Map(m)) && ResourceFor(m, r) && KeyOrder(order, r.fields.Keys)
    ensures
      var paths := seq(|order|, i requires 0 <= i < |order| => PathOf(order[i]));
      && Lists(paths, BodyFieldSet(r))
      && (forall p :: p in paths ==> FieldAt(TreeOf(Map(m)), p).Some?)
      && (SerializeIn(r, order) == Document(Map(m), []) <==>
          WriteAll(Base(r), TreeOf(Map(m)), paths) == Ok(Map(m)))
  {
    var paths := seq(|order|, i requires 0 <= i < |order| => PathOf(order[i]));
    StoredFields(m, r);
    BodyFieldSetIsBody(m, r);
    forall s | s in order
      ensures Tokens(s).Ok? && FieldAt(BodyTree(m), PathOf(s)).Some? && PathText("", PathOf(s)) == s
    {
      assert s in r.fields;
      BodyText(m, PathOf(s));
    }
    PathsListFields(r, order);
    TextsArePaths(r, TreeOf(Map(m)), order, Base(r));
  }

  lemma PathsListFields(r: UIResource, order: seq<string>)
    requires KeyOrder(order, r.fields.Keys)
    requires forall s :: s in order ==> PathText("", PathOf(s)) == s
    ensures Lists(seq(|order|, i requires 0 <= i < |order| => PathOf(order[i])), BodyFieldSet(r))
  {
    var paths := seq(|order|, i requires 0 <= i < |order| => PathOf(order[i]));
    forall i, j | 0 <= i < j < |paths| ensures paths[i] != paths[j] {
      assert order[i] in order && order[j] in order;
    }
    forall p ensures p in paths <==> p in BodyFieldSet(r) {
      if p in BodyFieldSet(r) {
        var s :| s in r.fields && PathOf(s) == p;
        var i :| 0 <= i < |order| && order[i] == s;
        assert paths[i] == p;
      }
    }
  }

  lemma PathsToTexts(m: map<string, Value>, r: UIResource, paths: seq<Path>)
    requires Named(m) && Addressable(Map(m)) && ResourceFor(m, r) && Lists(paths, BodyFieldSet(r))
    ensures
      var order := seq(|paths|, i requires 0 <= i < |paths| => PathText("", paths[i]));
      KeyOrder(order, r.fields.Keys) && forall i :: 0 <= i < |paths| ==> PathOf(order[i]) == paths[i]
  {
    var order := seq(|paths|, i requires 0 <= i < |paths| => PathText("", paths[i]));
    StoredFields(m, r);
    BodyFieldSetIsBody(m, r);
    forall i | 0 <= i < |paths| ensures PathOf(order[i]) == paths[i] && order[i] in r.fields {
      assert paths[i] in paths;
      BodyText(m, paths[i]);
      assert TextOf(BodyTree(m), "", paths[i], order[i]);
    }
    forall s | s in r.fields ensures s in order {
      var p := PathOf(s);
      assert p in BodyFieldSet(r);
      var i :| 0 <= i < |paths| && paths[i] == p;
      assert order[i] == s;
    }
  }

  ghost predicate EveryTextOrderRebuilds(m: map<string, Value>, r: UIResource) {
    forall order :: KeyOrder(order, r.fields.Keys) ==> SerializeIn(r, order) == Document(Map(m), [])
  }

  /** Every text order rebuilds the document exactly when every path order does. */
  lemma TextOrders(m: map<string, Value>, r: UIResource)
    requires Named(m) && Addressable(Map(m)) && ResourceFor(m, r)
    requires Seeds(Base(r), TreeOf(Map(m)), BodyFieldSet(r))
    ensures EveryTextOrderRebuilds(m, r) <==> EveryOrderRebuilds(Base(r), TreeOf(Map(m)), BodyFieldSet(r))
  {
    TreeOfDocument(Map(m));
    if EveryOrderRebuilds(Base(r), TreeOf(Map(m)), BodyFieldSet(r)) {
      forall order | KeyOrder(order, r.fields.Keys)
        ensures SerializeIn(r, order) == Document(Map(m), [])
      {
        TextsToPaths(m, r, order);
      }
    }
    if EveryTextOrderRebuilds(m, r) {
      forall paths | Lists(paths, BodyFieldSet(r))
        ensures WriteAll(Base(r), TreeOf(Map(m)), paths) == Ok(Map(m))
      {
        PathOrderFollows(m, r, paths);
      }
    }
  }

  lemma PathOrderFollows(m: map<string, Value>, r: UIResource, paths: seq<Path>)
    requires Named(m) && Addressable(Map(m)) && ResourceFor(m, r)
    requires Seeds(Base(r), TreeOf(Map(m)), BodyFieldSet(r))
    requires EveryTextOrderRebuilds(m, r) && Lists(paths, BodyFieldSet(r))
    ensures WriteAll(Base(r), TreeOf(Map(m)), paths) == Ok(Map(m))
  {
    var order := seq(|paths|, i requires 0 <= i < |paths| => PathText("", paths[i]));
    PathsToTexts(m, r, paths);
    TextsToPaths(m, r, order);
    assert seq(|order|, i requires 0 <= i < |order| => PathOf(order[i])) == paths;
  }

  // --- The law ---

  function FieldPaths(t: Tree): set<Path> {
    match t
    case Done(_) => {[]}
    case Node(m) => set k, p | k in m && p in FieldPaths(m[k]) :: [Key(k)] + p
    case List(a) => set i, p | 0 <= i < |a| && p in FieldPaths(a[i]) :: [Idx(i)] + p
  }

  lemma {:induction false} FieldPathsComplete(t: Tree, p: Path)
    requires FieldAt(t, p).Some?
    ensures p in FieldPaths(t)
    decreases |p|
  {
    if p != [] {
      assert p == [p[0]] + p[1..];
      FieldPathsComplete(if t.Node? then t.m[p[0].k] else t.a[p[0].i], p[1..]);
    }
  }

  lemma {:induction false} FieldPathsSound(t: Tree, p: Path)
    requires p in FieldPaths(t)
    ensures FieldAt(t, p).Some?
    decreases t
  {
    match t
    case Done(_) =>
    case Node(m) =>
      var k, q :| k in m && q in FieldPaths(m[k]) && p == [Key(k)] + q;
      FieldPathsSound(m[k], q);
      assert p[1..] == q;
    case List(a) =>
      var i, q :| 0 <= i < |a| && q in FieldPaths(a[i]) && p == [Idx(i)] + q;
      FieldPathsSound(a[i], q);
      assert p[1..] == q;
  }

  ghost function PathWithText(t: Tree, s: string): (p: Path)
    requires exists p :: TextOf(t, "", p, s)
    ensures TextOf(t, "", p, s)
  {
    var p :| TextOf(t, "", p, s);
    p
  }

  /** Some flattening result exists for every accepted document. */
  lemma SomeResource(m: map<string, Value>) returns (r: UIResource)
    requires Named(m)
    ensures ResourceFor(m, r)
  {
    var t := BodyTree(m);
    forall p | p in FieldPaths(t) ensures TextOf(t, "", p, PathText("", p)) { FieldPathsSound(t, p); }
    var texts := set p | p in FieldPaths(t) :: PathText("", p);
    var fields := map s | s in texts :: Fixed(FieldAt(t, PathWithText(t, s)).value);
    forall p, s | TextOf(t, "", p, s) ensures s in fields { FieldPathsComplete(t, p); }
    r := UIResource(TextAt(m, "apiVersion"), TextAt(m, "kind"), TextAt(MetaOf(m), "name"), fields);
  }

  lemma StoredPlain(m: map<string, Value>, r: UIResource)
    requires Named(m) && ResourceFor(m, r)
    ensures PlainFixed(r)
  {
    TreeOfDocument(Map(BodyOf(m)));
    forall s | s in r.fields
      ensures r.fields[s].Fixed? && (r.fields[s].value.Leaf? || r.fields[s].value.Null?)
    {
      var p :| TextOf(BodyTree(m), "", p, s) && r.fields[s] == Fixed(FieldAt(BodyTree(m), p).value);
      PlainField(BodyTree(m), p);
    }
  }

  /** The documents that survive flattening and serialising, for every iteration order of
      the field map, are exactly the addressable, rebuildable ones. */
  lemma RoundTripLaw(m: map<string, Value>)
    requires Named(m)
    ensures RoundTrips(m) <==> Addressable(Map(m)) && Rebuildable(TreeOf(Map(m)))
  {
    TreeOfDocument(Map(m));
    if RoundTrips(m) {
      var r := SomeResource(m);
      var order := SomeKeyOrder(r.fields.Keys);
      StoredPlain(m, r);
      BaseIsSolid(r);
      WrittenIsAddressableAndSolid(r, order, Base(r), []);
      assert Addressable(Map(m));
      BaseSeeds(m, r);
      BaseIsPartial(m, r);
      TextOrders(m, r);
      RebuildLaw(Base(r), TreeOf(Map(m)), BodyFieldSet(r));
    }
    if Addressable(Map(m)) && Rebuildable(TreeOf(Map(m))) {
      forall r, order | ResourceFor(m, r) && KeyOrder(order, r.fields.Keys)
        ensures SerializeIn(r, order) == Document(Map(m), [])
      {
        BaseIsSolid(r);
        BaseIsPartial(m, r);
        BaseSeeds(m, r);
        RebuildLaw(Base(r), TreeOf(Map(m)), BodyFieldSet(r));
        TextOrders(m, r);
      }
    }
  }

  lemma LabelKeysAreAddressable(m: map<string, Value>, labels: map<string, Value>, k: string)
    requires Named(m) && Addressable(Map(m)) && "labels" in MetaOf(m) && MetaOf(m)["labels"] == Map(labels) && k in labels
    ensures IsIdent(k)
  {
    assert Addressable(m["metadata"]) && m["metadata"] == Map(MetaOf(m));
    assert Addressable(MetaOf(m)["labels"]);
  }

  /** The promise does not hold for every document: a label key such as
      `app.kubernetes.io/name` is no identifier, and its document does not survive. */
  lemma NonIdentifierLabelIsLost(m: map<string, Value>, labels: map<string, Value>, k: string)
    requires Named(m) && "labels" in MetaOf(m) && MetaOf(m)["labels"] == Map(labels)
    requires k in labels && !IsIdent(k)
    ensures !RoundTrips(m)
  {
    RoundTripLaw(m);
    if Addressable(Map(m)) { LabelKeysAreAddressable(m, labels, k); }
  }

  /** Nor does a document with an empty map at the top, as in `data: {}`. */
  lemma EmptyMapIsLost(m: map<string, Value>, k: string)
    requires Named(m) && k in m && m[k] == Map(map[])
    ensures !RoundTrips(m)
  {
    RoundTripLaw(m);
    assert TreeOf(Map(m)).m[k] == TreeOf(m[k]) && TreeOf(m[k]).m == map[];
    assert !Rebuildable(TreeOf(m[k]));
  }
}
