/** The editor's whole trip: a state serialised to its two texts, and the state the editor builds
    when it opens exactly these texts again. */
module EditorTrip {
  import opened Values
  import opened PathGrammar
  import opened PathWriters
  import opened Confluence
  import opened Gaps
  import opened UiSpec
  import opened Targets
  import opened Stamps
  import opened UiMode
  import opened UiState
  import opened RoundTrip
  import opened RenderLaws

  /** No two fields meet, none touches the identity, and every field that is written stands under
      a text the flattening would build too, with identifier keys inside its value. */
  ghost predicate Reopenable(r: UIResource) {
    && AllSpecced(r) && ApartFields(r)
    && (forall s :: s in r.fields && Tokens(s).Ok? ==>
          && Apart(PathOf(s), [Key("apiVersion")]) && Apart(PathOf(s), [Key("kind")])
          && Apart(PathOf(s), [Key("metadata"), Key("name")]))
    && forall s :: s in r.fields && Written(r.fields[s]).Some? ==>
         Addressable(Written(r.fields[s]).value) && PathText("", PathOf(s)) == s
  }

  /** Every scalar of the document outside its identity stands at the text of a field. The scalars
      that do not are the nulls an array was grown with and the inside of a default. */
  ghost predicate NoGaps(m: Doc, r: UIResource)
    requires Named(m)
  {
    forall p :: FieldAt(BodyTree(m), p).Some? ==> PathText("", p) in r.fields
  }

  /** The state with its entries as the ui-spec names them. */
  function Renamed(r: UIResource): UIResource
    requires forall s :: s in r.fields ==> HasSpec(r.fields[s])
  {
    r.(fields := map s | s in r.fields ::
      if r.fields[s].Exposed? then Exposed(Some(EntryFor(r, s))) else r.fields[s])
  }

  // --- The serialised document ---

  /** Paths apart from every written field read as in the base document. */
  lemma {:induction false} WriteFieldsFrame(r: UIResource, order: seq<string>, doc: Value, entries: seq<SpecEntry>, q: Path)
    requires AllSpecced(r) && forall s :: s in order ==> s in r.fields
    requires forall s :: s in order && Tokens(s).Ok? ==> Apart(PathOf(s), q)
    requires Get(doc, q).Some? && doc.Map? && WriteFields(r, order, doc, entries).Document?
    ensures WriteFields(r, order, doc, entries).doc.Map?
    ensures Get(WriteFields(r, order, doc, entries).doc, q) == Get(doc, q)
    decreases |order|
  {
    if order != [] {
      var s := order[0];
      var first := WriteField(r, s, doc, entries);
      WriteIsPut(r, s, doc, entries);
      if Written(r.fields[s]).Some? {
        PutKeepsMap(doc, PathOf(s), Written(r.fields[s]).value);
        PutFrame(doc, PathOf(s), Written(r.fields[s]).value, q);
      }
      WriteFieldsFrame(r, order[1..], first.doc, first.entries, q);
    }
  }

  lemma {:induction false} WrittenIsAddressable(r: UIResource, order: seq<string>, doc: Value, entries: seq<SpecEntry>)
    requires Reopenable(r) && (forall s :: s in order ==> s in r.fields) && Addressable(doc)
    requires WriteFields(r, order, doc, entries).Document?
    ensures Addressable(WriteFields(r, order, doc, entries).doc)
    decreases |order|
  {
    if order != [] {
      var s := order[0];
      var first := WriteField(r, s, doc, entries);
      WriteIsPut(r, s, doc, entries);
      if Written(r.fields[s]).Some? {
        PutKeepsAddressable(doc, PathOf(s), Written(r.fields[s]).value);
      }
      WrittenIsAddressable(r, order[1..], first.doc, first.entries);
    }
  }

  lemma BaseReads(r: UIResource)
    ensures Base(r).Map?
    ensures Get(Base(r), [Key("apiVersion")]) == Some(Leaf(Str(r.apiVersion)))
    ensures Get(Base(r), [Key("kind")]) == Some(Leaf(Str(r.kind)))
    ensures Get(Base(r), [Key("metadata"), Key("name")]) == Some(Leaf(Str(r.name)))
  {
    BaseIsIdentified(r);
    IdentityReads(Base(r).m, r);
    GetKey(Base(r).m, "apiVersion", []);
    assert [Key("apiVersion")] + [] == [Key("apiVersion")];
  }

  lemma IdentityFound(m: Doc, r: UIResource)
    requires Get(Map(m), [Key("apiVersion")]) == Some(Leaf(Str(r.apiVersion)))
    requires Get(Map(m), [Key("kind")]) == Some(Leaf(Str(r.kind)))
    requires Get(Map(m), [Key("metadata"), Key("name")]) == Some(Leaf(Str(r.name)))
    ensures TextAt(m, "apiVersion") == r.apiVersion && TextAt(m, "kind") == r.kind && TextAt(MetaOf(m), "name") == r.name
  {
    IdentityReads(m, r);
    GetKey(m, "apiVersion", []);
    assert [Key("apiVersion")] + [] == [Key("apiVersion")];
  }

  /** The serialised document is accepted by the editor under the same identity. */
  lemma DocumentIsNamed(r: UIResource, order: seq<string>)
    requires Reopenable(r) && KeyOrder(order, r.fields.Keys) && SerializeIn(r, order).Document?
    ensures
      var doc := SerializeIn(r, order).doc;
      && doc.Map? && Named(doc.m) && Addressable(doc)
      && TextAt(doc.m, "apiVersion") == r.apiVersion && TextAt(doc.m, "kind") == r.kind && TextAt(MetaOf(doc.m), "name") == r.name
  {
    BaseReads(r);
    WriteFieldsFrame(r, order, Base(r), [], [Key("apiVersion")]);
    WriteFieldsFrame(r, order, Base(r), [], [Key("kind")]);
    WriteFieldsFrame(r, order, Base(r), [], [Key("metadata"), Key("name")]);
    IdentityFound(SerializeIn(r, order).doc.m, r);
    BaseIsSolid(r);
    WrittenIsAddressable(r, order, Base(r), []);
  }

  // --- What flattening it stores ---

  /** The fields of a document are its scalars. */
  lemma {:induction false} FieldsAreScalars(v: Value, p: Path)
    ensures FieldAt(TreeOf(v), p) == if Get(v, p).Some? && IsScalar(Get(v, p).value) then Get(v, p) else None
    decreases |p|
  {
    if p != [] {
      match p[0]
      case Key(k) => if v.Map? && k in v.m { FieldsAreScalars(v.m[k], p[1..]); }
      case Idx(i) => if v.Arr? && i < |v.a| { FieldsAreScalars(v.a[i], p[1..]); }
    }
  }

  /** Every written field is stored again, as a fixed one. */
  lemma WrittenIsStored(r: UIResource, order: seq<string>, flat: UIResource, s: string)
    requires Reopenable(r) && KeyOrder(order, r.fields.Keys) && SerializeIn(r, order).Document?
    requires SerializeIn(r, order).doc.Map? && Named(SerializeIn(r, order).doc.m) && Addressable(SerializeIn(r, order).doc)
    requires ResourceFor(SerializeIn(r, order).doc.m, flat)
    requires s in r.fields && Written(r.fields[s]).Some? && IsScalar(Written(r.fields[s]).value)
    ensures s in flat.fields && flat.fields[s] == Fixed(Written(r.fields[s]).value)
  {
    var doc, p := SerializeIn(r, order).doc, PathOf(s);
    var m := doc.m;
    FieldsAreReadable(r, order, Base(r), [], s);
    FieldsAreScalars(doc, p);
    BodyFields(m, p);
    assert InBody(p) && TextOf(BodyTree(m), "", p, s);
    assert Kept(map[], flat.fields, BodyTree(m), "", s);
    var q :| TextOf(BodyTree(m), "", q, s) && flat.fields[s] == Fixed(FieldAt(BodyTree(m), q).value);
    BodyText(m, q);
  }

  /** Nothing else is stored exactly when there are no gaps. */
  lemma StoredOnlyFields(m: Doc, r: UIResource, flat: UIResource)
    requires Named(m) && ResourceFor(m, flat)
    ensures NoGaps(m, r) <==> forall s :: s in flat.fields ==> s in r.fields
  {
    if NoGaps(m, r) {
      forall s | s in flat.fields ensures s in r.fields {
        assert Kept(map[], flat.fields, BodyTree(m), "", s);
      }
    }
    if forall s :: s in flat.fields ==> s in r.fields {
      forall p | FieldAt(BodyTree(m), p).Some? ensures PathText("", p) in r.fields {
        assert TextOf(BodyTree(m), "", p, PathText("", p));
      }
    }
  }

  // --- Reopening ---

  lemma {:induction false} PromotionKeepsVersions(rs: seq<UIResource>, es: seq<SpecEntry>)
    ensures forall i :: 0 <= i < |rs| ==> PromoteAll(rs, es)[i].apiVersion == rs[i].apiVersion
    decreases |es|
  {
    if es != [] { PromotionKeepsVersions(Promote(rs, es[0]), es[1..]); }
  }

  predicate FixedScalars(r: UIResource) {
    forall s :: s in r.fields && r.fields[s].Fixed? ==> IsScalar(r.fields[s].value)
  }

  /** One reopened resource is the old one exactly when its fixed fields are scalars and its
      document has no gaps. */
  lemma OneReopened(r: UIResource, order: seq<string>, flat: UIResource, out: UIResource)
    requires Reopenable(r) && KeyOrder(order, r.fields.Keys) && SerializeIn(r, order).Document?
    requires SerializeIn(r, order).doc.Map? && Named(SerializeIn(r, order).doc.m) && Addressable(SerializeIn(r, order).doc)
    requires ResourceFor(SerializeIn(r, order).doc.m, flat)
    requires out.apiVersion == r.apiVersion && out.kind == r.kind && out.name == r.name
    requires forall s :: Reopened(r, flat, out, s)
    ensures out == Renamed(r) <==> FixedScalars(r) && NoGaps(SerializeIn(r, order).doc.m, r)
  {
    StoredOnlyFields(SerializeIn(r, order).doc.m, r, flat);
    if FixedScalars(r) {
      forall s | s in r.fields ensures s in out.fields && out.fields[s] == Renamed(r).fields[s] {
        FieldReopened(r, order, flat, out, s);
      }
      forall s | s !in r.fields ensures s in out.fields <==> s in flat.fields {
        assert Reopened(r, flat, out, s);
      }
      SameFields(Renamed(r).fields, out.fields);
    } else {
      FixedContainerIsLost(r, order, flat, out);
    }
  }

  /** A fixed field that holds a container is never given back. */
  lemma FixedContainerIsLost(r: UIResource, order: seq<string>, flat: UIResource, out: UIResource)
    requires KeyOrder(order, r.fields.Keys) && SerializeIn(r, order).Document?
    requires SerializeIn(r, order).doc.Map? && Named(SerializeIn(r, order).doc.m) && ResourceFor(SerializeIn(r, order).doc.m, flat)
    requires AllSpecced(r) && !FixedScalars(r) && forall s :: Reopened(r, flat, out, s)
    ensures out != Renamed(r)
  {
    StoredPlain(SerializeIn(r, order).doc.m, flat);
    var s :| s in r.fields && r.fields[s].Fixed? && !IsScalar(r.fields[s].value);
    assert Reopened(r, flat, out, s);
    assert Renamed(r).fields[s] == r.fields[s];
  }

  lemma SameFields(a: map<string, UIField>, b: map<string, UIField>)
    requires forall s :: s in a ==> s in b && b[s] == a[s]
    ensures a == b <==> forall s :: s in b ==> s in a
  {
  }

  lemma FieldReopened(r: UIResource, order: seq<string>, flat: UIResource, out: UIResource, s: string)
    requires Reopenable(r) && FixedScalars(r) && KeyOrder(order, r.fields.Keys) && SerializeIn(r, order).Document?
    requires SerializeIn(r, order).doc.Map? && Named(SerializeIn(r, order).doc.m) && Addressable(SerializeIn(r, order).doc)
    requires ResourceFor(SerializeIn(r, order).doc.m, flat)
    requires s in r.fields && Reopened(r, flat, out, s)
    ensures s in out.fields && out.fields[s] == Renamed(r).fields[s]
  {
    KnownModes(r, order, Base(r), [], s);
    if r.fields[s].Fixed? { WrittenIsStored(r, order, flat, s); }
  }

  function Texts(docs: seq<Doc>): seq<Source<Value>> {
    seq(|docs|, i requires 0 <= i < |docs| => Parsed(Map(docs[i])))
  }

  lemma {:induction false} AllAccepted(docs: seq<Doc>)
    requires forall i :: 0 <= i < |docs| ==> Named(docs[i])
    ensures Accepted(Texts(docs)) == docs
    decreases |docs|
  {
    if docs != [] {
      var n := |docs| - 1;
      assert Texts(docs)[..n] == Texts(docs[..n]);
      AllAccepted(docs[..n]);
    }
  }

  ghost predicate AllReopenable(rs: seq<UIResource>) {
    Addressed(rs) && forall i :: 0 <= i < |rs| ==> Reopenable(rs[i])
  }

  lemma SerializedNamed(rs: seq<UIResource>, orders: seq<seq<string>>)
    requires OrdersFor(rs, orders) && AllReopenable(rs) && SerializeAllIn(rs, orders).Pair?
    ensures
      var docs := SerializeAllIn(rs, orders).docs;
      && |docs| == |rs| && (forall i :: 0 <= i < |rs| ==> Named(docs[i]))
      && forall i :: 0 <= i < |rs| ==>
           && SerializeIn(rs[i], orders[i]).Document? && SerializeIn(rs[i], orders[i]).doc == Map(docs[i]) && Addressable(Map(docs[i]))
           && TextAt(docs[i], "apiVersion") == rs[i].apiVersion && TextAt(docs[i], "kind") == rs[i].kind
           && TextAt(MetaOf(docs[i]), "name") == rs[i].name
  {
    SerializedEach(rs, orders);
    SerializedAt(rs, orders);
    forall i | 0 <= i < |rs|
      ensures SerializeIn(rs[i], orders[i]).doc.Map? && Named(SerializeIn(rs[i], orders[i]).doc.m)
      ensures Addressable(SerializeIn(rs[i], orders[i]).doc)
      ensures
        var m := SerializeIn(rs[i], orders[i]).doc.m;
        TextAt(m, "apiVersion") == rs[i].apiVersion && TextAt(m, "kind") == rs[i].kind && TextAt(MetaOf(m), "name") == rs[i].name
    {
      DocumentIsNamed(rs[i], orders[i]);
    }
  }

  /** The trip in given iteration orders: serialised and opened again, a resource comes back as
      it was, each entry under the path the ui-spec gives it, exactly when its fixed fields are
      scalars and its document has no gaps. */
  lemma StateComesBack(rs: seq<UIResource>, orders: seq<seq<string>>, flat: seq<UIResource>)
    requires OrdersFor(rs, orders) && AllReopenable(rs) && SerializeAllIn(rs, orders).Pair?
    requires ResourcesFor(Accepted(Texts(SerializeAllIn(rs, orders).docs)), flat)
    ensures
      var docs, out := SerializeAllIn(rs, orders).docs, Exposing(flat, Parsed(SerializeAllIn(rs, orders).entries));
      && |docs| == |rs| && (forall i :: 0 <= i < |rs| ==> Named(docs[i]))
      && |out| == |rs| && forall i :: 0 <= i < |rs| ==> (out[i] == Renamed(rs[i]) <==> FixedScalars(rs[i]) && NoGaps(docs[i], rs[i]))
  {
    var docs, entries := SerializeAllIn(rs, orders).docs, SerializeAllIn(rs, orders).entries;
    SerializedNamed(rs, orders);
    AllAccepted(docs);
    var out := PromoteAll(flat, entries);
    forall i | 0 <= i < |rs| ensures ResourceFor(docs[i], flat[i]) { }
    ExposuresSurvive(rs, orders, flat);
    PromotionKeepsVersions(flat, entries);
    forall i | 0 <= i < |rs| ensures out[i] == Renamed(rs[i]) <==> FixedScalars(rs[i]) && NoGaps(docs[i], rs[i]) {
      forall s ensures Reopened(rs[i], flat[i], out[i], s) { }
      OneReopened(rs[i], orders[i], flat[i], out[i]);
    }
  }
}
