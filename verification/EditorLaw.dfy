/** Which editor states come back from their two texts, in every order that serialises them. */
module EditorLaw {
  import opened Values
  import opened PathGrammar
  import opened PathWriters
  import opened Confluence
  import opened Gaps
  import opened UiSpec
  import opened Targets
  import opened UiMode
  import opened UiState
  import opened RoundTrip
  import opened RenderLaws
  import opened EditorTrip

  // --- The fields as writes ---

  function WriteOf(r: UIResource, s: string): Write
    requires s in r.fields && Written(r.fields[s]).Some?
  {
    Write(PathOf(s), Written(r.fields[s]).value)
  }

  function Writes(r: UIResource, order: seq<string>): seq<Write>
    requires forall s :: s in order ==> s in r.fields
    decreases |order|
  {
    if order == [] then []
    else (if Written(r.fields[order[0]]).Some? then [WriteOf(r, order[0])] else []) + Writes(r, order[1..])
  }

  ghost predicate Usable(r: UIResource) {
    forall s :: s in r.fields ==> HasSpec(r.fields[s]) && !r.fields[s].UnknownMode? && (Written(r.fields[s]).Some? ==> Tokens(s).Ok?)
  }

  lemma {:induction false} RunsAsWrites(r: UIResource, order: seq<string>, doc: Value, entries: seq<SpecEntry>)
    requires Usable(r) && forall s :: s in order ==> s in r.fields
    ensures WriteFields(r, order, doc, entries).Document? <==> PutAll(doc, Writes(r, order)).Ok?
    ensures WriteFields(r, order, doc, entries).Document? ==> WriteFields(r, order, doc, entries).doc == PutAll(doc, Writes(r, order)).v
    decreases |order|
  {
    if order != [] {
      var s, rest := order[0], Writes(r, order[1..]);
      var first := WriteField(r, s, doc, entries);
      WriteIsPut(r, s, doc, entries);
      if Written(r.fields[s]).Some? {
        assert Writes(r, order) == [WriteOf(r, s)] + rest && Writes(r, order)[1..] == rest;
      } else {
        assert Writes(r, order) == rest;
      }
      if first.Document? { RunsAsWrites(r, order[1..], first.doc, first.entries); }
    }
  }

  lemma {:induction false} WritesConcat(r: UIResource, a: seq<string>, b: seq<string>)
    requires forall s :: s in a || s in b ==> s in r.fields
    ensures (forall s :: s in a + b ==> s in r.fields) && Writes(r, a + b) == Writes(r, a) + Writes(r, b)
    decreases |a|
  {
    if a == [] {
      assert a + b == b;
    } else {
      assert (a + b)[0] == a[0] && (a + b)[1..] == a[1..] + b;
      WritesConcat(r, a[1..], b);
    }
  }

  lemma {:induction false} WritesMembers(r: UIResource, order: seq<string>, w: Write)
    requires forall s :: s in order ==> s in r.fields
    ensures w in Writes(r, order) <==> exists s :: s in order && Written(r.fields[s]).Some? && w == WriteOf(r, s)
    decreases |order|
  {
    if order != [] {
      WritesMembers(r, order[1..], w);
      assert forall s :: s in order <==> s == order[0] || s in order[1..];
    }
  }

  lemma {:induction false} WritesAreApart(r: UIResource, order: seq<string>)
    requires Usable(r) && Ordered(r, order)
    ensures ApartWrites(Writes(r, order))
    decreases |order|
  {
    if order != [] {
      OrderedTail(r, order);
      WritesAreApart(r, order[1..]);
      if Written(r.fields[order[0]]).Some? {
        var f, rest := WriteOf(r, order[0]), Writes(r, order[1..]);
        forall w | w in rest ensures Apart(f.p, w.p) && Apart(w.p, f.p) { WritesMembers(r, order[1..], w); }
        OneMoreApart(f, rest);
      } else {
        assert Writes(r, order) == Writes(r, order[1..]);
      }
    }
  }

  lemma OneMoreApart(f: Write, rest: seq<Write>)
    requires ApartWrites(rest) && forall w :: w in rest ==> Apart(f.p, w.p) && Apart(w.p, f.p)
    ensures ApartWrites([f] + rest)
  {
  }

  lemma SerializableIsUsable(r: UIResource, order: seq<string>)
    requires AllSpecced(r) && ApartFields(r) && KeyOrder(order, r.fields.Keys) && SerializeIn(r, order).Document?
    ensures Usable(r) && Ordered(r, order)
  {
    forall s | s in r.fields ensures !r.fields[s].UnknownMode? && (Written(r.fields[s]).Some? ==> Tokens(s).Ok?) {
      KnownModes(r, order, Base(r), [], s);
      if Written(r.fields[s]).Some? { FieldsAreReadable(r, order, Base(r), [], s); }
    }
  }

  lemma {:induction false} DocumentIsUsable(r: UIResource, order: seq<string>, doc: Value, entries: seq<SpecEntry>, s: string)
    requires (forall u :: u in order ==> u in r.fields) && WriteFields(r, order, doc, entries).Document? && s in order
    ensures HasSpec(r.fields[s]) && !r.fields[s].UnknownMode? && (Written(r.fields[s]).Some? ==> Tokens(s).Ok?)
    decreases |order|
  {
    var first := WriteField(r, order[0], doc, entries);
    if s == order[0] {
      WriteIsPut(r, s, doc, entries);
    } else {
      DocumentIsUsable(r, order[1..], first.doc, first.entries, s);
    }
  }

  /** A resource serialises exactly when its identity is complete, every mode is known and every
      exposed field has its entry, every text that is written is a path, and all the writes, one
      after the other, go through. */
  lemma SerialisesExactly(r: UIResource, order: seq<string>)
    requires KeyOrder(order, r.fields.Keys)
    ensures SerializeIn(r, order).Document? <==>
            && r.apiVersion != "" && r.kind != "" && r.name != ""
            && (forall s :: s in r.fields ==>
                  match r.fields[s]
                  case Fixed(_) => Tokens(s).Ok?
                  case Exposed(None) => false
                  case Exposed(Some(spec)) => spec.default == Null || Tokens(s).Ok?
                  case UnknownMode => false)
            && PutAll(Base(r), Writes(r, order)).Ok?
  {
    if SerializeIn(r, order).Document? {
      forall s | s in r.fields ensures HasSpec(r.fields[s]) && !r.fields[s].UnknownMode? && (Written(r.fields[s]).Some? ==> Tokens(s).Ok?) {
        DocumentIsUsable(r, order, Base(r), [], s);
      }
      RunsAsWrites(r, order, Base(r), []);
    } else if Usable(r) {
      RunsAsWrites(r, order, Base(r), []);
    }
  }

  // --- Which states come back ---

  /** A field stands at the path, or a written one below it. */
  predicate Filled(r: UIResource, q: Path) {
    PathText("", q) in r.fields || exists s :: s in r.fields && Written(r.fields[s]).Some? && q < PathOf(s)
  }

  predicate SlotsFilled(r: UIResource, at: Path, n: nat) {
    forall j :: 0 <= j < n ==> Filled(r, Slot(at, j))
  }

  /** All slots before the one a path ends in. */
  predicate FilledBefore(r: UIResource, p: Path) {
    p != [] && p[|p| - 1].Idx? ==> SlotsFilled(r, p[..|p| - 1], p[|p| - 1].i)
  }

  /** Every slot before a written one is filled. */
  predicate GapFree(r: UIResource) {
    forall s :: s in r.fields && Written(r.fields[s]).Some? ==> FilledBefore(r, PathOf(s))
  }

  predicate NoScalarsIn(v: Value) {
    match v
    case Map(m) => forall k :: k in m ==> NoScalarsIn(m[k])
    case Arr(a) => forall i :: 0 <= i < |a| ==> NoScalarsIn(a[i])
    case _ => false
  }

  /** A fixed field holds a scalar, a default may also be a container with nothing in it. */
  predicate KeepsValue(f: UIField) {
    match f
    case Fixed(v) => IsScalar(v)
    case Exposed(Some(spec)) => IsScalar(spec.default) || NoScalarsIn(spec.default)
    case _ => true
  }

  predicate Restorable(r: UIResource) {
    GapFree(r) && forall s :: s in r.fields ==> KeepsValue(r.fields[s])
  }

  lemma {:induction false} NoScalarBelow(v: Value, p: Path)
    requires NoScalarsIn(v)
    ensures !ScalarAt(v, p)
    decreases |p|
  {
    if p != [] && Get(v, p).Some? { NoScalarBelow(if v.Map? then v.m[p[0].k] else v.a[p[0].i], p[1..]); }
  }

  lemma {:induction false} SomeScalar(v: Value) returns (p: Path)
    requires !NoScalarsIn(v)
    ensures ScalarAt(v, p)
  {
    match v
    case Null => p := [];
    case Leaf(_) => p := [];
    case Map(m) =>
      var k :| k in m && !NoScalarsIn(m[k]);
      var q := SomeScalar(m[k]);
      p := [Key(k)] + q;
      assert p[1..] == q;
    case Arr(a) =>
      var i :| 0 <= i < |a| && !NoScalarsIn(a[i]);
      var q := SomeScalar(a[i]);
      p := [Idx(i)] + q;
      assert p[1..] == q;
  }

  // --- A restorable resource comes back in every order ---

  lemma BaseScalars(r: UIResource, p: Path)
    requires ScalarAt(Base(r), p)
    ensures !InBody(p)
  {
    var top, tail := Base(r).m, p[1..];
    assert p == [p[0]] + tail && p[0].Key? && p[0].k in top;
    if p[0].k == "metadata" {
      var meta := map["name" := Leaf(Str(r.name))];
      assert ScalarAt(Map(meta), tail) && tail != [] && tail[0] == Key("name");
      assert Get(meta["name"], tail[1..]).Some?;
      assert tail == [tail[0]] + tail[1..] && tail[1..] == [];
    } else {
      assert Get(top[p[0].k], tail).Some? && tail == [];
    }
  }

  lemma ReadsWritten(r: UIResource, order: seq<string>, s: string)
    requires AllSpecced(r) && ApartFields(r) && KeyOrder(order, r.fields.Keys) && SerializeIn(r, order).Document?
    requires s in r.fields && Written(r.fields[s]).Some?
    ensures Tokens(s).Ok? && Get(SerializeIn(r, order).doc, PathOf(s)) == Written(r.fields[s])
  {
    FieldsAreReadable(r, order, Base(r), [], s);
  }

  /** A scalar of the document outside the identity belongs to a field or fills a slot before one. */
  lemma ScalarHasField(r: UIResource, order: seq<string>, p: Path) returns (s: string)
    requires AllSpecced(r) && ApartFields(r) && KeyOrder(order, r.fields.Keys) && SerializeIn(r, order).Document?
    requires ScalarAt(SerializeIn(r, order).doc, p) && InBody(p)
    ensures s in r.fields && Written(r.fields[s]).Some? && (PathOf(s) <= p || Before(p, PathOf(s)))
  {
    SerializableIsUsable(r, order);
    RunsAsWrites(r, order, Base(r), []);
    ScalarFromRun(Base(r), Writes(r, order), p);
    if ScalarAt(Base(r), p) { BaseScalars(r, p); }
    var w :| w in Writes(r, order) && (w.p <= p || Before(p, w.p));
    WritesMembers(r, order, w);
    s :| s in order && Written(r.fields[s]).Some? && w == WriteOf(r, s);
  }

  lemma InsideField(r: UIResource, doc: Value, s: string, p: Path)
    requires s in r.fields && Written(r.fields[s]).Some? && KeepsValue(r.fields[s]) && PathText("", PathOf(s)) == s
    requires Get(doc, PathOf(s)) == Written(r.fields[s]) && PathOf(s) <= p && ScalarAt(doc, p)
    ensures PathText("", p) in r.fields
  {
    InsideValue(doc, PathOf(s), Written(r.fields[s]).value, p);
  }

  /** A kept value has no scalar but itself. */
  lemma InsideValue(c: Value, at: Path, v: Value, p: Path)
    requires Get(c, at) == Some(v) && (IsScalar(v) || NoScalarsIn(v)) && at <= p && ScalarAt(c, p)
    ensures p == at
  {
    var rest := p[|at|..];
    assert p == at + rest;
    GetConcat(c, at, rest);
    if NoScalarsIn(v) { NoScalarBelow(v, rest); }
  }

  lemma NothingBelowScalar(c: Value, q: Path, p: Path)
    requires ScalarAt(c, q) && q < p
    ensures Get(c, p).None?
  {
    assert p == q + p[|q|..];
    GetConcat(c, q, p[|q|..]);
  }

  lemma BeforeIsSlot(q: Path, p: Path)
    requires Before(q, p)
    ensures p != [] && p[|p| - 1].Idx? && q == Slot(p[..|p| - 1], q[|q| - 1].i)
  {
  }

  lemma SlotIsFilled(r: UIResource, order: seq<string>, s: string, p: Path)
    requires AllSpecced(r) && ApartFields(r) && KeyOrder(order, r.fields.Keys) && SerializeIn(r, order).Document?
    requires GapFree(r) && s in r.fields && Written(r.fields[s]).Some? && Before(p, PathOf(s)) && ScalarAt(SerializeIn(r, order).doc, p)
    ensures PathText("", p) in r.fields
  {
    BeforeIsSlot(p, PathOf(s));
    assert Filled(r, p);
    if t :| t in r.fields && Written(r.fields[t]).Some? && p < PathOf(t) {
      ReadsWritten(r, order, t);
      NothingBelowScalar(SerializeIn(r, order).doc, p, PathOf(t));
    }
  }

  lemma RestorableHasNoGaps(r: UIResource, order: seq<string>)
    requires Reopenable(r) && Restorable(r) && KeyOrder(order, r.fields.Keys) && SerializeIn(r, order).Document?
    requires SerializeIn(r, order).doc.Map? && Named(SerializeIn(r, order).doc.m)
    ensures FixedScalars(r) && NoGaps(SerializeIn(r, order).doc.m, r)
  {
    var doc := SerializeIn(r, order).doc;
    forall s | s in r.fields && r.fields[s].Fixed? ensures IsScalar(r.fields[s].value) { assert KeepsValue(r.fields[s]); }
    forall p | FieldAt(BodyTree(doc.m), p).Some? ensures PathText("", p) in r.fields {
      BodyFields(doc.m, p);
      FieldsAreScalars(doc, p);
      var s := ScalarHasField(r, order, p);
      if PathOf(s) <= p {
        ReadsWritten(r, order, s);
        InsideField(r, doc, s, p);
      } else {
        SlotIsFilled(r, order, s, p);
      }
    }
  }

  // --- Every other resource is spoilt in some order ---

  lemma StrayScalar(r: UIResource, doc: Value, p: Path)
    requires doc.Map? && Named(doc.m) && ScalarAt(doc, p) && InBody(p) && PathText("", p) !in r.fields
    ensures !NoGaps(doc.m, r)
  {
    BodyFields(doc.m, p);
    FieldsAreScalars(doc, p);
  }

  /** What a default has inside is stored on its own. */
  lemma InsideIsStored(r: UIResource, order: seq<string>, s: string)
    requires Reopenable(r) && KeyOrder(order, r.fields.Keys) && SerializeIn(r, order).Document?
    requires SerializeIn(r, order).doc.Map? && Named(SerializeIn(r, order).doc.m) && Addressable(SerializeIn(r, order).doc)
    requires s in r.fields && Written(r.fields[s]).Some? && !IsScalar(Written(r.fields[s]).value) && !NoScalarsIn(Written(r.fields[s]).value)
    ensures !NoGaps(SerializeIn(r, order).doc.m, r)
  {
    var doc, v := SerializeIn(r, order).doc, Written(r.fields[s]).value;
    var rest := SomeScalar(v);
    assert rest != [];
    var p := PathOf(s) + rest;
    ReadsWritten(r, order, s);
    GetConcat(doc, PathOf(s), rest);
    assert PathOf(s) <= p && PathOf(s) != p;
    assert InBody(p);
    BodyFields(doc.m, p);
    FieldsAreScalars(doc, p);
    BodyText(doc.m, p);
    StrayScalar(r, doc, p);
  }

  /** The element `x` moved forward to place `k`. */
  function Moved(order: seq<string>, k: nat, x: nat): seq<string>
    requires k <= x < |order|
  {
    order[..k] + ([order[x]] + (order[k..x] + order[x + 1..]))
  }

  lemma MovedIsOrder(order: seq<string>, keys: set<string>, k: nat, x: nat)
    requires KeyOrder(order, keys) && k <= x < |order|
    ensures KeyOrder(Moved(order, k, x), keys)
  {
    var o := Moved(order, k, x);
    assert forall y :: 0 <= y < |o| ==> o[y] == order[if y < k || y > x then y else if y == k then x else y - 1];
    forall s | s in order ensures s in o {
      var y :| 0 <= y < |order| && order[y] == s;
      assert o[if y < k || y > x then y else if y == x then k else y + 1] == s;
    }
  }

  predicate Through(r: UIResource, s: string, at: Path) {
    s in r.fields && Written(r.fields[s]).Some? && at <= PathOf(s)
  }

  lemma FirstIn(order: seq<string>, chosen: set<string>, x: nat) returns (k: nat)
    requires x < |order| && order[x] in chosen
    ensures k <= x && order[k] in chosen && forall y :: 0 <= y < k ==> order[y] !in chosen
  {
    k := 0;
    while order[k] !in chosen
      invariant k <= x && forall y :: 0 <= y < k ==> order[y] !in chosen
      decreases x - k
    {
      k := k + 1;
    }
  }

  /** The first field written through `at`. */
  lemma FirstThrough(r: UIResource, order: seq<string>, at: Path, x: nat) returns (k: nat)
    requires x < |order| && Through(r, order[x], at)
    ensures k <= x && Through(r, order[k], at) && forall s :: s in order[..k] ==> !Through(r, s, at)
  {
    var through := set s | s in r.fields && Through(r, s, at);
    k := FirstIn(order, through, x);
  }

  lemma PrefixOfSlot(at: Path, i: nat, q: Path)
    ensures q <= Slot(at, i) <==> q <= at || q == Slot(at, i)
  {
    assert Slot(at, i)[..|at|] == at;
    if q <= Slot(at, i) && |q| <= |at| { assert q == Slot(at, i)[..|at|][..|q|]; }
  }

  /** What is written before anything is written through `at` parts from it. */
  lemma EarlierWritesApart(r: UIResource, order: seq<string>, at: Path, i: nat, x: nat, k: nat)
    requires Usable(r) && Ordered(r, order) && k <= x < |order| && PathOf(order[x]) == Slot(at, i) && Tokens(order[x]).Ok?
    requires forall s :: s in order[..k] ==> s in r.fields && !Through(r, s, at)
    ensures forall w :: w in Writes(r, order[..k]) ==> Apart(at, w.p)
  {
    forall w | w in Writes(r, order[..k]) ensures Apart(at, w.p) {
      WritesMembers(r, order[..k], w);
      var s :| s in order[..k] && Written(r.fields[s]).Some? && w == WriteOf(r, s);
      var y :| 0 <= y < k && order[y] == s;
      assert !Through(r, s, at) && order[y] in order && order[x] in order && order[y] != order[x];
      PrefixOfSlot(at, i, PathOf(s));
    }
  }

  /** No other write touches a slot that is not filled. */
  lemma OthersMissHole(r: UIResource, s: string, u: string, at: Path, i: nat, j: nat)
    requires Usable(r) && ApartFields(r) && s in r.fields && u in r.fields && s != u
    requires Written(r.fields[s]).Some? && Written(r.fields[u]).Some? && PathText("", PathOf(u)) == u
    requires PathOf(s) == Slot(at, i) && !Filled(r, Slot(at, j))
    ensures Apart(PathOf(u), Slot(at, j))
  {
    PrefixOfSlot(at, i, PathOf(u));
    PrefixOfSlot(at, j, PathOf(u));
  }

  lemma NoneAt(r: UIResource, order: seq<string>, s: string)
    requires Usable(r) && ApartFields(r) && s in r.fields && Written(r.fields[s]).Some? && forall u :: u in order ==> u in r.fields && u != s
    ensures forall w :: w in Writes(r, order) ==> w.p != PathOf(s)
  {
    forall w | w in Writes(r, order) ensures w.p != PathOf(s) {
      WritesMembers(r, order, w);
    }
  }

  lemma WritesAround(r: UIResource, a: seq<string>, s: string, b: seq<string>)
    requires s in r.fields && Written(r.fields[s]).Some? && forall u :: u in a || u in b ==> u in r.fields
    ensures (forall u :: u in a + ([s] + b) ==> u in r.fields) && Writes(r, a + ([s] + b)) == Writes(r, a) + ([WriteOf(r, s)] + Writes(r, b))
  {
    assert ([s] + b)[0] == s && ([s] + b)[1..] == b;
    assert Writes(r, [s] + b) == [WriteOf(r, s)] + Writes(r, b);
    WritesConcat(r, a, [s] + b);
  }

  lemma WritesTaken(r: UIResource, a: seq<string>, s: string, b: seq<string>)
    requires Usable(r) && ApartFields(r) && s in r.fields && Written(r.fields[s]).Some?
    requires forall u :: u in a || u in b ==> u in r.fields && u != s
    ensures forall u :: u in a + b || u in a + ([s] + b) ==> u in r.fields
    ensures Writes(r, a + b) == Without(Writes(r, a + ([s] + b)), PathOf(s))
  {
    WritesAround(r, a, s, b);
    WritesConcat(r, a, b);
    NoneAt(r, a, s);
    NoneAt(r, b, s);
    TakenOut(Writes(r, a), WriteOf(r, s), Writes(r, b));
  }

  lemma TakenOut(ws: seq<Write>, f: Write, more: seq<Write>)
    requires forall w :: w in ws || w in more ==> w.p != f.p
    ensures Without(ws + ([f] + more), f.p) == ws + more
  {
    WithoutConcat(ws, [f] + more, f.p);
    WithoutFirst([f] + more, f.p);
    assert ([f] + more)[1..] == more;
    WithoutNothing(ws, f.p);
    WithoutNothing(more, f.p);
  }

  lemma WritesMoved(r: UIResource, front: seq<string>, a: seq<string>, s: string, b: seq<string>)
    requires Usable(r) && ApartFields(r) && s in r.fields && Written(r.fields[s]).Some?
    requires forall u :: u in front ==> u in r.fields
    requires forall u :: u in a || u in b ==> u in r.fields && u != s
    ensures forall u :: u in front + ([s] + (a + b)) || u in a + ([s] + b) ==> u in r.fields
    ensures Writes(r, front + ([s] + (a + b))) == Writes(r, front) + ([WriteOf(r, s)] + Without(Writes(r, a + ([s] + b)), PathOf(s)))
  {
    WritesTaken(r, a, s, b);
    WritesAround(r, front, s, a + b);
  }

  lemma PartsOfOrder(r: UIResource, order: seq<string>, k: nat, x: nat)
    requires Ordered(r, order) && k <= x < |order|
    ensures order[x] in r.fields && order[k..] == order[k..x] + ([order[x]] + order[x + 1..])
    ensures forall u :: u in order[..k] || u in order[k..] ==> u in r.fields
    ensures forall u :: u in order[k..x] || u in order[x + 1..] ==> u in r.fields && u != order[x]
  {
    assert order[x] in order;
  }

  lemma BaseIsBare(r: UIResource, at: Path)
    ensures BareBelow(Base(r), at)
  {
    var meta := map["name" := Leaf(Str(r.name))];
    var top := Base(r).m;
    assert forall k :: k in meta ==> NoArrays(meta[k]);
    assert top["metadata"] == Map(meta) && NoArrays(top["metadata"]);
    assert forall k :: k in top ==> NoArrays(top[k]);
    NoArraysIsBare(Base(r), at);
  }

  /** Some order that serialises leaves null in a slot that is not filled. */
  lemma SomeOrderLeavesGap(r: UIResource, order: seq<string>, s: string, at: Path, i: nat, j: nat) returns (o: seq<string>)
    requires Reopenable(r) && KeyOrder(order, r.fields.Keys) && SerializeIn(r, order).Document?
    requires s in r.fields && Written(r.fields[s]).Some? && PathOf(s) == Slot(at, i) && j < i && !Filled(r, Slot(at, j))
    ensures KeyOrder(o, r.fields.Keys) && SerializeIn(r, o).Document?
    ensures Get(SerializeIn(r, o).doc, Slot(at, j)) == Some(Null)
  {
    SerializableIsUsable(r, order);
    var x :| 0 <= x < |order| && order[x] == s;
    assert at <= Slot(at, i);
    var k := FirstThrough(r, order, at, x);
    o := Moved(order, k, x);
    MovedIsOrder(order, r.fields.Keys, k, x);
    PartsOfOrder(r, order, k, x);
    WritesMoved(r, order[..k], order[k..x], s, order[x + 1..]);
    RunMoved(r, order, s, at, i, j, k, x);
    RunsAsWrites(r, o, Base(r), []);
  }

  lemma RunMoved(r: UIResource, order: seq<string>, s: string, at: Path, i: nat, j: nat, k: nat, x: nat)
    requires Reopenable(r) && Usable(r) && Ordered(r, order) && SerializeIn(r, order).Document? && k <= x < |order| && order[x] == s
    requires s in r.fields && Written(r.fields[s]).Some? && PathOf(s) == Slot(at, i) && j < i && !Filled(r, Slot(at, j))
    requires Through(r, order[k], at) && forall u :: u in order[..k] ==> u in r.fields && !Through(r, u, at)
    requires forall u :: u in order[k..] ==> u in r.fields
    ensures
      var ws := Writes(r, order[..k]) + ([WriteOf(r, s)] + Without(Writes(r, order[k..]), PathOf(s)));
      PutAll(Base(r), ws).Ok? && Get(PutAll(Base(r), ws).v, Slot(at, j)) == Some(Null)
  {
    SplitRun(r, order, k);
    EarlierWritesApart(r, order, at, i, x, k);
    LaterWrites(r, order, s, k, x);
    BaseIsBare(r, at);
    OthersMiss(r, order[k..], s, at, i, j);
    GapLeft(Base(r), Writes(r, order[..k]), Writes(r, order[k..]), at, i, Written(r.fields[s]).value, j);
  }

  lemma SplitRun(r: UIResource, order: seq<string>, k: nat)
    requires Usable(r) && k <= |order| && (forall u :: u in order ==> u in r.fields)
    requires SerializeIn(r, order).Document? && forall u :: u in order[..k] || u in order[k..] ==> u in r.fields
    ensures PutAll(Base(r), Writes(r, order[..k]) + Writes(r, order[k..])).Ok?
  {
    assert order == order[..k] + order[k..];
    WritesConcat(r, order[..k], order[k..]);
    RunsAsWrites(r, order, Base(r), []);
  }

  lemma LaterWrites(r: UIResource, order: seq<string>, s: string, k: nat, x: nat)
    requires Usable(r) && Ordered(r, order) && k <= x < |order| && order[x] == s && Written(r.fields[s]).Some?
    requires Written(r.fields[order[k]]).Some? && forall u :: u in order[k..] ==> u in r.fields
    ensures
      var ws := Writes(r, order[k..]);
      ApartWrites(ws) && WriteOf(r, s) in ws && ws != [] && ws[0] == WriteOf(r, order[k])
  {
    var back := order[k..];
    assert Ordered(r, back) && back[0] == order[k] && back[x - k] == s;
    WritesAreApart(r, back);
    WritesMembers(r, back, WriteOf(r, s));
  }

  lemma OthersMiss(r: UIResource, order: seq<string>, s: string, at: Path, i: nat, j: nat)
    requires Reopenable(r) && Usable(r) && forall u :: u in order ==> u in r.fields
    requires s in r.fields && Written(r.fields[s]).Some? && PathOf(s) == Slot(at, i) && !Filled(r, Slot(at, j))
    ensures forall w :: w in Writes(r, order) ==> w.p == Slot(at, i) || Apart(w.p, Slot(at, j))
  {
    forall w | w in Writes(r, order) ensures w.p == Slot(at, i) || Apart(w.p, Slot(at, j)) {
      WritesMembers(r, order, w);
      var u :| u in order && Written(r.fields[u]).Some? && w == WriteOf(r, u);
      if u != s { OthersMissHole(r, s, u, at, i, j); }
    }
  }

  /** A resource that is not restorable is spoilt in some order that serialises. */
  lemma SpoilingOrder(r: UIResource, order: seq<string>) returns (o: seq<string>)
    requires Reopenable(r) && !Restorable(r) && KeyOrder(order, r.fields.Keys) && SerializeIn(r, order).Document?
    ensures KeyOrder(o, r.fields.Keys) && SerializeIn(r, o).Document?
    ensures SerializeIn(r, o).doc.Map? && Named(SerializeIn(r, o).doc.m)
    ensures !(FixedScalars(r) && NoGaps(SerializeIn(r, o).doc.m, r))
  {
    if GapFree(r) {
      o := order;
      ValueSpoils(r, order);
    } else {
      o := GapSpoils(r, order);
    }
  }

  lemma GapSpoils(r: UIResource, order: seq<string>) returns (o: seq<string>)
    requires Reopenable(r) && !GapFree(r) && KeyOrder(order, r.fields.Keys) && SerializeIn(r, order).Document?
    ensures KeyOrder(o, r.fields.Keys) && SerializeIn(r, o).Document?
    ensures SerializeIn(r, o).doc.Map? && Named(SerializeIn(r, o).doc.m) && !NoGaps(SerializeIn(r, o).doc.m, r)
  {
    var s, at, i, j := SomeHole(r);
    o := SomeOrderLeavesGap(r, order, s, at, i, j);
    DocumentIsNamed(r, o);
    StrayScalar(r, SerializeIn(r, o).doc, Slot(at, j));
  }

  lemma SomeHole(r: UIResource) returns (s: string, at: Path, i: nat, j: nat)
    requires !GapFree(r)
    ensures s in r.fields && Written(r.fields[s]).Some? && PathOf(s) == Slot(at, i) && j < i && !Filled(r, Slot(at, j))
  {
    s :| s in r.fields && Written(r.fields[s]).Some? && !FilledBefore(r, PathOf(s));
    at, i, j := HoleBefore(r, PathOf(s));
  }

  lemma HoleBefore(r: UIResource, p: Path) returns (at: Path, i: nat, j: nat)
    requires !FilledBefore(r, p)
    ensures p == Slot(at, i) && j < i && !Filled(r, Slot(at, j))
  {
    at, i := p[..|p| - 1], p[|p| - 1].i;
    j :| 0 <= j < i && !Filled(r, Slot(at, j));
  }

  lemma ValueSpoils(r: UIResource, order: seq<string>)
    requires Reopenable(r) && !Restorable(r) && GapFree(r) && KeyOrder(order, r.fields.Keys) && SerializeIn(r, order).Document?
    ensures SerializeIn(r, order).doc.Map? && Named(SerializeIn(r, order).doc.m)
    ensures !(FixedScalars(r) && NoGaps(SerializeIn(r, order).doc.m, r))
  {
    DocumentIsNamed(r, order);
    var s :| s in r.fields && !KeepsValue(r.fields[s]);
    if r.fields[s].Exposed? { InsideIsStored(r, order, s); }
  }

  // --- The law ---

  /** Whatever orders serialise the state and whatever the flattening keeps, resource `i` comes
      back as it was, each entry under the path the ui-spec gives it. */
  ghost predicate ComesBack(rs: seq<UIResource>, i: nat)
    requires i < |rs| && AllSpecced(rs[i])
  {
    forall orders, flat ::
      OrdersFor(rs, orders) && SerializeAllIn(rs, orders).Pair?
      && ResourcesFor(Accepted(Texts(SerializeAllIn(rs, orders).docs)), flat) ==>
        var out := Exposing(flat, Parsed(SerializeAllIn(rs, orders).entries));
        i < |out| && out[i] == Renamed(rs[i])
  }

  lemma SomeFlattening(docs: seq<Doc>) returns (flat: seq<UIResource>)
    requires forall i :: 0 <= i < |docs| ==> Named(docs[i])
    ensures ResourcesFor(docs, flat)
  {
    flat := [];
    while |flat| < |docs|
      invariant |flat| <= |docs| && forall i :: 0 <= i < |flat| ==> ResourceFor(docs[i], flat[i])
    {
      var r := SomeResource(docs[|flat|]);
      flat := flat + [r];
    }
  }

  /** The whole trip. A state that serialises in some order comes back, resource by resource,
      from every order that serialises it, exactly when every slot before a written one is
      filled and no field holds a value the flattening takes apart. */
  lemma StateComesBackLaw(rs: seq<UIResource>, orders: seq<seq<string>>, i: nat)
    requires OrdersFor(rs, orders) && AllReopenable(rs) && SerializeAllIn(rs, orders).Pair? && i < |rs|
    ensures ComesBack(rs, i) <==> Restorable(rs[i])
  {
    if Restorable(rs[i]) {
      forall os, flat |
        OrdersFor(rs, os) && SerializeAllIn(rs, os).Pair? && ResourcesFor(Accepted(Texts(SerializeAllIn(rs, os).docs)), flat)
        ensures
          var out := Exposing(flat, Parsed(SerializeAllIn(rs, os).entries));
          i < |out| && out[i] == Renamed(rs[i])
      {
        RestorableComesBack(rs, os, flat, i);
      }
    } else {
      var os, flat := SpoiltTrip(rs, orders, i);
    }
  }

  lemma RestorableComesBack(rs: seq<UIResource>, orders: seq<seq<string>>, flat: seq<UIResource>, i: nat)
    requires OrdersFor(rs, orders) && AllReopenable(rs) && SerializeAllIn(rs, orders).Pair? && i < |rs|
    requires ResourcesFor(Accepted(Texts(SerializeAllIn(rs, orders).docs)), flat) && Restorable(rs[i])
    ensures
      var out := Exposing(flat, Parsed(SerializeAllIn(rs, orders).entries));
      i < |out| && out[i] == Renamed(rs[i])
  {
    SerializedNamed(rs, orders);
    RestorableHasNoGaps(rs[i], orders[i]);
    StateComesBack(rs, orders, flat);
  }

  lemma SpoiltTrip(rs: seq<UIResource>, orders: seq<seq<string>>, i: nat)
    returns (os: seq<seq<string>>, flat: seq<UIResource>)
    requires OrdersFor(rs, orders) && AllReopenable(rs) && SerializeAllIn(rs, orders).Pair? && i < |rs| && !Restorable(rs[i])
    ensures OrdersFor(rs, os) && SerializeAllIn(rs, os).Pair?
    ensures ResourcesFor(Accepted(Texts(SerializeAllIn(rs, os).docs)), flat)
    ensures
      var out := Exposing(flat, Parsed(SerializeAllIn(rs, os).entries));
      i < |out| && out[i] != Renamed(rs[i])
  {
    SerializedEach(rs, orders);
    var o := SpoilingOrder(rs[i], orders[i]);
    os := orders[i := o];
    SerializedAt(rs, os);
    SerializedNamed(rs, os);
    AllAccepted(SerializeAllIn(rs, os).docs);
    flat := SomeFlattening(SerializeAllIn(rs, os).docs);
    StateComesBack(rs, os, flat);
  }

  // --- An instance ---

  /** A resource whose only field is fixed at the second slot of an array. */
  ghost predicate OneLateSlot(r: UIResource, v: Value) {
    && r.apiVersion != "" && r.kind != "" && (forall c :: c in r.kind ==> IsWordChar(c)) && r.name != "" && ']' !in r.name
    && r.fields == map["a[1]" := Fixed(v)] && IsScalar(v)
  }

  lemma SlotText(i: nat)
    requires i < 10
    ensures PathText("", [Key("a"), Idx(i)]) == "a[" + Decimal(i) + "]" && PathOf(PathText("", [Key("a"), Idx(i)])) == [Key("a"), Idx(i)]
    ensures Tokens(PathText("", [Key("a"), Idx(i)])).Ok?
  {
    var p := [Key("a"), Idx(i)];
    assert p[1..] == [Idx(i)] && [Idx(i)][1..] == [];
    assert PathText("a", [Idx(i)]) == Extend("a", Idx(i));
    TokensOfPathText(p);
  }

  lemma LateSlotText()
    ensures Tokens("a[1]").Ok? && PathOf("a[1]") == [Key("a"), Idx(1)] && PathText("", [Key("a"), Idx(1)]) == "a[1]"
    ensures PathText("", [Key("a"), Idx(0)]) == "a[0]"
  {
    SlotText(1);
    SlotText(0);
    assert Decimal(1) == "1" && Decimal(0) == "0";
    assert "a[" + "1" + "]" == "a[1]" && "a[" + "0" + "]" == "a[0]";
  }

  lemma LateSlotReopenable(r: UIResource, v: Value)
    requires OneLateSlot(r, v)
    ensures Reopenable(r) && KeyOrder(["a[1]"], r.fields.Keys)
  {
    LateSlotText();
    OneFieldReopenable(r, "a[1]", v);
  }

  lemma OneFieldReopenable(r: UIResource, s: string, v: Value)
    requires r.fields == map[s := Fixed(v)] && IsScalar(v) && PathOf(s) == [Key("a"), Idx(1)] && PathText("", PathOf(s)) == s
    ensures Reopenable(r) && KeyOrder([s], r.fields.Keys)
  {
    LateSlotPath();
    assert forall u :: u in r.fields ==> u == s;
    assert AllSpecced(r) && ApartFields(r);
  }

  lemma LateSlotPath()
    ensures
      var p := [Key("a"), Idx(1)];
      Apart(p, [Key("apiVersion")]) && Apart(p, [Key("kind")]) && Apart(p, [Key("metadata"), Key("name")])
  {
    assert [Key("a"), Idx(1)][0] == Key("a");
  }

  lemma PutLateSlot(c: Value, v: Value)
    requires c.Map? && "a" !in c.m
    ensures Put(c, [Key("a"), Idx(1)], v) == Ok(Map(c.m["a" := Arr([Null, v])]))
  {
    var p := [Key("a"), Idx(1)];
    assert p[1..] == [Idx(1)];
    assert Grow([], 2, Null) == [Null, Null] && [Null, Null][1 := v] == [Null, v];
    assert Put(Arr([]), [Idx(1)], v) == Ok(Arr([Null, v]));
    PutInKey(c, "a", p, v, Arr([Null, v]));
  }

  lemma LateSlotSerialises(r: UIResource, v: Value)
    requires OneLateSlot(r, v)
    ensures SerializeIn(r, ["a[1]"]) == Document(Map(Base(r).m["a" := Arr([Null, v])]), [])
  {
    LateSlotText();
    PutLateSlot(Base(r), v);
    var done := Map(Base(r).m["a" := Arr([Null, v])]);
    assert WriteField(r, "a[1]", Base(r), []) == Document(done, []);
    AloneInOrder(r, "a[1]");
  }

  lemma AloneInOrder(r: UIResource, s: string)
    requires s in r.fields && r.apiVersion != "" && r.kind != "" && r.name != "" && WriteField(r, s, Base(r), []).Document?
    ensures SerializeIn(r, [s]) == WriteField(r, s, Base(r), [])
  {
    var order, first := [s], WriteField(r, s, Base(r), []);
    assert order[0] == s && order[1..] == [];
    assert WriteFields(r, order[1..], first.doc, first.entries) == first;
    assert WriteFields(r, order, Base(r), []) == WriteFields(r, order[1..], first.doc, first.entries);
  }

  lemma AloneSerialises(r: UIResource, order: seq<string>, doc: Doc, es: seq<SpecEntry>)
    requires KeyOrder(order, r.fields.Keys) && SerializeIn(r, order) == Document(Map(doc), es)
    ensures OrdersFor([r], [order]) && SerializeAllIn([r], [order]) == Pair([doc], es)
  {
    var rs, orders := [r], [order];
    SerializeOneMore(rs, orders, 0);
    assert rs[..1] == rs && orders[..1] == orders && rs[..0] == [];
    assert SerializeAllIn(rs[..0], orders[..0]) == Pair([], []);
    assert [] + [doc] == [doc] && [] + es == es;
  }

  lemma LateSlotNotRestorable(r: UIResource, v: Value)
    requires OneLateSlot(r, v)
    ensures !Restorable(r)
  {
    LateSlotText();
    var p := [Key("a"), Idx(1)];
    assert p[..1] == [Key("a")] && Slot([Key("a")], 0) == [Key("a"), Idx(0)];
    assert !Filled(r, Slot(p[..1], 0));
    assert !FilledBefore(r, p);
    assert "a[1]" in r.fields && !GapFree(r);
  }

  /** Such a state does not come back: the first slot is stored as a further field. */
  lemma LateSlotIsLost(r: UIResource, v: Value)
    requires OneLateSlot(r, v)
    ensures
      var orders := [["a[1]"]];
      && AllReopenable([r]) && OrdersFor([r], orders)
      && SerializeAllIn([r], orders) == Pair([Base(r).m["a" := Arr([Null, v])]], []) && !ComesBack([r], 0)
  {
    LateSlotReopenable(r, v);
    LateSlotSerialises(r, v);
    LateSlotNotRestorable(r, v);
    AloneSerialises(r, ["a[1]"], Base(r).m["a" := Arr([Null, v])], []);
    LateSlotAddressed(r, v);
    StateComesBackLaw([r], [["a[1]"]], 0);
  }

  lemma LateSlotAddressed(r: UIResource, v: Value)
    requires OneLateSlot(r, v)
    ensures Addressed([r])
  {
    assert OneLine("a[1]");
    assert forall s :: s in r.fields ==> s == "a[1]";
  }
}
