/** The rebuild law fails for every target outside `Rebuildable`: some write order
    errs or produces a different document. */
module Exactness {
  import opened Values
  import opened PathWriters
  import opened Confluence

  /** Every field is a scalar or null, as in a document flattened down to its leaves. */
  predicate Plain(t: Tree) {
    match t
    case Done(v) => v.Leaf? || v.Null?
    case Node(m) => forall k :: k in m ==> Plain(m[k])
    case List(a) => forall i :: 0 <= i < |a| ==> Plain(a[i])
  }

  /** What a document made only by writes looks like: maps have no empty containers in them,
      arrays are short and do not end in one. */
  predicate Solid(v: Value) {
    match v
    case Null => true
    case Leaf(_) => true
    case Map(m) => forall k :: k in m ==> Solid(m[k]) && !IsEmpty(m[k])
    case Arr(a) =>
      && |a| <= MAX_ARRAY_INDEX + 1
      && (a != [] ==> !IsEmpty(a[|a| - 1]))
      && forall i :: 0 <= i < |a| ==> Solid(a[i])
  }

  lemma {:induction false} PutKeepsSolid(c: Value, p: Path, v: Value)
    requires Solid(c) && (v.Leaf? || v.Null?) && Put(c, p, v).Ok?
    ensures Solid(Put(c, p, v).v) && !IsEmpty(Put(c, p, v).v)
    decreases |p|
  {
    if |p| > 1 {
      match p[0]
      case Key(k) =>
        PutKeepsSolid(KeyChild(c.m, k, p[1]), p[1..], v);
        assert k in Put(c, p, v).v.m;
      case Idx(i) =>
        PutKeepsSolid(SlotChild(Grow(c.a, i + 1, Placeholder(p[1]))[i], p[1]), p[1..], v);
    } else if p[0].Key? {
      var written := c.m[p[0].k := v];
      assert p[0].k in written;
      assert Put(c, p, v) == Ok(Map(written));
      assert forall k :: k in written ==> Solid(written[k]) && !IsEmpty(written[k]);
    }
  }

  lemma {:induction false} WriteAllKeepsSolid(c: Value, t: Tree, order: seq<Path>)
    requires forall p :: p in order ==> FieldAt(t, p).Some?
    requires Plain(t) && Solid(c) && WriteAll(c, t, order).Ok?
    ensures Solid(WriteAll(c, t, order).v)
    decreases |order|
  {
    if order != [] {
      var v := FieldAt(t, order[0]).value;
      PlainField(t, order[0]);
      PutKeepsSolid(c, order[0], v);
      WriteAllKeepsSolid(Put(c, order[0], v).v, t, order[1..]);
    }
  }

  lemma {:induction false} PlainField(t: Tree, p: Path)
    requires Plain(t) && FieldAt(t, p).Some?
    ensures FieldAt(t, p).value.Leaf? || FieldAt(t, p).value.Null?
    decreases |p|
  {
    if !t.Done? {
      PlainField(if t.Node? then t.m[p[0].k] else t.a[p[0].i], p[1..]);
    }
  }

  /** No array has an element yet. */
  predicate NoSlots(v: Value) {
    match v
    case Null => true
    case Leaf(_) => true
    case Map(m) => forall k :: k in m ==> NoSlots(m[k])
    case Arr(a) => a == []
  }

  /** What a write below element `j` of a fresh list leaves in the earlier slots. */
  function Filler(t: Tree): Value {
    match t
    case Done(_) => Null
    case Node(_) => Map(map[])
    case List(_) => Arr([])
  }

  /** The first write into a list fills every earlier slot alike. */
  lemma {:induction false} FirstWriteFills(c: Value, p: Path, i: nat, j: nat, t: Tree, s: Path, v: Value)
    requires NoSlots(c) && i < j && FieldAt(t, s).Some?
    requires Put(c, p + [Idx(j)] + s, v).Ok?
    ensures Get(Put(c, p + [Idx(j)] + s, v).v, p + [Idx(i)]) == Some(Filler(t))
    decreases |p|
  {
    var full := p + [Idx(j)] + s;
    var slot := p + [Idx(i)];
    if p == [] {
      assert full[1..] == s && slot[1..] == [];
      assert s != [] ==> full[1] == s[0];
    } else {
      assert full[1..] == p[1..] + [Idx(j)] + s && slot[1..] == p[1..] + [Idx(i)];
      match p[0]
      case Key(k) =>
        FirstWriteFills(KeyChild(c.m, k, full[1]), p[1..], i, j, t, s, v);
      case Idx(x) =>
        var g := Grow(c.a, x + 1, Placeholder(full[1]));
        FirstWriteFills(SlotChild(g[x], full[1]), p[1..], i, j, t, s, v);
    }
  }

  /** A write below a place holding a container of the other kind errs. */
  lemma {:induction false} WrongKindBlocks(c: Value, p: Path, s: Path, v: Value)
    requires s != [] && Get(c, p) == Some(if s[0].Key? then Arr([]) else Map(map[]))
    ensures Put(c, p + s, v).Err?
    decreases |p|
  {
    var full := p + s;
    if p == [] {
      assert full == s;
    } else {
      assert full[1..] == p[1..] + s && |full| > 1;
      match p[0]
      case Key(k) => WrongKindBlocks(c.m[k], p[1..], s, v);
      case Idx(i) =>
        WrongKindBlocks(c.a[i], p[1..], s, v);
        if i <= MAX_ARRAY_INDEX {
          assert c.a[i] != Null;
        }
    }
  }

  /** Writes that part from a place leave what is there. */
  lemma {:induction false} WriteAllFrame(c: Value, t: Tree, order: seq<Path>, q: Path)
    requires forall p :: p in order ==> FieldAt(t, p).Some? && Apart(p, q)
    requires WriteAll(c, t, order).Ok? && Get(c, q).Some?
    ensures Get(WriteAll(c, t, order).v, q) == Get(c, q)
    decreases |order|
  {
    if order != [] {
      var v := FieldAt(t, order[0]).value;
      PutFrame(c, order[0], v, q);
      WriteAllFrame(Put(c, order[0], v).v, t, order[1..], q);
    }
  }

  predicate HasFieldBelow(t: Tree) {
    match t
    case Done(_) => true
    case Node(m) => exists k :: k in m && HasFieldBelow(m[k])
    case List(a) => exists i :: 0 <= i < |a| && HasFieldBelow(a[i])
  }

  lemma {:induction false} FieldBelow(t: Tree) returns (p: Path)
    requires HasFieldBelow(t)
    ensures FieldAt(t, p).Some?
  {
    match t
    case Done(_) => p := [];
    case Node(m) =>
      var k :| k in m && HasFieldBelow(m[k]);
      var q := FieldBelow(m[k]);
      p := [Key(k)] + q;
    case List(a) =>
      var i :| 0 <= i < |a| && HasFieldBelow(a[i]);
      var q := FieldBelow(a[i]);
      p := [Idx(i)] + q;
  }

  /** Elements `i < j` of a list of which writing `j` first spoils `i`. */
  predicate Spoils(a: seq<Tree>, i: nat, j: nat) {
    && i < j < |a| && HasFieldBelow(a[j]) && !a[i].Done?
    && (if Bare(a[i]) then Erase(a[i]) != Filler(a[j])
        else HasFieldBelow(a[i]) && !a[j].Done? && a[i].Node? != a[j].Node?)
  }

  predicate Unspoilt(t: Tree) {
    match t
    case Done(_) => true
    case Node(m) => forall k :: k in m ==> Unspoilt(m[k])
    case List(a) =>
      && (forall i, j :: 0 <= i < |a| && 0 <= j < |a| ==> !Spoils(a, i, j))
      && forall i :: 0 <= i < |a| ==> Unspoilt(a[i])
  }

  lemma {:induction false} SolidHasField(t: Tree)
    requires Plain(t) && Solid(Erase(t)) && !Bare(t)
    ensures HasFieldBelow(t)
  {
    match t
    case Done(_) =>
    case Node(m) =>
      var k :| k in m;
      assert Erase(t).m[k] == Erase(m[k]);
      SolidHasField(m[k]);
    case List(a) =>
      var last := |a| - 1;
      assert Erase(t).a[last] == Erase(a[last]);
      SolidHasField(a[last]);
  }

  /** A target that looks written and has no spoiling pair is rebuildable. */
  lemma {:induction false} SolidUnspoiltIsRebuildable(t: Tree)
    requires Plain(t) && Solid(Erase(t)) && Unspoilt(t) && !Bare(t)
    ensures Rebuildable(t)
  {
    match t
    case Done(_) =>
    case Node(m) =>
      forall k | k in m ensures Rebuildable(m[k]) {
        assert Erase(t).m[k] == Erase(m[k]);
        SolidUnspoiltIsRebuildable(m[k]);
      }
    case List(a) =>
      var last := |a| - 1;
      forall i | 0 <= i < |a|
        ensures Solid(Erase(a[i])) && (!Bare(a[i]) ==> Rebuildable(a[i]) && HasFieldBelow(a[i]))
      {
        assert Erase(t).a[i] == Erase(a[i]);
        if !Bare(a[i]) {
          SolidUnspoiltIsRebuildable(a[i]);
          SolidHasField(a[i]);
        }
      }
      assert !Bare(a[last]) by { assert Erase(t).a[last] == Erase(a[last]); }
      forall i, j | 0 <= i < |a| && 0 <= j < |a|
        ensures !(a[i].Node? && a[j].List?)
      {
        var lo, hi := if i < j then i else j, if i < j then j else i;
        assert !Spoils(a, lo, hi) && !Spoils(a, hi, last) && !Spoils(a, lo, last);
      }
      forall i, j | 0 <= i < j < |a| && Bare(a[i])
        ensures !a[j].Done?
      {
        assert !Spoils(a, i, j);
      }
  }

  function SubTree(t: Tree, p: Path): Option<Tree>
    decreases |p|
  {
    if p == [] then Some(t)
    else match t
      case Done(_) => None
      case Node(m) => if p[0].Key? && p[0].k in m then SubTree(m[p[0].k], p[1..]) else None
      case List(a) => if p[0].Idx? && p[0].i < |a| then SubTree(a[p[0].i], p[1..]) else None
  }

  lemma {:induction false} SpoiltPair(t: Tree) returns (p: Path, i: nat, j: nat)
    requires !Unspoilt(t)
    ensures SubTree(t, p).Some? && SubTree(t, p).value.List? && Spoils(SubTree(t, p).value.a, i, j)
  {
    match t
    case Node(m) =>
      var k :| k in m && !Unspoilt(m[k]);
      p, i, j := SpoiltPair(m[k]);
      p := [Key(k)] + p;
    case List(a) =>
      if x, y :| 0 <= x < |a| && 0 <= y < |a| && Spoils(a, x, y) {
        p, i, j := [], x, y;
      } else {
        var x :| 0 <= x < |a| && !Unspoilt(a[x]);
        p, i, j := SpoiltPair(a[x]);
        p := [Idx(x)] + p;
      }
  }

  lemma {:induction false} FieldInSubTree(t: Tree, p: Path, s: Path)
    requires SubTree(t, p).Some?
    ensures FieldAt(t, p + s) == FieldAt(SubTree(t, p).value, s)
    ensures Get(Erase(t), p) == Some(Erase(SubTree(t, p).value))
    decreases |p|
  {
    if p == [] {
      assert p + s == s;
    } else {
      assert (p + s)[1..] == p[1..] + s && (p + s)[0] == p[0];
      FieldInSubTree(if t.Node? then t.m[p[0].k] else t.a[p[0].i], p[1..], s);
    }
  }

  /** Fields of the target part from the place of a bare container in it. */
  lemma {:induction false} FieldsAvoidBare(t: Tree, q: Path, p: Path)
    requires SubTree(t, q).Some? && Bare(SubTree(t, q).value) && FieldAt(t, p).Some?
    ensures Apart(p, q)
    decreases |q|
  {
    if q != [] && p != [] && p[0] == q[0] {
      assert p == [p[0]] + p[1..] && q == [q[0]] + q[1..];
      FieldsAvoidBare(if t.Node? then t.m[p[0].k] else t.a[p[0].i], q[1..], p[1..]);
    }
  }

  /** A document without slots carries no field below a list. */
  lemma {:induction false} NoSlotsNoField(c: Value, p: Path, i: nat, s: Path)
    requires NoSlots(c)
    ensures Get(c, p + [Idx(i)] + s) == None
    decreases |p|
  {
    var full := p + [Idx(i)] + s;
    if p != [] {
      assert full[1..] == p[1..] + [Idx(i)] + s && full[0] == p[0];
      if p[0].Key? && c.Map? && p[0].k in c.m {
        NoSlotsNoField(c.m[p[0].k], p[1..], i, s);
      }
    }
  }

  /** The orders in which a finite set of fields can be written. */
  ghost predicate Lists(order: seq<Path>, fields: set<Path>) {
    NoDuplicates(order) && forall p :: p in order <==> p in fields
  }

  lemma {:induction false} SomeOrder(fields: set<Path>) returns (order: seq<Path>)
    ensures Lists(order, fields)
    decreases |fields|
  {
    if fields == {} {
      order := [];
    } else {
      var p :| p in fields;
      var rest := SomeOrder(fields - {p});
      order := [p] + rest;
    }
  }

  /** `missing` are the fields to write; `base` carries all others. */
  ghost predicate Seeds(base: Value, t: Tree, missing: set<Path>) {
    && (forall p :: p in missing ==> FieldAt(t, p).Some?)
    && (forall p :: p !in missing ==> HasField(base, t, p))
  }

  ghost predicate EveryOrderRebuilds(base: Value, t: Tree, missing: set<Path>)
    requires Seeds(base, t, missing)
  {
    forall order :: Lists(order, missing) ==> WriteAll(base, t, order) == Ok(Erase(t))
  }

  lemma {:induction false} SubTreeStep(t: Tree, p: Path, i: nat)
    requires SubTree(t, p).Some? && SubTree(t, p).value.List? && i < |SubTree(t, p).value.a|
    ensures SubTree(t, p + [Idx(i)]) == Some(SubTree(t, p).value.a[i])
    decreases |p|
  {
    var q := p + [Idx(i)];
    if p == [] {
      assert q[1..] == [];
    } else {
      assert q[0] == p[0] && q[1..] == p[1..] + [Idx(i)];
      SubTreeStep(if t.Node? then t.m[p[0].k] else t.a[p[0].i], p[1..], i);
    }
  }

  /** A field below element `i` of a list is still to be written, whatever slotless base is given. */
  lemma ElementFieldMissing(base: Value, t: Tree, missing: set<Path>, p: Path, i: nat, s: Path)
    requires Seeds(base, t, missing) && NoSlots(base)
    requires SubTree(t, p).Some? && SubTree(t, p).value.List? && i < |SubTree(t, p).value.a|
    requires FieldAt(SubTree(t, p).value.a[i], s).Some?
    ensures p + [Idx(i)] + s in missing
    ensures FieldAt(t, p + [Idx(i)] + s).Some?
  {
    SubTreeStep(t, p, i);
    FieldInSubTree(t, p + [Idx(i)], s);
    NoSlotsNoField(base, p, i, s);
    assert HasField(base, t, p + [Idx(i)] + s) ==> p + [Idx(i)] + s in missing;
  }

  /** Writing below `j` first freezes the filler over the bare element `i`. */
  lemma BareElementSpoilt(base: Value, t: Tree, missing: set<Path>, p: Path, i: nat, j: nat)
    requires Seeds(base, t, missing) && NoSlots(base)
    requires SubTree(t, p).Some? && SubTree(t, p).value.List?
    requires Spoils(SubTree(t, p).value.a, i, j) && Bare(SubTree(t, p).value.a[i])
    ensures !EveryOrderRebuilds(base, t, missing)
  {
    var a := SubTree(t, p).value.a;
    var s := FieldBelow(a[j]);
    var f, pi := p + [Idx(j)] + s, p + [Idx(i)];
    ElementFieldMissing(base, t, missing, p, j, s);
    SubTreeStep(t, p, i);
    var rest := SomeOrder(missing - {f});
    var order := [f] + rest;
    assert Lists(order, missing);
    assert order[1..] == rest;
    if WriteAll(base, t, order).Ok? {
      var v := FieldAt(t, f).value;
      FirstWriteFills(base, p, i, j, a[j], s, v);
      forall q | q in rest ensures Apart(q, pi) { FieldsAvoidBare(t, pi, q); }
      WriteAllFrame(Put(base, f, v).v, t, rest, pi);
      FieldInSubTree(t, pi, []);
    }
  }

  lemma TwoFirst(missing: set<Path>, f: Path, g: Path) returns (order: seq<Path>)
    requires f in missing && g in missing && f != g
    ensures Lists(order, missing) && |order| >= 2 && order[0] == f && order[1] == g
  {
    var rest := SomeOrder(missing - {f} - {g});
    assert f !in rest && g !in rest;
    order := [f, g] + rest;
    assert forall q :: q in missing ==> q == f || q == g || q in rest;
  }

  /** Writing below `j` first gives element `i` the wrong kind of container. */
  lemma MixedElementsSpoilt(base: Value, t: Tree, missing: set<Path>, p: Path, i: nat, j: nat)
    requires Seeds(base, t, missing) && NoSlots(base)
    requires SubTree(t, p).Some? && SubTree(t, p).value.List?
    requires Spoils(SubTree(t, p).value.a, i, j) && !Bare(SubTree(t, p).value.a[i])
    ensures !EveryOrderRebuilds(base, t, missing)
  {
    var a := SubTree(t, p).value.a;
    var sj := FieldBelow(a[j]);
    var si := FieldBelow(a[i]);
    var fj, fi := p + [Idx(j)] + sj, p + [Idx(i)] + si;
    ElementFieldMissing(base, t, missing, p, j, sj);
    ElementFieldMissing(base, t, missing, p, i, si);
    assert fi[|p|] == Idx(i) && fj[|p|] == Idx(j);
    var order := TwoFirst(missing, fj, fi);
    var v := FieldAt(t, fj).value;
    if Put(base, fj, v).Ok? {
      FirstWriteFills(base, p, i, j, a[j], sj, v);
      WrongKindBlocks(Put(base, fj, v).v, p + [Idx(i)], si, FieldAt(t, fi).value);
      assert order[1..][0] == fi;
    }
    assert WriteAll(base, t, order).Err?;
  }

  /** The rebuild law holds for exactly the rebuildable targets. */
  lemma RebuildLaw(base: Value, t: Tree, missing: set<Path>)
    requires t.Node? && t != Node(map[]) && Plain(t)
    requires Seeds(base, t, missing) && Partial(base, t) && NoSlots(base) && Solid(base)
    ensures EveryOrderRebuilds(base, t, missing) <==> Rebuildable(t)
  {
    if Rebuildable(t) {
      forall order | Lists(order, missing)
        ensures WriteAll(base, t, order) == Ok(Erase(t))
      {
        AnyOrderRebuilds(base, t, order);
      }
    }
    if EveryOrderRebuilds(base, t, missing) {
      var order := SomeOrder(missing);
      WriteAllKeepsSolid(base, t, order);
      if !Unspoilt(t) {
        var p, i, j := SpoiltPair(t);
        if Bare(SubTree(t, p).value.a[i]) {
          BareElementSpoilt(base, t, missing, p, i, j);
        } else {
          MixedElementsSpoilt(base, t, missing, p, i, j);
        }
      }
      SolidUnspoiltIsRebuildable(t);
    }
  }
}
