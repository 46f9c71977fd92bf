/** Rebuilding a document from its fields, one write per field, in any order. */
module Confluence {
  import opened Values
  import opened PathWriters

  /** A target document split at its fields: `Done` is the value of one field, the other
      constructors are the containers the writes have to create. */
  datatype Tree = Done(v: Value) | Node(m: map<string, Tree>) | List(a: seq<Tree>)

  function Erase(t: Tree): Value {
    match t
    case Done(v) => v
    case Node(m) => Map(map k | k in m :: Erase(m[k]))
    case List(a) => Arr(seq(|a|, i requires 0 <= i < |a| => Erase(a[i])))
  }

  /** The field value stored at a path of the target. */
  function FieldAt(t: Tree, p: Path): Option<Value>
    decreases |p|
  {
    match t
    case Done(v) => if p == [] then Some(v) else None
    case Node(m) => if p != [] && p[0].Key? && p[0].k in m then FieldAt(m[p[0].k], p[1..]) else None
    case List(a) => if p != [] && p[0].Idx? && p[0].i < |a| then FieldAt(a[p[0].i], p[1..]) else None
  }

  predicate Bare(t: Tree) {
    t == Node(map[]) || t == List([])
  }

  /** No list holds both a map and a list. */
  predicate Uniform(a: seq<Tree>) {
    forall i, j :: 0 <= i < |a| && 0 <= j < |a| ==> !(a[i].Node? && a[j].List?)
  }

  /** Exactly the targets that every write order rebuilds. An empty container is tolerated
      only as a list element that later containers of its own kind overshoot. */
  predicate Rebuildable(t: Tree) {
    match t
    case Done(_) => true
    case Node(m) => m != map[] && forall k :: k in m ==> Rebuildable(m[k])
    case List(a) =>
      && 1 <= |a| <= MAX_ARRAY_INDEX + 1
      && Uniform(a)
      && (forall i :: 0 <= i < |a| ==>
            if Bare(a[i]) then i + 1 < |a| && forall j :: i < j < |a| ==> !a[j].Done?
            else Rebuildable(a[i]))
  }

  /** `p` may occur while `t` is being rebuilt: nothing in it contradicts `t`. */
  ghost predicate Partial(p: Value, t: Tree)
    decreases t
  {
    match t
    case Done(_) => true
    case Node(m) => p.Map? && forall k :: k in p.m ==> k in m && Partial(p.m[k], m[k])
    case List(a) =>
      && p.Arr? && |p.a| <= |a|
      && forall i :: 0 <= i < |p.a| ==>
           if Bare(a[i]) then p.a[i] == Erase(a[i])
           else (p.a[i] == Null && !a[i].Done?) || Partial(p.a[i], a[i])
  }

  lemma PlaceholderIsPartial(t: Tree, p: Path)
    requires FieldAt(t, p).Some? && p != []
    ensures Partial(Placeholder(p[0]), t)
  {
  }

  /** Growing the array for a write below slot `i` keeps it a partial copy. */
  lemma GrownIsPartial(c: seq<Value>, a: seq<Tree>, i: nat, fill: Value)
    requires Rebuildable(List(a)) && i < |a| && !Bare(a[i]) && Partial(Arr(c), List(a))
    requires fill == if a[i].Done? then Null else if a[i].Node? then Map(map[]) else Arr([])
    ensures Partial(Arr(Grow(c, i + 1, fill)), List(a))
  {
    var g := Grow(c, i + 1, fill);
    forall x | 0 <= x < |g|
      ensures if Bare(a[x]) then g[x] == Erase(a[x]) else (g[x] == Null && !a[x].Done?) || Partial(g[x], a[x])
    {
      if |c| <= x {
        assert g[x] == fill;
        assert Bare(a[x]) ==> x < i;
      }
    }
  }

  /** One write of a field into a partial copy succeeds and leaves a partial copy. */
  lemma {:induction false} PutKeepsPartial(c: Value, t: Tree, p: Path)
    requires Rebuildable(t) && Partial(c, t) && p != [] && FieldAt(t, p).Some?
    ensures Put(c, p, FieldAt(t, p).value).Ok?
    ensures Partial(Put(c, p, FieldAt(t, p).value).v, t)
    decreases |p|
  {
    var v := FieldAt(t, p).value;
    match p[0]
    case Key(k) =>
      if |p| > 1 {
        var child := KeyChild(c.m, k, p[1]);
        if k !in c.m { PlaceholderIsPartial(t.m[k], p[1..]); }
        PutKeepsPartial(child, t.m[k], p[1..]);
      }
    case Idx(i) =>
      assert !Bare(t.a[i]);
      if |p| == 1 {
        GrownIsPartial(c.a, t.a, i, Null);
      } else {
        var g := Grow(c.a, i + 1, Placeholder(p[1]));
        GrownIsPartial(c.a, t.a, i, Placeholder(p[1]));
        PlaceholderIsPartial(t.a[i], p[1..]);
        PutKeepsPartial(SlotChild(g[i], p[1]), t.a[i], p[1..]);
      }
  }

  /** A rebuildable target has a field below every container. */
  lemma {:induction false} SomeField(t: Tree) returns (p: Path)
    requires Rebuildable(t)
    ensures FieldAt(t, p).Some?
  {
    match t
    case Done(_) => p := [];
    case Node(m) =>
      var k :| k in m;
      var q := SomeField(m[k]);
      p := [Key(k)] + q;
    case List(a) =>
      var q := SomeField(a[|a| - 1]);
      p := [Idx(|a| - 1)] + q;
  }

  ghost predicate HasField(c: Value, t: Tree, p: Path) {
    FieldAt(t, p).Some? ==> Get(c, p) == FieldAt(t, p)
  }

  /** A partial copy that carries every field is the target. */
  lemma {:induction false} CompleteIsTarget(c: Value, t: Tree)
    requires Rebuildable(t) && Partial(c, t)
    requires forall p :: HasField(c, t, p)
    ensures c == Erase(t)
    decreases t
  {
    match t
    case Done(v) => assert HasField(c, t, []);
    case Node(m) =>
      forall k | k in m
        ensures k in c.m && c.m[k] == Erase(m[k])
      {
        var q := SomeField(m[k]);
        assert HasField(c, t, [Key(k)] + q);
        forall p ensures HasField(c.m[k], m[k], p) {
          assert HasField(c, t, [Key(k)] + p);
          assert ([Key(k)] + p)[1..] == p;
        }
        CompleteIsTarget(c.m[k], m[k]);
      }
      assert c.m.Keys == m.Keys;
      assert c.m == Erase(t).m;
    case List(a) =>
      var last := SomeField(a[|a| - 1]);
      assert HasField(c, t, [Idx(|a| - 1)] + last);
      forall i | 0 <= i < |a|
        ensures c.a[i] == Erase(a[i])
      {
        if !Bare(a[i]) {
          var q := SomeField(a[i]);
          assert HasField(c, t, [Idx(i)] + q);
          assert ([Idx(i)] + q)[1..] == q;
          forall p ensures HasField(c.a[i], a[i], p) {
            assert HasField(c, t, [Idx(i)] + p);
            assert ([Idx(i)] + p)[1..] == p;
          }
          assert HasField(c.a[i], a[i], q);
          CompleteIsTarget(c.a[i], a[i]);
        }
      }
      assert c.a == Erase(t).a;
  }

  /** Two different fields of one target are at paths that part. */
  lemma {:induction false} FieldsApart(t: Tree, p: Path, q: Path)
    requires FieldAt(t, p).Some? && FieldAt(t, q).Some? && p != q
    ensures Apart(p, q)
    decreases |p|
  {
    if p != [] && q != [] && p[0] == q[0] {
      assert p == [p[0]] + p[1..] && q == [q[0]] + q[1..];
      FieldsApart(if t.Node? then t.m[p[0].k] else t.a[p[0].i], p[1..], q[1..]);
    }
  }

  /** Writing the fields of `t` listed in `order`, first to last. */
  function WriteAll(c: Value, t: Tree, order: seq<Path>): Result<Value>
    requires forall p :: p in order ==> FieldAt(t, p).Some?
    decreases |order|
  {
    if order == [] then Ok(c)
    else (
      match Put(c, order[0], FieldAt(t, order[0]).value)
      case Err(e) => Err(e)
      case Ok(d) => WriteAll(d, t, order[1..])
    )
  }

  ghost predicate NoDuplicates<T>(s: seq<T>) {
    forall i, j :: 0 <= i < j < |s| ==> s[i] != s[j]
  }

  /** `order` lists, once each, the fields of `t` that `c` does not carry yet. */
  ghost predicate Completes(order: seq<Path>, c: Value, t: Tree) {
    && NoDuplicates(order)
    && (forall p :: p in order ==> FieldAt(t, p).Some?)
    && (forall p :: p !in order ==> HasField(c, t, p))
  }

  /** Confluence: from any partial copy, every order of the missing fields rebuilds the target. */
  lemma {:induction false} AnyOrderRebuilds(c: Value, t: Tree, order: seq<Path>)
    requires Rebuildable(t) && !t.Done? && Partial(c, t) && Completes(order, c, t)
    ensures WriteAll(c, t, order) == Ok(Erase(t))
    decreases |order|
  {
    if order == [] {
      CompleteIsTarget(c, t);
    } else {
      var p, v := order[0], FieldAt(t, order[0]).value;
      PutKeepsPartial(c, t, p);
      var d := Put(c, p, v).v;
      var rest := order[1..];
      forall q | q !in rest
        ensures HasField(d, t, q)
      {
        if q == p {
          PutGet(c, p, v);
        } else if FieldAt(t, q).Some? {
          assert q !in order;
          FieldsApart(t, p, q);
          PutFrame(c, p, v, q);
        }
      }
      AnyOrderRebuilds(d, t, rest);
    }
  }

  /** Yet two single writes need not commute: the slot below both is null or `{}`. */
  lemma SingleWritesDoNotCommute()
    ensures
      var start, x, y := Map(map["a" := Arr([])]), Leaf(Str("x")), Leaf(Str("y"));
      var p, q := [Key("a"), Idx(2)], [Key("a"), Idx(1), Key("b")];
      var px, qy := Put(start, p, x), Put(start, q, y);
      && px.Ok? && qy.Ok?
      && Put(px.v, q, y).Ok? && Put(qy.v, p, x).Ok?
      && Get(Put(px.v, q, y).v, [Key("a"), Idx(0)]) == Some(Null)
      && Get(Put(qy.v, p, x).v, [Key("a"), Idx(0)]) == Some(Map(map[]))
  {
    var start, x, y := Map(map["a" := Arr([])]), Leaf(Str("x")), Leaf(Str("y"));
    var p, q := [Key("a"), Idx(2)], [Key("a"), Idx(1), Key("b")];
    assert q[1..] == [Idx(1), Key("b")] && q[1..][1..] == [Key("b")];
    assert p[1..] == [Idx(2)];
    var s := [Key("a"), Idx(0)];
    assert s[1..] == [Idx(0)] && s[1..][1..] == [];
    var px, qy := Put(start, p, x), Put(start, q, y);
    assert Grow([], 3, Null)[2 := x] == [Null, Null, x];
    assert px == Ok(Map(start.m["a" := Arr([Null, Null, x])]));
    assert qy.Ok? && qy.v.m["a"].a[0] == Map(map[]);
    var pq, qp := Put(px.v, q, y), Put(qy.v, p, x);
    assert pq.Ok? && pq.v.m["a"].a[0] == Null;
    assert qp.Ok? && qp.v.m["a"].a[0] == Map(map[]);
  }
}
