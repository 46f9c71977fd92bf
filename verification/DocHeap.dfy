/** The growing writer on mutable documents. Maps are shared objects; an array is a fixed
    block, so growing one makes a new block that must be linked into its parent again. */
module DocHeap {
  import opened Values
  import opened PathGrammar
  import opened PathWriters

  class MapObj {
    var m: map<string, Ref>

    constructor ()
      ensures m == map[]
    {
      m := map[];
    }
  }

  datatype Ref = NilRef | ScalarRef(s: Scalar) | MapRef(o: MapObj) | SliceRef(a: array<Ref>)

  /** A document annotated with the objects that store it; `foot` covers all of them. */
  datatype Shape =
    | SNull
    | SLeaf(s: Scalar)
    | SMap(o: MapObj, kids: map<string, Shape>, foot: set<object>)
    | SArr(a: array<Ref>, elems: seq<Shape>, foot: set<object>)

  function RefOf(s: Shape): Ref {
    match s
    case SNull => NilRef
    case SLeaf(x) => ScalarRef(x)
    case SMap(o, _, _) => MapRef(o)
    case SArr(a, _, _) => SliceRef(a)
  }

  ghost function ValueOf(s: Shape): Value {
    match s
    case SNull => Null
    case SLeaf(x) => Leaf(x)
    case SMap(_, kids, _) => Map(map k | k in kids :: ValueOf(kids[k]))
    case SArr(_, elems, _) => Arr(seq(|elems|, i requires 0 <= i < |elems| => ValueOf(elems[i])))
  }

  ghost function EntriesOf(kids: map<string, Shape>): map<string, Value> {
    map k | k in kids :: ValueOf(kids[k])
  }

  ghost function ValuesOf(elems: seq<Shape>): seq<Value> {
    seq(|elems|, i requires 0 <= i < |elems| => ValueOf(elems[i]))
  }

  ghost function Foot(s: Shape): set<object> {
    if s.SMap? || s.SArr? then s.foot else {}
  }

  ghost predicate DisjointKids(kids: map<string, Shape>) {
    forall j, k :: j in kids && k in kids && j != k ==> Foot(kids[j]) !! Foot(kids[k])
  }

  ghost predicate DisjointElems(elems: seq<Shape>) {
    forall i, j :: 0 <= i < |elems| && 0 <= j < |elems| && i != j ==> Foot(elems[i]) !! Foot(elems[j])
  }

  /** The heap stores exactly this shape, and no object of it is shared. */
  ghost predicate Stored(s: Shape)
    reads Foot(s)
    decreases s
  {
    match s
    case SNull => true
    case SLeaf(_) => true
    case SMap(o, kids, foot) =>
      && o in foot && o.m.Keys == kids.Keys && DisjointKids(kids)
      && forall k :: k in kids ==>
           Foot(kids[k]) <= foot - {o} && o.m[k] == RefOf(kids[k]) && Stored(kids[k])
    case SArr(a, elems, foot) =>
      && a in foot && a.Length == |elems| && DisjointElems(elems)
      && forall i :: 0 <= i < |elems| ==>
           Foot(elems[i]) <= foot - {a} && a[i] == RefOf(elems[i]) && Stored(elems[i])
  }

  /** As `Stored` for a map, except for what the entry `key` refers to. */
  ghost predicate StoredButKey(o: MapObj, kids: map<string, Shape>, foot: set<object>, key: string)
    reads foot
  {
    && o in foot && o.m.Keys == kids.Keys + {key} && DisjointKids(kids)
    && forall k :: k in kids && k != key ==>
         Foot(kids[k]) <= foot - {o} && o.m[k] == RefOf(kids[k]) && Stored(kids[k])
  }

  ghost predicate StoredButSlot(a: array<Ref>, elems: seq<Shape>, foot: set<object>, idx: nat)
    reads foot
  {
    && a in foot && a.Length == |elems| && DisjointElems(elems)
    && forall i :: 0 <= i < |elems| && i != idx ==>
         Foot(elems[i]) <= foot - {a} && a[i] == RefOf(elems[i]) && Stored(elems[i])
  }

  /** The part of a document around the place the writer has reached. */
  datatype Context =
    | Top
    | InMap(up: Context, o: MapObj, kids: map<string, Shape>, key: string, foot: set<object>)
    | InArr(up: Context, a: array<Ref>, elems: seq<Shape>, idx: nat, foot: set<object>)

  ghost function ContextFoot(c: Context): set<object> {
    match c
    case Top => {}
    case InMap(up, _, _, _, foot) => ContextFoot(up) + foot
    case InArr(up, _, _, _, foot) => ContextFoot(up) + foot
  }

  /** The heap stores the context around a hole that is currently linked to `hole`. */
  ghost predicate ContextStored(c: Context, hole: Ref)
    reads ContextFoot(c)
  {
    match c
    case Top => true
    case InMap(up, o, kids, key, foot) =>
      && StoredButKey(o, kids[key := SNull], foot, key) && o.m[key] == hole
      && ContextFoot(up) !! foot && ContextStored(up, MapRef(o))
    case InArr(up, a, elems, idx, foot) =>
      && idx < |elems| && StoredButSlot(a, elems[idx := SNull], foot, idx) && a[idx] == hole
      && ContextFoot(up) !! foot && ContextStored(up, SliceRef(a))
  }

  ghost function Plug(c: Context, s: Shape): Shape
    decreases c
  {
    match c
    case Top => s
    case InMap(up, o, kids, key, foot) => Plug(up, SMap(o, kids[key := s], foot + Foot(s)))
    case InArr(up, a, elems, idx, foot) =>
      if idx < |elems| then Plug(up, SArr(a, elems[idx := s], foot + Foot(s))) else s
  }

  ghost function PlugValue(c: Context, v: Value): Value
    decreases c
  {
    match c
    case Top => v
    case InMap(up, _, kids, key, _) => PlugValue(up, Map(EntriesOf(kids)[key := v]))
    case InArr(up, _, elems, idx, _) => if idx < |elems| then PlugValue(up, Arr(ValuesOf(elems)[idx := v])) else v
  }

  ghost function PlugResult(c: Context, r: Result<Value>): Result<Value> {
    match r
    case Err(e) => Err(e)
    case Ok(v) => Ok(PlugValue(c, v))
  }

  /** The outermost object of the context (or the hole itself) is `root`. */
  ghost predicate Rooted(c: Context, hole: Ref, root: MapObj) {
    match c
    case Top => hole == MapRef(root)
    case InMap(up, o, _, _, _) => Rooted(up, MapRef(o), root)
    case InArr(up, a, _, _, _) => Rooted(up, SliceRef(a), root)
  }

  lemma FillKey(o: MapObj, kids: map<string, Shape>, foot: set<object>, key: string, s: Shape)
    requires StoredButKey(o, kids[key := SNull], foot, key) && o.m[key] == RefOf(s)
    requires Stored(s) && Foot(s) !! foot
    ensures Stored(SMap(o, kids[key := s], foot + Foot(s)))
  {
    var all, rest := kids[key := s], kids[key := SNull];
    assert forall k :: k in all && k != key ==> k in rest && all[k] == rest[k];
  }

  lemma FillSlot(a: array<Ref>, elems: seq<Shape>, foot: set<object>, idx: nat, s: Shape)
    requires idx < |elems| && StoredButSlot(a, elems[idx := SNull], foot, idx) && a[idx] == RefOf(s)
    requires Stored(s) && Foot(s) !! foot
    ensures Stored(SArr(a, elems[idx := s], foot + Foot(s)))
  {
    var all, rest := elems[idx := s], elems[idx := SNull];
    assert forall i :: 0 <= i < |all| && i != idx ==> all[i] == rest[i];
  }

  /** A stored context and a stored piece make a stored document, of the value they describe. */
  lemma {:induction false} PlugStored(c: Context, s: Shape, root: MapObj)
    requires ContextStored(c, RefOf(s)) && Stored(s) && ContextFoot(c) !! Foot(s) && Rooted(c, RefOf(s), root)
    ensures Stored(Plug(c, s)) && RefOf(Plug(c, s)) == MapRef(root)
    ensures Foot(Plug(c, s)) == ContextFoot(c) + Foot(s)
    ensures ValueOf(Plug(c, s)) == PlugValue(c, ValueOf(s))
    decreases c
  {
    match c
    case Top =>
    case InMap(up, o, kids, key, foot) =>
      FillKey(o, kids, foot, key, s);
      var t := SMap(o, kids[key := s], foot + Foot(s));
      assert ValueOf(t).m == EntriesOf(kids)[key := ValueOf(s)];
      PlugStored(up, t, root);
    case InArr(up, a, elems, idx, foot) =>
      FillSlot(a, elems, foot, idx, s);
      var t := SArr(a, elems[idx := s], foot + Foot(s));
      assert ValueOf(t).a == ValuesOf(elems)[idx := ValueOf(s)];
      PlugStored(up, t, root);
  }

  // --- Single steps ---

  method NewContainer(next: Seg, ghost taken: set<object>) returns (r: Ref, ghost s: Shape)
    ensures Stored(s) && RefOf(s) == r && ValueOf(s) == Placeholder(next)
    ensures Foot(s) !! taken && fresh(Foot(s))
    ensures (s.SMap? && s.kids == map[] && s.foot == {s.o}) || (s.SArr? && s.elems == [] && s.foot == {s.a})
  {
    if next.Idx? {
      var a := new Ref[0];
      r, s := SliceRef(a), SArr(a, [], {a});
    } else {
      var o := new MapObj();
      r, s := MapRef(o), SMap(o, map[], {o});
    }
  }

  ghost function FootAt(kids: map<string, Shape>, key: string): set<object> {
    if key in kids then Foot(kids[key]) else {}
  }

  lemma WidenFoot(o: MapObj, kids: map<string, Shape>, key: string, foot: set<object>, more: set<object>)
    requires StoredButKey(o, kids, foot, key) && foot <= more
    ensures StoredButKey(o, kids, more, key)
  {
  }

  /** The other entries keep clear of the map itself and of what the entry `key` covers. */
  lemma KidsApart(o: MapObj, kids: map<string, Shape>, foot: set<object>, key: string)
    requires Stored(SMap(o, kids, foot))
    ensures DisjointKids(kids[key := SNull]) && o in foot - FootAt(kids, key)
    ensures forall k :: k in kids[key := SNull] && k != key ==>
      && k in kids && kids[key := SNull][k] == kids[k] && Stored(kids[k]) && o.m[k] == RefOf(kids[k])
      && Foot(kids[k]) <= foot - FootAt(kids, key) - {o}
  {
  }

  method WriteEntry(o: MapObj, key: string, v: Ref, ghost kids: map<string, Shape>, ghost foot: set<object>)
    requires Stored(SMap(o, kids, foot))
    modifies o
    ensures StoredButKey(o, kids[key := SNull], foot - FootAt(kids, key), key) && o.m[key] == v
  {
    KidsApart(o, kids, foot, key);
    o.m := o.m[key := v];
  }

  method WriteSlot(a: array<Ref>, idx: nat, v: Ref, ghost elems: seq<Shape>, ghost foot: set<object>)
    requires Stored(SArr(a, elems, foot)) && idx < |elems|
    modifies a
    ensures StoredButSlot(a, elems[idx := SNull], foot, idx) && a[idx] == v
    ensures StoredButSlot(a, elems[idx := SNull], foot - Foot(elems[idx]), idx)
  {
    ghost var rest := elems[idx := SNull];
    assert forall i :: 0 <= i < |rest| && i != idx ==> rest[i] == elems[i];
    a[idx] := v;
  }

  /** The map step: the entry under `key`, made first when absent. */
  method DescendMap(o: MapObj, key: string, next: Seg, ghost kids: map<string, Shape>, ghost foot: set<object>, ghost taken: set<object>)
    returns (child: Ref, ghost kid: Shape, ghost rest: set<object>)
    requires Stored(SMap(o, kids, foot)) && foot <= taken
    modifies o
    ensures Stored(kid) && RefOf(kid) == child && ValueOf(kid) == KeyChild(EntriesOf(kids), key, next)
    ensures StoredButKey(o, kids[key := SNull], rest, key) && o.m[key] == child
    ensures rest <= foot && Foot(kid) !! rest && Foot(kid) !! taken - foot && fresh(Foot(kid) - foot)
  {
    if key !in o.m {
      child, kid := NewContainer(next, taken);
      rest := foot;
      WriteEntry(o, key, child, kids, foot);
    } else {
      child, kid := o.m[key], kids[key];
      rest := foot - Foot(kid);
      assert EntriesOf(kids)[key] == ValueOf(kid);
      WriteEntry(o, key, child, kids, foot);
    }
  }

  /** `make` and `copy`: a longer block with null in the new slots. */
  method NewBlock(a: array<Ref>, n: nat, ghost elems: seq<Shape>, ghost foot: set<object>, ghost taken: set<object>)
    returns (g: array<Ref>, ghost gs: seq<Shape>)
    requires Stored(SArr(a, elems, foot)) && foot <= taken && a.Length < n
    ensures Stored(SArr(g, gs, foot - {a} + {g})) && |gs| == n
    ensures ValuesOf(gs) == Grow(ValuesOf(elems), n, Null)
    ensures fresh(g) && g !in taken
  {
    g := new Ref[n](i requires 0 <= i < n reads a => if i < a.Length then a[i] else NilRef);
    gs := elems + seq(n - |elems|, _ => SNull);
  }

  /** Fresh containers for the slots from `start` on. */
  method FillBlock(g: array<Ref>, start: nat, next: Seg, ghost shapes: seq<Shape>, ghost foot: set<object>, ghost taken: set<object>)
    returns (ghost gs: seq<Shape>, ghost grown: set<object>)
    requires Stored(SArr(g, shapes, foot)) && foot <= taken && start <= g.Length
    modifies g
    ensures Stored(SArr(g, gs, grown)) && |gs| == |shapes|
    ensures forall i :: 0 <= i < |gs| ==> ValueOf(gs[i]) == if i < start then ValueOf(shapes[i]) else Placeholder(next)
    ensures foot <= grown && fresh(grown - foot) && grown - foot !! taken
  {
    var j := start;
    gs, grown := shapes, foot;
    while j < g.Length
      invariant start <= j <= g.Length && |gs| == |shapes|
      invariant Stored(SArr(g, gs, grown))
      invariant foot <= grown && fresh(grown - foot) && grown - foot !! taken
      invariant forall i :: 0 <= i < |gs| ==>
        ValueOf(gs[i]) == if start <= i < j then Placeholder(next) else ValueOf(shapes[i])
    {
      gs, grown := FillOne(g, j, next, gs, grown, taken + grown);
      j := j + 1;
    }
  }

  method FillOne(g: array<Ref>, j: nat, next: Seg, ghost shapes: seq<Shape>, ghost foot: set<object>, ghost taken: set<object>)
    returns (ghost gs: seq<Shape>, ghost grown: set<object>)
    requires Stored(SArr(g, shapes, foot)) && foot <= taken && j < g.Length
    modifies g
    ensures Stored(SArr(g, gs, grown)) && |gs| == |shapes|
    ensures forall i :: 0 <= i < |gs| ==> ValueOf(gs[i]) == if i == j then Placeholder(next) else ValueOf(shapes[i])
    ensures foot <= grown && fresh(grown - foot) && grown - foot !! taken
  {
    var r, s := NewContainer(next, taken);
    WriteSlot(g, j, r, shapes, foot);
    FillSlot(g, shapes, foot, j, s);
    gs, grown := shapes[j := s], foot + Foot(s);
  }

  /** At least `n` slots holding what `a` holds; new slots are null, or fresh containers
      when the path descends further. */
  method GrowTo(a: array<Ref>, n: nat, last: bool, next: Seg, ghost elems: seq<Shape>, ghost foot: set<object>, ghost taken: set<object>)
    returns (g: array<Ref>, ghost gs: seq<Shape>, ghost grown: set<object>)
    requires Stored(SArr(a, elems, foot)) && foot <= taken
    ensures Stored(SArr(g, gs, grown))
    ensures ValuesOf(gs) == Grow(ValuesOf(elems), n, if last then Null else Placeholder(next))
    ensures fresh(grown - foot) && grown - foot !! taken
    ensures n <= a.Length ==> g == a && grown == foot
    ensures n > a.Length ==> g !in taken
  {
    if n <= a.Length {
      return a, elems, foot;
    }
    g, gs := NewBlock(a, n, elems, foot, taken);
    grown := foot - {a} + {g};
    if !last {
      gs, grown := FillBlock(g, a.Length, next, gs, grown, taken + {g});
    }
  }

  // --- The walk ---

  /** Where a grown array has to be stored so that the document sees it. */
  datatype Parent = NoParent | EntryOf(o: MapObj, key: string) | SlotOf(a: array<Ref>, idx: nat)

  ghost predicate Links(p: Parent, c: Context) {
    match c
    case Top => p == NoParent
    case InMap(_, o, _, key, _) => p == EntryOf(o, key)
    case InArr(_, a, _, idx, _) => p == SlotOf(a, idx)
  }

  ghost function ParentObjects(p: Parent): set<object> {
    match p
    case NoParent => {}
    case EntryOf(o, _) => {o}
    case SlotOf(a, _) => {a}
  }

  /** The closure the writer keeps: link `x` at the place the walk came through. */
  method SetParent(p: Parent, x: Ref, ghost c: Context, ghost hole: Ref)
    requires Links(p, c) && ContextStored(c, hole)
    modifies ParentObjects(p)
    ensures ContextStored(c, x)
  {
    match p {
      case NoParent =>
      case EntryOf(o, key) => o.m := o.m[key := x];
      case SlotOf(a, idx) => a[idx] := x;
    }
  }

  /** The state of the walk: the document is `c` around `s`, the value to write lies apart. */
  ghost predicate Reached(c: Context, s: Shape, val: Shape, root: MapObj)
    reads ContextFoot(c), Foot(s), Foot(val)
  {
    && ContextStored(c, RefOf(s)) && Stored(s) && Stored(val)
    && ContextFoot(c) !! Foot(s) && Foot(val) !! (ContextFoot(c) + Foot(s))
    && Rooted(c, RefOf(s), root)
  }

  ghost function AllFoot(c: Context, s: Shape, val: Shape): set<object> {
    ContextFoot(c) + Foot(s) + Foot(val)
  }

  /** What a finished walk leaves: a stored document of value `v`. */
  ghost predicate Finished(after: Shape, root: MapObj, v: Value)
    reads Foot(after)
  {
    Stored(after) && RefOf(after) == MapRef(root) && ValueOf(after) == v
  }

  /** Into the entry `key` of the map reached, made first when absent. */
  method StepIntoMap(key: string, next: Seg, ghost c: Context, o: MapObj, ghost s: Shape,
                     ghost val: Shape, ghost root: MapObj, ghost taken: set<object>)
    returns (child: Ref, ghost kid: Shape, ghost inner: Context)
    requires s.SMap? && s.o == o && Reached(c, s, val, root) && AllFoot(c, s, val) <= taken
    modifies o
    ensures Reached(inner, kid, val, root) && RefOf(kid) == child && Links(EntryOf(o, key), inner)
    ensures ValueOf(kid) == KeyChild(EntriesOf(s.kids), key, next)
    ensures forall v :: PlugValue(inner, v) == PlugValue(c, Map(EntriesOf(s.kids)[key := v]))
    ensures fresh(AllFoot(inner, kid, val) - AllFoot(c, s, val))
  {
    assert o !in ContextFoot(c) && o !in Foot(val);
    ghost var rest;
    child, kid, rest := DescendMap(o, key, next, s.kids, s.foot, taken);
    assert ContextStored(c, MapRef(o)) && Stored(val);
    inner := EnterKey(c, o, s.kids, key, rest, kid, val, root);
  }

  /** The place under `key`, seen as the next one the walk reaches. */
  lemma EnterKey(c: Context, o: MapObj, kids: map<string, Shape>, key: string, rest: set<object>, kid: Shape, val: Shape, root: MapObj)
    returns (inner: Context)
    requires ContextStored(c, MapRef(o)) && Rooted(c, MapRef(o), root) && Stored(kid) && Stored(val)
    requires StoredButKey(o, kids[key := SNull], rest, key) && o.m[key] == RefOf(kid)
    requires ContextFoot(c) !! rest && (ContextFoot(c) + rest) !! Foot(kid) && Foot(val) !! (ContextFoot(c) + rest + Foot(kid))
    ensures Reached(inner, kid, val, root) && Links(EntryOf(o, key), inner)
    ensures ContextFoot(inner) == ContextFoot(c) + rest
    ensures forall v :: PlugValue(inner, v) == PlugValue(c, Map(EntriesOf(kids)[key := v]))
  {
    inner := InMap(c, o, kids, key, rest);
  }

  lemma ValueOfEntry(o: MapObj, kids: map<string, Shape>, foot: set<object>, key: string, val: Shape)
    ensures ValueOf(SMap(o, kids[key := val], foot)) == Map(EntriesOf(kids)[key := ValueOf(val)])
  {
    assert ValueOf(SMap(o, kids[key := val], foot)).m == EntriesOf(kids)[key := ValueOf(val)];
  }

  lemma ValueOfSlot(a: array<Ref>, elems: seq<Shape>, foot: set<object>, idx: nat, val: Shape)
    requires idx < |elems|
    ensures ValueOf(SArr(a, elems[idx := val], foot)) == Arr(ValuesOf(elems)[idx := ValueOf(val)])
  {
    assert ValueOf(SArr(a, elems[idx := val], foot)).a == ValuesOf(elems)[idx := ValueOf(val)];
  }

  method AssignEntry(o: MapObj, key: string, v: Ref, ghost kids: map<string, Shape>, ghost foot: set<object>, ghost val: Shape)
    requires Stored(SMap(o, kids, foot)) && Stored(val) && RefOf(val) == v && Foot(val) !! foot
    modifies o
    ensures Stored(SMap(o, kids[key := val], foot + Foot(val)))
  {
    WriteEntry(o, key, v, kids, foot);
    WidenFoot(o, kids[key := SNull], key, foot - FootAt(kids, key), foot);
    FillKey(o, kids, foot, key, val);
  }

  /** The last step at a map: the entry is assigned. */
  method FinishInMap(key: string, v: Ref, ghost c: Context, o: MapObj, ghost s: Shape,
                     ghost val: Shape, ghost root: MapObj, ghost taken: set<object>)
    returns (ghost after: Shape)
    requires s.SMap? && s.o == o && Reached(c, s, val, root) && AllFoot(c, s, val) <= taken && RefOf(val) == v
    modifies o
    ensures Finished(after, root, PlugValue(c, Map(EntriesOf(s.kids)[key := ValueOf(val)])))
    ensures Foot(after) == AllFoot(c, s, val)
  {
    assert o !in ContextFoot(c);
    AssignEntry(o, key, v, s.kids, s.foot, val);
    ghost var t := SMap(o, s.kids[key := val], s.foot + Foot(val));
    assert ContextStored(c, MapRef(o));
    ValueOfEntry(o, s.kids, t.foot, key, val);
    PlugStored(c, t, root);
    after := Plug(c, t);
  }

  /** The slot `idx` of an array, grown as needed and never null. */
  method DescendArray(idx: nat, next: Seg, a: array<Ref>, ghost elems: seq<Shape>, ghost foot: set<object>, ghost taken: set<object>)
    returns (g: array<Ref>, child: Ref, ghost kid: Shape, ghost gs: seq<Shape>, ghost rest: set<object>)
    requires Stored(SArr(a, elems, foot)) && foot <= taken
    modifies a
    ensures idx < |gs| && StoredButSlot(g, gs[idx := SNull], rest, idx) && g[idx] == child
    ensures Stored(kid) && RefOf(kid) == child && Foot(kid) !! rest
    ensures ValuesOf(gs) == Grow(ValuesOf(elems), idx + 1, Placeholder(next))
    ensures ValueOf(kid) == SlotChild(ValuesOf(gs)[idx], next)
    ensures fresh(rest + Foot(kid) - foot) && rest + Foot(kid) - foot !! taken
  {
    ghost var grown;
    g, gs, grown := GrowTo(a, idx + 1, false, next, elems, foot, taken);
    assert |gs| == |ValuesOf(gs)| && ValuesOf(gs)[idx] == ValueOf(gs[idx]);
    assert g == a || g !in foot;
    if g[idx] == NilRef {
      child, kid := NewContainer(next, taken + grown);
    } else {
      child, kid := g[idx], gs[idx];
    }
    rest := grown - Foot(gs[idx]);
    WriteSlot(g, idx, child, gs, grown);
  }

  /** Into slot `idx` of the array reached; the array is linked into its parent again. */
  method StepIntoArray(idx: nat, next: Seg, parent: Parent, ghost c: Context, a: array<Ref>, ghost s: Shape,
                       ghost val: Shape, ghost root: MapObj, ghost taken: set<object>)
    returns (g: array<Ref>, child: Ref, ghost kid: Shape, ghost inner: Context)
    requires s.SArr? && s.a == a && Reached(c, s, val, root) && AllFoot(c, s, val) <= taken
    requires Links(parent, c) && ParentObjects(parent) <= ContextFoot(c)
    modifies a, ParentObjects(parent)
    ensures Reached(inner, kid, val, root) && RefOf(kid) == child && Links(SlotOf(g, idx), inner)
    ensures
      var grown := Grow(ValuesOf(s.elems), idx + 1, Placeholder(next));
      && ValueOf(kid) == SlotChild(grown[idx], next)
      && forall v :: PlugValue(inner, v) == PlugValue(c, Arr(grown[idx := v]))
    ensures fresh(AllFoot(inner, kid, val) - AllFoot(c, s, val))
  {
    ghost var gs, rest;
    g, child, kid, gs, rest := DescendArray(idx, next, a, s.elems, s.foot, taken);
    assert ContextStored(c, SliceRef(a)) && Stored(val);
    SetParent(parent, SliceRef(g), c, SliceRef(a));
    inner := EnterGrown(c, g, gs, idx, rest, kid, val, root);
  }

  lemma EnterGrown(c: Context, g: array<Ref>, gs: seq<Shape>, idx: nat, rest: set<object>, kid: Shape, val: Shape, root: MapObj)
    returns (inner: Context)
    requires ContextStored(c, SliceRef(g)) && Rooted(c, SliceRef(g), root) && Stored(kid) && Stored(val)
    requires idx < |gs| && StoredButSlot(g, gs[idx := SNull], rest, idx) && g[idx] == RefOf(kid)
    requires ContextFoot(c) !! rest && (ContextFoot(c) + rest) !! Foot(kid) && Foot(val) !! (ContextFoot(c) + rest + Foot(kid))
    ensures Reached(inner, kid, val, root) && Links(SlotOf(g, idx), inner)
    ensures ContextFoot(inner) == ContextFoot(c) + rest
    ensures forall v :: PlugValue(inner, v) == PlugValue(c, Arr(ValuesOf(gs)[idx := v]))
  {
    inner := InArr(c, g, gs, idx, rest);
  }

  method AssignSlot(a: array<Ref>, idx: nat, v: Ref, ghost elems: seq<Shape>, ghost foot: set<object>, ghost val: Shape)
    requires Stored(SArr(a, elems, foot)) && idx < |elems| && Stored(val) && RefOf(val) == v && Foot(val) !! foot
    modifies a
    ensures Stored(SArr(a, elems[idx := val], foot + Foot(val)))
  {
    WriteSlot(a, idx, v, elems, foot);
    FillSlot(a, elems, foot, idx, val);
  }

  /** Links a finished piece into its parent, which completes the document. */
  method Relink(parent: Parent, x: Ref, ghost c: Context, ghost hole: Ref, ghost t: Shape, ghost root: MapObj, ghost taken: set<object>)
    returns (ghost after: Shape)
    requires Links(parent, c) && ContextStored(c, hole) && Rooted(c, x, root) && ParentObjects(parent) <= ContextFoot(c)
    requires Stored(t) && RefOf(t) == x && ContextFoot(c) !! Foot(t) && Foot(t) <= taken
    modifies ParentObjects(parent)
    ensures Finished(after, root, PlugValue(c, ValueOf(t)))
    ensures Foot(after) == ContextFoot(c) + Foot(t)
  {
    SetParent(parent, x, c, hole);
    PlugStored(c, t, root);
    after := Plug(c, t);
  }

  /** The last step at an array: grow it, assign the slot, link it into its parent again. */
  method FinishInArray(idx: nat, v: Ref, parent: Parent, ghost c: Context, a: array<Ref>, ghost s: Shape,
                       ghost val: Shape, ghost root: MapObj, ghost taken: set<object>)
    returns (ghost after: Shape)
    requires s.SArr? && s.a == a && Reached(c, s, val, root) && AllFoot(c, s, val) <= taken && RefOf(val) == v
    requires Links(parent, c) && ParentObjects(parent) <= ContextFoot(c)
    modifies a, ParentObjects(parent)
    ensures Finished(after, root, PlugValue(c, Arr(Grow(ValuesOf(s.elems), idx + 1, Null)[idx := ValueOf(val)])))
    ensures fresh(Foot(after) - AllFoot(c, s, val))
  {
    ghost var gs, grown;
    var g;
    g, gs, grown := GrowTo(a, idx + 1, true, Key(""), s.elems, s.foot, taken);
    ghost var values := ValuesOf(gs);
    assert |gs| == |values| && g !in ContextFoot(c);
    AssignSlot(g, idx, v, gs, grown, val);
    assert ContextStored(c, SliceRef(a));
    ghost var t := SArr(g, gs[idx := val], grown + Foot(val));
    ValueOfSlot(g, gs, t.foot, idx, val);
    after := Relink(parent, SliceRef(g), c, SliceRef(a), t, root, taken + grown);
  }

  /** Value-level meaning of one write at a path text. */
  function PutText(doc: Value, path: string, v: Value): Result<Value> {
    match Tokens(path)
    case Err(e) => Err(e)
    case Ok(p) => Put(doc, p, v)
  }

  ghost predicate Walking(current: Ref, parent: Parent, c: Context, s: Shape, val: Shape, root: MapObj, taken: set<object>)
    reads ContextFoot(c), Foot(s), Foot(val)
  {
    && Reached(c, s, val, root) && RefOf(s) == current && AllFoot(c, s, val) <= taken
    && Links(parent, c) && ParentObjects(parent) <= ContextFoot(c)
  }

  /** What a map step leaves to be written below. */
  lemma PutBelowKey(c: Context, kids: map<string, Shape>, k: string, p: Path, x: Value, inner: Context, child: Value)
    requires |p| > 1 && p[0] == Key(k) && child == KeyChild(EntriesOf(kids), k, p[1])
    requires forall v :: PlugValue(inner, v) == PlugValue(c, Map(EntriesOf(kids)[k := v]))
    ensures PlugResult(c, Put(Map(EntriesOf(kids)), p, x)) == PlugResult(inner, Put(child, p[1..], x))
  {
  }

  lemma PutBelowSlot(c: Context, elems: seq<Shape>, i: nat, p: Path, x: Value, inner: Context, child: Value)
    requires |p| > 1 && p[0] == Idx(i) && i <= MAX_ARRAY_INDEX
    requires child == SlotChild(Grow(ValuesOf(elems), i + 1, Placeholder(p[1]))[i], p[1])
    requires forall v :: PlugValue(inner, v) == PlugValue(c, Arr(Grow(ValuesOf(elems), i + 1, Placeholder(p[1]))[i := v]))
    ensures PlugResult(c, Put(Arr(ValuesOf(elems)), p, x)) == PlugResult(inner, Put(child, p[1..], x))
  {
  }

  method AdvanceKey(k: string, next: Seg, current: Ref, parent: Parent, ghost c: Context, ghost s: Shape, ghost val: Shape,
                    ghost root: MapObj, ghost taken: set<object>, ghost p: Path)
    returns (r: Result<(Ref, Parent)>, ghost kid: Shape, ghost inner: Context)
    requires Walking(current, parent, c, s, val, root, taken) && |p| > 1 && p[0] == Key(k) && p[1] == next
    modifies ContextFoot(c), Foot(s)
    ensures r.Ok? ==> Reached(inner, kid, val, root) && RefOf(kid) == r.v.0 && Links(r.v.1, inner) && ParentObjects(r.v.1) <= ContextFoot(inner)
    ensures r.Err? ==> Reached(c, s, val, root) && inner == c && kid == s
    ensures fresh(AllFoot(inner, kid, val) - AllFoot(c, s, val))
    ensures PlugResult(c, Put(ValueOf(s), p, ValueOf(val))) ==
            if r.Ok? then PlugResult(inner, Put(ValueOf(kid), p[1..], ValueOf(val))) else Err(r.e)
  {
    kid, inner := s, c;
    if !current.MapRef? { return Err(NotAMap), kid, inner; }
    var child;
    child, kid, inner := StepIntoMap(k, next, c, current.o, s, val, root, taken);
    assert ValueOf(s).m == EntriesOf(s.kids);
    PutBelowKey(c, s.kids, k, p, ValueOf(val), inner, ValueOf(kid));
    r := Ok((child, EntryOf(current.o, k)));
  }

  method AdvanceIndex(n: nat, next: Seg, current: Ref, parent: Parent, ghost c: Context, ghost s: Shape, ghost val: Shape,
                      ghost root: MapObj, ghost taken: set<object>, ghost p: Path)
    returns (r: Result<(Ref, Parent)>, ghost kid: Shape, ghost inner: Context)
    requires Walking(current, parent, c, s, val, root, taken) && |p| > 1 && p[0] == Idx(n) && p[1] == next
    modifies ContextFoot(c), Foot(s)
    ensures r.Ok? ==> Reached(inner, kid, val, root) && RefOf(kid) == r.v.0 && Links(r.v.1, inner) && ParentObjects(r.v.1) <= ContextFoot(inner)
    ensures r.Err? ==> Reached(c, s, val, root) && inner == c && kid == s
    ensures fresh(AllFoot(inner, kid, val) - AllFoot(c, s, val))
    ensures PlugResult(c, Put(ValueOf(s), p, ValueOf(val))) ==
            if r.Ok? then PlugResult(inner, Put(ValueOf(kid), p[1..], ValueOf(val))) else Err(r.e)
  {
    kid, inner := s, c;
    if !current.SliceRef? { return Err(NotAnArray), kid, inner; }
    if n > MAX_ARRAY_INDEX { return Err(IndexTooLarge), kid, inner; }
    var g, child;
    g, child, kid, inner := StepIntoArray(n, next, parent, c, current.a, s, val, root, taken);
    assert ValueOf(s).a == ValuesOf(s.elems);
    PutBelowSlot(c, s.elems, n, p, ValueOf(val), inner, ValueOf(kid));
    r := Ok((child, SlotOf(g, n)));
  }

  /** One segment that is not the last. */
  method Advance(seg: Seg, next: Seg, current: Ref, parent: Parent, ghost c: Context, ghost s: Shape, ghost val: Shape,
                 ghost root: MapObj, ghost taken: set<object>, ghost p: Path)
    returns (r: Result<(Ref, Parent)>, ghost kid: Shape, ghost inner: Context, ghost more: set<object>)
    requires Walking(current, parent, c, s, val, root, taken)
    requires |p| > 1 && p[0] == seg && p[1] == next
    modifies ContextFoot(c), Foot(s)
    ensures r.Ok? ==> Walking(r.v.0, r.v.1, inner, kid, val, root, more)
    ensures r.Err? ==> Reached(c, s, val, root)
    ensures fresh(more - taken) && taken <= more
    ensures PlugResult(c, Put(ValueOf(s), p, ValueOf(val))) ==
            if r.Ok? then PlugResult(inner, Put(ValueOf(kid), p[1..], ValueOf(val))) else Err(r.e)
  {
    match seg {
      case Key(k) => r, kid, inner := AdvanceKey(k, next, current, parent, c, s, val, root, taken, p);
      case Idx(n) => r, kid, inner := AdvanceIndex(n, next, current, parent, c, s, val, root, taken, p);
    }
    more := taken + AllFoot(inner, kid, val);
  }

  /** The last segment. */
  method Finish(seg: Seg, v: Ref, current: Ref, parent: Parent, ghost c: Context, ghost s: Shape, ghost val: Shape,
                ghost root: MapObj, ghost taken: set<object>)
    returns (r: Result<()>, ghost after: Shape)
    requires Walking(current, parent, c, s, val, root, taken) && RefOf(val) == v
    modifies ContextFoot(c), Foot(s)
    ensures Stored(after) && RefOf(after) == MapRef(root) && fresh(Foot(after) - taken)
    ensures PlugResult(c, Put(ValueOf(s), [seg], ValueOf(val))) == if r.Ok? then Ok(ValueOf(after)) else Err(r.e)
  {
    match seg {
      case Key(k) =>
        if !current.MapRef? {
          PlugStored(c, s, root);
          return Err(NotAMap), Plug(c, s);
        }
        after := FinishInMap(k, v, c, current.o, s, val, root, taken);
      case Idx(n) =>
        if !current.SliceRef? || n > MAX_ARRAY_INDEX {
          PlugStored(c, s, root);
          return Err(if !current.SliceRef? then NotAnArray else IndexTooLarge), Plug(c, s);
        }
        after := FinishInArray(n, v, parent, c, current.a, s, val, root, taken);
    }
    r := Ok(());
  }

  /** The walk over all segments. */
  method Walk(segs: Path, obj: MapObj, v: Ref, ghost doc: Shape, ghost val: Shape, ghost start: Value, ghost x: Value)
    returns (r: Result<()>, ghost after: Shape)
    requires segs != [] && Stored(doc) && RefOf(doc) == MapRef(obj) && ValueOf(doc) == start
    requires Stored(val) && RefOf(val) == v && Foot(val) !! Foot(doc) && ValueOf(val) == x
    modifies Foot(doc)
    ensures Stored(after) && RefOf(after) == MapRef(obj) && fresh(Foot(after) - Foot(doc) - Foot(val))
    ensures Put(start, segs, x) == if r.Ok? then Ok(ValueOf(after)) else Err(r.e)
  {
    var current, parent := MapRef(obj), NoParent;
    ghost var c, s, taken := Top, doc, Foot(doc) + Foot(val);
    assert Put(start, segs, x) == PlugResult(c, Put(start, segs, x));
    assert segs[0..] == segs;
    var i := 0;
    while i < |segs| - 1
      invariant 0 <= i < |segs|
      invariant Walking(current, parent, c, s, val, obj, taken)
      invariant fresh(taken - Foot(doc) - Foot(val))
      invariant Put(start, segs, x) == PlugResult(c, Put(ValueOf(s), segs[i..], x))
    {
      assert ContextFoot(c) + Foot(s) <= taken - Foot(val);
      var step;
      ghost var kid, inner, more;
      step, kid, inner, more := Advance(segs[i], segs[i + 1], current, parent, c, s, val, obj, taken, segs[i..]);
      if step.Err? {
        PlugStored(c, s, obj);
        return Err(step.e), Plug(c, s);
      }
      assert segs[i..][1..] == segs[i + 1..];
      current, parent := step.v.0, step.v.1;
      c, s, taken := inner, kid, more;
      i := i + 1;
    }
    assert segs[i..] == [segs[i]];
    assert ContextFoot(c) + Foot(s) <= taken - Foot(val);
    r, after := Finish(segs[i], v, current, parent, c, s, val, obj, taken);
  }

  /** The growing writer. On success the document that hangs off `obj` has exactly the value
      `Put` computes, however many arrays were replaced on the way; on failure it is still a
      well-formed document. */
  method SetJSONPathAbsolute(obj: MapObj, path: string, v: Ref, ghost doc: Shape, ghost val: Shape)
    returns (r: Result<()>, ghost after: Shape)
    requires Stored(doc) && RefOf(doc) == MapRef(obj)
    requires Stored(val) && RefOf(val) == v && Foot(val) !! Foot(doc)
    modifies Foot(doc)
    ensures Stored(after) && RefOf(after) == MapRef(obj) && fresh(Foot(after) - Foot(doc) - Foot(val))
    ensures PutText(ValueOf(doc), path, ValueOf(val)) == if r.Ok? then Ok(ValueOf(after)) else Err(r.e)
  {
    var tokens := Tokenize(path);
    if tokens.Err? { return Err(tokens.e), doc; }
    if tokens.v == [] { return Err(EmptyPath), doc; }
    r, after := Walk(tokens.v, obj, v, doc, val, ValueOf(doc), ValueOf(val));
  }

  // --- From values to the heap and back ---

  /** A freshly decoded value: nothing in it is shared with anything. */
  method Decode(v: Value, ghost taken: set<object>) returns (r: Ref, ghost s: Shape)
    ensures Stored(s) && RefOf(s) == r && ValueOf(s) == v
    ensures fresh(Foot(s)) && Foot(s) !! taken
    decreases v, 1
  {
    match v {
      case Null => r, s := NilRef, SNull;
      case Leaf(x) => r, s := ScalarRef(x), SLeaf(x);
      case Map(_) => r, s := DecodeMap(v, taken);
      case Arr(_) => r, s := DecodeArray(v, taken);
    }
  }

  method DecodeMap(v: Value, ghost taken: set<object>) returns (r: Ref, ghost s: Shape)
    requires v.Map?
    ensures Stored(s) && RefOf(s) == r && ValueOf(s) == v
    ensures fresh(Foot(s)) && Foot(s) !! taken
    decreases v, 0
  {
    var m := v.m;
    var o := new MapObj();
    ghost var kids: map<string, Shape>, foot: set<object> := map[], {o};
    var todo := m.Keys;
    while todo != {}
      invariant todo <= m.Keys && kids.Keys == m.Keys - todo
      invariant Stored(SMap(o, kids, foot)) && fresh(foot) && foot !! taken
      invariant forall k :: k in kids ==> ValueOf(kids[k]) == m[k]
      decreases todo
    {
      var k :| k in todo;
      var child;
      ghost var kid;
      child, kid := Decode(v.m[k], taken + foot);
      AssignEntry(o, k, child, kids, foot, kid);
      kids, foot, todo := kids[k := kid], foot + Foot(kid), todo - {k};
    }
    r, s := MapRef(o), SMap(o, kids, foot);
    assert ValueOf(s).m == m;
  }

  method DecodeArray(v: Value, ghost taken: set<object>) returns (r: Ref, ghost s: Shape)
    requires v.Arr?
    ensures Stored(s) && RefOf(s) == r && ValueOf(s) == v
    ensures fresh(Foot(s)) && Foot(s) !! taken
    decreases v, 0
  {
    var a := v.a;
    var block := new Ref[|a|](_ => NilRef);
    ghost var elems: seq<Shape>, foot: set<object> := seq(|a|, _ => SNull), {block};
    for i := 0 to |a|
      invariant |elems| == |a| && Stored(SArr(block, elems, foot)) && fresh(foot) && foot !! taken
      invariant forall j :: 0 <= j < i ==> ValueOf(elems[j]) == a[j]
    {
      var child;
      ghost var kid;
      child, kid := Decode(v.a[i], taken + foot);
      AssignSlot(block, i, child, elems, foot, kid);
      elems, foot := elems[i := kid], foot + Foot(kid);
    }
    r, s := SliceRef(block), SArr(block, elems, foot);
    assert ValueOf(s).a == a;
  }

  /** The value a stored document is written out as. */
  method Encode(r: Ref, ghost s: Shape) returns (v: Value)
    requires Stored(s) && RefOf(s) == r
    ensures v == ValueOf(s)
    decreases s
  {
    match r {
      case NilRef => v := Null;
      case ScalarRef(x) => v := Leaf(x);
      case MapRef(o) =>
        var m: map<string, Value>, todo := map[], o.m.Keys;
        while todo != {}
          invariant todo <= o.m.Keys && m.Keys == o.m.Keys - todo
          invariant forall k :: k in m ==> m[k] == ValueOf(s.kids[k])
          decreases todo
        {
          var k :| k in todo;
          var child := Encode(o.m[k], s.kids[k]);
          m, todo := m[k := child], todo - {k};
        }
        v := Map(m);
      case SliceRef(a) =>
        var values: seq<Value> := [];
        for i := 0 to a.Length
          invariant |values| == i && forall j :: 0 <= j < i ==> values[j] == ValueOf(s.elems[j])
        {
          var child := Encode(a[i], s.elems[i]);
          values := values + [child];
        }
        v := Arr(values);
    }
  }
}
