/** The strict writer of the renderer: it reads the path text as it walks, creates missing
    maps on the way, and never creates or grows an array. */
module StrictWriter {
  import opened Values
  import opened PathGrammar
  import opened PathWriters
  import opened DocHeap

  /** The walk on values, one segment of the text at a time. */
  function SetText(cur: Value, rest: string, v: Value): (r: Result<Value>)
    ensures cur.Map? && r.Ok? ==> r.v.Map?
    decreases |rest|
  {
    if rest == "" then Ok(cur)
    else match FirstSeg(rest)
      case None => Err(BadRemainder)
      case Some((seg, n)) => (
        var tail := TrimDot(rest[n..]);
        match seg
        case Key(k) =>
          if !cur.Map? then Err(NotAMap)
          else if tail == "" then Ok(Map(cur.m[k := v]))
          else if k !in cur.m && tail[0] == '[' then Err(NoAutoArray)
          else (
            match SetText(if k in cur.m then cur.m[k] else Map(map[]), tail, v)
            case Err(e) => Err(e)
            case Ok(c) => Ok(Map(cur.m[k := c]))
          )
        case Idx(i) =>
          if !cur.Arr? then Err(NotAnArray)
          else if i >= |cur.a| then Err(IndexOutOfRange)
          else if tail == "" then Ok(Arr(cur.a[i := v]))
          else (
            match SetText(cur.a[i], tail, v)
            case Err(e) => Err(e)
            case Ok(c) => Ok(Arr(cur.a[i := c]))
          )
      )
  }

  /** `r` and `q` agree on success and on what is then written. */
  predicate SameOutcome(r: Result<Value>, q: Result<Value>) {
    r == q || (r.Err? && q.Err?)
  }

  lemma StartsLikeItsTokens(s: string)
    requires s != "" && Tokens(s).Ok?
    ensures s[0] == '[' <==> Tokens(s).v[0].Idx?
    ensures s[0] != '[' ==> IsIdentStart(s[0])
  {
  }

  predicate Agree(cur: Value, s: string, v: Value) {
    SameOutcome(SetText(cur, s, v), match Tokens(s) case Err(e) => Err(e) case Ok(p) => SetInto(cur, p, v))
  }

  /** The first segment and the tokens behind it. */
  lemma FirstToken(s: string) returns (seg: Seg, tail: string)
    requires s != "" && FirstSeg(s).Some?
    ensures |tail| < |s| && seg == FirstSeg(s).value.0 && tail == TrimDot(s[FirstSeg(s).value.1..])
    ensures Tokens(s) == Prepend([seg], Tokens(tail))
    ensures tail == "" ==> Tokens(s) == Ok([seg])
    ensures tail != "" && Tokens(tail).Ok? ==>
              Tokens(s).v[0] == seg && Tokens(s).v[1..] == Tokens(tail).v && Tokens(tail).v != [] && (tail[0] == '[' <==> Tokens(s).v[1].Idx?)
  {
    seg, tail := FirstSeg(s).value.0, TrimDot(s[FirstSeg(s).value.1..]);
    if tail != "" && Tokens(tail).Ok? {
      StartsLikeItsTokens(tail);
      assert ([seg] + Tokens(tail).v)[1..] == Tokens(tail).v;
    } else if tail == "" {
      assert [seg] + [] == [seg];
    }
  }

  lemma AgreeAtKey(cur: Value, s: string, v: Value)
    requires s != "" && FirstSeg(s).Some? && FirstSeg(s).value.0.Key? && cur.Map?
    requires
      var tail := TrimDot(s[FirstSeg(s).value.1..]);
      var k := FirstSeg(s).value.0.k;
      Agree(if k in cur.m then cur.m[k] else Map(map[]), tail, v)
    ensures Agree(cur, s, v)
  {
    var seg, tail := FirstToken(s);
    if tail != "" && Tokens(tail).Ok? {
      assert SetInto(cur, Tokens(s).v, v) == SetInto(cur, [seg] + Tokens(tail).v, v);
    }
  }

  lemma AgreeAtIndex(cur: Value, s: string, v: Value)
    requires s != "" && FirstSeg(s).Some? && FirstSeg(s).value.0.Idx? && cur.Arr?
    requires
      var tail := TrimDot(s[FirstSeg(s).value.1..]);
      var i := FirstSeg(s).value.0.i;
      i < |cur.a| ==> Agree(cur.a[i], tail, v)
    ensures Agree(cur, s, v)
  {
    var seg, tail := FirstToken(s);
    if tail != "" && Tokens(tail).Ok? {
      assert SetInto(cur, Tokens(s).v, v) == SetInto(cur, [seg] + Tokens(tail).v, v);
    }
  }

  /** Tokenizing while walking or beforehand makes no difference, except for which error is reported. */
  lemma {:induction false} SetTextIsSetInto(cur: Value, s: string, v: Value)
    ensures Agree(cur, s, v)
    decreases |s|
  {
    if s != "" && FirstSeg(s).Some? {
      var seg, tail := FirstToken(s);
      match seg
      case Key(k) =>
        if cur.Map? {
          SetTextIsSetInto(if k in cur.m then cur.m[k] else Map(map[]), tail, v);
          AgreeAtKey(cur, s, v);
        }
      case Idx(i) =>
        if cur.Arr? {
          if i < |cur.a| { SetTextIsSetInto(cur.a[i], tail, v); }
          AgreeAtIndex(cur, s, v);
        }
    }
  }

  // --- On the heap ---

  lemma OpenSlot(a: array<Ref>, elems: seq<Shape>, foot: set<object>, idx: nat)
    requires Stored(SArr(a, elems, foot)) && idx < |elems|
    ensures StoredButSlot(a, elems[idx := SNull], foot - Foot(elems[idx]), idx)
    ensures ValuesOf(elems)[idx] == ValueOf(elems[idx])
  {
    var rest := elems[idx := SNull];
    assert forall i :: 0 <= i < |rest| && i != idx ==> rest[i] == elems[i];
  }

  ghost predicate At(node: Ref, c: Context, s: Shape, val: Shape, root: MapObj, taken: set<object>)
    reads ContextFoot(c), Foot(s), Foot(val)
  {
    Reached(c, s, val, root) && RefOf(s) == node && AllFoot(c, s, val) <= taken
  }

  /** Descend into slot `idx` of the array reached. */
  lemma EnterSlot(c: Context, s: Shape, val: Shape, root: MapObj, idx: nat) returns (inner: Context)
    requires s.SArr? && Reached(c, s, val, root) && idx < |s.elems|
    ensures Reached(inner, s.elems[idx], val, root)
    ensures AllFoot(inner, s.elems[idx], val) <= AllFoot(c, s, val)
    ensures forall v :: PlugValue(inner, v) == PlugValue(c, Arr(ValuesOf(s.elems)[idx := v]))
    ensures ValueOf(s.elems[idx]) == ValuesOf(s.elems)[idx]
  {
    OpenSlot(s.a, s.elems, s.foot, idx);
    inner := InArr(c, s.a, s.elems, idx, s.foot - Foot(s.elems[idx]));
  }

  /** `rest` starts with `seg` and continues with `tail`. */
  predicate StartsWith(rest: string, seg: Seg, tail: string) {
    rest != "" && FirstSeg(rest).Some? && FirstSeg(rest).value.0 == seg && TrimDot(rest[FirstSeg(rest).value.1..]) == tail
  }

  /** What the rest of the walk has to do after one map segment. */
  lemma KeyStep(c: Context, kids: map<string, Shape>, x: Value, k: string, tail: string, rest: string, inner: Context, child: Value)
    requires tail != "" && StartsWith(rest, Key(k), tail) && (k in kids || tail[0] != '[')
    requires child == KeyChild(EntriesOf(kids), k, Key(""))
    requires forall v :: PlugValue(inner, v) == PlugValue(c, Map(EntriesOf(kids)[k := v]))
    ensures PlugResult(c, SetText(Map(EntriesOf(kids)), rest, x)) == PlugResult(inner, SetText(child, tail, x))
  {
  }

  /** A map segment with more of the path to come. */
  method DescendKey(k: string, tail: string, node: Ref, ghost c: Context, ghost s: Shape, ghost val: Shape,
                    ghost root: MapObj, ghost taken: set<object>, ghost rest: string)
    returns (r: Result<Ref>, ghost kid: Shape, ghost inner: Context)
    requires At(node, c, s, val, root, taken) && tail != "" && StartsWith(rest, Key(k), tail)
    modifies ContextFoot(c), Foot(s)
    ensures r.Ok? ==> Reached(inner, kid, val, root) && RefOf(kid) == r.v
    ensures r.Err? ==> Reached(c, s, val, root) && kid == s && inner == c
    ensures fresh(AllFoot(inner, kid, val) - AllFoot(c, s, val))
    ensures PlugResult(c, SetText(ValueOf(s), rest, ValueOf(val))) ==
            if r.Ok? then PlugResult(inner, SetText(ValueOf(kid), tail, ValueOf(val))) else Err(r.e)
  {
    kid, inner := s, c;
    if !node.MapRef? { return Err(NotAMap), kid, inner; }
    assert ValueOf(s).m == EntriesOf(s.kids);
    if k !in node.o.m && tail[0] == '[' { return Err(NoAutoArray), kid, inner; }
    var child;
    child, kid, inner := StepIntoMap(k, Key(""), c, node.o, s, val, root, taken);
    KeyStep(c, s.kids, ValueOf(val), k, tail, rest, inner, ValueOf(kid));
    r := Ok(child);
  }

  /** An index segment with more of the path to come. */
  method DescendIndex(i: nat, tail: string, node: Ref, ghost c: Context, ghost s: Shape, ghost val: Shape,
                      ghost root: MapObj, ghost taken: set<object>, ghost rest: string)
    returns (r: Result<Ref>, ghost kid: Shape, ghost inner: Context)
    requires At(node, c, s, val, root, taken) && tail != "" && StartsWith(rest, Idx(i), tail)
    ensures r.Ok? ==> Reached(inner, kid, val, root) && RefOf(kid) == r.v
    ensures r.Err? ==> kid == s && inner == c
    ensures AllFoot(inner, kid, val) <= AllFoot(c, s, val)
    ensures PlugResult(c, SetText(ValueOf(s), rest, ValueOf(val))) ==
            if r.Ok? then PlugResult(inner, SetText(ValueOf(kid), tail, ValueOf(val))) else Err(r.e)
  {
    kid, inner := s, c;
    if !node.SliceRef? { return Err(NotAnArray), kid, inner; }
    assert ValueOf(s).a == ValuesOf(s.elems);
    if i >= node.a.Length { return Err(IndexOutOfRange), kid, inner; }
    inner := EnterSlot(c, s, val, root, i);
    kid := s.elems[i];
    r := Ok(node.a[i]);
  }

  /** One segment with more of the path to come. */
  method Descend(seg: Seg, tail: string, node: Ref, ghost c: Context, ghost s: Shape, ghost val: Shape,
                 ghost root: MapObj, ghost taken: set<object>, ghost rest: string)
    returns (r: Result<Ref>, ghost kid: Shape, ghost inner: Context, ghost more: set<object>)
    requires At(node, c, s, val, root, taken) && tail != "" && StartsWith(rest, seg, tail)
    modifies ContextFoot(c), Foot(s)
    ensures r.Ok? ==> At(r.v, inner, kid, val, root, more)
    ensures r.Err? ==> Reached(c, s, val, root)
    ensures fresh(more - taken) && taken <= more
    ensures PlugResult(c, SetText(ValueOf(s), rest, ValueOf(val))) ==
            if r.Ok? then PlugResult(inner, SetText(ValueOf(kid), tail, ValueOf(val))) else Err(r.e)
  {
    match seg {
      case Key(k) => r, kid, inner := DescendKey(k, tail, node, c, s, val, root, taken, rest);
      case Idx(i) => r, kid, inner := DescendIndex(i, tail, node, c, s, val, root, taken, rest);
    }
    more := taken + AllFoot(inner, kid, val);
  }

  /** The last segment. */
  method Assign(seg: Seg, v: Ref, node: Ref, ghost c: Context, ghost s: Shape, ghost val: Shape,
                ghost root: MapObj, ghost taken: set<object>, ghost rest: string)
    returns (r: Result<()>, ghost after: Shape)
    requires At(node, c, s, val, root, taken) && RefOf(val) == v && StartsWith(rest, seg, "")
    modifies ContextFoot(c), Foot(s)
    ensures Stored(after) && RefOf(after) == MapRef(root) && fresh(Foot(after) - taken)
    ensures PlugResult(c, SetText(ValueOf(s), rest, ValueOf(val))) == if r.Ok? then Ok(ValueOf(after)) else Err(r.e)
  {
    match seg {
      case Key(k) =>
        if !node.MapRef? {
          PlugStored(c, s, root);
          return Err(NotAMap), Plug(c, s);
        }
        assert ValueOf(s).m == EntriesOf(s.kids);
        after := FinishInMap(k, v, c, node.o, s, val, root, taken);
      case Idx(i) =>
        if !node.SliceRef? || i >= node.a.Length {
          PlugStored(c, s, root);
          return Err(if !node.SliceRef? then NotAnArray else IndexOutOfRange), Plug(c, s);
        }
        after := AssignInArray(i, v, c, node.a, s, val, root, taken);
    }
    r := Ok(());
  }

  method AssignInArray(idx: nat, v: Ref, ghost c: Context, a: array<Ref>, ghost s: Shape,
                       ghost val: Shape, ghost root: MapObj, ghost taken: set<object>)
    returns (ghost after: Shape)
    requires s.SArr? && s.a == a && idx < a.Length && Reached(c, s, val, root) && RefOf(val) == v && AllFoot(c, s, val) <= taken
    modifies a
    ensures Finished(after, root, PlugValue(c, Arr(ValuesOf(s.elems)[idx := ValueOf(val)])))
    ensures Foot(after) == AllFoot(c, s, val)
  {
    assert a !in ContextFoot(c);
    AssignSlot(a, idx, v, s.elems, s.foot, val);
    ghost var t := SArr(a, s.elems[idx := val], s.foot + Foot(val));
    assert ContextStored(c, SliceRef(a));
    ValueOfSlot(a, s.elems, t.foot, idx, val);
    PlugStored(c, t, root);
    after := Plug(c, t);
  }

  /** The strict writer. On success the document hanging off `obj` has exactly the value
      `SetText` computes; on failure it is still a well-formed document. */
  method SetIntoDocument(obj: MapObj, path: string, v: Ref, ghost doc: Shape, ghost val: Shape)
    returns (r: Result<()>, ghost after: Shape)
    requires Stored(doc) && RefOf(doc) == MapRef(obj)
    requires Stored(val) && RefOf(val) == v && Foot(val) !! Foot(doc)
    modifies Foot(doc)
    ensures Stored(after) && RefOf(after) == MapRef(obj) && fresh(Foot(after) - Foot(doc) - Foot(val))
    ensures SetText(ValueOf(doc), path, ValueOf(val)) == if r.Ok? then Ok(ValueOf(after)) else Err(r.e)
  {
    var node, rest := MapRef(obj), path;
    ghost var c, s, taken := Top, doc, Foot(doc) + Foot(val);
    ghost var start, x := ValueOf(doc), ValueOf(val);
    assert SetText(start, path, x) == PlugResult(c, SetText(start, path, x));
    while rest != ""
      invariant At(node, c, s, val, obj, taken)
      invariant fresh(taken - Foot(doc) - Foot(val))
      invariant SetText(start, path, x) == PlugResult(c, SetText(ValueOf(s), rest, x))
      decreases |rest|
    {
      var m := FirstSeg(rest);
      if m.None? {
        PlugStored(c, s, obj);
        return Err(BadRemainder), Plug(c, s);
      }
      var (seg, n) := m.value;
      var tail := TrimDot(rest[n..]);
      assert ContextFoot(c) + Foot(s) <= taken - Foot(val);
      if tail == "" {
        r, after := Assign(seg, v, node, c, s, val, obj, taken, rest);
        return;
      }
      var step;
      ghost var kid, inner, more;
      step, kid, inner, more := Descend(seg, tail, node, c, s, val, obj, taken, rest);
      if step.Err? {
        PlugStored(c, s, obj);
        return Err(step.e), Plug(c, s);
      }
      node, rest := step.v, tail;
      c, s, taken := inner, kid, more;
    }
    PlugStored(c, s, obj);
    r, after := Ok(()), Plug(c, s);
  }
}
