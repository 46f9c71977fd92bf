/** The two path writers over document values: the growing writer of the UI-mode
    serialiser and the strict writer of the renderer. */
module PathWriters {
  import opened Values

  /** Largest index the growing writer accepts. */
  const MAX_ARRAY_INDEX := 1024

  /** The container a later step will descend into. */
  function Placeholder(next: Seg): Value {
    if next.Idx? then Arr([]) else Map(map[])
  }

  /** `a` grown to at least `n` slots; new slots hold `fill`. */
  function Grow(a: seq<Value>, n: nat, fill: Value): (g: seq<Value>)
    ensures |g| == if n <= |a| then |a| else n
    ensures forall i :: 0 <= i < |g| ==> g[i] == if i < |a| then a[i] else fill
  {
    if n <= |a| then a else a + seq(n - |a|, _ => fill)
  }

  /** What a key step descends into: the entry, or a fresh container when it is absent. */
  function KeyChild(m: map<string, Value>, k: string, next: Seg): Value {
    if k in m then m[k] else Placeholder(next)
  }

  /** What an index step descends into: the slot, or a fresh container when it is null. */
  function SlotChild(slot: Value, next: Seg): Value {
    if slot == Null then Placeholder(next) else slot
  }

  /** The growing writer: creates missing maps and arrays along the way. */
  function Put(cur: Value, p: Path, v: Value): Result<Value>
    decreases |p|
  {
    if p == [] then Err(EmptyPath)
    else match p[0]
      case Key(k) =>
        if !cur.Map? then Err(NotAMap)
        else if |p| == 1 then Ok(Map(cur.m[k := v]))
        else (
          match Put(KeyChild(cur.m, k, p[1]), p[1..], v)
          case Err(e) => Err(e)
          case Ok(c) => Ok(Map(cur.m[k := c]))
        )
      case Idx(i) =>
        if !cur.Arr? then Err(NotAnArray)
        else if i > MAX_ARRAY_INDEX then Err(IndexTooLarge)
        else if |p| == 1 then Ok(Arr(Grow(cur.a, i + 1, Null)[i := v]))
        else (
          var g := Grow(cur.a, i + 1, Placeholder(p[1]));
          match Put(SlotChild(g[i], p[1]), p[1..], v)
          case Err(e) => Err(e)
          case Ok(c) => Ok(Arr(g[i := c]))
        )
  }

  /** The strict writer: creates missing maps, never creates or grows an array.
      An empty path writes nothing and succeeds. */
  function SetInto(cur: Value, p: Path, v: Value): Result<Value>
    decreases |p|
  {
    if p == [] then Ok(cur)
    else match p[0]
      case Key(k) =>
        if !cur.Map? then Err(NotAMap)
        else if |p| == 1 then Ok(Map(cur.m[k := v]))
        else if k !in cur.m && p[1].Idx? then Err(NoAutoArray)
        else (
          match SetInto(KeyChild(cur.m, k, p[1]), p[1..], v)
          case Err(e) => Err(e)
          case Ok(c) => Ok(Map(cur.m[k := c]))
        )
      case Idx(i) =>
        if !cur.Arr? then Err(NotAnArray)
        else if i >= |cur.a| then Err(IndexOutOfRange)
        else if |p| == 1 then Ok(Arr(cur.a[i := v]))
        else (
          match SetInto(cur.a[i], p[1..], v)
          case Err(e) => Err(e)
          case Ok(c) => Ok(Arr(cur.a[i := c]))
        )
  }

  /** Get after put. */
  lemma {:induction false} PutGet(cur: Value, p: Path, v: Value)
    requires Put(cur, p, v).Ok?
    ensures Get(Put(cur, p, v).v, p) == Some(v)
    decreases |p|
  {
    if |p| > 1 {
      match p[0]
      case Key(k) => PutGet(KeyChild(cur.m, k, p[1]), p[1..], v);
      case Idx(i) => PutGet(SlotChild(Grow(cur.a, i + 1, Placeholder(p[1]))[i], p[1]), p[1..], v);
    }
  }

  /** Frame: a path that parts from the written one reads as before, through any nesting
      of arrays grown on the way. */
  lemma {:induction false} PutFrame(cur: Value, p: Path, v: Value, q: Path)
    requires Put(cur, p, v).Ok? && Apart(p, q) && Get(cur, q).Some?
    ensures Get(Put(cur, p, v).v, q) == Get(cur, q)
    decreases |p|
  {
    ApartTail(p, q);
    if p[0] == q[0] {
      match p[0]
      case Key(k) => PutFrame(KeyChild(cur.m, k, p[1]), p[1..], v, q[1..]);
      case Idx(i) => PutFrame(SlotChild(Grow(cur.a, i + 1, Placeholder(p[1]))[i], p[1]), p[1..], v, q[1..]);
    }
  }

  ghost predicate IndicesWithin(p: Path, limit: nat) {
    forall j :: 0 <= j < |p| && p[j].Idx? ==> p[j].i <= limit
  }

  /** Whatever the strict writer achieves, the growing writer achieves with the same result. */
  lemma {:induction false} StrictRefinesGrowing(cur: Value, p: Path, v: Value)
    requires p != [] && IndicesWithin(p, MAX_ARRAY_INDEX)
    requires SetInto(cur, p, v).Ok?
    ensures Put(cur, p, v) == SetInto(cur, p, v)
    decreases |p|
  {
    if |p| > 1 {
      var tail := p[1..];
      assert forall j :: 0 <= j < |tail| ==> tail[j] == p[j + 1];
      match p[0]
      case Key(k) =>
        StrictRefinesGrowing(KeyChild(cur.m, k, p[1]), tail, v);
      case Idx(i) =>
        StrictRefinesGrowing(cur.a[i], tail, v);
        assert Grow(cur.a, i + 1, Placeholder(p[1])) == cur.a;
    } else if p[0].Idx? {
      assert Grow(cur.a, p[0].i + 1, Null) == cur.a;
    }
  }

  /** The strict writer never creates an array or changes the length of one: an array found
      afterwards at any place outside the written one was there before, equally long. */
  lemma {:induction false} StrictKeepsArrays(cur: Value, p: Path, v: Value, q: Path)
    requires SetInto(cur, p, v).Ok? && p != [] && !(p <= q)
    requires Get(SetInto(cur, p, v).v, q).Some? && Get(SetInto(cur, p, v).v, q).value.Arr?
    ensures Get(cur, q).Some? && Get(cur, q).value.Arr?
    ensures |Get(cur, q).value.a| == |Get(SetInto(cur, p, v).v, q).value.a|
    decreases |p|
  {
    if q != [] && q[0] == p[0] {
      assert p == [p[0]] + p[1..] && q == [q[0]] + q[1..];
      match p[0]
      case Key(k) => StrictKeepsArrays(KeyChild(cur.m, k, p[1]), p[1..], v, q[1..]);
      case Idx(i) => StrictKeepsArrays(cur.a[i], p[1..], v, q[1..]);
    }
  }

  /** Frame of the strict writer. */
  lemma {:induction false} StrictFrame(cur: Value, p: Path, v: Value, q: Path)
    requires SetInto(cur, p, v).Ok? && Apart(p, q) && Get(cur, q).Some?
    ensures Get(SetInto(cur, p, v).v, q) == Get(cur, q)
    decreases |p|
  {
    ApartTail(p, q);
    if p[0] == q[0] {
      match p[0]
      case Key(k) => StrictFrame(KeyChild(cur.m, k, p[1]), p[1..], v, q[1..]);
      case Idx(i) => StrictFrame(cur.a[i], p[1..], v, q[1..]);
    }
  }

  /** Overwriting strictly what was just put is putting the new value. */
  lemma {:induction false} SetOverPut(cur: Value, p: Path, before: Value, v: Value)
    requires Put(cur, p, before).Ok?
    ensures SetInto(Put(cur, p, before).v, p, v) == Put(cur, p, v)
    decreases |p|
  {
    var done := Put(cur, p, before).v;
    match p[0]
    case Key(k) =>
      if |p| > 1 {
        var child := KeyChild(cur.m, k, p[1]);
        SetOverPut(child, p[1..], before, v);
        assert done.m[k] == Put(child, p[1..], before).v;
        if Put(child, p[1..], v).Ok? {
          var x := Put(child, p[1..], v).v;
          assert done.m[k := x] == cur.m[k := x];
        }
      } else {
        assert done.m[k := v] == cur.m[k := v];
      }
    case Idx(i) =>
      if |p| > 1 {
        var g := Grow(cur.a, i + 1, Placeholder(p[1]));
        var child := SlotChild(g[i], p[1]);
        SetOverPut(child, p[1..], before, v);
        assert done.a[i] == Put(child, p[1..], before).v;
        if Put(child, p[1..], v).Ok? {
          var x := Put(child, p[1..], v).v;
          assert done.a[i := x] == g[i := x];
        }
      } else {
        assert done.a[i := v] == Grow(cur.a, i + 1, Null)[i := v];
      }
  }

  /** A place that exists can always be overwritten strictly. */
  lemma {:induction false} ExistingCanBeSet(cur: Value, p: Path, v: Value)
    requires Get(cur, p).Some?
    ensures SetInto(cur, p, v).Ok?
    decreases |p|
  {
    if |p| > 1 {
      match p[0]
      case Key(k) => ExistingCanBeSet(cur.m[k], p[1..], v);
      case Idx(i) => ExistingCanBeSet(cur.a[i], p[1..], v);
    }
  }

  /** Both sides of a strict overwrite exchanged with a growing write elsewhere. */
  ghost predicate Exchanges(cur: Value, p: Path, v: Value, q: Path, w: Value) {
    && SetInto(cur, p, v).Ok? && Put(cur, q, w).Ok?
    && Put(SetInto(cur, p, v).v, q, w) == SetInto(Put(cur, q, w).v, p, v)
    && Put(SetInto(cur, p, v).v, q, w).Ok?
  }

  /** An existing place may be overwritten before or after a growing write elsewhere. */
  lemma {:induction false} SetExchangesWithPut(cur: Value, p: Path, v: Value, q: Path, w: Value)
    requires Apart(p, q) && Get(cur, p).Some? && Put(cur, q, w).Ok?
    ensures Exchanges(cur, p, v, q, w)
    decreases |p|
  {
    ApartTail(p, q);
    ExistingCanBeSet(cur, p, v);
    if p[0] != q[0] {
      if p[0].Key? { ExchangeKeys(cur, p, v, q, w); } else { ExchangeSlots(cur, p, v, q, w); }
    } else {
      match p[0]
      case Key(k) =>
        SetExchangesWithPut(cur.m[k], p[1..], v, q[1..], w);
        ExchangeBelowKey(cur, k, p, v, q, w);
      case Idx(i) =>
        SetExchangesWithPut(cur.a[i], p[1..], v, q[1..], w);
        ExchangeBelowSlot(cur, i, p, v, q, w);
    }
  }

  lemma ExchangeBelowKey(cur: Value, k: string, p: Path, v: Value, q: Path, w: Value)
    requires |p| > 1 && |q| > 1 && p[0] == q[0] == Key(k) && cur.Map? && k in cur.m
    requires Exchanges(cur.m[k], p[1..], v, q[1..], w)
    ensures Exchanges(cur, p, v, q, w)
  {
    var changed, put := SetInto(cur.m[k], p[1..], v).v, Put(cur.m[k], q[1..], w).v;
    var both := SetInto(put, p[1..], v).v;
    assert SetInto(cur, p, v).v == Map(cur.m[k := changed]) && Put(cur, q, w).v == Map(cur.m[k := put]);
    assert cur.m[k := changed][k := both] == cur.m[k := put][k := both];
  }

  lemma ExchangeBelowSlot(cur: Value, i: nat, p: Path, v: Value, q: Path, w: Value)
    requires |p| > 1 && |q| > 1 && p[0] == q[0] == Idx(i) && cur.Arr? && i < |cur.a| && cur.a[i] != Null && i <= MAX_ARRAY_INDEX
    requires Exchanges(cur.a[i], p[1..], v, q[1..], w) && SetInto(cur.a[i], p[1..], v).v != Null
    ensures Exchanges(cur, p, v, q, w)
  {
    var changed, put := SetInto(cur.a[i], p[1..], v).v, Put(cur.a[i], q[1..], w).v;
    var both := SetInto(put, p[1..], v).v;
    assert SetInto(cur, p, v).v == Arr(cur.a[i := changed]) && Put(cur, q, w).v == Arr(cur.a[i := put]);
    assert cur.a[i := changed][i := both] == cur.a[i := put][i := both];
  }

  lemma ExchangeKeys(cur: Value, p: Path, v: Value, q: Path, w: Value)
    requires p != [] && q != [] && p[0] != q[0] && p[0].Key?
    requires Get(cur, p).Some? && SetInto(cur, p, v).Ok? && Put(cur, q, w).Ok?
    ensures Exchanges(cur, p, v, q, w)
  {
    var k, j := p[0].k, q[0].k;
    var changed, put := SetInto(cur, p, v).v.m[k], Put(cur, q, w).v.m[j];
    assert SetInto(cur, p, v).v == Map(cur.m[k := changed]) && Put(cur, q, w).v == Map(cur.m[j := put]);
    assert KeyChild(cur.m[k := changed], j, p[0]) == KeyChild(cur.m, j, p[0]);
    assert cur.m[k := changed][j := put] == cur.m[j := put][k := changed];
  }

  lemma ExchangeSlots(cur: Value, p: Path, v: Value, q: Path, w: Value)
    requires p != [] && q != [] && p[0] != q[0] && p[0].Idx?
    requires Get(cur, p).Some? && SetInto(cur, p, v).Ok? && Put(cur, q, w).Ok?
    ensures Exchanges(cur, p, v, q, w)
  {
    var i, j := p[0].i, q[0].i;
    var fill := if |q| == 1 then Null else Placeholder(q[1]);
    var g := Grow(cur.a, j + 1, fill);
    var changed, put := SetInto(cur, p, v).v.a[i], Put(cur, q, w).v.a[j];
    assert SetInto(cur, p, v).v == Arr(cur.a[i := changed]) && Put(cur, q, w).v == Arr(g[j := put]);
    assert Grow(cur.a[i := changed], j + 1, fill) == g[i := changed];
    assert g[i := changed][j := put] == g[j := put][i := changed];
  }

  // --- Where the strict writer can write ---

  /** Only map keys. */
  predicate KeysOnly(p: Path) {
    forall i :: 0 <= i < |p| ==> p[i].Key?
  }

  /** Every step lands in a container of its kind, every index in range, and only keys follow
      the first missing key. */
  predicate Fits(cur: Value, p: Path)
    decreases |p|
  {
    p == [] || match p[0]
      case Key(k) => cur.Map? && if k in cur.m then Fits(cur.m[k], p[1..]) else KeysOnly(p)
      case Idx(i) => cur.Arr? && i < |cur.a| && Fits(cur.a[i], p[1..])
  }

  lemma {:induction false} FreshMapsFit(p: Path, v: Value)
    ensures SetInto(Map(map[]), p, v).Ok? <==> KeysOnly(p)
    decreases |p|
  {
    if |p| > 1 {
      FreshMapsFit(p[1..], v);
      assert KeysOnly(p) <==> p[0].Key? && KeysOnly(p[1..]) by {
        assert p == [p[0]] + p[1..];
      }
      assert p[1..][0] == p[1];
    }
  }

  /** The strict writer succeeds exactly where the path fits, whatever the value. */
  lemma {:induction false} SetsWhereItFits(cur: Value, p: Path, v: Value)
    ensures SetInto(cur, p, v).Ok? <==> Fits(cur, p)
    decreases |p|
  {
    if |p| > 1 {
      match p[0]
      case Key(k) =>
        if cur.Map? && k in cur.m {
          SetsWhereItFits(cur.m[k], p[1..], v);
        } else if cur.Map? {
          FreshMapsFit(p[1..], v);
          assert KeysOnly(p) <==> KeysOnly(p[1..]) by { assert p == [p[0]] + p[1..]; }
          assert p[1..][0] == p[1];
        }
      case Idx(i) => if cur.Arr? && i < |cur.a| { SetsWhereItFits(cur.a[i], p[1..], v); }
    }
  }

  /** Reading back what was set strictly. */
  lemma {:induction false} StrictGet(cur: Value, p: Path, v: Value)
    requires p != [] && SetInto(cur, p, v).Ok?
    ensures Get(SetInto(cur, p, v).v, p) == Some(v)
    decreases |p|
  {
    if |p| > 1 {
      match p[0]
      case Key(k) => StrictGet(KeyChild(cur.m, k, p[1]), p[1..], v);
      case Idx(i) => StrictGet(cur.a[i], p[1..], v);
    }
  }

  lemma KeysOnlyTail(p: Path)
    requires p != []
    ensures KeysOnly(p) <==> p[0].Key? && KeysOnly(p[1..])
  {
    assert p == [p[0]] + p[1..];
  }

  /** In an empty map a path fits when it has only keys. */
  lemma FitsNowhere(p: Path)
    ensures Fits(Map(map[]), p) <==> KeysOnly(p)
  {
    if p != [] { KeysOnlyTail(p); }
  }

  /** A strict write changes nothing about where paths that part from it fit. */
  lemma {:induction false} FitsStays(cur: Value, q: Path, w: Value, p: Path)
    requires Apart(p, q) && SetInto(cur, q, w).Ok?
    ensures Fits(SetInto(cur, q, w).v, p) <==> Fits(cur, p)
    decreases |q|
  {
    ApartTail(p, q);
    if p[0] == q[0] {
      match p[0]
      case Key(k) =>
        var child := KeyChild(cur.m, k, q[1]);
        FitsStays(child, q[1..], w, p[1..]);
        if k !in cur.m {
          KeysOnlyTail(p);
          FitsNowhere(p[1..]);
        }
      case Idx(i) => FitsStays(cur.a[i], q[1..], w, p[1..]);
    }
  }

  /** Two strict writes at paths that part may be exchanged. */
  ghost predicate SetsExchange(cur: Value, p: Path, v: Value, q: Path, w: Value) {
    && SetInto(cur, p, v).Ok? && SetInto(cur, q, w).Ok?
    && SetInto(SetInto(cur, p, v).v, q, w) == SetInto(SetInto(cur, q, w).v, p, v)
    && SetInto(SetInto(cur, p, v).v, q, w).Ok?
  }

  lemma {:induction false} StrictWritesExchange(cur: Value, p: Path, v: Value, q: Path, w: Value)
    requires Apart(p, q) && SetInto(cur, p, v).Ok? && SetInto(cur, q, w).Ok?
    ensures SetsExchange(cur, p, v, q, w)
    decreases |p|
  {
    ApartTail(p, q);
    if p[0] != q[0] {
      if p[0].Key? { SetsExchangeKeys(cur, p, v, q, w); } else { SetsExchangeSlots(cur, p, v, q, w); }
    } else {
      match p[0]
      case Key(k) =>
        StrictWritesExchange(KeyChild(cur.m, k, p[1]), p[1..], v, q[1..], w);
        SetsExchangeBelowKey(cur, k, p, v, q, w);
      case Idx(i) =>
        StrictWritesExchange(cur.a[i], p[1..], v, q[1..], w);
        SetsExchangeBelowSlot(cur, i, p, v, q, w);
    }
  }

  lemma SetsExchangeBelowKey(cur: Value, k: string, p: Path, v: Value, q: Path, w: Value)
    requires |p| > 1 && |q| > 1 && p[0] == q[0] == Key(k) && cur.Map?
    requires SetInto(cur, p, v).Ok? && SetInto(cur, q, w).Ok?
    requires SetsExchange(KeyChild(cur.m, k, p[1]), p[1..], v, q[1..], w)
    ensures SetsExchange(cur, p, v, q, w)
  {
    var child := KeyChild(cur.m, k, p[1]);
    assert child == KeyChild(cur.m, k, q[1]);
    var a, b := SetInto(child, p[1..], v).v, SetInto(child, q[1..], w).v;
    var both := SetInto(a, q[1..], w).v;
    assert SetInto(cur, p, v).v == Map(cur.m[k := a]) && SetInto(cur, q, w).v == Map(cur.m[k := b]);
    assert cur.m[k := a][k := both] == cur.m[k := b][k := both];
  }

  lemma SetsExchangeBelowSlot(cur: Value, i: nat, p: Path, v: Value, q: Path, w: Value)
    requires |p| > 1 && |q| > 1 && p[0] == q[0] == Idx(i) && cur.Arr? && i < |cur.a|
    requires SetsExchange(cur.a[i], p[1..], v, q[1..], w)
    ensures SetsExchange(cur, p, v, q, w)
  {
    var a, b := SetInto(cur.a[i], p[1..], v).v, SetInto(cur.a[i], q[1..], w).v;
    var both := SetInto(a, q[1..], w).v;
    assert SetInto(cur, p, v).v == Arr(cur.a[i := a]) && SetInto(cur, q, w).v == Arr(cur.a[i := b]);
    assert cur.a[i := a][i := both] == cur.a[i := b][i := both];
  }

  lemma SetsExchangeKeys(cur: Value, p: Path, v: Value, q: Path, w: Value)
    requires p != [] && q != [] && p[0] != q[0] && p[0].Key?
    requires SetInto(cur, p, v).Ok? && SetInto(cur, q, w).Ok?
    ensures SetsExchange(cur, p, v, q, w)
  {
    var k, j := p[0].k, q[0].k;
    var a, b := SetInto(cur, p, v).v.m[k], SetInto(cur, q, w).v.m[j];
    assert SetInto(cur, p, v).v == Map(cur.m[k := a]) && SetInto(cur, q, w).v == Map(cur.m[j := b]);
    assert KeyChild(cur.m[k := a], j, p[0]) == KeyChild(cur.m, j, p[0]);
    assert KeyChild(cur.m[j := b], k, p[0]) == KeyChild(cur.m, k, p[0]);
    assert cur.m[k := a][j := b] == cur.m[j := b][k := a];
  }

  lemma SetsExchangeSlots(cur: Value, p: Path, v: Value, q: Path, w: Value)
    requires p != [] && q != [] && p[0] != q[0] && p[0].Idx?
    requires SetInto(cur, p, v).Ok? && SetInto(cur, q, w).Ok?
    ensures SetsExchange(cur, p, v, q, w)
  {
    var i, j := p[0].i, q[0].i;
    var a, b := SetInto(cur, p, v).v.a[i], SetInto(cur, q, w).v.a[j];
    assert SetInto(cur, p, v).v == Arr(cur.a[i := a]) && SetInto(cur, q, w).v == Arr(cur.a[j := b]);
    assert cur.a[i := a][j := b] == cur.a[j := b][i := a];
  }

  // --- The limit on indices ---

  /** Slots 0 to 1024 can be written, in whatever array, and no others. */
  lemma SlotLimit(a: seq<Value>, i: nat, v: Value)
    ensures Put(Arr(a), [Idx(i)], v).Ok? <==> i <= 1024
    ensures i > 1024 ==> Put(Arr(a), [Idx(i)], v) == Err(IndexTooLarge)
  {
  }
}
