/** Where the nulls in a serialised document come from: writing a scalar at an index leaves null
    in the slots before it that do not exist yet. */
module Gaps {
  import opened Values
  import opened PathWriters

  datatype Write = Write(p: Path, v: Value)

  predicate IsScalar(v: Value) {
    v.Leaf? || v.Null?
  }

  /** Writes made one after the other; the first failure ends it. */
  function PutAll(c: Value, ws: seq<Write>): Result<Value>
    decreases |ws|
  {
    if ws == [] then Ok(c)
    else match Put(c, ws[0].p, ws[0].v)
      case Err(e) => Err(e)
      case Ok(d) => PutAll(d, ws[1..])
  }

  lemma {:induction false} PutAllConcat(c: Value, ws: seq<Write>, more: seq<Write>)
    ensures PutAll(c, ws + more) == (match PutAll(c, ws) case Err(e) => Err(e) case Ok(d) => PutAll(d, more))
    decreases |ws|
  {
    if ws == [] {
      assert ws + more == more;
    } else {
      assert (ws + more)[0] == ws[0] && (ws + more)[1..] == ws[1..] + more;
      if Put(c, ws[0].p, ws[0].v).Ok? { PutAllConcat(Put(c, ws[0].p, ws[0].v).v, ws[1..], more); }
    }
  }

  /** No two writes meet. */
  ghost predicate ApartWrites(ws: seq<Write>) {
    forall i, j :: 0 <= i < |ws| && 0 <= j < |ws| && i != j ==> Apart(ws[i].p, ws[j].p)
  }

  /** What is there and apart from all writes stays. */
  lemma {:induction false} RunFrame(c: Value, ws: seq<Write>, q: Path)
    requires PutAll(c, ws).Ok? && Get(c, q).Some? && forall w :: w in ws ==> Apart(w.p, q)
    ensures Get(PutAll(c, ws).v, q) == Get(c, q)
    decreases |ws|
  {
    if ws != [] {
      PutFrame(c, ws[0].p, ws[0].v, q);
      RunFrame(Put(c, ws[0].p, ws[0].v).v, ws[1..], q);
    }
  }

  /** Every write is readable at the end. */
  lemma {:induction false} WritesStay(c: Value, ws: seq<Write>, w: Write)
    requires PutAll(c, ws).Ok? && ApartWrites(ws) && w in ws
    ensures Get(PutAll(c, ws).v, w.p) == Some(w.v)
    decreases |ws|
  {
    var d, rest := Put(c, ws[0].p, ws[0].v).v, ws[1..];
    assert forall i :: 0 <= i < |rest| ==> rest[i] == ws[i + 1];
    if w == ws[0] {
      PutGet(c, w.p, w.v);
      RunFrame(d, rest, w.p);
    } else {
      WritesStay(d, rest, w);
    }
  }

  // --- Where scalars come from ---

  /** `q` is a slot before the one at `p`, in the same array. */
  predicate Before(q: Path, p: Path) {
    && q != [] && |q| == |p| && q[..|q| - 1] == p[..|p| - 1]
    && q[|q| - 1].Idx? && p[|p| - 1].Idx? && q[|q| - 1].i < p[|p| - 1].i
  }

  predicate ScalarAt(c: Value, q: Path) {
    Get(c, q).Some? && IsScalar(Get(c, q).value)
  }

  lemma BelowStep(q: Path, p: Path)
    requires q != [] && p != [] && q[0] == p[0]
    ensures Before(q[1..], p[1..]) ==> Before(q, p)
    ensures p[1..] <= q[1..] ==> p <= q
  {
    assert p == [p[0]] + p[1..] && q == [q[0]] + q[1..];
    if Before(q[1..], p[1..]) { BeforeBelow(q, p); }
  }

  lemma BeforeBelow(q: Path, p: Path)
    requires q != [] && p != [] && q[0] == p[0] && Before(q[1..], p[1..])
    ensures Before(q, p)
  {
    assert q[..|q| - 1] == [q[0]] + q[1..][..|q| - 2] && p[..|p| - 1] == [p[0]] + p[1..][..|p| - 2];
  }

  lemma NoScalarIn(next: Seg, q: Path)
    ensures !ScalarAt(Placeholder(next), q)
  {
  }

  /** A scalar found after one write was there before, or belongs to what was written, or fills
      a slot before it. */
  lemma {:induction false} ScalarFromPut(c: Value, p: Path, v: Value, q: Path)
    requires Put(c, p, v).Ok? && ScalarAt(Put(c, p, v).v, q)
    ensures (ScalarAt(c, q) && Get(c, q) == Get(Put(c, p, v).v, q)) || p <= q || Before(q, p)
    decreases |p|
  {
    assert q != [];
    assert p == [p[0]] + p[1..] && q == [q[0]] + q[1..];
    match p[0]
    case Key(k) =>
      if q[0] == p[0] && |p| > 1 {
        var child := KeyChild(c.m, k, p[1]);
        ScalarFromPut(child, p[1..], v, q[1..]);
        BelowStep(q, p);
        if k !in c.m { NoScalarIn(p[1], q[1..]); }
      } else if q[0] != p[0] {
        assert Put(c, p, v).v.m[q[0].k] == c.m[q[0].k];
      }
    case Idx(i) =>
      if |p| > 1 {
        ScalarFromPutBelow(c, i, p, v, q);
      } else {
        ScalarFromLastSlot(c, i, p, v, q);
      }
  }

  lemma ScalarFromLastSlot(c: Value, i: nat, p: Path, v: Value, q: Path)
    requires p == [Idx(i)] && q != []
    requires Put(c, p, v).Ok? && ScalarAt(Put(c, p, v).v, q)
    ensures (ScalarAt(c, q) && Get(c, q) == Get(Put(c, p, v).v, q)) || p <= q || Before(q, p)
  {
    var after, n := Put(c, p, v).v.a, q[0].i;
    assert q == [q[0]] + q[1..] && Get(after[n], q[1..]).Some?;
    if n == i {
      assert p <= q;
    } else if n >= |c.a| {
      assert after[n] == Null && q[1..] == [];
      assert q[..0] == p[..0];
    }
  }

  lemma {:induction false} ScalarFromPutBelow(c: Value, i: nat, p: Path, v: Value, q: Path)
    requires |p| > 1 && p[0] == Idx(i) && q != []
    requires Put(c, p, v).Ok? && ScalarAt(Put(c, p, v).v, q)
    ensures (ScalarAt(c, q) && Get(c, q) == Get(Put(c, p, v).v, q)) || p <= q || Before(q, p)
    decreases |p|, 0
  {
    assert p == [p[0]] + p[1..] && q == [q[0]] + q[1..];
    var fill := Placeholder(p[1]);
    var g := Grow(c.a, i + 1, fill);
    if q[0] == p[0] {
      var child := SlotChild(g[i], p[1]);
      ScalarFromPut(child, p[1..], v, q[1..]);
      BelowStep(q, p);
      NoScalarIn(p[1], q[1..]);
    } else if q[0].i >= |c.a| {
      NoScalarIn(p[1], q[1..]);
    }
  }

  /** The same over a run. */
  lemma {:induction false} ScalarFromRun(c: Value, ws: seq<Write>, q: Path)
    requires PutAll(c, ws).Ok? && ScalarAt(PutAll(c, ws).v, q)
    ensures ScalarAt(c, q) || exists w :: w in ws && (w.p <= q || Before(q, w.p))
    decreases |ws|
  {
    if ws != [] {
      var d := Put(c, ws[0].p, ws[0].v).v;
      ScalarFromRun(d, ws[1..], q);
      if ScalarAt(d, q) {
        ScalarFromPut(c, ws[0].p, ws[0].v, q);
        assert ws[0] in ws;
      }
    }
  }

  // --- A place nothing has been written through yet ---

  function NextOf(at: Path): Seg {
    if |at| > 1 then at[1] else Idx(0)
  }

  /** What a write through `at` descends into first. */
  function Below(c: Value, at: Path): Value
    requires at != [] && if at[0].Key? then c.Map? else c.Arr?
  {
    match at[0]
    case Key(k) => KeyChild(c.m, k, NextOf(at))
    case Idx(n) => SlotChild(Grow(c.a, n + 1, Placeholder(NextOf(at)))[n], NextOf(at))
  }

  /** Nothing has been written through the place `at`, which is to become an array. */
  predicate BareBelow(c: Value, at: Path)
    decreases |at|
  {
    if at == [] then c.Arr? ==> c.a == []
    else match at[0]
      case Key(_) => c.Map? ==> BareBelow(Below(c, at), at[1..])
      case Idx(_) => c.Arr? ==> BareBelow(Below(c, at), at[1..])
  }

  predicate NoArrays(v: Value) {
    match v
    case Map(m) => forall k :: k in m ==> NoArrays(m[k])
    case Arr(a) => a == []
    case _ => true
  }

  lemma {:induction false} NoArraysIsBare(c: Value, at: Path)
    requires NoArrays(c)
    ensures BareBelow(c, at)
    decreases |at|
  {
    if at != [] {
      match at[0]
      case Key(k) => if c.Map? { NoArraysIsBare(KeyChild(c.m, k, NextOf(at)), at[1..]); }
      case Idx(n) => if c.Arr? { NoArraysIsBare(Placeholder(NextOf(at)), at[1..]); }
    }
  }

  /** A write that parts from the place keeps it bare. */
  lemma {:induction false} PutKeepsBare(c: Value, at: Path, q: Path, w: Value)
    requires BareBelow(c, at) && Put(c, q, w).Ok? && Apart(at, q)
    ensures BareBelow(Put(c, q, w).v, at)
    decreases |at|
  {
    ApartTail(at, q);
    if at[0] == q[0] {
      var child := if q[0].Key? then KeyChild(c.m, q[0].k, q[1]) else SlotChild(Grow(c.a, q[0].i + 1, Placeholder(q[1]))[q[0].i], q[1]);
      ChildIsBare(c, at, q, child);
      PutKeepsBare(child, at[1..], q[1..], w);
    } else if at[0].Idx? {
      SlotStaysBare(c, at, q, w);
    }
  }

  lemma ChildIsBare(c: Value, at: Path, q: Path, child: Value)
    requires BareBelow(c, at) && at != [] && |q| > 1 && q[0] == at[0] && if q[0].Key? then c.Map? else c.Arr?
    requires child == if q[0].Key? then KeyChild(c.m, q[0].k, q[1]) else SlotChild(Grow(c.a, q[0].i + 1, Placeholder(q[1]))[q[0].i], q[1])
    ensures BareBelow(child, at[1..])
  {
    match at[0]
    case Key(k) => BareChild(Below(c, at), child, k in c.m, at[1..]);
    case Idx(n) => BareChild(Below(c, at), child, n < |c.a| && c.a[n] != Null, at[1..]);
  }

  /** What the place itself or another path would descend into: the same, or something fresh. */
  lemma BareChild(mine: Value, theirs: Value, same: bool, at: Path)
    requires BareBelow(mine, at) && if same then mine == theirs else theirs == Map(map[]) || theirs == Arr([])
    ensures BareBelow(theirs, at)
  {
    if !same { NoArraysIsBare(theirs, at); }
  }

  lemma SlotStaysBare(c: Value, at: Path, q: Path, w: Value)
    requires at != [] && q != [] && at[0].Idx? && q[0] != at[0] && BareBelow(c, at) && Put(c, q, w).Ok?
    ensures BareBelow(Put(c, q, w).v, at)
  {
    if c.Arr? {
      var n, d := at[0].i, Put(c, q, w).v;
      var next := NextOf(at);
      var slot := Grow(d.a, n + 1, Placeholder(next))[n];
      if n < |c.a| {
        assert slot == c.a[n];
      } else {
        assert slot == Null || slot == Map(map[]) || slot == Arr([]);
        NoArraysIsBare(SlotChild(slot, next), at[1..]);
      }
    }
  }

  // --- Writing one slot early ---

  predicate IsBlank(v: Value) {
    v == Null || v == Map(map[]) || v == Arr([])
  }

  /** `b` is `a` with `v` in slot `i` already: the slots before it that nothing has been written
      through are null, whatever `a` has there. */
  ghost predicate SlotAhead(a: seq<Value>, b: seq<Value>, i: nat, v: Value) {
    && |b| == (if |a| > i then |a| else i + 1) && b[i] == v
    && forall t :: 0 <= t < |b| && t != i ==>
         if t < |a| then b[t] == a[t] || (t < i && b[t] == Null && IsBlank(a[t])) else b[t] == Null
  }

  /** `d` is `c` with slot `i` of the array at `at` written already. */
  ghost predicate Ahead(c: Value, d: Value, at: Path, i: nat, v: Value)
    decreases |at|
  {
    if at == [] then c.Arr? && d.Arr? && SlotAhead(c.a, d.a, i, v)
    else match at[0]
      case Key(k) =>
        && c.Map? && d.Map? && k in c.m && k in d.m && d.m == c.m[k := d.m[k]]
        && Ahead(c.m[k], d.m[k], at[1..], i, v)
      case Idx(n) =>
        && c.Arr? && d.Arr? && n < |c.a| == |d.a| && d.a == c.a[n := d.a[n]]
        && Ahead(c.a[n], d.a[n], at[1..], i, v)
  }

  function Slot(at: Path, i: nat): Path {
    at + [Idx(i)]
  }

  lemma SlotTail(at: Path, i: nat)
    requires at != []
    ensures Slot(at, i)[0] == at[0] && Slot(at, i)[1..] == Slot(at[1..], i)
    ensures Placeholder(Slot(at, i)[1]) == Placeholder(NextOf(at))
  {
  }

  /** A write that parts from the slot goes through ahead of time as well, and stays ahead. */
  ghost predicate GoesAhead(c: Value, d: Value, at: Path, i: nat, v: Value, q: Path, w: Value) {
    Put(c, q, w).Ok? && Put(d, q, w).Ok? && Ahead(Put(c, q, w).v, Put(d, q, w).v, at, i, v)
  }

  lemma {:induction false} StepAhead(c: Value, d: Value, at: Path, i: nat, v: Value, q: Path, w: Value)
    requires Ahead(c, d, at, i, v) && Apart(Slot(at, i), q) && Put(c, q, w).Ok?
    ensures GoesAhead(c, d, at, i, v, q, w)
    decreases |at|
  {
    if at == [] {
      assert Slot(at, i) == [Idx(i)];
      ApartTail(Slot(at, i), q);
      StepAheadInArray(c, d, i, v, q, w);
    } else {
      SlotTail(at, i);
      ApartTail(Slot(at, i), q);
      if q[0] != at[0] {
        if at[0].Key? { BesideKey(c, d, at, i, v, q, w); } else { BesideSlot(c, d, at, i, v, q, w); }
      } else {
        match at[0]
        case Key(k) => StepAhead(c.m[k], d.m[k], at[1..], i, v, q[1..], w); BelowKey(c, d, k, at, i, v, q, w);
        case Idx(n) =>
          AheadIsNoNull(c.a[n], d.a[n], at[1..], i, v);
          StepAhead(c.a[n], d.a[n], at[1..], i, v, q[1..], w);
          BelowSlot(c, d, n, at, i, v, q, w);
      }
    }
  }

  lemma AheadIsNoNull(c: Value, d: Value, at: Path, i: nat, v: Value)
    requires Ahead(c, d, at, i, v)
    ensures c != Null && d != Null
  {
  }

  lemma BelowKey(c: Value, d: Value, k: string, at: Path, i: nat, v: Value, q: Path, w: Value)
    requires at != [] && at[0] == Key(k) && Ahead(c, d, at, i, v) && |q| > 1 && q[0] == Key(k)
    requires GoesAhead(c.m[k], d.m[k], at[1..], i, v, q[1..], w)
    ensures GoesAhead(c, d, at, i, v, q, w)
  {
    var x, y := Put(c.m[k], q[1..], w).v, Put(d.m[k], q[1..], w).v;
    assert Put(c, q, w).v == Map(c.m[k := x]) && Put(d, q, w).v == Map(d.m[k := y]);
    assert d.m[k := y] == c.m[k := x][k := y];
  }

  lemma BelowSlot(c: Value, d: Value, n: nat, at: Path, i: nat, v: Value, q: Path, w: Value)
    requires at != [] && at[0] == Idx(n) && Ahead(c, d, at, i, v) && |q| > 1 && q[0] == Idx(n) && n <= MAX_ARRAY_INDEX
    requires c.a[n] != Null && d.a[n] != Null && GoesAhead(c.a[n], d.a[n], at[1..], i, v, q[1..], w)
    ensures GoesAhead(c, d, at, i, v, q, w)
  {
    var x, y := Put(c.a[n], q[1..], w).v, Put(d.a[n], q[1..], w).v;
    assert Put(c, q, w).v == Arr(c.a[n := x]) && Put(d, q, w).v == Arr(d.a[n := y]);
    assert d.a[n := y] == c.a[n := x][n := y];
  }

  lemma BesideKey(c: Value, d: Value, at: Path, i: nat, v: Value, q: Path, w: Value)
    requires at != [] && at[0].Key? && Ahead(c, d, at, i, v) && q != [] && q[0] != at[0] && Put(c, q, w).Ok?
    ensures GoesAhead(c, d, at, i, v, q, w)
  {
    var k, j := at[0].k, q[0].k;
    var x := Put(c, q, w).v.m[j];
    assert j in d.m <==> j in c.m;
    assert j in c.m ==> d.m[j] == c.m[j];
    assert Put(c, q, w).v == Map(c.m[j := x]) && Put(d, q, w).v == Map(d.m[j := x]);
    assert d.m[j := x] == c.m[j := x][k := d.m[k]];
  }

  lemma BesideSlot(c: Value, d: Value, at: Path, i: nat, v: Value, q: Path, w: Value)
    requires at != [] && at[0].Idx? && Ahead(c, d, at, i, v) && q != [] && q[0] != at[0] && Put(c, q, w).Ok?
    ensures GoesAhead(c, d, at, i, v, q, w)
  {
    var n, j := at[0].i, q[0].i;
    var fill := if |q| == 1 then Null else Placeholder(q[1]);
    var g, h := Grow(c.a, j + 1, fill), Grow(d.a, j + 1, fill);
    assert h == g[n := d.a[n]];
    var x := Put(c, q, w).v.a[j];
    if |q| > 1 {
      PutInSlot(c, j, q, w, x);
      PutInSlot(d, j, q, w, x);
    }
    assert Put(c, q, w).v == Arr(g[j := x]) && Put(d, q, w) == Ok(Arr(h[j := x]));
    assert h[j := x] == g[j := x][n := d.a[n]];
  }

  lemma StepAheadInArray(c: Value, d: Value, i: nat, v: Value, q: Path, w: Value)
    requires c.Arr? && d.Arr? && SlotAhead(c.a, d.a, i, v) && q != [] && q[0] != Idx(i) && Put(c, q, w).Ok?
    ensures GoesAhead(c, d, [], i, v, q, w)
  {
    var s := q[0].i;
    var fill := if |q| == 1 then Null else Placeholder(q[1]);
    GrownAhead(c.a, d.a, i, v, s, fill);
    var g, h := Grow(c.a, s + 1, fill), Grow(d.a, s + 1, fill);
    var x := Put(c, q, w).v.a[s];
    if |q| > 1 {
      assert SlotChild(h[s], q[1]) == SlotChild(g[s], q[1]);
      PutInSlot(c, s, q, w, x);
      PutInSlot(d, s, q, w, x);
    }
    assert Put(c, q, w).v == Arr(g[s := x]) && Put(d, q, w) == Ok(Arr(h[s := x]));
    SlotAheadUpdated(g, h, i, v, s, x);
  }

  lemma SlotAheadUpdated(a: seq<Value>, b: seq<Value>, i: nat, v: Value, s: nat, x: Value)
    requires SlotAhead(a, b, i, v) && s != i && s < |a|
    ensures SlotAhead(a[s := x], b[s := x], i, v)
  {
  }

  /** Growing both for a write into another slot. */
  lemma GrownAhead(a: seq<Value>, b: seq<Value>, i: nat, v: Value, s: nat, fill: Value)
    requires SlotAhead(a, b, i, v) && s != i && IsBlank(fill)
    ensures SlotAhead(Grow(a, s + 1, fill), Grow(b, s + 1, fill), i, v)
  {
  }

  /** When the slot is written at last, nothing is left to catch up. */
  lemma {:induction false} CaughtUp(c: Value, d: Value, at: Path, i: nat, v: Value)
    requires Ahead(c, d, at, i, v) && Put(c, Slot(at, i), v).Ok?
    ensures Ahead(Put(c, Slot(at, i), v).v, d, at, i, v)
    decreases |at|
  {
    if at == [] {
      assert Slot(at, i) == [Idx(i)];
    } else {
      SlotTail(at, i);
      match at[0]
      case Key(k) =>
        CaughtUp(c.m[k], d.m[k], at[1..], i, v);
        var x := Put(c.m[k], Slot(at[1..], i), v).v;
        assert Put(c, Slot(at, i), v).v == Map(c.m[k := x]);
        assert d.m == c.m[k := x][k := d.m[k]];
      case Idx(n) =>
        AheadIsNoNull(c.a[n], d.a[n], at[1..], i, v);
        CaughtUp(c.a[n], d.a[n], at[1..], i, v);
        var x := Put(c.a[n], Slot(at[1..], i), v).v;
        assert Put(c, Slot(at, i), v).v == Arr(c.a[n := x]);
        assert d.a == c.a[n := x][n := d.a[n]];
    }
  }

  /** `q` goes on from `at` into a slot. */
  predicate Enters(q: Path, at: Path) {
    |q| > |at| && q[..|at|] == at && q[|at|].Idx?
  }

  /** Two readable places below one another's array are both in its slots. */
  lemma BothInSlots(c: Value, at: Path, i: nat, q: Path)
    requires Get(c, Slot(at, i)).Some? && Get(c, q).Some? && at < q
    ensures Enters(q, at)
  {
    GetConcat(c, at, [Idx(i)]);
    assert q == at + q[|at|..];
    GetConcat(c, at, q[|at|..]);
  }

  lemma EntersTail(q: Path, at: Path)
    requires Enters(q, at) && at != []
    ensures |q| > 1 && q[0] == at[0] && Enters(q[1..], at[1..])
    ensures Placeholder(q[1]) == Placeholder(NextOf(at))
  {
    assert q[..|at|][0] == at[0];
    assert q[1..][..|at| - 1] == q[..|at|][1..];
    if |at| > 1 { assert q[..|at|][1] == at[1]; }
  }

  /** The slot and then `q` can be written, which is ahead of writing `q` alone. */
  ghost predicate BothGo(c: Value, at: Path, i: nat, v: Value, q: Path, w: Value) {
    && Put(c, q, w).Ok? && Put(c, Slot(at, i), v).Ok? && Put(Put(c, Slot(at, i), v).v, q, w).Ok?
    && Ahead(Put(c, q, w).v, Put(Put(c, Slot(at, i), v).v, q, w).v, at, i, v)
  }

  /** Through a bare place, the slot may be written just before the first other write. */
  lemma {:induction false} FirstTwo(c: Value, at: Path, i: nat, v: Value, q: Path, w: Value)
    requires BareBelow(c, at) && i <= MAX_ARRAY_INDEX && Enters(q, at) && Apart(Slot(at, i), q) && Put(c, q, w).Ok?
    ensures BothGo(c, at, i, v, q, w)
    decreases |at|
  {
    if at == [] {
      assert Slot(at, i) == [Idx(i)] && c.Arr?;
      var d := Put(c, Slot(at, i), v).v;
      assert SlotAhead(c.a, d.a, i, v);
      StepAhead(c, d, at, i, v, q, w);
    } else {
      SlotTail(at, i);
      EntersTail(q, at);
      ApartTail(Slot(at, i), q);
      FirstTwo(Below(c, at), at[1..], i, v, q[1..], w);
      match at[0]
      case Key(k) => BothBelowKey(c, k, at, i, v, q, w);
      case Idx(n) => BothBelowSlot(c, n, at, i, v, q, w);
    }
  }

  lemma BothBelowKey(c: Value, k: string, at: Path, i: nat, v: Value, q: Path, w: Value)
    requires at != [] && at[0] == Key(k) && c.Map? && |q| > 1 && q[0] == at[0]
    requires Placeholder(q[1]) == Placeholder(NextOf(at)) && BothGo(Below(c, at), at[1..], i, v, q[1..], w)
    ensures BothGo(c, at, i, v, q, w)
  {
    SlotTail(at, i);
    var child, p := Below(c, at), Slot(at, i);
    var early := Put(child, p[1..], v).v;
    var x, y := Put(child, q[1..], w).v, Put(early, q[1..], w).v;
    PutInKey(c, k, p, v, early);
    PutInKey(c, k, q, w, x);
    PutInKey(Map(c.m[k := early]), k, q, w, y);
    assert c.m[k := early][k := y] == c.m[k := x][k := y];
  }

  lemma PutInKey(c: Value, k: string, p: Path, v: Value, x: Value)
    requires c.Map? && |p| > 1 && p[0] == Key(k) && Put(KeyChild(c.m, k, p[1]), p[1..], v) == Ok(x)
    ensures Put(c, p, v) == Ok(Map(c.m[k := x]))
  {
  }

  lemma BothBelowSlot(c: Value, n: nat, at: Path, i: nat, v: Value, q: Path, w: Value)
    requires at != [] && at[0] == Idx(n) && n <= MAX_ARRAY_INDEX && c.Arr? && |q| > 1 && q[0] == at[0]
    requires Placeholder(q[1]) == Placeholder(NextOf(at)) && BothGo(Below(c, at), at[1..], i, v, q[1..], w)
    ensures BothGo(c, at, i, v, q, w)
  {
    SlotTail(at, i);
    var g, child, p := Grow(c.a, n + 1, Placeholder(NextOf(at))), Below(c, at), Slot(at, i);
    var early := Put(child, p[1..], v).v;
    var x, y := Put(child, q[1..], w).v, Put(early, q[1..], w).v;
    PutInSlot(c, n, p, v, early);
    PutInSlot(c, n, q, w, x);
    AlreadyGrown(g, n, early, q, w, y);
    assert g[n := y] == g[n := x][n := y];
  }

  lemma PutInSlot(c: Value, n: nat, p: Path, v: Value, x: Value)
    requires c.Arr? && n <= MAX_ARRAY_INDEX && |p| > 1 && p[0] == Idx(n)
    requires Put(SlotChild(Grow(c.a, n + 1, Placeholder(p[1]))[n], p[1]), p[1..], v) == Ok(x)
    ensures Put(c, p, v) == Ok(Arr(Grow(c.a, n + 1, Placeholder(p[1]))[n := x]))
  {
  }

  lemma AlreadyGrown(g: seq<Value>, n: nat, early: Value, q: Path, w: Value, y: Value)
    requires n < |g| && n <= MAX_ARRAY_INDEX && |q| > 1 && q[0] == Idx(n) && Put(early, q[1..], w) == Ok(y)
    ensures Put(Arr(g[n := early]), q, w) == Ok(Arr(g[n := y]))
  {
    assert early != Null;
    assert Grow(g[n := early], n + 1, Placeholder(q[1])) == g[n := early];
    PutInSlot(Arr(g[n := early]), n, q, w, y);
    assert g[n := early][n := y] == g[n := y];
  }

  /** Written through a bare place, a slot leaves null in every slot before it. */
  lemma {:induction false} SlotsBeforeAreNull(c: Value, at: Path, i: nat, v: Value, j: nat)
    requires BareBelow(c, at) && j < i && Put(c, Slot(at, i), v).Ok?
    ensures Get(Put(c, Slot(at, i), v).v, Slot(at, j)) == Some(Null)
    decreases |at|
  {
    if at == [] {
      assert Slot(at, i) == [Idx(i)] && Slot(at, j) == [Idx(j)] && Slot(at, j)[1..] == [];
    } else {
      SlotTail(at, i);
      SlotTail(at, j);
      match at[0]
      case Key(k) => SlotsBeforeAreNull(KeyChild(c.m, k, NextOf(at)), at[1..], i, v, j);
      case Idx(n) => SlotsBeforeAreNull(SlotChild(Grow(c.a, n + 1, Placeholder(NextOf(at)))[n], NextOf(at)), at[1..], i, v, j);
    }
  }

  // --- Moving a write ---

  function Without(ws: seq<Write>, p: Path): seq<Write> {
    if ws == [] then [] else (if ws[0].p == p then [] else [ws[0]]) + Without(ws[1..], p)
  }

  lemma WithoutFirst(ws: seq<Write>, p: Path)
    requires ws != []
    ensures Without(ws, p) == if ws[0].p == p then Without(ws[1..], p) else [ws[0]] + Without(ws[1..], p)
  {
  }

  lemma RunWithoutFirst(d: Value, ws: seq<Write>, p: Path)
    requires ws != [] && ws[0].p != p && Put(d, ws[0].p, ws[0].v).Ok?
    ensures PutAll(d, Without(ws, p)) == PutAll(Put(d, ws[0].p, ws[0].v).v, Without(ws[1..], p))
  {
    WithoutFirst(ws, p);
    var rest := Without(ws[1..], p);
    assert ([ws[0]] + rest)[0] == ws[0] && ([ws[0]] + rest)[1..] == rest;
  }

  lemma {:induction false} WithoutConcat(ws: seq<Write>, more: seq<Write>, p: Path)
    ensures Without(ws + more, p) == Without(ws, p) + Without(more, p)
    decreases |ws|
  {
    if ws == [] {
      assert ws + more == more;
    } else {
      assert (ws + more)[0] == ws[0] && (ws + more)[1..] == ws[1..] + more;
      WithoutConcat(ws[1..], more, p);
    }
  }

  lemma {:induction false} WithoutNothing(ws: seq<Write>, p: Path)
    requires forall w :: w in ws ==> w.p != p
    ensures Without(ws, p) == ws
  {
    if ws != [] {
      assert ws[0] in ws && forall w :: w in ws[1..] ==> w in ws;
      WithoutNothing(ws[1..], p);
      assert ws == [ws[0]] + ws[1..];
    }
  }

  lemma {:induction false} RunKeepsBare(c: Value, ws: seq<Write>, at: Path)
    requires BareBelow(c, at) && PutAll(c, ws).Ok? && forall w :: w in ws ==> Apart(at, w.p)
    ensures BareBelow(PutAll(c, ws).v, at)
    decreases |ws|
  {
    if ws != [] {
      PutKeepsBare(c, at, ws[0].p, ws[0].v);
      RunKeepsBare(Put(c, ws[0].p, ws[0].v).v, ws[1..], at);
    }
  }

  /** A run that goes through goes through without the slot when that has been written ahead. */
  lemma {:induction false} RunAhead(c: Value, d: Value, at: Path, i: nat, v: Value, ws: seq<Write>)
    requires Ahead(c, d, at, i, v) && PutAll(c, ws).Ok?
    requires forall w :: w in ws ==> w == Write(Slot(at, i), v) || Apart(Slot(at, i), w.p)
    ensures PutAll(d, Without(ws, Slot(at, i))).Ok?
    decreases |ws|
  {
    if ws != [] {
      var w := ws[0];
      assert w in ws;
      if w.p == Slot(at, i) {
        CaughtUp(c, d, at, i, v);
        RunAhead(Put(c, w.p, w.v).v, d, at, i, v, ws[1..]);
        WithoutFirst(ws, Slot(at, i));
      } else {
        StepAhead(c, d, at, i, v, w.p, w.v);
        RunAhead(Put(c, w.p, w.v).v, Put(d, w.p, w.v).v, at, i, v, ws[1..]);
        RunWithoutFirst(d, ws, Slot(at, i));
      }
    }
  }

  lemma {:induction false} SlotWithinLimit(c: Value, at: Path, i: nat, v: Value)
    requires Put(c, Slot(at, i), v).Ok?
    ensures i <= MAX_ARRAY_INDEX
    decreases |at|
  {
    if at == [] {
      assert Slot(at, i) == [Idx(i)];
    } else {
      SlotTail(at, i);
      match at[0]
      case Key(k) => SlotWithinLimit(KeyChild(c.m, k, NextOf(at)), at[1..], i, v);
      case Idx(n) => SlotWithinLimit(SlotChild(Grow(c.a, n + 1, Placeholder(NextOf(at)))[n], NextOf(at)), at[1..], i, v);
    }
  }

  lemma {:induction false} EachIsPut(c: Value, ws: seq<Write>, w: Write) returns (at: Value)
    requires PutAll(c, ws).Ok? && w in ws
    ensures Put(at, w.p, w.v).Ok?
    decreases |ws|
  {
    if w == ws[0] {
      at := c;
    } else {
      at := EachIsPut(Put(c, ws[0].p, ws[0].v).v, ws[1..], w);
    }
  }

  /** A run still goes through when a slot is written just before the first write through its array. */
  lemma MoveToFront(c: Value, first: seq<Write>, rest: seq<Write>, at: Path, i: nat, v: Value)
    requires BareBelow(c, at) && PutAll(c, first + rest).Ok? && forall w :: w in first ==> Apart(at, w.p)
    requires rest != [] && Write(Slot(at, i), v) in rest && ApartWrites(rest) && Enters(rest[0].p, at)
    ensures PutAll(c, first).Ok? && BareBelow(PutAll(c, first).v, at)
    ensures Put(PutAll(c, first).v, Slot(at, i), v).Ok?
    ensures PutAll(Put(PutAll(c, first).v, Slot(at, i), v).v, Without(rest, Slot(at, i))).Ok?
  {
    PutAllConcat(c, first, rest);
    var d, f, g, tail := PutAll(c, first).v, Write(Slot(at, i), v), rest[0], rest[1..];
    RunKeepsBare(c, first, at);
    assert forall k :: 0 <= k < |tail| ==> tail[k] == rest[k + 1];
    if g == f {
      WithoutNothing(tail, Slot(at, i));
      assert Without(rest, Slot(at, i)) == tail;
    } else {
      assert f in tail;
      var k :| 1 <= k < |rest| && rest[k] == f;
      var e := EachIsPut(d, rest, f);
      SlotWithinLimit(e, at, i, v);
      FirstTwo(d, at, i, v, g.p, g.v);
      OthersApart(rest, k);
      RunAhead(Put(d, g.p, g.v).v, Put(Put(d, f.p, v).v, g.p, g.v).v, at, i, v, tail);
      assert Without(rest, Slot(at, i)) == [g] + Without(tail, Slot(at, i));
    }
  }

  lemma OthersApart(ws: seq<Write>, k: nat)
    requires k < |ws| && ApartWrites(ws)
    ensures forall w :: w in ws ==> w == ws[k] || Apart(ws[k].p, w.p)
  {
  }

  lemma {:induction false} WithoutMembers(ws: seq<Write>, p: Path, w: Write)
    requires w in Without(ws, p)
    ensures w in ws && w.p != p
    decreases |ws|
  {
    WithoutFirst(ws, p);
    if w in Without(ws[1..], p) { WithoutMembers(ws[1..], p, w); }
  }

  /** The first write through the array goes through one of its slots. */
  lemma FirstEnters(d: Value, rest: seq<Write>, at: Path, i: nat, v: Value)
    requires PutAll(d, rest).Ok? && ApartWrites(rest) && rest != [] && Write(Slot(at, i), v) in rest && at <= rest[0].p
    ensures Enters(rest[0].p, at)
  {
    var f, g := Write(Slot(at, i), v), rest[0];
    WritesStay(d, rest, f);
    WritesStay(d, rest, g);
    var k :| 0 <= k < |rest| && rest[k] == f;
    assert at <= Slot(at, i);
    assert k != 0 ==> Apart(g.p, f.p);
    BothInSlots(PutAll(d, rest).v, at, i, g.p);
  }

  /** With the slot written before anything else in its array, a slot before it that no other
      write touches ends up null. */
  lemma GapLeft(c: Value, first: seq<Write>, rest: seq<Write>, at: Path, i: nat, v: Value, j: nat)
    requires BareBelow(c, at) && PutAll(c, first + rest).Ok? && forall w :: w in first ==> Apart(at, w.p)
    requires rest != [] && Write(Slot(at, i), v) in rest && ApartWrites(rest) && at <= rest[0].p
    requires j < i && forall w :: w in rest ==> w.p == Slot(at, i) || Apart(w.p, Slot(at, j))
    ensures
      var ws := first + ([Write(Slot(at, i), v)] + Without(rest, Slot(at, i)));
      PutAll(c, ws).Ok? && Get(PutAll(c, ws).v, Slot(at, j)) == Some(Null)
  {
    PutAllConcat(c, first, rest);
    FirstEnters(PutAll(c, first).v, rest, at, i, v);
    MoveToFront(c, first, rest, at, i, v);
    var f, others := Write(Slot(at, i), v), Without(rest, Slot(at, i));
    var d := PutAll(c, first).v;
    SlotsBeforeAreNull(d, at, i, v, j);
    forall w | w in others ensures Apart(w.p, Slot(at, j)) { WithoutMembers(rest, Slot(at, i), w); }
    RunFrame(Put(d, f.p, v).v, others, Slot(at, j));
    PutAllConcat(c, first, [f] + others);
    assert ([f] + others)[1..] == others;
  }
}
