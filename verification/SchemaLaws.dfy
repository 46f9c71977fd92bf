/** What merging `allOf` branches means: union of names, and who overrides whom. */
module SchemaLaws {
  import opened Values
  import opened SchemaRefs
  import opened SchemaTermination

  /** The branch results merged one after the other onto `m`. */
  function MergeOnto(m: Schema, rs: seq<Schema>): Schema
    decreases |rs|
  {
    if rs == [] then m else MergeOnto(Merge(m, rs[0]), rs[1..])
  }

  ghost predicate AllResolve(subs: seq<Schema>, all: Schemas, seen: set<string>, rs: seq<Schema>) {
    |rs| == |subs| && forall i :: 0 <= i < |subs| ==> Resolves(subs[i], all, seen, rs[i])
  }

  lemma {:induction false} BranchesMergeOnto(subs: seq<Schema>, all: Schemas, seen: set<string>, m: Schema, rs: seq<Schema>, fuel: nat)
    requires AllResolve(subs, all, seen, rs) && MergeBranches(subs, all, seen, m, fuel).Some?
    ensures MergeBranches(subs, all, seen, m, fuel) == Some(MergeOnto(m, rs))
    decreases |subs|
  {
    if subs != [] {
      var r := ResolveIn(subs[0], all, seen, fuel).value;
      assert Resolves(subs[0], all, seen, r);
      ResultUnique(subs[0], all, seen, r, rs[0]);
      BranchesMergeOnto(subs[1..], all, seen, Merge(m, r), rs[1..], fuel);
    }
  }

  predicate InSome(rs: seq<Schema>, k: string) {
    exists i :: 0 <= i < |rs| && k in PropsOf(rs[i])
  }

  predicate RequiredInSome(rs: seq<Schema>, x: string) {
    exists i :: 0 <= i < |rs| && x in RequiredOf(rs[i])
  }

  /** `i` is the last branch that defines `k`. */
  predicate LastDefines(rs: seq<Schema>, i: nat, k: string) {
    i < |rs| && k in PropsOf(rs[i]) && forall j :: i < j < |rs| ==> k !in PropsOf(rs[j])
  }

  lemma {:induction false} MergeOntoNames(m: Schema, rs: seq<Schema>, k: string)
    ensures k in PropsOf(MergeOnto(m, rs)) <==> k in PropsOf(m) || InSome(rs, k)
    ensures k in RequiredOf(MergeOnto(m, rs)) <==> k in RequiredOf(m) || RequiredInSome(rs, k)
    decreases |rs|
  {
    if rs != [] {
      var rest := rs[1..];
      MergeOntoNames(Merge(m, rs[0]), rest, k);
      assert InSome(rs, k) <==> k in PropsOf(rs[0]) || InSome(rest, k) by {
        if i :| 0 <= i < |rs| && k in PropsOf(rs[i]) { assert i == 0 || rest[i - 1] == rs[i]; }
        if i :| 0 <= i < |rest| && k in PropsOf(rest[i]) { assert rs[i + 1] == rest[i]; }
      }
      assert RequiredInSome(rs, k) <==> k in RequiredOf(rs[0]) || RequiredInSome(rest, k) by {
        if i :| 0 <= i < |rs| && k in RequiredOf(rs[i]) { assert i == 0 || rest[i - 1] == rs[i]; }
        if i :| 0 <= i < |rest| && k in RequiredOf(rest[i]) { assert rs[i + 1] == rest[i]; }
      }
    }
  }

  lemma {:induction false} MergeOntoKeepsEarlier(m: Schema, rs: seq<Schema>, k: string)
    requires k in PropsOf(m) && !InSome(rs, k)
    ensures k in PropsOf(MergeOnto(m, rs)) && PropsOf(MergeOnto(m, rs))[k] == PropsOf(m)[k]
    decreases |rs|
  {
    if rs != [] {
      assert k !in PropsOf(rs[0]);
      forall i | 0 <= i < |rs[1..]| ensures k !in PropsOf(rs[1..][i]) { assert rs[1..][i] == rs[i + 1]; }
      MergeOntoKeepsEarlier(Merge(m, rs[0]), rs[1..], k);
    }
  }

  /** Later branches override earlier ones. */
  lemma {:induction false} LastBranchWins(m: Schema, rs: seq<Schema>, i: nat, k: string)
    requires LastDefines(rs, i, k)
    ensures k in PropsOf(MergeOnto(m, rs)) && PropsOf(MergeOnto(m, rs))[k] == PropsOf(rs[i])[k]
    decreases |rs|
  {
    var rest := rs[1..];
    forall j | 0 <= j < |rest| ensures rest[j] == rs[j + 1] {}
    if i == 0 {
      MergeOntoKeepsEarlier(Merge(m, rs[0]), rest, k);
    } else {
      LastBranchWins(Merge(m, rs[0]), rest, i - 1, k);
    }
  }

  // --- Which reference the merged branches end up with ---

  /** The last `$ref` any branch carries, empty ones included. */
  function LastRef(rs: seq<Schema>): (r: Option<string>)
    ensures r.Some? ==> exists i :: 0 <= i < |rs| && rs[i].ref == r
    ensures r.None? ==> forall i :: 0 <= i < |rs| ==> rs[i].ref == None
  {
    if rs == [] then None
    else
      var n := |rs| - 1;
      assert rs[n].ref.None? && LastRef(rs[..n]).Some? ==>
        (exists i :: 0 <= i < n && rs[i].ref == LastRef(rs[..n])) by {
        if LastRef(rs[..n]).Some? {
          var i :| 0 <= i < |rs[..n]| && rs[..n][i].ref == LastRef(rs[..n]);
          assert rs[i].ref == LastRef(rs[..n]);
        }
      }
      Later(LastRef(rs[..n]), rs[n].ref)
  }

  ghost predicate SomeRef(rs: seq<Schema>) {
    exists i :: 0 <= i < |rs| && HasRef(rs[i])
  }

  /** Some branch resolved to a dangling reference, but the reference that wins is empty. */
  ghost predicate Blanked(rs: seq<Schema>, n: Schema) {
    var last := Later(LastRef(rs), n.ref);
    SomeRef(rs) && (last.None? || last.value == "")
  }

  lemma {:induction false} MergeOntoRef(m: Schema, rs: seq<Schema>)
    ensures MergeOnto(m, rs).ref == Later(m.ref, LastRef(rs))
    decreases |rs|
  {
    if rs != [] {
      MergeOntoRef(Merge(m, rs[0]), rs[1..]);
      LastRefFromFront(rs);
    }
  }

  lemma {:induction false} LastRefFromFront(rs: seq<Schema>)
    requires rs != []
    ensures LastRef(rs) == Later(rs[0].ref, LastRef(rs[1..]))
    decreases |rs|
  {
    var n := |rs| - 1;
    if n > 0 {
      LastRefFromFront(rs[..n]);
      assert rs[..n][1..] == rs[1..][..n - 1] && rs[1..][n - 1] == rs[n];
    }
  }

  /** Without references among them, merged branches are resolved. */
  lemma {:induction false} MergeOntoResolved(m: Schema, rs: seq<Schema>, all: Schemas)
    requires Resolved(m, all) && !HasRef(m)
    requires forall i :: 0 <= i < |rs| ==> Resolved(rs[i], all) && !HasRef(rs[i])
    ensures Resolved(MergeOnto(m, rs), all) && !HasRef(MergeOnto(m, rs))
    decreases |rs|
  {
    if rs != [] {
      var rest, next := rs[1..], Merge(m, rs[0]);
      forall j | 0 <= j < |rest| ensures rest[j] == rs[j + 1] {}
      assert forall k :: k in next.properties.m ==> next.properties.m[k] == if k in PropsOf(rs[0]) then PropsOf(rs[0])[k] else PropsOf(m)[k];
      MergeOntoResolved(next, rest, all);
    }
  }

  lemma BranchesAreResolved(n: Schema, all: Schemas, seen: set<string>, rs: seq<Schema>)
    requires HasAllOf(n) && AllResolve(n.allOf.subs, all, seen, rs)
    ensures forall i :: 0 <= i < |rs| ==> Resolved(rs[i], all)
  {
    forall i | 0 <= i < |rs| ensures Resolved(rs[i], all) {
      var f: nat :| ResolveIn(n.allOf.subs[i], all, seen, f) == Some(rs[i]);
      ResultIsResolved(n.allOf.subs[i], all, seen, f);
    }
  }

  /** An `allOf` node resolves through the merged results of its branches. */
  lemma AllOfResolvesCombined(n: Schema, all: Schemas, seen: set<string>, rs: seq<Schema>, r: Schema)
    requires !HasRef(n) && HasAllOf(n) && AllResolve(n.allOf.subs, all, seen, rs) && Resolves(n, all, seen, r)
    ensures Resolves(Combine(MergeOnto(BLANK, rs), n), all, seen, r)
  {
    var f: nat :| ResolveIn(n, all, seen, f) == Some(r);
    AllOfStep(n, all, seen, f - 1);
    BranchesMergeOnto(n.allOf.subs, all, seen, BLANK, rs, f - 1);
    assert ResolveIn(Combine(MergeOnto(BLANK, rs), n), all, seen, f - 1) == Some(r);
  }

  /** The children of a plain node's result are the results of its children. */
  lemma PlainChildren(n: Schema, all: Schemas, seen: set<string>, r: Schema)
    requires !HasRef(n) && !HasAllOf(n) && Resolves(n, all, seen, r)
    ensures PropsOf(r).Keys == PropsOf(n).Keys && r.required == n.required
    ensures forall k :: k in PropsOf(n) ==> Resolves(PropsOf(n)[k], all, seen, PropsOf(r)[k])
  {
    var f: nat :| ResolveIn(n, all, seen, f) == Some(r);
    PlainStep(n, all, seen, f - 1);
    forall k | k in PropsOf(n) ensures Resolves(PropsOf(n)[k], all, seen, PropsOf(r)[k]) {
      assert ResolveIn(PropsOf(n)[k], all, seen, f - 1) == Some(PropsOf(r)[k]);
    }
  }

  /** The node combined with its branches: a dangling reference if some branch is one, and
      otherwise free of references and `allOf`, with resolved merged branches. */
  lemma CombinedFacts(n: Schema, all: Schemas, seen: set<string>, rs: seq<Schema>, r: Schema) returns (c: Schema)
    requires !HasRef(n) && HasAllOf(n) && AllResolve(n.allOf.subs, all, seen, rs) && Resolves(n, all, seen, r) && !Blanked(rs, n)
    ensures c == Combine(MergeOnto(BLANK, rs), n) && Resolves(c, all, seen, r)
    ensures SomeRef(rs) ==> Dangling(c, all)
    ensures !SomeRef(rs) ==>
              !HasRef(c) && !HasAllOf(c) && Resolved(MergeOnto(BLANK, rs), all) && !HasRef(MergeOnto(BLANK, rs))
  {
    BranchesAreResolved(n, all, seen, rs);
    AllOfResolvesCombined(n, all, seen, rs, r);
    MergeOntoRef(BLANK, rs);
    c := Combine(MergeOnto(BLANK, rs), n);
    if !SomeRef(rs) {
      MergeOntoResolved(BLANK, rs, all);
    } else {
      var j :| 0 <= j < |rs| && rs[j].ref == LastRef(rs);
      assert HasRef(rs[j]) && Dangling(rs[j], all);
    }
  }

  /** A node combined into a dangling reference is its own result. */
  lemma DanglingIsResult(c: Schema, all: Schemas, seen: set<string>, r: Schema)
    requires Dangling(c, all) && seen <= all.Keys && Resolves(c, all, seen, r)
    ensures r == c
  {
    assert ResolveIn(c, all, seen, 1) == Some(c);
    ResultUnique(c, all, seen, c, r);
  }

  /** The union law: unless an empty reference blanks out a dangling one, the property names
      and required names of an `allOf` node's result are those of its resolved branches and
      its own. */
  lemma AllOfUnion(n: Schema, all: Schemas, seen: set<string>, rs: seq<Schema>, r: Schema, x: string)
    requires seen <= all.Keys && !Blanked(rs, n)
    requires !HasRef(n) && HasAllOf(n) && AllResolve(n.allOf.subs, all, seen, rs) && Resolves(n, all, seen, r)
    ensures x in PropsOf(r) <==> x in PropsOf(n) || InSome(rs, x)
    ensures x in RequiredOf(r) <==> x in RequiredOf(n) || RequiredInSome(rs, x)
  {
    var c := CombinedFacts(n, all, seen, rs, r);
    MergeOntoNames(BLANK, rs, x);
    if SomeRef(rs) {
      DanglingIsResult(c, all, seen, r);
    } else {
      PlainChildren(c, all, seen, r);
    }
  }

  /** A property that only the merged branches define is resolved already. */
  lemma BranchPropertyStays(merged: Schema, n: Schema, all: Schemas, seen: set<string>, x: string, y: Schema)
    requires Resolved(merged, all) && !HasRef(merged) && seen <= all.Keys
    requires x in PropsOf(merged) && x !in PropsOf(n) && Resolves(PropsOf(Combine(merged, n))[x], all, seen, y)
    ensures y == PropsOf(merged)[x]
  {
    var p := PropsOf(merged)[x];
    assert PropsOf(Combine(merged, n))[x] == p;
    ResolvedIsFixed(p, all, seen);
    ResultUnique(p, all, seen, p, y);
  }

  /** The override law: the node's own definition of a property wins, resolved in place, or as
      it stands when a branch is a dangling reference; otherwise the last branch defining it
      wins, unchanged. */
  lemma AllOfOverride(n: Schema, all: Schemas, seen: set<string>, rs: seq<Schema>, r: Schema, x: string, i: nat)
    requires seen <= all.Keys && !Blanked(rs, n)
    requires !HasRef(n) && HasAllOf(n) && AllResolve(n.allOf.subs, all, seen, rs) && Resolves(n, all, seen, r)
    ensures x in PropsOf(n) ==>
              && x in PropsOf(r)
              && if SomeRef(rs) then PropsOf(r)[x] == PropsOf(n)[x] else Resolves(PropsOf(n)[x], all, seen, PropsOf(r)[x])
    ensures x !in PropsOf(n) && LastDefines(rs, i, x) ==> x in PropsOf(r) && PropsOf(r)[x] == PropsOf(rs[i])[x]
  {
    var c := CombinedFacts(n, all, seen, rs, r);
    if LastDefines(rs, i, x) { LastBranchWins(BLANK, rs, i, x); }
    if SomeRef(rs) {
      DanglingIsResult(c, all, seen, r);
    } else {
      PlainChildren(c, all, seen, r);
      if x !in PropsOf(n) && LastDefines(rs, i, x) {
        BranchPropertyStays(MergeOnto(BLANK, rs), n, all, seen, x, PropsOf(r)[x]);
      }
    }
  }

  // --- Kind, description, items and the other keys ---

  /** `v` is the last value in `vs`, or nothing where there is none. */
  ghost predicate IsLast<T>(vs: seq<Option<T>>, v: Option<T>) {
    if v.None? then forall i :: 0 <= i < |vs| ==> vs[i] == None
    else exists i :: 0 <= i < |vs| && vs[i] == v && forall j :: i < j < |vs| ==> vs[j] == None
  }

  /** Who wins where only one can: the node's own value, otherwise the last one among the
      branch results, otherwise none. */
  ghost predicate OwnOrLast<T>(own: Option<T>, branches: seq<Option<T>>, result: Option<T>) {
    if own.Some? then result == own else IsLast(branches, result)
  }

  function LastOf<T>(vs: seq<Option<T>>): (v: Option<T>) {
    if vs == [] then None else Later(vs[0], LastOf(vs[1..]))
  }

  lemma {:induction false} LastOfIsLast<T>(vs: seq<Option<T>>)
    ensures IsLast(vs, LastOf(vs))
    decreases |vs|
  {
    if vs != [] {
      var rest := vs[1..];
      LastOfIsLast(rest);
      if LastOf(rest).None? {
        forall i | 1 <= i < |vs| ensures vs[i] == None { assert vs[i] == rest[i - 1]; }
      } else {
        var i :| 0 <= i < |rest| && rest[i] == LastOf(rest) && forall j :: i < j < |rest| ==> rest[j] == None;
        forall j | i + 1 < j < |vs| ensures vs[j] == None { assert vs[j] == rest[j - 1]; }
        assert vs[i + 1] == LastOf(vs);
      }
    }
  }

  function Kinds(rs: seq<Schema>): seq<Option<string>> {
    seq(|rs|, i requires 0 <= i < |rs| => rs[i].kind)
  }

  function Descriptions(rs: seq<Schema>): seq<Option<string>> {
    seq(|rs|, i requires 0 <= i < |rs| => rs[i].description)
  }

  function ItemsOf(rs: seq<Schema>): seq<Option<Schema>> {
    seq(|rs|, i requires 0 <= i < |rs| => rs[i].items)
  }

  function Extra(n: Schema, k: string): Option<string> {
    if k in n.extra then Some(n.extra[k]) else None
  }

  function Extras(rs: seq<Schema>, k: string): seq<Option<string>> {
    seq(|rs|, i requires 0 <= i < |rs| => Extra(rs[i], k))
  }

  /** One more branch in front. */
  lemma LastOfFront<T>(vs: seq<Option<T>>, rest: seq<Option<T>>, m: Option<T>)
    requires vs != [] && vs[1..] == rest
    ensures Later(Later(m, vs[0]), LastOf(rest)) == Later(m, LastOf(vs))
  {
  }

  lemma {:induction false} MergedKind(m: Schema, rs: seq<Schema>)
    ensures MergeOnto(m, rs).kind == Later(m.kind, LastOf(Kinds(rs)))
    decreases |rs|
  {
    if rs != [] {
      MergedKind(Merge(m, rs[0]), rs[1..]);
      assert Kinds(rs)[1..] == Kinds(rs[1..]);
      LastOfFront(Kinds(rs), Kinds(rs[1..]), m.kind);
    }
  }

  lemma {:induction false} MergedDescription(m: Schema, rs: seq<Schema>)
    ensures MergeOnto(m, rs).description == Later(m.description, LastOf(Descriptions(rs)))
    decreases |rs|
  {
    if rs != [] {
      MergedDescription(Merge(m, rs[0]), rs[1..]);
      assert Descriptions(rs)[1..] == Descriptions(rs[1..]);
      LastOfFront(Descriptions(rs), Descriptions(rs[1..]), m.description);
    }
  }

  lemma {:induction false} MergedItems(m: Schema, rs: seq<Schema>)
    ensures MergeOnto(m, rs).items == Later(m.items, LastOf(ItemsOf(rs)))
    decreases |rs|
  {
    if rs != [] {
      MergedItems(Merge(m, rs[0]), rs[1..]);
      assert ItemsOf(rs)[1..] == ItemsOf(rs[1..]);
      LastOfFront(ItemsOf(rs), ItemsOf(rs[1..]), m.items);
    }
  }

  lemma MergeExtra(a: Schema, b: Schema, k: string)
    ensures Extra(Merge(a, b), k) == Later(Extra(a, k), Extra(b, k))
  {
  }

  lemma {:induction false} MergedExtra(m: Schema, rs: seq<Schema>, k: string)
    ensures Extra(MergeOnto(m, rs), k) == Later(Extra(m, k), LastOf(Extras(rs, k)))
    decreases |rs|
  {
    if rs != [] {
      MergedExtra(Merge(m, rs[0]), rs[1..], k);
      MergeExtra(m, rs[0], k);
      assert Extras(rs, k)[1..] == Extras(rs[1..], k);
      LastOfFront(Extras(rs, k), Extras(rs[1..], k), Extra(m, k));
    }
  }

  lemma PlainKeeps(n: Schema, all: Schemas, seen: set<string>, r: Schema)
    requires !HasRef(n) && !HasAllOf(n) && Resolves(n, all, seen, r)
    ensures r.(properties := n.properties, items := n.items) == n
    ensures r.items.Some? <==> n.items.Some?
    ensures n.items.Some? ==> Resolves(n.items.value, all, seen, r.items.value)
  {
    var f: nat :| ResolveIn(n, all, seen, f) == Some(r);
    PlainStep(n, all, seen, f - 1);
    if n.items.Some? { assert ResolveIn(n.items.value, all, seen, f - 1) == r.items; }
  }

  /** Whether combined into a dangling reference or resolved further, the result keeps these of
      the combined node. */
  lemma CombinedKeeps(n: Schema, all: Schemas, seen: set<string>, rs: seq<Schema>, r: Schema) returns (c: Schema)
    requires seen <= all.Keys && !Blanked(rs, n)
    requires !HasRef(n) && HasAllOf(n) && AllResolve(n.allOf.subs, all, seen, rs) && Resolves(n, all, seen, r)
    ensures c == Combine(MergeOnto(BLANK, rs), n)
    ensures r.kind == c.kind && r.description == c.description && r.extra == c.extra
  {
    c := CombinedFacts(n, all, seen, rs, r);
    if SomeRef(rs) { DanglingIsResult(c, all, seen, r); } else { PlainKeeps(c, all, seen, r); }
  }

  /** The node's own kind and description win over its branches', as the parent of a wrapped
      reference describes the field. */
  lemma AllOfTexts(n: Schema, all: Schemas, seen: set<string>, rs: seq<Schema>, r: Schema)
    requires seen <= all.Keys && !Blanked(rs, n)
    requires !HasRef(n) && HasAllOf(n) && AllResolve(n.allOf.subs, all, seen, rs) && Resolves(n, all, seen, r)
    ensures OwnOrLast(n.kind, Kinds(rs), r.kind)
    ensures OwnOrLast(n.description, Descriptions(rs), r.description)
  {
    var c := CombinedKeeps(n, all, seen, rs, r);
    MergedKind(BLANK, rs);
    MergedDescription(BLANK, rs);
    LastOfIsLast(Kinds(rs));
    LastOfIsLast(Descriptions(rs));
  }

  /** The same for every other key. */
  lemma AllOfExtra(n: Schema, all: Schemas, seen: set<string>, rs: seq<Schema>, r: Schema, k: string)
    requires seen <= all.Keys && !Blanked(rs, n)
    requires !HasRef(n) && HasAllOf(n) && AllResolve(n.allOf.subs, all, seen, rs) && Resolves(n, all, seen, r)
    ensures OwnOrLast(Extra(n, k), Extras(rs, k), Extra(r, k))
  {
    var c := CombinedKeeps(n, all, seen, rs, r);
    MergedExtra(BLANK, rs, k);
    LastOfIsLast(Extras(rs, k));
  }

  /** The node's own items win, resolved in place, or as they stand beside a dangling branch;
      otherwise those of the last branch result that has some, unchanged. */
  lemma AllOfItems(n: Schema, all: Schemas, seen: set<string>, rs: seq<Schema>, r: Schema)
    requires seen <= all.Keys && !Blanked(rs, n)
    requires !HasRef(n) && HasAllOf(n) && AllResolve(n.allOf.subs, all, seen, rs) && Resolves(n, all, seen, r)
    ensures n.items.Some? ==>
      r.items.Some? && if SomeRef(rs) then r.items == n.items else Resolves(n.items.value, all, seen, r.items.value)
    ensures n.items.None? ==> IsLast(ItemsOf(rs), r.items)
  {
    var c := CombinedFacts(n, all, seen, rs, r);
    MergedItems(BLANK, rs);
    LastOfIsLast(ItemsOf(rs));
    var v := MergeOnto(BLANK, rs).items;
    if SomeRef(rs) {
      DanglingIsResult(c, all, seen, r);
    } else {
      PlainKeeps(c, all, seen, r);
      if n.items.None? && v.Some? {
        ResolvedIsFixed(v.value, all, seen);
        ResultUnique(v.value, all, seen, v.value, r.items.value);
      }
    }
  }

  // --- References and plain nodes ---

  /** A reference under the prefix stands for the schema of that name. Met again below that
      schema it is cut off, and without such a schema it stays. */
  lemma ReferenceLaw(n: Schema, name: string, all: Schemas, seen: set<string>, r: Schema)
    requires n.ref == Some("#/components/schemas/" + name)
    ensures name in seen ==> (Resolves(n, all, seen, r) <==>
              r == Schema(Some("object"), Some("(cycle: " + name + ")"), None, NoProperties, None, None, NoBranches, map[]))
    ensures name !in seen && name !in all ==> (Resolves(n, all, seen, r) <==> r == n)
    ensures name !in seen && name in all ==> (Resolves(n, all, seen, r) <==> Resolves(all[name], all, seen + {name}, r))
  {
    var prefix := "#/components/schemas/";
    assert n.ref.value[..|prefix|] == prefix && n.ref.value[|prefix|..] == name;
    assert RefName(n) == name;
    if name in seen {
      assert ResolveIn(n, all, seen, 1) == Some(CycleLeaf(name));
      if Resolves(n, all, seen, r) { ResultUnique(n, all, seen, r, CycleLeaf(name)); }
    } else if name !in all {
      assert ResolveIn(n, all, seen, 1) == Some(n);
      if Resolves(n, all, seen, r) { ResultUnique(n, all, seen, r, n); }
    } else {
      FollowedReference(n, all, seen, r);
    }
  }

  lemma FollowedReference(n: Schema, all: Schemas, seen: set<string>, r: Schema)
    requires HasRef(n) && RefName(n) !in seen && RefName(n) in all
    ensures Resolves(n, all, seen, r) <==> Resolves(all[RefName(n)], all, seen + {RefName(n)}, r)
  {
    if Resolves(n, all, seen, r) {
      var f: nat :| ResolveIn(n, all, seen, f) == Some(r);
      RefStep(n, all, seen, f - 1);
    }
    if Resolves(all[RefName(n)], all, seen + {RefName(n)}, r) { ResolvesRef(n, all, seen, r); }
  }

  /** A node without reference and `allOf` only has its properties and items replaced, by their
      own results. */
  lemma PlainLaw(n: Schema, all: Schemas, seen: set<string>, r: Schema)
    requires n.ref in {None, Some("")} && n.allOf in {NoBranches, AllOf([])} && Resolves(n, all, seen, r)
    ensures r.(properties := n.properties, items := n.items) == n
    ensures r.properties.Properties? <==> n.properties.Properties?
    ensures n.properties.Properties? ==>
      && r.properties.m.Keys == n.properties.m.Keys
      && forall k :: k in n.properties.m ==> Resolves(n.properties.m[k], all, seen, r.properties.m[k])
    ensures r.items.Some? <==> n.items.Some?
    ensures n.items.Some? ==> Resolves(n.items.value, all, seen, r.items.value)
  {
    PlainKeeps(n, all, seen, r);
    PlainChildren(n, all, seen, r);
    var f: nat :| ResolveIn(n, all, seen, f) == Some(r);
    PlainStep(n, all, seen, f - 1);
  }

  // --- Why the laws exclude a blanked reference ---

  /** A dangling reference with an `allOf` beside it, blanked out by the second branch: the
      result has the property hidden in that `allOf`, which no branch result and not the node
      itself defines. */
  lemma BlankedBreaksUnion()
    ensures
      var hidden := BLANK.(properties := Properties(map["z" := BLANK]));
      var gone, blank := BLANK.(ref := Some(REF_PREFIX + "Gone"), allOf := AllOf([hidden])), BLANK.(ref := Some(""));
      var n := BLANK.(allOf := AllOf([gone, blank]));
      && AllResolve(n.allOf.subs, map[], {}, [gone, blank]) && Blanked([gone, blank], n)
      && !InSome([gone, blank], "z") && "z" !in PropsOf(n)
      && exists r :: Resolves(n, map[], {}, r) && "z" in PropsOf(r)
  {
    var hidden := BLANK.(properties := Properties(map["z" := BLANK]));
    var gone, blank := BLANK.(ref := Some(REF_PREFIX + "Gone"), allOf := AllOf([hidden])), BLANK.(ref := Some(""));
    var n, all: Schemas := BLANK.(allOf := AllOf([gone, blank])), map[];
    var rs := [gone, blank];
    assert HasRef(gone) && ResolveIn(gone, all, {}, 1) == Some(gone);
    PlainStep(blank, all, {}, 0);
    assert ResolveIn(blank, all, {}, 1) == Some(blank);
    assert Resolves(gone, all, {}, gone) && Resolves(blank, all, {}, blank);
    assert rs[..1][..0] == [] && rs[..1] == [gone] && LastRef(rs) == Some("");
    assert HasRef(rs[0]);
    assert rs[1..] == [blank] && [blank][1..] == [];
    assert MergeOnto(Merge(BLANK, gone), [blank]) == Merge(Merge(BLANK, gone), blank);
    assert MergeOnto(BLANK, rs) == Merge(Merge(BLANK, gone), blank);
    var c := Combine(MergeOnto(BLANK, rs), n);
    assert PropsOf(c) == map[] && c.allOf == AllOf([hidden]) && c.items == None && c.ref == Some("");
    HiddenSurfaces(c, hidden, all);
    BlankedResolves(n, gone, blank, all, c);
  }

  /** A node without references whose `allOf` has one plain branch takes over its properties. */
  lemma HiddenSurfaces(c: Schema, hidden: Schema, all: Schemas)
    requires !HasRef(c) && c.allOf == AllOf([hidden]) && hidden == BLANK.(properties := Properties(map["z" := BLANK]))
    requires PropsOf(c) == map[] && c.items == None
    ensures exists r :: Resolves(c, all, {}, r) && "z" in PropsOf(r)
  {
    assert Resolved(BLANK, all) && Resolved(hidden, all);
    ResolvedIsFixed(hidden, all, {});
    var f: nat :| ResolveIn(hidden, all, {}, f) == Some(hidden);
    assert [hidden][1..] == [];
    var merged := Merge(BLANK, hidden);
    assert MergeBranches([hidden], all, {}, BLANK, f) == Some(merged);
    var d := Combine(merged, c);
    assert PropsOf(d) == map["z" := BLANK];
    assert Resolved(BLANK, all) && Resolved(d, all);
    ResolvedIsFixed(d, all, {});
    var g: nat :| ResolveIn(d, all, {}, g) == Some(d);
    MoreFuelBranches([hidden], all, {}, BLANK, f, f + g);
    MoreFuel(d, all, {}, g, f + g);
    AllOfStep(c, all, {}, f + g);
    assert Resolves(c, all, {}, d);
  }

  lemma BlankedResolves(n: Schema, gone: Schema, blank: Schema, all: Schemas, c: Schema)
    requires !HasRef(n) && n.allOf == AllOf([gone, blank]) && c == Combine(Merge(Merge(BLANK, gone), blank), n)
    requires ResolveIn(gone, all, {}, 1) == Some(gone) && ResolveIn(blank, all, {}, 1) == Some(blank)
    requires exists r :: Resolves(c, all, {}, r) && "z" in PropsOf(r)
    ensures exists r :: Resolves(n, all, {}, r) && "z" in PropsOf(r)
  {
    var r :| Resolves(c, all, {}, r) && "z" in PropsOf(r);
    assert [gone, blank][1..] == [blank] && [blank][1..] == [];
    assert MergeBranches([blank], all, {}, Merge(BLANK, gone), 1) == Some(Merge(Merge(BLANK, gone), blank));
    ResolvesAllOf(n, all, {}, Merge(Merge(BLANK, gone), blank), 1, r);
  }
}
