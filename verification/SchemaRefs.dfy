/** Inlining of `$ref` and `allOf` in OpenAPI schema objects (OpenAPI Specification 3.0.3,
    section 4.7.24). Absent properties are `None`; `extra` holds the ones no rule looks at. */
module SchemaRefs {
  import opened Values

  datatype Schema = Schema(
    kind: Option<string>,
    description: Option<string>,
    required: Option<seq<string>>,
    properties: Properties,
    items: Option<Schema>,
    ref: Option<string>,
    allOf: Branches,
    extra: map<string, string>)

  datatype Properties = NoProperties | Properties(m: map<string, Schema>)

  datatype Branches = NoBranches | AllOf(subs: seq<Schema>)

  const BLANK := Schema(None, None, None, NoProperties, None, None, NoBranches, map[])

  const REF_PREFIX := "#/components/schemas/"

  /** An absent or empty `$ref` counts as none. */
  predicate HasRef(n: Schema) {
    n.ref.Some? && n.ref.value != ""
  }

  function RefName(n: Schema): string
    requires HasRef(n)
  {
    var r := n.ref.value;
    if REF_PREFIX <= r then r[|REF_PREFIX|..] else r
  }

  predicate HasAllOf(n: Schema) {
    n.allOf.AllOf? && n.allOf.subs != []
  }

  function CycleLeaf(name: string): Schema {
    BLANK.(kind := Some("object"), description := Some("(cycle: " + name + ")"))
  }

  function PropsOf(n: Schema): map<string, Schema> {
    if n.properties.Properties? then n.properties.m else map[]
  }

  function RequiredOf(n: Schema): seq<string> {
    if n.required.Some? then n.required.value else []
  }

  function Later<T>(a: Option<T>, b: Option<T>): Option<T> {
    if b.Some? then b else a
  }

  /** `Array.from(new Set(s))`: first occurrences, in order. */
  function Distinct(s: seq<string>): (d: seq<string>)
    ensures forall x :: x in d <==> x in s
    ensures forall i, j :: 0 <= i < j < |d| ==> d[i] != d[j]
  {
    if s == [] then []
    else
      var init, last := Distinct(s[..|s| - 1]), s[|s| - 1];
      assert s == s[..|s| - 1] + [last];
      if last in init then init else init + [last]
  }

  /** Spreading `b` over `a`, with the union of both `required` lists and property maps. */
  function Merge(a: Schema, b: Schema): Schema {
    Schema(
      Later(a.kind, b.kind), Later(a.description, b.description),
      Some(Distinct(RequiredOf(a) + RequiredOf(b))),
      Properties(PropsOf(a) + PropsOf(b)),
      Later(a.items, b.items), Later(a.ref, b.ref),
      if b.allOf.AllOf? then b.allOf else a.allOf, a.extra + b.extra)
  }

  /** The merged branches below the node itself, whose own `allOf` is dropped. */
  function Combine(merged: Schema, node: Schema): Schema {
    Merge(merged, node.(allOf := NoBranches))
  }

  type Schemas = map<string, Schema>

  /** The resolver, with `fuel` bounding the depth of its calls; `None` when they run out. */
  function ResolveIn(n: Schema, all: Schemas, seen: set<string>, fuel: nat): Option<Schema>
    decreases fuel, 0
  {
    if fuel == 0 then None
    else if HasRef(n) then
      var name := RefName(n);
      if name in seen then Some(CycleLeaf(name))
      else if name !in all then Some(n)
      else ResolveIn(all[name], all, seen + {name}, fuel - 1)
    else if HasAllOf(n) then ResolveAllOf(n, n.allOf.subs, all, seen, fuel - 1)
    else ResolvePlain(n, all, seen, fuel - 1)
  }

  /** Properties and items are resolved in place. */
  function ResolvePlain(n: Schema, all: Schemas, seen: set<string>, fuel: nat): Option<Schema>
    decreases fuel, 2
  {
    var props := ResolveProps(PropsOf(n), all, seen, fuel);
    var items := if n.items.None? then None else ResolveIn(n.items.value, all, seen, fuel);
    if props.None? || (n.items.Some? && items.None?) then None
    else Some(Rebuilt(n, props.value, items))
  }

  /** Branches are resolved and merged, then the node combined with them is resolved again. */
  function ResolveAllOf(n: Schema, subs: seq<Schema>, all: Schemas, seen: set<string>, fuel: nat): Option<Schema>
    decreases fuel, 2 + |subs|
  {
    match MergeBranches(subs, all, seen, BLANK, fuel)
    case None => None
    case Some(merged) => ResolveIn(Combine(merged, n), all, seen, fuel)
  }

  /** `n` with its children replaced. */
  function Rebuilt(n: Schema, props: map<string, Schema>, items: Option<Schema>): Schema {
    n.(properties := if n.properties.NoProperties? then NoProperties else Properties(props), items := items)
  }

  function ResolveProps(m: map<string, Schema>, all: Schemas, seen: set<string>, fuel: nat): Option<map<string, Schema>>
    decreases fuel, 1
  {
    if forall k :: k in m ==> ResolveIn(m[k], all, seen, fuel).Some?
    then Some(map k | k in m :: ResolveIn(m[k], all, seen, fuel).value)
    else None
  }

  function MergeBranches(subs: seq<Schema>, all: Schemas, seen: set<string>, merged: Schema, fuel: nat): Option<Schema>
    decreases fuel, 1 + |subs|
  {
    if subs == [] then Some(merged)
    else match ResolveIn(subs[0], all, seen, fuel)
      case None => None
      case Some(r) => MergeBranches(subs[1..], all, seen, Merge(merged, r), fuel)
  }

  /** What the unbounded resolver returns. */
  ghost predicate Resolves(n: Schema, all: Schemas, seen: set<string>, r: Schema) {
    exists fuel: nat :: ResolveIn(n, all, seen, fuel) == Some(r)
  }

  lemma AllOfStep(n: Schema, all: Schemas, seen: set<string>, fuel: nat)
    requires !HasRef(n) && HasAllOf(n)
    ensures ResolveIn(n, all, seen, fuel + 1) == ResolveAllOf(n, n.allOf.subs, all, seen, fuel)
  {
  }

  lemma PlainStep(n: Schema, all: Schemas, seen: set<string>, fuel: nat)
    requires !HasRef(n) && !HasAllOf(n)
    ensures ResolveIn(n, all, seen, fuel + 1) == ResolvePlain(n, all, seen, fuel)
  {
  }

  lemma RefStep(n: Schema, all: Schemas, seen: set<string>, fuel: nat)
    requires HasRef(n) && RefName(n) !in seen && RefName(n) in all
    ensures ResolveIn(n, all, seen, fuel + 1) == ResolveIn(all[RefName(n)], all, seen + {RefName(n)}, fuel)
  {
  }

  lemma {:induction false} MoreFuel(n: Schema, all: Schemas, seen: set<string>, fuel: nat, more: nat)
    requires fuel <= more && ResolveIn(n, all, seen, fuel).Some?
    ensures ResolveIn(n, all, seen, more) == ResolveIn(n, all, seen, fuel)
    decreases fuel, 2
  {
    if HasRef(n) {
      MoreFuelRef(n, all, seen, fuel - 1, more - 1);
    } else {
      MoreFuelNode(n, all, seen, fuel - 1, more - 1);
    }
  }

  lemma {:induction false} MoreFuelNode(n: Schema, all: Schemas, seen: set<string>, fuel: nat, more: nat)
    requires fuel <= more && !HasRef(n) && ResolveIn(n, all, seen, fuel + 1).Some?
    ensures ResolveIn(n, all, seen, more + 1) == ResolveIn(n, all, seen, fuel + 1)
    decreases fuel, 5 + if n.allOf.AllOf? then |n.allOf.subs| else 0
  {
    if HasAllOf(n) {
      AllOfStep(n, all, seen, fuel);
      AllOfStep(n, all, seen, more);
      MoreFuelAllOf(n, n.allOf.subs, all, seen, fuel, more);
    } else {
      PlainStep(n, all, seen, fuel);
      PlainStep(n, all, seen, more);
      MoreFuelPlain(n, all, seen, fuel, more);
    }
  }

  lemma {:induction false} MoreFuelRef(n: Schema, all: Schemas, seen: set<string>, fuel: nat, more: nat)
    requires fuel <= more && HasRef(n) && ResolveIn(n, all, seen, fuel + 1).Some?
    ensures ResolveIn(n, all, seen, more + 1) == ResolveIn(n, all, seen, fuel + 1)
    decreases fuel, 5
  {
    if RefName(n) !in seen && RefName(n) in all {
      RefStep(n, all, seen, fuel);
      RefStep(n, all, seen, more);
      MoreFuel(all[RefName(n)], all, seen + {RefName(n)}, fuel, more);
    }
  }

  lemma {:induction false} MoreFuelPlain(n: Schema, all: Schemas, seen: set<string>, fuel: nat, more: nat)
    requires fuel <= more && ResolvePlain(n, all, seen, fuel).Some?
    ensures ResolvePlain(n, all, seen, more) == ResolvePlain(n, all, seen, fuel)
    decreases fuel, 4
  {
    MoreFuelProps(PropsOf(n), all, seen, fuel, more);
    if n.items.Some? { MoreFuel(n.items.value, all, seen, fuel, more); }
  }

  lemma {:induction false} MoreFuelAllOf(n: Schema, subs: seq<Schema>, all: Schemas, seen: set<string>, fuel: nat, more: nat)
    requires fuel <= more && ResolveAllOf(n, subs, all, seen, fuel).Some?
    ensures ResolveAllOf(n, subs, all, seen, more) == ResolveAllOf(n, subs, all, seen, fuel)
    decreases fuel, 4 + |subs|
  {
    MoreFuelBranches(subs, all, seen, BLANK, fuel, more);
    MoreFuel(Combine(MergeBranches(subs, all, seen, BLANK, fuel).value, n), all, seen, fuel, more);
  }

  lemma {:induction false} MoreFuelProps(m: map<string, Schema>, all: Schemas, seen: set<string>, fuel: nat, more: nat)
    requires fuel <= more && ResolveProps(m, all, seen, fuel).Some?
    ensures ResolveProps(m, all, seen, more) == ResolveProps(m, all, seen, fuel)
    decreases fuel, 3
  {
    forall k | k in m ensures ResolveIn(m[k], all, seen, more) == ResolveIn(m[k], all, seen, fuel) {
      MoreFuel(m[k], all, seen, fuel, more);
    }
    assert ResolveProps(m, all, seen, more).Some?;
    assert ResolveProps(m, all, seen, more).value == ResolveProps(m, all, seen, fuel).value;
  }

  lemma {:induction false} MoreFuelBranches(subs: seq<Schema>, all: Schemas, seen: set<string>, merged: Schema, fuel: nat, more: nat)
    requires fuel <= more && MergeBranches(subs, all, seen, merged, fuel).Some?
    ensures MergeBranches(subs, all, seen, merged, more) == MergeBranches(subs, all, seen, merged, fuel)
    decreases fuel, 3 + |subs|
  {
    if subs != [] {
      MoreFuel(subs[0], all, seen, fuel, more);
      MoreFuelBranches(subs[1..], all, seen, Merge(merged, ResolveIn(subs[0], all, seen, fuel).value), fuel, more);
    }
  }

  /** Resolution is a function of its input: at most one result. */
  lemma ResultUnique(n: Schema, all: Schemas, seen: set<string>, r: Schema, s: Schema)
    requires Resolves(n, all, seen, r) && Resolves(n, all, seen, s)
    ensures r == s
  {
    var f: nat :| ResolveIn(n, all, seen, f) == Some(r);
    var g: nat :| ResolveIn(n, all, seen, g) == Some(s);
    MoreFuel(n, all, seen, f, f + g);
    MoreFuel(n, all, seen, g, f + g);
  }

  // --- What a result looks like ---

  /** A reference to a schema that does not exist is left alone, with all it contains. */
  predicate Dangling(n: Schema, all: Schemas) {
    HasRef(n) && RefName(n) !in all
  }

  predicate Resolved(n: Schema, all: Schemas) {
    Dangling(n, all) || (
      && !HasRef(n) && !HasAllOf(n)
      && (n.properties.Properties? ==> forall k :: k in n.properties.m ==> Resolved(n.properties.m[k], all))
      && (n.items.Some? ==> Resolved(n.items.value, all)))
  }

  /** Results hold no resolvable reference and no `allOf`, outside dangling references. */
  lemma {:induction false} ResultIsResolved(n: Schema, all: Schemas, seen: set<string>, fuel: nat)
    requires ResolveIn(n, all, seen, fuel).Some?
    ensures Resolved(ResolveIn(n, all, seen, fuel).value, all)
    decreases fuel
  {
    if HasRef(n) {
      if RefName(n) !in seen && RefName(n) in all {
        ResultIsResolved(all[RefName(n)], all, seen + {RefName(n)}, fuel - 1);
      }
    } else if HasAllOf(n) {
      var merged := MergeBranches(n.allOf.subs, all, seen, BLANK, fuel - 1).value;
      ResultIsResolved(Combine(merged, n), all, seen, fuel - 1);
    } else {
      forall k | k in PropsOf(n)
        ensures Resolved(ResolveProps(PropsOf(n), all, seen, fuel - 1).value[k], all)
      {
        ResultIsResolved(PropsOf(n)[k], all, seen, fuel - 1);
      }
      if n.items.Some? { ResultIsResolved(n.items.value, all, seen, fuel - 1); }
    }
  }

  lemma {:induction false} CommonFuel(m: map<string, Schema>, keys: set<string>, all: Schemas, seen: set<string>, out: map<string, Schema>)
    returns (fuel: nat)
    requires keys <= m.Keys && keys <= out.Keys && forall k :: k in keys ==> Resolves(m[k], all, seen, out[k])
    ensures forall k :: k in keys ==> ResolveIn(m[k], all, seen, fuel) == Some(out[k])
    decreases |keys|
  {
    if keys == {} {
      fuel := 0;
    } else {
      var x :| x in keys;
      var f: nat :| ResolveIn(m[x], all, seen, f) == Some(out[x]);
      var g := CommonFuel(m, keys - {x}, all, seen, out);
      fuel := f + g;
      forall k | k in keys ensures ResolveIn(m[k], all, seen, fuel) == Some(out[k]) {
        MoreFuel(m[k], all, seen, if k == x then f else g, fuel);
      }
    }
  }

  /** One level of the plain case, from the results of the children. */
  lemma ResolvesPlain(n: Schema, all: Schemas, seen: set<string>, props: map<string, Schema>, items: Option<Schema>)
    requires !HasRef(n) && !HasAllOf(n) && props.Keys == PropsOf(n).Keys
    requires forall k :: k in props ==> Resolves(PropsOf(n)[k], all, seen, props[k])
    requires items.Some? <==> n.items.Some?
    requires items.Some? ==> Resolves(n.items.value, all, seen, items.value)
    ensures Resolves(n, all, seen, Rebuilt(n, props, items))
  {
    var f := CommonFuel(PropsOf(n), props.Keys, all, seen, props);
    var g: nat := 0;
    if items.Some? {
      g :| ResolveIn(n.items.value, all, seen, g) == items;
      MoreFuel(n.items.value, all, seen, g, f + g);
    }
    assert ResolveProps(PropsOf(n), all, seen, f).value == props;
    MoreFuelProps(PropsOf(n), all, seen, f, f + g);
    PlainStep(n, all, seen, f + g);
  }

  /** A resolved schema resolves to itself. */
  lemma {:induction false} ResolvedIsFixed(n: Schema, all: Schemas, seen: set<string>)
    requires Resolved(n, all) && seen <= all.Keys
    ensures Resolves(n, all, seen, n)
    decreases n
  {
    if HasRef(n) {
      assert ResolveIn(n, all, seen, 1) == Some(n);
    } else {
      forall k | k in PropsOf(n) ensures Resolves(PropsOf(n)[k], all, seen, PropsOf(n)[k]) {
        ResolvedIsFixed(n.properties.m[k], all, seen);
      }
      if n.items.Some? { ResolvedIsFixed(n.items.value, all, seen); }
      ResolvesPlain(n, all, seen, PropsOf(n), n.items);
      assert Rebuilt(n, PropsOf(n), n.items) == n;
    }
  }

  /** Resolving twice is resolving once. */
  lemma ResolveIdempotent(n: Schema, all: Schemas, r: Schema)
    requires Resolves(n, all, {}, r)
    ensures forall s :: Resolves(r, all, {}, s) <==> s == r
  {
    var f: nat :| ResolveIn(n, all, {}, f) == Some(r);
    ResultIsResolved(n, all, {}, f);
    ResolvedIsFixed(r, all, {});
    forall s | Resolves(r, all, {}, s) ensures s == r { ResultUnique(r, all, {}, r, s); }
  }
}
