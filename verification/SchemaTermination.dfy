/** When resolution ends. A result can be a dangling reference, which stands for itself with all
    it contains; if an empty `$ref` beside it in an `allOf` blanks the reference out, what it
    contains surfaces and is resolved after all, possibly for ever. */
module SchemaTermination {
  import opened Values
  import opened SchemaRefs

  // --- Which nodes may resolve to a dangling or an empty reference ---

  /** `n` may resolve to a dangling reference, if the schemas in `names` may. */
  predicate MayDangle(n: Schema, all: Schemas, names: set<string>) {
    if HasRef(n) then RefName(n) !in all || RefName(n) in names
    else n.allOf.AllOf? && exists i :: 0 <= i < |n.allOf.subs| && MayDangle(n.allOf.subs[i], all, names)
  }

  /** `n` may resolve to a node with an empty `$ref`, if the schemas in `names` may. */
  predicate MayBlank(n: Schema, all: Schemas, names: set<string>) {
    if HasRef(n) then RefName(n) in all && RefName(n) in names
    else n.ref == Some("") || (n.allOf.AllOf? && exists i :: 0 <= i < |n.allOf.subs| && MayBlank(n.allOf.subs[i], all, names))
  }

  /** Within this `allOf`, a dangling branch may be followed by an empty reference: that of a
      later branch, or that of the node itself. */
  predicate MayMeet(n: Schema, all: Schemas, dangling: set<string>, blank: set<string>) {
    n.allOf.AllOf? && exists i :: 0 <= i < |n.allOf.subs| && MayDangle(n.allOf.subs[i], all, dangling) && BlankAfter(n, i, all, blank)
  }

  /** An empty reference may follow branch `i`. */
  predicate BlankAfter(n: Schema, i: nat, all: Schemas, blank: set<string>)
    requires n.allOf.AllOf?
  {
    n.ref == Some("") || exists j :: i < j < |n.allOf.subs| && MayBlank(n.allOf.subs[j], all, blank)
  }

  /** Nowhere in `n`, outside references, do the two kinds meet. */
  predicate Unmet(n: Schema, all: Schemas, dangling: set<string>, blank: set<string>) {
    HasRef(n) || (
      && !MayMeet(n, all, dangling, blank)
      && (n.properties.Properties? ==> forall k :: k in n.properties.m ==> Unmet(n.properties.m[k], all, dangling, blank))
      && (n.items.Some? ==> Unmet(n.items.value, all, dangling, blank))
      && (n.allOf.AllOf? ==> forall i :: 0 <= i < |n.allOf.subs| ==> Unmet(n.allOf.subs[i], all, dangling, blank)))
  }

  // --- Which schemas a node reaches ---

  /** The names of the references in `n`; what stands beside a reference is not looked at. */
  function Mentions(n: Schema): set<string> {
    if HasRef(n) then {RefName(n)}
    else
      (if n.properties.Properties? then set k, x | k in n.properties.m && x in Mentions(n.properties.m[k]) :: x else {})
      + (if n.items.Some? then Mentions(n.items.value) else {})
      + (if n.allOf.AllOf? then set i, x | 0 <= i < |n.allOf.subs| && x in Mentions(n.allOf.subs[i]) :: x else {})
  }

  /** Every schema that `n` mentions is among `names`. */
  predicate Contained(n: Schema, all: Schemas, names: set<string>) {
    forall x :: x in Mentions(n) && x in all ==> x in names
  }

  /** `names` is closed under mentioning. */
  predicate Reaching(all: Schemas, names: set<string>) {
    forall name :: name in names && name in all ==> Contained(all[name], all, names)
  }

  function ReachedAfter(n: Schema, all: Schemas, rounds: nat): (names: set<string>)
    ensures names <= all.Keys
  {
    if rounds == 0 then set x | x in Mentions(n) && x in all
    else
      var before := ReachedAfter(n, all, rounds - 1);
      Onward(all, before)
  }

  /** The names, and what their schemas mention. */
  function Onward(all: Schemas, names: set<string>): (out: set<string>)
    requires names <= all.Keys
    ensures out <= all.Keys
  {
    names + set name, x | name in names && x in Mentions(all[name]) && x in all :: x
  }

  /** The schemas reached from `n` through references, `allOf`, properties and items. */
  function ReachedNames(n: Schema, all: Schemas): set<string> {
    ReachedAfter(n, all, |all|)
  }

  lemma ReachedNext(n: Schema, all: Schemas, rounds: nat)
    ensures ReachedAfter(n, all, rounds + 1) == Onward(all, ReachedAfter(n, all, rounds))
    ensures ReachedAfter(n, all, rounds) <= ReachedAfter(n, all, rounds + 1)
  {
  }

  /** Sets that grow, and stay once they have stood still, stand still after `k` steps or have
      more than `k` elements. */
  lemma {:induction false} GrowthStops(sets: seq<set<string>>, k: nat)
    requires k + 1 < |sets|
    requires forall i :: 0 <= i < |sets| - 1 ==> sets[i] <= sets[i + 1]
    requires forall i :: 0 <= i < |sets| - 2 && sets[i] == sets[i + 1] ==> sets[i + 1] == sets[i + 2]
    ensures sets[k] == sets[k + 1] || |sets[k + 1]| > k
    decreases k
  {
    if k > 0 { GrowthStops(sets, k - 1); }
    if sets[k] != sets[k + 1] { ProperSubset(sets[k], sets[k + 1]); }
  }

  lemma ReachedStandsStill(n: Schema, all: Schemas)
    ensures ReachedAfter(n, all, |all| + 1) == ReachedAfter(n, all, |all|)
  {
    var sets := seq(|all| + 2, i requires 0 <= i => ReachedAfter(n, all, i));
    forall i | 0 <= i < |sets| - 1 ensures sets[i] <= sets[i + 1] && sets[i + 1] == Onward(all, sets[i]) { ReachedNext(n, all, i); }
    forall i | 0 <= i < |sets| - 2 && sets[i] == sets[i + 1] ensures sets[i + 1] == sets[i + 2] { }
    GrowthStops(sets, |all|);
    Smaller(sets[|all| + 1], all.Keys);
  }

  /** The computed names hold what `n` mentions, are closed under mentioning, and lie in any
      other such set. */
  lemma ReachedNamesAreReached(n: Schema, all: Schemas)
    ensures Contained(n, all, ReachedNames(n, all)) && Reaching(all, ReachedNames(n, all))
    ensures forall names :: Contained(n, all, names) && Reaching(all, names) ==> ReachedNames(n, all) <= names
  {
    ReachedStandsStill(n, all);
    ReachedGrows(n, all, |all|);
    forall names | Contained(n, all, names) && Reaching(all, names) ensures ReachedNames(n, all) <= names {
      ReachedIsLeast(n, all, names, |all|);
    }
  }

  lemma {:induction false} ReachedGrows(n: Schema, all: Schemas, rounds: nat)
    ensures Contained(n, all, ReachedAfter(n, all, rounds))
    decreases rounds
  {
    if rounds > 0 { ReachedGrows(n, all, rounds - 1); }
  }

  lemma {:induction false} ReachedIsLeast(n: Schema, all: Schemas, names: set<string>, rounds: nat)
    requires Contained(n, all, names) && Reaching(all, names)
    ensures ReachedAfter(n, all, rounds) <= names
    decreases rounds
  {
    if rounds > 0 { ReachedIsLeast(n, all, names, rounds - 1); }
  }

  ghost predicate AllUnmet(all: Schemas, names: set<string>, dangling: set<string>, blank: set<string>) {
    Reaching(all, names) && forall name :: name in names && name in all ==> Unmet(all[name], all, dangling, blank)
  }

  /** The two sets name every schema that may dangle or may blank. */
  ghost predicate Closed(all: Schemas, dangling: set<string>, blank: set<string>) {
    && (forall name :: name in all && MayDangle(all[name], all, dangling) ==> name in dangling)
    && (forall name :: name in all && MayBlank(all[name], all, blank) ==> name in blank)
  }

  // --- The least such sets, by iteration ---

  function DanglesAfter(all: Schemas, rounds: nat): (names: set<string>)
    ensures names <= all.Keys
  {
    if rounds == 0 then {} else set name | name in all && MayDangle(all[name], all, DanglesAfter(all, rounds - 1))
  }

  function BlanksAfter(all: Schemas, rounds: nat): (names: set<string>)
    ensures names <= all.Keys
  {
    if rounds == 0 then {} else set name | name in all && MayBlank(all[name], all, BlanksAfter(all, rounds - 1))
  }

  function DanglingNames(all: Schemas): set<string> {
    DanglesAfter(all, |all|)
  }

  function BlankNames(all: Schemas): set<string> {
    BlanksAfter(all, |all|)
  }

  lemma {:induction false} MayDangleGrows(n: Schema, all: Schemas, names: set<string>, more: set<string>)
    requires MayDangle(n, all, names) && names <= more
    ensures MayDangle(n, all, more)
    decreases n
  {
    if !HasRef(n) {
      var i :| 0 <= i < |n.allOf.subs| && MayDangle(n.allOf.subs[i], all, names);
      MayDangleGrows(n.allOf.subs[i], all, names, more);
    }
  }

  lemma {:induction false} MayBlankGrows(n: Schema, all: Schemas, names: set<string>, more: set<string>)
    requires MayBlank(n, all, names) && names <= more
    ensures MayBlank(n, all, more)
    decreases n
  {
    if !HasRef(n) && n.ref != Some("") {
      var i :| 0 <= i < |n.allOf.subs| && MayBlank(n.allOf.subs[i], all, names);
      MayBlankGrows(n.allOf.subs[i], all, names, more);
    }
  }

  lemma {:induction false} RoundsGrow(all: Schemas, rounds: nat)
    ensures DanglesAfter(all, rounds) <= DanglesAfter(all, rounds + 1)
    ensures BlanksAfter(all, rounds) <= BlanksAfter(all, rounds + 1)
    decreases rounds
  {
    if rounds > 0 {
      RoundsGrow(all, rounds - 1);
      forall name | name in DanglesAfter(all, rounds) ensures name in DanglesAfter(all, rounds + 1) {
        MayDangleGrows(all[name], all, DanglesAfter(all, rounds - 1), DanglesAfter(all, rounds));
      }
      forall name | name in BlanksAfter(all, rounds) ensures name in BlanksAfter(all, rounds + 1) {
        MayBlankGrows(all[name], all, BlanksAfter(all, rounds - 1), BlanksAfter(all, rounds));
      }
    }
  }

  lemma ProperSubset(a: set<string>, b: set<string>)
    requires a <= b && a != b
    ensures |a| < |b|
  {
    var x :| x in b && x !in a;
    assert a <= b - {x};
    Smaller(a, b - {x});
  }

  lemma {:induction false} Smaller(a: set<string>, b: set<string>)
    requires a <= b
    ensures |a| <= |b|
    decreases |b|
  {
    if x :| x in a {
      Smaller(a - {x}, b - {x});
    }
  }

  /** Until it stands still, every round adds a name. */
  lemma {:induction false} DanglesStandStill(all: Schemas, rounds: nat)
    ensures DanglesAfter(all, rounds) == DanglesAfter(all, rounds + 1) || |DanglesAfter(all, rounds + 1)| > rounds
    decreases rounds
  {
    RoundsGrow(all, rounds);
    if rounds > 0 { DanglesStandStill(all, rounds - 1); }
    if DanglesAfter(all, rounds) != DanglesAfter(all, rounds + 1) {
      ProperSubset(DanglesAfter(all, rounds), DanglesAfter(all, rounds + 1));
    }
  }

  lemma {:induction false} BlanksStandStill(all: Schemas, rounds: nat)
    ensures BlanksAfter(all, rounds) == BlanksAfter(all, rounds + 1) || |BlanksAfter(all, rounds + 1)| > rounds
    decreases rounds
  {
    RoundsGrow(all, rounds);
    if rounds > 0 { BlanksStandStill(all, rounds - 1); }
    if BlanksAfter(all, rounds) != BlanksAfter(all, rounds + 1) {
      ProperSubset(BlanksAfter(all, rounds), BlanksAfter(all, rounds + 1));
    }
  }

  /** The computed names are closed. */
  lemma ComputedNamesAreClosed(all: Schemas)
    ensures Closed(all, DanglingNames(all), BlankNames(all))
  {
    DanglesStandStill(all, |all|);
    BlanksStandStill(all, |all|);
    Smaller(DanglesAfter(all, |all| + 1), all.Keys);
    Smaller(BlanksAfter(all, |all| + 1), all.Keys);
  }

  /** They are the least closed sets, so no closed sets give a weaker condition. */
  lemma {:induction false} ComputedNamesAreLeast(all: Schemas, dangling: set<string>, blank: set<string>, rounds: nat)
    requires Closed(all, dangling, blank)
    ensures DanglesAfter(all, rounds) <= dangling && BlanksAfter(all, rounds) <= blank
    decreases rounds
  {
    if rounds > 0 {
      ComputedNamesAreLeast(all, dangling, blank, rounds - 1);
      forall name | name in DanglesAfter(all, rounds) ensures name in dangling {
        MayDangleGrows(all[name], all, DanglesAfter(all, rounds - 1), dangling);
      }
      forall name | name in BlanksAfter(all, rounds) ensures name in blank {
        MayBlankGrows(all[name], all, BlanksAfter(all, rounds - 1), blank);
      }
    }
  }

  // --- Nesting of `allOf` ---

  /** At most `d` non-empty `allOf`s are nested in `n` outside references. */
  predicate AllOfDepth(n: Schema, d: nat) {
    HasRef(n) || (
      var e := if HasAllOf(n) then d - 1 else d;
      && e >= 0
      && (n.properties.Properties? ==> forall k :: k in n.properties.m ==> AllOfDepth(n.properties.m[k], e))
      && (n.items.Some? ==> AllOfDepth(n.items.value, e))
      && (HasAllOf(n) ==> forall i :: 0 <= i < |n.allOf.subs| ==> AllOfDepth(n.allOf.subs[i], e)))
  }

  lemma {:induction false} DeeperBound(n: Schema, d: nat, e: nat)
    requires AllOfDepth(n, d) && d <= e
    ensures AllOfDepth(n, e)
    decreases n
  {
    if !HasRef(n) {
      var x, y := if HasAllOf(n) then d - 1 else d, if HasAllOf(n) then e - 1 else e;
      if n.properties.Properties? {
        forall k | k in n.properties.m ensures AllOfDepth(n.properties.m[k], y) { DeeperBound(n.properties.m[k], x, y); }
      }
      if n.items.Some? { DeeperBound(n.items.value, x, y); }
      if HasAllOf(n) {
        forall i | 0 <= i < |n.allOf.subs| ensures AllOfDepth(n.allOf.subs[i], y) { DeeperBound(n.allOf.subs[i], x, y); }
      }
    }
  }

  ghost predicate HasDepth(n: Schema) {
    exists d: nat :: AllOfDepth(n, d)
  }

  /** One bound for finitely many schemas. */
  lemma {:induction false} CommonDepth(nodes: set<Schema>) returns (d: nat)
    requires forall n :: n in nodes ==> HasDepth(n)
    ensures forall n :: n in nodes ==> AllOfDepth(n, d)
    decreases |nodes|
  {
    if nodes == {} {
      d := 0;
    } else {
      var n :| n in nodes;
      var e: nat :| AllOfDepth(n, e);
      var f := CommonDepth(nodes - {n});
      d := e + f;
      forall x | x in nodes ensures AllOfDepth(x, d) { DeeperBound(x, if x == n then e else f, d); }
    }
  }

  function Children(n: Schema): set<Schema> {
    PropsOf(n).Values
    + (if n.items.Some? then {n.items.value} else {})
    + (if n.allOf.AllOf? then set s | s in n.allOf.subs else {})
  }

  lemma {:induction false} SomeDepth(n: Schema)
    ensures HasDepth(n)
    decreases n
  {
    forall c | c in Children(n)
      ensures HasDepth(c)
    {
      if k :| k in PropsOf(n) && PropsOf(n)[k] == c {
        SomeDepth(n.properties.m[k]);
      } else if n.items == Some(c) {
        SomeDepth(c);
      } else {
        SomeDepth(c);
      }
    }
    var d := CommonDepth(Children(n));
    forall k | k in PropsOf(n) ensures AllOfDepth(PropsOf(n)[k], d) { assert PropsOf(n)[k] in PropsOf(n).Values; }
    assert AllOfDepth(n, d + 1) by {
      forall c | c in Children(n) ensures AllOfDepth(c, d + 1) { DeeperBound(c, d, d + 1); }
      forall k | k in PropsOf(n) ensures AllOfDepth(PropsOf(n)[k], d + 1) { assert PropsOf(n)[k] in Children(n); }
    }
  }

  lemma {:induction false} ResolvedHasNoAllOf(n: Schema, all: Schemas, d: nat)
    requires Resolved(n, all)
    ensures AllOfDepth(n, d)
    decreases n
  {
    if !HasRef(n) {
      if n.properties.Properties? {
        forall k | k in n.properties.m ensures AllOfDepth(n.properties.m[k], d) { ResolvedHasNoAllOf(n.properties.m[k], all, d); }
      }
      if n.items.Some? { ResolvedHasNoAllOf(n.items.value, all, d); }
    }
  }

  lemma {:induction false} ResolvedIsUnmet(n: Schema, all: Schemas, dangling: set<string>, blank: set<string>)
    requires Resolved(n, all)
    ensures Unmet(n, all, dangling, blank)
    decreases n
  {
    if !HasRef(n) {
      if n.properties.Properties? {
        forall k | k in n.properties.m ensures Unmet(n.properties.m[k], all, dangling, blank) {
          ResolvedIsUnmet(n.properties.m[k], all, dangling, blank);
        }
      }
      if n.items.Some? { ResolvedIsUnmet(n.items.value, all, dangling, blank); }
    }
  }

  lemma {:induction false} ResolvedMentionsNone(n: Schema, all: Schemas)
    requires Resolved(n, all)
    ensures Mentions(n) !! all.Keys
    decreases n
  {
    if !HasRef(n) {
      if n.properties.Properties? {
        forall k | k in n.properties.m ensures Mentions(n.properties.m[k]) !! all.Keys { ResolvedMentionsNone(n.properties.m[k], all); }
      }
      if n.items.Some? { ResolvedMentionsNone(n.items.value, all); }
    }
  }

  /** The combined node mentions nothing new. */
  lemma CombineIsContained(merged: Schema, n: Schema, all: Schemas, names: set<string>)
    requires Resolved(merged, all) && !HasRef(n) && Contained(n, all, names) && (n.ref == Some("") ==> !HasRef(merged))
    ensures Contained(Combine(merged, n), all, names)
  {
    var c := Combine(merged, n);
    if !HasRef(c) {
      assert !HasRef(merged) && c.allOf == merged.allOf;
      ResolvedMentionsNone(merged, all);
      forall x | x in Mentions(c) && x in all ensures x in names { CombinedMention(merged, n, x); }
    }
  }

  lemma CombinedMention(merged: Schema, n: Schema, x: string)
    requires !HasRef(n) && !HasRef(merged) && !HasRef(Combine(merged, n)) && x in Mentions(Combine(merged, n))
    ensures x in Mentions(n) || x in Mentions(merged)
  {
    var c := Combine(merged, n);
    if k :| k in c.properties.m && x in Mentions(c.properties.m[k]) {
      assert c.properties.m[k] == if k in PropsOf(n) then PropsOf(n)[k] else PropsOf(merged)[k];
    }
  }

  // --- Merging branches that do not meet ---

  /** A branch may follow when it does not blank out a reference merged before. */
  lemma MergeKeepsResolved(a: Schema, b: Schema, all: Schemas)
    requires Resolved(a, all) && Resolved(b, all) && (b.ref == Some("") ==> !HasRef(a))
    ensures Resolved(Merge(a, b), all)
  {
    var m := Merge(a, b);
    assert forall k :: k in m.properties.m ==> m.properties.m[k] == if k in PropsOf(b) then PropsOf(b)[k] else PropsOf(a)[k];
  }

  /** The combined node has less nesting, and nothing meets in it either. */
  lemma CombineIsShallower(merged: Schema, n: Schema, all: Schemas, dangling: set<string>, blank: set<string>, d: nat)
    requires Resolved(merged, all) && (n.ref == Some("") ==> !HasRef(merged))
    requires !HasRef(n) && HasAllOf(n) && AllOfDepth(n, d) && Unmet(n, all, dangling, blank)
    ensures d >= 1 && AllOfDepth(Combine(merged, n), d - 1) && Unmet(Combine(merged, n), all, dangling, blank)
    ensures HasRef(Combine(merged, n)) ==> Dangling(Combine(merged, n), all)
    ensures !HasRef(Combine(merged, n)) ==> !HasAllOf(Combine(merged, n))
  {
    if !HasRef(Combine(merged, n)) {
      CombinedDepth(merged, n, all, d);
      CombinedIsUnmet(merged, n, all, dangling, blank);
    }
  }

  lemma CombinedDepth(merged: Schema, n: Schema, all: Schemas, d: nat)
    requires Resolved(merged, all) && !HasRef(merged) && !HasRef(Combine(merged, n))
    requires !HasRef(n) && HasAllOf(n) && AllOfDepth(n, d)
    ensures AllOfDepth(Combine(merged, n), d - 1)
  {
    var c := Combine(merged, n);
    assert !HasAllOf(c);
    forall k | k in c.properties.m ensures AllOfDepth(c.properties.m[k], d - 1) {
      if k in PropsOf(n) {
        assert c.properties.m[k] == n.properties.m[k];
      } else {
        assert c.properties.m[k] == merged.properties.m[k];
        ResolvedHasNoAllOf(merged.properties.m[k], all, d - 1);
      }
    }
    if n.items.None? && merged.items.Some? { ResolvedHasNoAllOf(merged.items.value, all, d - 1); }
  }

  lemma CombinedIsUnmet(merged: Schema, n: Schema, all: Schemas, dangling: set<string>, blank: set<string>)
    requires Resolved(merged, all) && !HasRef(merged) && !HasRef(Combine(merged, n))
    requires !HasRef(n) && Unmet(n, all, dangling, blank)
    ensures Unmet(Combine(merged, n), all, dangling, blank)
  {
    var c := Combine(merged, n);
    assert !HasAllOf(c);
    forall k | k in c.properties.m ensures Unmet(c.properties.m[k], all, dangling, blank) {
      if k in PropsOf(n) {
        assert c.properties.m[k] == n.properties.m[k];
      } else {
        assert c.properties.m[k] == merged.properties.m[k];
        ResolvedIsUnmet(merged.properties.m[k], all, dangling, blank);
      }
    }
    if n.items.None? && merged.items.Some? { ResolvedIsUnmet(merged.items.value, all, dangling, blank); }
  }

  /** The `allOf` case, from the merged branches and the result on the combined node. */
  lemma ResolvesAllOf(n: Schema, all: Schemas, seen: set<string>, merged: Schema, f: nat, r: Schema)
    requires !HasRef(n) && HasAllOf(n) && MergeBranches(n.allOf.subs, all, seen, BLANK, f) == Some(merged)
    requires Resolves(Combine(merged, n), all, seen, r)
    ensures Resolves(n, all, seen, r)
  {
    var h := FuelFor(Combine(merged, n), all, seen, r, f);
    MoreFuelBranches(n.allOf.subs, all, seen, BLANK, f, h);
    AllOfWithFuel(n, all, seen, merged, h, r);
  }

  lemma FuelFor(n: Schema, all: Schemas, seen: set<string>, r: Schema, least: nat) returns (h: nat)
    requires Resolves(n, all, seen, r)
    ensures h >= least && ResolveIn(n, all, seen, h) == Some(r)
  {
    var g: nat :| ResolveIn(n, all, seen, g) == Some(r);
    h := least + g;
    MoreFuel(n, all, seen, g, h);
  }

  lemma AllOfWithFuel(n: Schema, all: Schemas, seen: set<string>, merged: Schema, fuel: nat, r: Schema)
    requires !HasRef(n) && HasAllOf(n) && MergeBranches(n.allOf.subs, all, seen, BLANK, fuel) == Some(merged)
    requires ResolveIn(Combine(merged, n), all, seen, fuel) == Some(r)
    ensures ResolveIn(n, all, seen, fuel + 1) == Some(r)
  {
    AllOfStep(n, all, seen, fuel);
  }

  /** The reference case, from the result on the referenced schema. */
  lemma ResolvesRef(n: Schema, all: Schemas, seen: set<string>, r: Schema)
    requires HasRef(n) && RefName(n) !in seen && RefName(n) in all
    requires Resolves(all[RefName(n)], all, seen + {RefName(n)}, r)
    ensures Resolves(n, all, seen, r)
  {
    var f: nat :| ResolveIn(all[RefName(n)], all, seen + {RefName(n)}, f) == Some(r);
    RefStep(n, all, seen, f);
  }

  // --- Termination ---

  /** The result of `n` dangles or is blank only if that was to be expected. */
  ghost predicate Expected(n: Schema, r: Schema, all: Schemas, dangling: set<string>, blank: set<string>) {
    && (HasRef(r) ==> MayDangle(n, all, dangling))
    && (r.ref == Some("") ==> MayBlank(n, all, blank))
  }

  /** The merged branches before `k` dangle or are blank only if one of these branches may. */
  ghost predicate ExpectedMerge(m: Schema, subs: seq<Schema>, k: nat, all: Schemas, dangling: set<string>, blank: set<string>)
    requires k <= |subs|
  {
    && Resolved(m, all)
    && (HasRef(m) ==> exists i :: 0 <= i < k && MayDangle(subs[i], all, dangling))
    && (m.ref == Some("") ==> exists i :: 0 <= i < k && MayBlank(subs[i], all, blank))
  }

  lemma MergeOneMore(m: Schema, r: Schema, n: Schema, k: nat, all: Schemas, dangling: set<string>, blank: set<string>)
    requires n.allOf.AllOf? && k < |n.allOf.subs| && !MayMeet(n, all, dangling, blank)
    requires ExpectedMerge(m, n.allOf.subs, k, all, dangling, blank)
    requires Resolved(r, all) && Expected(n.allOf.subs[k], r, all, dangling, blank)
    ensures ExpectedMerge(Merge(m, r), n.allOf.subs, k + 1, all, dangling, blank)
  {
    MergeKeepsResolved(m, r, all);
  }

  /** The resolver terminates: each call lowers, in this order, the number of schemas not yet
      seen, the nesting of `allOf`, and the node. The call on the combined node is covered
      because its branches are already resolved, and stay so as long as none of them is a
      dangling reference that gets blanked out. */
  lemma {:induction false} Terminates(n: Schema, all: Schemas, seen: set<string>, names: set<string>, dangling: set<string>, blank: set<string>, d: nat)
    returns (r: Schema)
    requires Closed(all, dangling, blank) && AllUnmet(all, names, dangling, blank)
    requires Unmet(n, all, dangling, blank) && Contained(n, all, names) && AllOfDepth(n, d)
    ensures Resolves(n, all, seen, r) && Expected(n, r, all, dangling, blank)
    decreases |all.Keys - seen|, d, n, 0
  {
    if HasRef(n) {
      var name := RefName(n);
      if name in seen {
        r := CycleLeaf(name);
        assert ResolveIn(n, all, seen, 1) == Some(r);
      } else if name !in all {
        r := n;
        assert ResolveIn(n, all, seen, 1) == Some(r);
      } else {
        SomeDepth(all[name]);
        var e: nat :| AllOfDepth(all[name], e);
        assert all.Keys - (seen + {name}) == (all.Keys - seen) - {name};
        r := Terminates(all[name], all, seen + {name}, names, dangling, blank, e);
        ResolvesRef(n, all, seen, r);
      }
    } else if HasAllOf(n) {
      var merged, f := BranchesTerminate(n, 0, BLANK, all, seen, names, dangling, blank, d);
      assert n.allOf.subs[0..] == n.allOf.subs;
      CombineIsShallower(merged, n, all, dangling, blank, d);
      CombineIsContained(merged, n, all, names);
      r := Terminates(Combine(merged, n), all, seen, names, dangling, blank, d - 1);
      ResolvesAllOf(n, all, seen, merged, f, r);
    } else {
      var props := PropsTerminate(n, PropsOf(n).Keys, all, seen, names, dangling, blank, d);
      var items: Option<Schema> := None;
      if n.items.Some? {
        var i := Terminates(n.items.value, all, seen, names, dangling, blank, d);
        items := Some(i);
      }
      ResolvesPlain(n, all, seen, props, items);
      r := Rebuilt(n, props, items);
    }
  }

  lemma {:induction false} PropsTerminate(n: Schema, keys: set<string>, all: Schemas, seen: set<string>, names: set<string>, dangling: set<string>, blank: set<string>, d: nat)
    returns (out: map<string, Schema>)
    requires Closed(all, dangling, blank) && AllUnmet(all, names, dangling, blank) && Unmet(n, all, dangling, blank) && Contained(n, all, names) && AllOfDepth(n, d)
    requires !HasRef(n) && !HasAllOf(n) && keys <= PropsOf(n).Keys
    ensures out.Keys == keys && forall k :: k in keys ==> Resolves(PropsOf(n)[k], all, seen, out[k])
    decreases |all.Keys - seen|, d, n, 0, |keys|
  {
    if keys == {} {
      out := map[];
    } else {
      var k :| k in keys;
      var r := Terminates(n.properties.m[k], all, seen, names, dangling, blank, d);
      var rest := PropsTerminate(n, keys - {k}, all, seen, names, dangling, blank, d);
      out := rest[k := r];
    }
  }

  /** The branches of `n` from `k` on, merged onto those before. */
  lemma {:induction false} BranchesTerminate(n: Schema, k: nat, merged: Schema, all: Schemas, seen: set<string>, names: set<string>, dangling: set<string>, blank: set<string>, d: nat)
    returns (m: Schema, fuel: nat)
    requires Closed(all, dangling, blank) && AllUnmet(all, names, dangling, blank) && Unmet(n, all, dangling, blank) && Contained(n, all, names) && AllOfDepth(n, d)
    requires !HasRef(n) && HasAllOf(n) && k <= |n.allOf.subs| && ExpectedMerge(merged, n.allOf.subs, k, all, dangling, blank)
    ensures MergeBranches(n.allOf.subs[k..], all, seen, merged, fuel) == Some(m)
    ensures ExpectedMerge(m, n.allOf.subs, |n.allOf.subs|, all, dangling, blank)
    decreases |all.Keys - seen|, d, n, 0, |n.allOf.subs| - k
  {
    var subs := n.allOf.subs;
    if k == |subs| {
      return merged, 0;
    }
    var r := Terminates(subs[k], all, seen, names, dangling, blank, d - 1);
    var f: nat :| ResolveIn(subs[k], all, seen, f) == Some(r);
    ResultIsResolved(subs[k], all, seen, f);
    MergeOneMore(merged, r, n, k, all, dangling, blank);
    var g;
    m, g := BranchesTerminate(n, k + 1, Merge(merged, r), all, seen, names, dangling, blank, d);
    fuel := f + g;
    assert subs[k..][0] == subs[k] && subs[k..][1..] == subs[k + 1..];
    MoreFuel(subs[k], all, seen, f, fuel);
    MoreFuelBranches(subs[k + 1..], all, seen, Merge(merged, r), g, fuel);
  }

  /** Termination for the public call: in no `allOf` of the node or of a schema it reaches may a
      dangling branch be followed by an empty reference. */
  lemma ResolveTerminates(n: Schema, all: Schemas)
    requires Unmet(n, all, DanglingNames(all), BlankNames(all))
    requires forall name :: name in ReachedNames(n, all) ==> Unmet(all[name], all, DanglingNames(all), BlankNames(all))
    ensures exists r :: Resolves(n, all, {}, r)
  {
    ComputedNamesAreClosed(all);
    ReachedNamesAreReached(n, all);
    SomeDepth(n);
    var d: nat :| AllOfDepth(n, d);
    var r := Terminates(n, all, {}, ReachedNames(n, all), DanglingNames(all), BlankNames(all), d);
  }

  // --- Two conditions that are easy to see ---

  /** No empty `$ref` anywhere, or no dangling one. */
  datatype Care = NoEmpty | NoDangling

  predicate Careful(n: Schema, all: Schemas, care: Care) {
    && (if care == NoEmpty then n.ref != Some("") else !Dangling(n, all))
    && (HasRef(n) || (
          && (n.properties.Properties? ==> forall k :: k in n.properties.m ==> Careful(n.properties.m[k], all, care))
          && (n.items.Some? ==> Careful(n.items.value, all, care))
          && (n.allOf.AllOf? ==> forall i :: 0 <= i < |n.allOf.subs| ==> Careful(n.allOf.subs[i], all, care))))
  }

  /** Nothing careful may be blank, or dangle. */
  predicate Never(n: Schema, all: Schemas, care: Care, names: set<string>) {
    if care == NoEmpty then !MayBlank(n, all, names) else !MayDangle(n, all, names)
  }

  lemma {:induction false} CarefulNever(n: Schema, all: Schemas, care: Care, reached: set<string>, names: set<string>)
    requires Careful(n, all, care) && Contained(n, all, reached) && names !! reached
    ensures Never(n, all, care, names)
    decreases n
  {
    if HasRef(n) {
      assert RefName(n) in Mentions(n);
    } else if n.allOf.AllOf? {
      forall i | 0 <= i < |n.allOf.subs| ensures Never(n.allOf.subs[i], all, care, names) {
        assert Mentions(n.allOf.subs[i]) <= Mentions(n);
        CarefulNever(n.allOf.subs[i], all, care, reached, names);
      }
    }
  }

  lemma {:induction false} CarefulIsUnmet(n: Schema, all: Schemas, care: Care, reached: set<string>, dangling: set<string>, blank: set<string>)
    requires Careful(n, all, care) && Contained(n, all, reached) && (if care == NoEmpty then blank else dangling) !! reached
    ensures Unmet(n, all, dangling, blank)
    decreases n
  {
    if !HasRef(n) {
      if n.properties.Properties? {
        forall k | k in n.properties.m ensures Unmet(n.properties.m[k], all, dangling, blank) {
          assert Mentions(n.properties.m[k]) <= Mentions(n);
          CarefulIsUnmet(n.properties.m[k], all, care, reached, dangling, blank);
        }
      }
      if n.items.Some? { CarefulIsUnmet(n.items.value, all, care, reached, dangling, blank); }
      if n.allOf.AllOf? {
        forall i | 0 <= i < |n.allOf.subs|
          ensures Unmet(n.allOf.subs[i], all, dangling, blank)
          ensures Never(n.allOf.subs[i], all, care, if care == NoEmpty then blank else dangling)
        {
          assert Mentions(n.allOf.subs[i]) <= Mentions(n);
          CarefulIsUnmet(n.allOf.subs[i], all, care, reached, dangling, blank);
          CarefulNever(n.allOf.subs[i], all, care, reached, if care == NoEmpty then blank else dangling);
        }
      }
    }
  }

  lemma {:induction false} CarefulNames(all: Schemas, care: Care, reached: set<string>, rounds: nat)
    requires Reaching(all, reached) && forall name :: name in reached && name in all ==> Careful(all[name], all, care)
    ensures (if care == NoEmpty then BlanksAfter(all, rounds) else DanglesAfter(all, rounds)) !! reached
    decreases rounds
  {
    if rounds > 0 {
      var before := if care == NoEmpty then BlanksAfter(all, rounds - 1) else DanglesAfter(all, rounds - 1);
      CarefulNames(all, care, reached, rounds - 1);
      forall name | name in reached && name in all ensures Never(all[name], all, care, before) {
        CarefulNever(all[name], all, care, reached, before);
      }
    }
  }

  /** Nodes that reach no empty reference, and nodes that reach no dangling one, are covered. */
  lemma CarefulTerminates(n: Schema, all: Schemas, care: Care)
    requires Careful(n, all, care) && forall name :: name in ReachedNames(n, all) ==> Careful(all[name], all, care)
    ensures exists r :: Resolves(n, all, {}, r)
  {
    var reached := ReachedNames(n, all);
    ReachedNamesAreReached(n, all);
    CarefulNames(all, care, reached, |all|);
    CarefulIsUnmet(n, all, care, reached, DanglingNames(all), BlankNames(all));
    forall name | name in reached ensures Unmet(all[name], all, DanglingNames(all), BlankNames(all)) {
      CarefulIsUnmet(all[name], all, care, reached, DanglingNames(all), BlankNames(all));
    }
    ResolveTerminates(n, all);
  }

  // --- An input on which it does not terminate ---

  /** `S` is a dangling reference that also carries an `allOf`; a second branch with an empty
      `$ref` blanks the reference out and so exposes that `allOf`, which is the start again. */
  function Looping(): Schema {
    BLANK.(allOf := AllOf([BLANK.(ref := Some(REF_PREFIX + "S")), BLANK.(ref := Some(""))]))
  }

  function LoopingSchemas(): Schemas {
    map["S" := BLANK.(ref := Some(REF_PREFIX + "Gone"), allOf := AllOf([Looping()]))]
  }

  lemma {:induction false} LoopingDiverges(fuel: nat)
    ensures ResolveIn(Looping(), LoopingSchemas(), {}, fuel) == None
    decreases fuel
  {
    if fuel > 0 {
      var all, f := LoopingSchemas(), fuel - 1;
      var refS, blank, dangling := BLANK.(ref := Some(REF_PREFIX + "S")), BLANK.(ref := Some("")), all["S"];
      var subs := [refS, blank];
      AllOfStep(Looping(), all, {}, f);
      assert RefName(refS) == "S" && RefName(dangling) == "Gone" && "Gone" !in all;
      if f >= 2 {
        RefStep(refS, all, {}, f - 1);
        assert ResolveIn(dangling, all, {"S"}, f - 1) == Some(dangling);
        PlainStep(blank, all, {}, f - 1);
        assert ResolveIn(blank, all, {}, f) == Some(blank);
        assert subs[1..] == [blank] && [blank][1..] == [];
        var merged := Merge(Merge(BLANK, dangling), blank);
        assert MergeBranches([blank], all, {}, Merge(BLANK, dangling), f) == Some(merged);
        assert MergeBranches(subs, all, {}, BLANK, f) == Some(merged);
        var c := Combine(merged, Looping());
        assert c.ref == Some("") && c.allOf == AllOf([Looping()]);
        AllOfStep(c, all, {}, f - 1);
        LoopingDiverges(f - 1);
        assert MergeBranches([Looping()], all, {}, BLANK, f - 1) == None;
      }
    }
  }

  /** Meeting need not mean looping: nothing lies beside this dangling reference. */
  lemma MeetingMayEnd()
    ensures
      var n := BLANK.(allOf := AllOf([BLANK.(ref := Some(REF_PREFIX + "Gone")), BLANK.(ref := Some(""))]));
      MayMeet(n, map[], {}, {}) && exists r :: Resolves(n, map[], {}, r)
  {
    var gone, blank := BLANK.(ref := Some(REF_PREFIX + "Gone")), BLANK.(ref := Some(""));
    var n, all := BLANK.(allOf := AllOf([gone, blank])), map[];
    assert HasRef(gone) && MayDangle(n.allOf.subs[0], all, {}) && MayBlank(n.allOf.subs[1], all, {});
    assert BlankAfter(n, 0, all, {});
    assert ResolveIn(gone, all, {}, 2) == Some(gone);
    PlainStep(blank, all, {}, 1);
    assert ResolveIn(blank, all, {}, 2) == Some(blank);
    var merged := Merge(Merge(BLANK, gone), blank);
    assert [gone, blank][1..] == [blank] && [blank][1..] == [];
    assert MergeBranches([blank], all, {}, Merge(BLANK, gone), 2) == Some(merged);
    assert MergeBranches([gone, blank], all, {}, BLANK, 2) == Some(merged);
    var c := Combine(merged, n);
    assert !HasRef(c) && !HasAllOf(c);
    PlainStep(c, all, {}, 1);
    AllOfStep(n, all, {}, 2);
    assert ResolveIn(n, all, {}, 3).Some?;
    assert Resolves(n, all, {}, ResolveIn(n, all, {}, 3).value);
  }
}
