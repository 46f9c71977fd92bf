/** The list of settable places of a resolved schema. */
module SchemaFlat {
  import opened Values
  import opened PathGrammar
  import opened SchemaRefs

  /** One listed place. */
  datatype FlatField = FlatField(path: string, node: Schema, required: bool)

  predicate IsObject(n: Schema) {
    n.kind == Some("object") && n.properties.Properties?
  }

  predicate IsList(n: Schema) {
    n.kind == Some("array") && n.items.Some?
  }

  /** One step down: a property of an object, or the first element of an array. */
  function Child(n: Schema, s: Seg): Option<Schema> {
    match s
    case Key(k) => if IsObject(n) && k in n.properties.m then Some(n.properties.m[k]) else None
    case Idx(i) => if IsList(n) && i == 0 then n.items else None
  }

  /** Looking a path up in a schema. */
  function At(n: Schema, p: Path): Option<Schema>
    decreases |p|
  {
    if p == [] then Some(n)
    else match Child(n, p[0])
      case None => None
      case Some(c) => At(c, p[1..])
  }

  /** Whether the parent of the place at `p` requires it. */
  function RequiredAt(n: Schema, p: Path): bool
    requires p != []
    decreases |p|
  {
    if |p| == 1 then p[0].Key? && p[0].k in RequiredOf(n)
    else match Child(n, p[0])
      case None => false
      case Some(c) => RequiredAt(c, p[1..])
  }

  /** Field `f` is the place at `p`, whose text is written below `prefix`. */
  ghost predicate Describes(root: Schema, prefix: string, f: FlatField, p: Path) {
    p != [] && At(root, p) == Some(f.node) && f.path == PathText(prefix, p) && f.required == RequiredAt(root, p)
  }

  /** `fields` describe the places at `paths`, in this order, without repetition. */
  ghost predicate Lists(root: Schema, prefix: string, fields: seq<FlatField>, paths: seq<Path>) {
    && |paths| == |fields|
    && (forall i :: 0 <= i < |fields| ==> Describes(root, prefix, fields[i], paths[i]))
    && forall i, j :: 0 <= i < j < |paths| ==> paths[i] != paths[j]
  }

  /** Exactly the places below the steps in `steps` are listed. */
  ghost predicate Covers(root: Schema, paths: seq<Path>, steps: set<Seg>) {
    && (forall p :: p in paths ==> p != [] && p[0] in steps)
    && forall p: Path :: p != [] && p[0] in steps && At(root, p).Some? ==> p in paths
  }

  /** `paths` are exactly the places of the schema below its root. */
  ghost predicate AllPlaces(root: Schema, paths: seq<Path>) {
    forall p: Path :: p in paths <==> p != [] && At(root, p).Some?
  }

  function Under(s: Seg, paths: seq<Path>): seq<Path> {
    [[s]] + seq(|paths|, i requires 0 <= i < |paths| => [s] + paths[i])
  }

  /** The places of a child, seen from its parent. */
  lemma DescribesFromParent(root: Schema, prefix: string, s: Seg, f: FlatField, p: Path)
    requires Child(root, s).Some? && Describes(Child(root, s).value, Extend(prefix, s), f, p)
    ensures Describes(root, prefix, f, [s] + p)
  {
    assert ([s] + p)[1..] == p;
  }

  lemma ListsFromParent(root: Schema, prefix: string, s: Seg, f: FlatField, fields: seq<FlatField>, paths: seq<Path>)
    requires Child(root, s).Some? && Lists(Child(root, s).value, Extend(prefix, s), fields, paths)
    requires Describes(root, prefix, f, [s])
    ensures Lists(root, prefix, [f] + fields, Under(s, paths))
  {
    var all := Under(s, paths);
    forall i | 0 <= i < |all| ensures Describes(root, prefix, ([f] + fields)[i], all[i]) {
      if i > 0 { DescribesFromParent(root, prefix, s, fields[i - 1], paths[i - 1]); }
    }
    forall i | 0 <= i < |paths| ensures paths[i] != [] {
      assert Describes(Child(root, s).value, Extend(prefix, s), fields[i], paths[i]);
    }
    UnderDistinct(s, paths);
  }

  lemma UnderDistinct(s: Seg, paths: seq<Path>)
    requires forall i :: 0 <= i < |paths| ==> paths[i] != []
    requires forall i, j :: 0 <= i < j < |paths| ==> paths[i] != paths[j]
    ensures forall i, j :: 0 <= i < j < |Under(s, paths)| ==> Under(s, paths)[i] != Under(s, paths)[j]
  {
    var all := Under(s, paths);
    forall i, j | 0 <= i < j < |all| ensures all[i] != all[j] {
      assert all[j][1..] == paths[j - 1];
      if i > 0 { assert all[i][1..] == paths[i - 1]; }
    }
  }

  lemma CoversFromParent(root: Schema, s: Seg, paths: seq<Path>)
    requires Child(root, s).Some?
    requires AllPlaces(Child(root, s).value, paths)
    ensures Covers(root, Under(s, paths), {s})
  {
    var all := Under(s, paths);
    forall p: Path | p != [] && p[0] == s && At(root, p).Some? ensures p in all {
      assert p == [s] + p[1..];
      if p[1..] == [] {
        assert all[0] == p;
      } else {
        assert At(Child(root, s).value, p[1..]).Some? && p[1..] in paths;
        var i :| 0 <= i < |paths| && paths[i] == p[1..];
        assert all[i + 1] == [s] + paths[i];
      }
    }
  }

  lemma CoversBoth(root: Schema, a: seq<Path>, s: set<Seg>, b: seq<Path>, step: Seg)
    requires Covers(root, a, s) && Covers(root, b, {step}) && step !in s
    ensures Covers(root, a + b, s + {step})
    ensures forall p, q :: p in a && q in b ==> p != q
  {
  }

  lemma ListsBoth(root: Schema, prefix: string, f: seq<FlatField>, a: seq<Path>, g: seq<FlatField>, b: seq<Path>)
    requires Lists(root, prefix, f, a) && Lists(root, prefix, g, b)
    requires forall p, q :: p in a && q in b ==> p != q
    ensures Lists(root, prefix, f + g, a + b)
  {
    forall i, j | 0 <= i < j < |a + b| ensures (a + b)[i] != (a + b)[j] {
      if i < |a| <= j { assert a[i] in a && b[j - |a|] in b; }
    }
  }

  /** One field for a child and the fields below it. */
  lemma WithChild(root: Schema, prefix: string, s: Seg, f: FlatField, fields: seq<FlatField>, paths: seq<Path>,
                  before: seq<FlatField>, done: seq<Path>, steps: set<Seg>)
    requires Child(root, s).Some? && Describes(root, prefix, f, [s]) && s !in steps
    requires Lists(Child(root, s).value, Extend(prefix, s), fields, paths)
    requires AllPlaces(Child(root, s).value, paths)
    requires Lists(root, prefix, before, done) && Covers(root, done, steps)
    ensures Lists(root, prefix, before + [f] + fields, done + Under(s, paths))
    ensures Covers(root, done + Under(s, paths), steps + {s})
  {
    ListsFromParent(root, prefix, s, f, fields, paths);
    CoversFromParent(root, s, paths);
    CoversBoth(root, done, steps, Under(s, paths), s);
    ListsBoth(root, prefix, before, done, [f] + fields, Under(s, paths));
    assert before + [f] + fields == before + ([f] + fields);
  }

  function KeySteps(names: set<string>): set<Seg> {
    set k | k in names :: Key(k)
  }

  lemma OneMoreKey(names: set<string>, todo: set<string>, k: string)
    requires k in todo && todo <= names
    ensures Key(k) !in KeySteps(names - todo) && KeySteps(names - todo) + {Key(k)} == KeySteps(names - (todo - {k}))
  {
    assert names - (todo - {k}) == names - todo + {k};
  }

  /** The first steps that lead anywhere. */
  function StepsOf(root: Schema): set<Seg> {
    if IsObject(root) then KeySteps(root.properties.m.Keys) else if IsList(root) then {Idx(0)} else {}
  }

  lemma StepsAreAll(root: Schema, s: Seg)
    requires Child(root, s).Some?
    ensures s in StepsOf(root)
  {
  }

  /** All steps covered: all places listed. */
  lemma AllPlacesListed(root: Schema, prefix: string, out: seq<FlatField>, paths: seq<Path>)
    requires Lists(root, prefix, out, paths) && Covers(root, paths, StepsOf(root))
    ensures AllPlaces(root, paths)
  {
    forall p: Path | p != [] && At(root, p).Some? ensures p in paths { StepsAreAll(root, p[0]); }
    forall p: Path | p in paths ensures p != [] && At(root, p).Some? {
      var i :| 0 <= i < |paths| && paths[i] == p;
      assert Describes(root, prefix, out[i], p);
    }
  }

  /** Every place reachable through properties and array items is listed exactly once, with the
      schema found there; properties come in whatever order the runtime enumerates them. */
  method FlattenSchema(root: Schema, prefix: string) returns (out: seq<FlatField>, ghost paths: seq<Path>)
    ensures Lists(root, prefix, out, paths) && AllPlaces(root, paths)
    ensures exists ps :: Lists(root, prefix, out, ps) && AllPlaces(root, ps)
    decreases root
  {
    out, paths := [], [];
    if IsObject(root) {
      ghost var steps: set<Seg> := {};
      var todo := root.properties.m.Keys;
      while todo != {}
        invariant todo <= root.properties.m.Keys && steps == KeySteps(root.properties.m.Keys - todo)
        invariant Lists(root, prefix, out, paths) && Covers(root, paths, steps)
        decreases todo
      {
        var name :| name in todo;
        var child := root.properties.m[name];
        var f := FlatField(Extend(prefix, Key(name)), child, name in RequiredOf(root));
        var below;
        ghost var inner;
        below, inner := FlattenSchema(child, f.path);
        OneMoreKey(root.properties.m.Keys, todo, name);
        WithChild(root, prefix, Key(name), f, below, inner, out, paths, steps);
        out, paths := out + [f] + below, paths + Under(Key(name), inner);
        steps, todo := steps + {Key(name)}, todo - {name};
      }
      assert root.properties.m.Keys - {} == root.properties.m.Keys;
    } else if IsList(root) {
      var f := FlatField(Extend(prefix, Idx(0)), root.items.value, false);
      var below;
      ghost var inner;
      below, inner := FlattenSchema(root.items.value, f.path);
      WithChild(root, prefix, Idx(0), f, below, inner, out, paths, {});
      out, paths := out + [f] + below, paths + Under(Idx(0), inner);
      assert {} + {Idx(0)} == StepsOf(root);
    }
    AllPlacesListed(root, prefix, out, paths);
  }

  // --- The listed texts and the path grammar ---

  /** Every property name below the schema is an identifier of the path grammar. */
  ghost predicate IdentifierNames(n: Schema) {
    forall p: Path, k :: At(n, p).Some? && Child(At(n, p).value, Key(k)).Some? ==> IsIdent(k)
  }

  lemma ChildrenHaveIdentifierNames(n: Schema, s: Seg)
    requires IdentifierNames(n) && Child(n, s).Some?
    ensures IdentifierNames(Child(n, s).value)
    ensures s.Key? ==> IsIdent(s.k)
  {
    assert At(n, []) == Some(n);
    forall p: Path, k | At(Child(n, s).value, p).Some? && Child(At(Child(n, s).value, p).value, Key(k)).Some?
      ensures IsIdent(k)
    {
      assert ([s] + p)[1..] == p && At(n, [s] + p) == At(Child(n, s).value, p);
    }
  }

  lemma {:induction false} PlacesAreExpressible(n: Schema, p: Path)
    requires IdentifierNames(n) && At(n, p).Some?
    ensures Expressible(p)
    decreases |p|
  {
    if p != [] {
      ChildrenHaveIdentifierNames(n, p[0]);
      PlacesAreExpressible(Child(n, p[0]).value, p[1..]);
      assert forall i :: 1 <= i < |p| ==> p[i] == p[1..][i - 1];
    }
  }

  lemma IndexFirst(p: Path)
    requires p != [] && p[0].Idx?
    ensures PathText("", p) == Suffix(p) && TrimDot(Suffix(p)) == Suffix(p)
  {
    PathTextIsSuffix(Extend("", p[0]), p[1..]);
    assert "" + "[" + Decimal(p[0].i) + "]" == "[" + Decimal(p[0].i) + "]";
  }

  /** The tokenizer of the writers reads each listed path back to the steps that built it. */
  lemma ListedPathsReadBack(root: Schema, p: Path)
    requires IdentifierNames(root) && p != [] && At(root, p).Some?
    ensures Tokens(PathText("", p)) == Ok(p)
  {
    PlacesAreExpressible(root, p);
    if p[0].Key? {
      TokensOfPathText(p);
    } else {
      IndexFirst(p);
      TokensOfSuffix(p);
    }
  }

  // --- Which steps there are ---

  /** Below an object lie its properties, required if it lists them; below an array its items,
      as the first element and never required; below anything else nothing. */
  lemma StepsOfSchema(n: Schema, s: Seg)
    ensures At(n, [s]).Some? <==>
            || (s.Key? && n.kind == Some("object") && n.properties.Properties? && s.k in n.properties.m)
            || (s == Idx(0) && n.kind == Some("array") && n.items.Some?)
    ensures At(n, [s]).Some? ==> At(n, [s]).value == if s.Key? then n.properties.m[s.k] else n.items.value
    ensures RequiredAt(n, [s]) <==> s.Key? && n.required.Some? && s.k in n.required.value
  {
    assert [s][1..] == [];
  }

  /** Looking up two paths in turn is looking up both at once. */
  lemma {:induction false} AtConcat(n: Schema, p: Path, q: Path)
    ensures At(n, p + q) == if At(n, p).Some? then At(At(n, p).value, q) else None
    ensures q != [] && At(n, p).Some? ==> RequiredAt(n, p + q) == RequiredAt(At(n, p).value, q)
    decreases |p|
  {
    if p == [] {
      assert p + q == q;
    } else {
      assert (p + q)[0] == p[0] && (p + q)[1..] == p[1..] + q;
      if Child(n, p[0]).Some? { AtConcat(Child(n, p[0]).value, p[1..], q); }
    }
  }

  /** The texts of the places: a property behind a dot, an element in brackets. */
  lemma PlaceTexts(prefix: string, p: Path, k: string)
    ensures PathText("", [Key(k)]) == k
    ensures PathText(prefix, p) != "" ==> PathText(prefix, p + [Key(k)]) == PathText(prefix, p) + "." + k
    ensures PathText(prefix, p + [Idx(0)]) == PathText(prefix, p) + "[0]"
  {
    PathTextExtends(prefix, p, Key(k));
    PathTextExtends(prefix, p, Idx(0));
    PathTextExtends("", [], Key(k));
    assert [] + [Key(k)] == [Key(k)];
    assert PathText(prefix, p) + "[" + "0" + "]" == PathText(prefix, p) + "[0]";
  }

  lemma {:induction false} PathTextExtends(prefix: string, p: Path, s: Seg)
    ensures PathText(prefix, p + [s]) == Extend(PathText(prefix, p), s)
    decreases |p|
  {
    if p == [] {
      assert p + [s] == [s] && [s][1..] == [];
    } else {
      assert (p + [s])[0] == p[0] && (p + [s])[1..] == p[1..] + [s];
      PathTextExtends(Extend(prefix, p[0]), p[1..], s);
    }
  }
}
