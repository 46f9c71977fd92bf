/** Which values an entry of the ui-spec accepts, told by what renders. */
module FieldRules {
  import opened Values
  import opened UiSpec
  import opened Targets
  import opened Stamps
  import opened Render
  import opened RenderLaws

  /** The documents rendered with one entry and one value for it. */
  function RenderOne(t: Text, docs: seq<Doc>, f: SpecEntry, v: Value, l: Labels): Rendered {
    RenderDocs(t, Parsed(docs), Parsed([f]), Parsed(Map(map[f.path := v])), l)
  }

  /** The documents rendered with one entry and no value for it. */
  function RenderNone(t: Text, docs: seq<Doc>, f: SpecEntry, l: Labels): Rendered {
    RenderDocs(t, Parsed(docs), Parsed([f]), Parsed(Map(map[])), l)
  }

  /** The path names one of the documents and fits it. */
  predicate PathFits(docs: seq<Doc>, path: string) {
    match ParseHead(path)
    case None => false
    case Some(head) => (
      match FindDoc(docs, head.kind, head.selector)
      case None => false
      case Some(i) => FitsText(Map(docs[i]), head.rest)
    )
  }

  predicate Compiles(t: Text, f: SpecEntry) {
    f.pattern == "" || t.compiles(f.pattern)
  }

  lemma FittingPathIsSet(docs: seq<Doc>, path: string, v: Value)
    ensures SetPath(docs, path, v).Documents? <==> PathFits(docs, path)
  {
    var head := ParseHead(path);
    if head.Some? && FindDoc(docs, head.value.kind, head.value.selector).Some? {
      TextSets(Map(docs[FindDoc(docs, head.value.kind, head.value.selector).value]), head.value.rest, v);
    }
  }

  /** One entry is applied, and what comes out is stamped. */
  lemma OneApplied(t: Text, docs: seq<Doc>, f: SpecEntry, input: map<string, Value>, l: Labels)
    requires Compiles(t, f)
    ensures
      RenderDocs(t, Parsed(docs), Parsed([f]), Parsed(Map(input)), l) ==
        (match ApplyField(t, docs, f, input) case Failed(e) => Failed(e) case Documents(ds) => Documents(StampAll(ds, l)))
  {
    var fields := [f];
    assert SpecParses(t, Parsed(fields)) by { assert forall x :: x in fields ==> x == f; }
    assert fields[0] == f && fields[1..] == [];
    var out := ApplyField(t, docs, f, input);
    if out.Documents? { assert ApplyFields(t, out.docs, [], input) == Documents(out.docs); }
  }

  /** With one entry only validation decides, once the path fits. */
  lemma OnlyValidation(t: Text, docs: seq<Doc>, f: SpecEntry, v: Value, l: Labels)
    requires Compiles(t, f) && PathFits(docs, f.path)
    ensures Validate(t, f, v) ==> RenderOne(t, docs, f, v, l).Documents?
    ensures !Validate(t, f, v) ==> RenderOne(t, docs, f, v, l) == Failed(Invalid(f.caption))
  {
    var input := map[f.path := v];
    FittingPathIsSet(docs, f.path, v);
    OneApplied(t, docs, f, input, l);
    assert ApplyField(t, docs, f, input) == if Validate(t, f, v) then SetPath(docs, f.path, v) else Failed(Invalid(f.caption));
  }

  /** An integer entry takes the numbers from its minimum to its maximum, where given. A float
      counts as its whole part. */
  lemma IntegerEntry(t: Text, docs: seq<Doc>, f: SpecEntry, n: int, literal: string, l: Labels)
    requires f.kind == TInteger && Compiles(t, f) && PathFits(docs, f.path)
    ensures
      RenderOne(t, docs, f, Leaf(Int(n)), l).Documents? <==>
        (f.min.Some? ==> f.min.value <= n) && (f.max.Some? ==> n <= f.max.value)
    ensures RenderOne(t, docs, f, Leaf(Float(n, literal)), l).Documents? <==> RenderOne(t, docs, f, Leaf(Int(n)), l).Documents?
  {
    OnlyValidation(t, docs, f, Leaf(Int(n)), l);
    OnlyValidation(t, docs, f, Leaf(Float(n, literal)), l);
  }

  /** Anything that is no number is refused there. */
  lemma IntegerEntryRefuses(t: Text, docs: seq<Doc>, f: SpecEntry, v: Value, l: Labels)
    requires f.kind == TInteger && Compiles(t, f) && PathFits(docs, f.path)
    requires !(v.Leaf? && (v.s.Int? || v.s.Float?))
    ensures RenderOne(t, docs, f, v, l) == Failed(Invalid(f.caption))
  {
    OnlyValidation(t, docs, f, v, l);
  }

  /** A string entry, with or without suggestions, takes the strings that match its pattern, if
      it has one. */
  lemma StringEntry(t: Text, docs: seq<Doc>, f: SpecEntry, v: Value, l: Labels)
    requires f.kind in {TString, TAutocomplete} && Compiles(t, f) && PathFits(docs, f.path)
    ensures
      RenderOne(t, docs, f, v, l).Documents? <==>
        exists s :: v == Leaf(Str(s)) && (f.pattern == "" || t.matches(f.pattern, s))
  {
    OnlyValidation(t, docs, f, v, l);
    if v.Leaf? && v.s.Str? { assert v == Leaf(Str(v.s.s)); }
  }

  /** A boolean entry takes the booleans. */
  lemma BooleanEntry(t: Text, docs: seq<Doc>, f: SpecEntry, v: Value, l: Labels)
    requires f.kind == TBoolean && Compiles(t, f) && PathFits(docs, f.path)
    ensures RenderOne(t, docs, f, v, l).Documents? <==> v in {Leaf(Bool(true)), Leaf(Bool(false))}
  {
    OnlyValidation(t, docs, f, v, l);
    assert v.Leaf? && v.s.Bool? ==> v == Leaf(Bool(v.s.b));
  }

  /** An enum entry takes the values whose printed text is listed. */
  lemma EnumEntry(t: Text, docs: seq<Doc>, f: SpecEntry, v: Value, l: Labels)
    requires f.kind == TEnum && Compiles(t, f) && PathFits(docs, f.path)
    ensures RenderOne(t, docs, f, v, l).Documents? <==> exists i :: 0 <= i < |f.values| && f.values[i] == t.sprint(v)
  {
    OnlyValidation(t, docs, f, v, l);
  }

  /** An entry of any other type takes every value. */
  lemma OtherEntry(t: Text, docs: seq<Doc>, f: SpecEntry, v: Value, l: Labels)
    requires f.kind == TOther && Compiles(t, f) && PathFits(docs, f.path)
    ensures RenderOne(t, docs, f, v, l).Documents?
  {
    OnlyValidation(t, docs, f, v, l);
  }

  // --- Missing values ---

  /** Without a value a required entry stops the rendering; otherwise its default counts as
      supplied, and without one the documents are only stamped. */
  lemma MissingEntry(t: Text, docs: seq<Doc>, f: SpecEntry, l: Labels)
    requires Compiles(t, f)
    ensures f.required ==> RenderNone(t, docs, f, l) == Failed(MissingValue(f.caption))
    ensures !f.required && f.default != Null ==> RenderNone(t, docs, f, l) == RenderOne(t, docs, f, f.default, l)
    ensures !f.required && f.default == Null ==>
      RenderNone(t, docs, f, l) == Documents(seq(|docs|, i requires 0 <= i < |docs| => Stamp(docs[i], l)))
  {
    OneApplied(t, docs, f, map[], l);
    if !f.required && f.default != Null {
      OneApplied(t, docs, f, map[f.path := f.default], l);
      assert ApplyField(t, docs, f, map[]) == ApplyField(t, docs, f, map[f.path := f.default]);
    }
  }

  /** Supplied, an entry may be required or not. */
  lemma SuppliedEntry(t: Text, docs: seq<Doc>, f: SpecEntry, v: Value, l: Labels)
    requires Compiles(t, f)
    ensures RenderOne(t, docs, f.(required := true), v, l) == RenderOne(t, docs, f.(required := false), v, l)
    ensures RenderOne(t, docs, f.(default := Null), v, l) == RenderOne(t, docs, f, v, l)
  {
    SuppliedOnly(t, docs, f, f.(required := true), v, l);
    SuppliedOnly(t, docs, f, f.(required := false), v, l);
    SuppliedOnly(t, docs, f, f.(default := Null), v, l);
  }

  lemma SuppliedOnly(t: Text, docs: seq<Doc>, f: SpecEntry, g: SpecEntry, v: Value, l: Labels)
    requires Compiles(t, f) && g == f.(required := g.required, default := g.default)
    ensures RenderOne(t, docs, g, v, l) == RenderOne(t, docs, f, v, l)
  {
    var input := map[f.path := v];
    OneApplied(t, docs, f, input, l);
    OneApplied(t, docs, g, input, l);
    assert ApplyField(t, docs, g, input) == ApplyField(t, docs, f, input);
  }

  // --- The inputs of a rendering ---

  /** The values are an object; null counts as the empty one. */
  lemma ValuesAreAnObject(t: Text, docs: seq<Doc>, spec: seq<SpecEntry>, values: Source<Value>, l: Labels)
    requires forall f :: f in spec ==> Compiles(t, f)
    ensures RenderDocs(t, Parsed(docs), Parsed(spec), Parsed(Null), l) == RenderDocs(t, Parsed(docs), Parsed(spec), Parsed(Map(map[])), l)
    ensures values == Malformed || !(values.content.Map? || values.content.Null?) ==>
      RenderDocs(t, Parsed(docs), Parsed(spec), values, l) == Failed(BadValues)
  {
  }

  /** Texts that do not parse, and entries whose pattern does not compile, stop it at once. */
  lemma TextsParse(t: Text, resources: Source<seq<Doc>>, spec: Source<seq<SpecEntry>>, values: Source<Value>, l: Labels)
    ensures resources == Malformed ==> RenderDocs(t, resources, spec, values, l) == Failed(BadResources)
    ensures resources.Parsed? && (spec == Malformed || exists f :: f in spec.content && !Compiles(t, f)) ==>
      RenderDocs(t, resources, spec, values, l) == Failed(BadSpec)
    ensures ValidateSpec(t, resources, spec) <==> resources.Parsed? && spec.Parsed? && forall f :: f in spec.content ==> Compiles(t, f)
  {
  }

  /** However many entries there are, in a rendering every supplied value is one its entry takes. */
  lemma RenderedValuesFit(t: Text, docs: seq<Doc>, spec: seq<SpecEntry>, input: map<string, Value>, l: Labels, f: SpecEntry)
    requires RenderDocs(t, Parsed(docs), Parsed(spec), Parsed(Map(input)), l).Documents? && f in spec
    ensures f.required ==> f.path in input
    ensures f.path in input ==>
      var v := input[f.path];
      && (f.kind == TInteger ==>
            exists n :: (v == Leaf(Int(n)) || (v.Leaf? && v.s.Float? && v.s.whole == n))
              && (f.min.Some? ==> f.min.value <= n) && (f.max.Some? ==> n <= f.max.value))
      && (f.kind in {TString, TAutocomplete} ==> v.Leaf? && v.s.Str? && (f.pattern == "" || t.matches(f.pattern, v.s.s)))
      && (f.kind == TBoolean ==> v.Leaf? && v.s.Bool?)
      && (f.kind == TEnum ==> t.sprint(v) in f.values)
  {
    RenderedIsAccepted(t, docs, spec, input);
    assert Accepts(t, f, input);
    if f.path in input && f.kind == TInteger {
      var v := input[f.path];
      var n := if v.s.Int? then v.s.i else v.s.whole;
      assert v == Leaf(Int(n)) || (v.Leaf? && v.s.Float? && v.s.whole == n);
    }
  }
}
