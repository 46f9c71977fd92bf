/** Rendering: user values and defaults written into the documents of a template version. */
module Render {
  import opened Values
  import opened UiSpec
  import opened Targets
  import opened Stamps
  import opened StrictWriter
  import opened DocHeap

  datatype RenderError =
    | BadResources | BadSpec | BadValues
    | MissingValue(caption: string) | Invalid(caption: string)
    | BadPath | NoDocument | BadWrite(e: PathError)

  datatype Rendered = Failed(e: RenderError) | Documents(docs: seq<Doc>)

  /** Both halves of a template version parse; each is judged on its own. */
  predicate ValidateSpec(t: Text, resources: Source<seq<Doc>>, spec: Source<seq<SpecEntry>>) {
    resources.Parsed? && SpecParses(t, spec)
  }

  /** A validated half stays valid next to any other validated half. */
  lemma HalvesAreIndependent(t: Text, r1: Source<seq<Doc>>, s1: Source<seq<SpecEntry>>,
                             r2: Source<seq<Doc>>, s2: Source<seq<SpecEntry>>)
    requires ValidateSpec(t, r1, s1) && ValidateSpec(t, r2, s2)
    ensures ValidateSpec(t, r1, s2)
  {
  }

  /** The value one field gets, if any. */
  function ChosenFor(f: SpecEntry, input: map<string, Value>): Option<Value> {
    if f.path in input then Some(input[f.path])
    else if f.default == Null then None
    else Some(f.default)
  }

  /** Whether a field is content with the input. */
  predicate Accepts(t: Text, f: SpecEntry, input: map<string, Value>) {
    && (f.required ==> f.path in input)
    && (ChosenFor(f, input).Some? ==> Validate(t, f, ChosenFor(f, input).value))
  }

  function SetPath(docs: seq<Doc>, path: string, v: Value): (r: Rendered)
    ensures r.Documents? ==> |r.docs| == |docs|
  {
    match ParseHead(path)
    case None => Failed(BadPath)
    case Some(head) => (
      match FindDoc(docs, head.kind, head.selector)
      case None => Failed(NoDocument)
      case Some(i) => (
        match SetText(Map(docs[i]), head.rest, v)
        case Err(e) => Failed(BadWrite(e))
        case Ok(d) => Documents(docs[i := d.m])
      )
    )
  }

  function ApplyField(t: Text, docs: seq<Doc>, f: SpecEntry, input: map<string, Value>): (r: Rendered)
    ensures r.Documents? ==> |r.docs| == |docs| && Accepts(t, f, input)
  {
    if f.path !in input && f.required then Failed(MissingValue(f.caption))
    else match ChosenFor(f, input)
      case None => Documents(docs)
      case Some(v) => if !Validate(t, f, v) then Failed(Invalid(f.caption)) else SetPath(docs, f.path, v)
  }

  function ApplyFields(t: Text, docs: seq<Doc>, fields: seq<SpecEntry>, input: map<string, Value>): (r: Rendered)
    ensures r.Documents? ==> |r.docs| == |docs|
    decreases |fields|
  {
    if fields == [] then Documents(docs)
    else match ApplyField(t, docs, fields[0], input)
      case Failed(e) => Failed(e)
      case Documents(ds) => ApplyFields(t, ds, fields[1..], input)
  }

  function StampAll(docs: seq<Doc>, l: Labels): seq<Doc> {
    seq(|docs|, i requires 0 <= i < |docs| => Stamp(docs[i], l))
  }

  /** JSON values as a table: an object, or null for the empty table. */
  function InputOf(values: Source<Value>): Option<map<string, Value>> {
    match values
    case Parsed(Map(m)) => Some(m)
    case Parsed(Null) => Some(map[])
    case _ => None
  }

  function RenderDocs(t: Text, resources: Source<seq<Doc>>, spec: Source<seq<SpecEntry>>, values: Source<Value>, l: Labels): Rendered {
    if resources.Malformed? then Failed(BadResources)
    else if !SpecParses(t, spec) then Failed(BadSpec)
    else if InputOf(values).None? then Failed(BadValues)
    else match ApplyFields(t, resources.content, spec.content, InputOf(values).value)
      case Failed(e) => Failed(e)
      case Documents(ds) => Documents(StampAll(ds, l))
  }

  /** Every field of a successful rendering was content with the input. */
  lemma {:induction false} RenderedIsAccepted(t: Text, docs: seq<Doc>, fields: seq<SpecEntry>, input: map<string, Value>)
    requires ApplyFields(t, docs, fields, input).Documents?
    ensures forall f :: f in fields ==> Accepts(t, f, input)
    decreases |fields|
  {
    if fields != [] {
      RenderedIsAccepted(t, ApplyField(t, docs, fields[0], input).docs, fields[1..], input);
      assert fields == [fields[0]] + fields[1..];
    }
  }

  // --- In place ---

  /** The array `a` holds the documents `docs`, each a map of its own. */
  ghost predicate Holding(a: array<Ref>, s: Shape, docs: seq<Doc>)
    reads Foot(s)
  {
    && s.SArr? && s.a == a && Stored(s) && |s.elems| == |docs|
    && forall i :: 0 <= i < |docs| ==> s.elems[i].SMap? && EntriesOf(s.elems[i].kids) == docs[i]
  }

  lemma DocumentAt(a: array<Ref>, s: Shape, docs: seq<Doc>, i: nat)
    requires Holding(a, s, docs) && i < |docs|
    ensures a.Length == |docs| && a[i] == MapRef(s.elems[i].o) && MapAt(s.elems[i].o, s.elems[i]) && s.elems[i].foot <= s.foot
    ensures ValueOf(s.elems[i]) == Map(docs[i])
  {
    MapValue(s.elems[i]);
  }

  /** Whether the map at `o` has this text under `key`. */
  method ReadsText(o: MapObj, key: string, text: string, ghost s: Shape) returns (yes: bool)
    requires MapAt(o, s)
    ensures yes <==> HasText(EntriesOf(s.kids), key, text)
  {
    yes := key in o.m && o.m[key] == ScalarRef(Str(text));
    if key in o.m { assert o.m[key] == RefOf(s.kids[key]) && EntriesOf(s.kids)[key] == ValueOf(s.kids[key]); }
  }

  method ReadsName(o: MapObj, name: string, ghost s: Shape) returns (yes: bool)
    requires MapAt(o, s)
    ensures yes <==> IsNamed(EntriesOf(s.kids), name)
  {
    var meta;
    ghost var kid, rest;
    meta, kid, rest := FindMap(o, "metadata", s);
    if meta.None? { return false; }
    yes := ReadsText(meta.value, "name", name, kid);
  }

  /** The documents of the kind are collected; then the only one, the position or the name decides. */
  method FindDocument(a: array<Ref>, kind: string, selector: string, ghost s: Shape, ghost docs: seq<Doc>) returns (r: Option<nat>)
    requires Holding(a, s, docs)
    ensures r == FindDoc(docs, kind, selector)
  {
    var matches: seq<nat> := [];
    for i := 0 to a.Length
      invariant matches == OfKind(docs[..i], kind)
    {
      DocumentAt(a, s, docs, i);
      OfKindOneMore(docs, kind, i);
      var same := ReadsText(a[i].o, "kind", kind, s.elems[i]);
      if same { matches := matches + [i]; }
    }
    assert docs[..|docs|] == docs;
    if selector == "" && |matches| == 1 { return Some(matches[0]); }
    var idx := Atoi(selector);
    if idx.Some? && 0 <= idx.value < |matches| { return Some(matches[idx.value]); }
    r := FindNamed(a, matches, selector, s, docs);
  }

  method FindNamed(a: array<Ref>, matches: seq<nat>, name: string, ghost s: Shape, ghost docs: seq<Doc>) returns (r: Option<nat>)
    requires Holding(a, s, docs) && forall j :: 0 <= j < |matches| ==> matches[j] < |docs|
    ensures r == FirstNamed(docs, matches, name)
  {
    assert matches[0..] == matches;
    for j := 0 to |matches|
      invariant FirstNamed(docs, matches, name) == FirstNamed(docs, matches[j..], name)
    {
      var i := matches[j];
      DocumentAt(a, s, docs, i);
      var named := ReadsName(a[i].o, name, s.elems[i]);
      if named { return Some(i); }
      assert matches[j..][1..] == matches[j + 1..];
    }
    r := None;
  }

  /** The documents with one of them replaced in place. */
  lemma Replaced(a: array<Ref>, s: Shape, docs: seq<Doc>, i: nat, rest: set<object>, kid: Shape, d: Doc) returns (after: Shape)
    requires s.SArr? && |s.elems| == |docs| && i < |docs| && forall j :: 0 <= j < |docs| ==> s.elems[j].SMap? && EntriesOf(s.elems[j].kids) == docs[j]
    requires StoredButSlot(a, s.elems[i := SNull], rest, i) && a[i] == RefOf(kid) && Stored(kid) && Foot(kid) !! rest
    requires kid.SMap? && EntriesOf(kid.kids) == d
    ensures Holding(a, after, docs[i := d]) && after.foot == rest + Foot(kid)
  {
    FillSlot(a, s.elems, rest, i, kid);
    after := SArr(a, s.elems[i := kid], rest + Foot(kid));
  }

  /** Writing one path into the document it names. */
  method SetJSONPath(a: array<Ref>, path: string, v: Value, ghost s: Shape, ghost docs: seq<Doc>)
    returns (e: Option<RenderError>, ghost after: Shape, ghost written: seq<Doc>)
    requires Holding(a, s, docs)
    modifies s.foot
    ensures SetPath(docs, path, v) == if e.Some? then Failed(e.value) else Documents(written)
    ensures e.None? ==> Holding(a, after, written) && fresh(after.foot - s.foot)
  {
    after, written := s, docs;
    var head := ParseHead(path);
    if head.None? { return Some(BadPath), after, written; }
    var target := FindDocument(a, head.value.kind, head.value.selector, s, docs);
    if target.None? { return Some(NoDocument), after, written; }
    var i := target.value;
    DocumentAt(a, s, docs, i);
    e, after, written := WriteDocument(a, i, head.value.rest, v, s, docs);
  }

  method WriteDocument(a: array<Ref>, i: nat, rest: string, v: Value, ghost s: Shape, ghost docs: seq<Doc>)
    returns (e: Option<RenderError>, ghost after: Shape, ghost written: seq<Doc>)
    requires Holding(a, s, docs) && i < a.Length
    modifies s.foot
    ensures
      var out := SetText(Map(docs[i]), rest, v);
      if out.Err? then e == Some(BadWrite(out.e)) else e == None && written == docs[i := out.v.m]
    ensures e.None? ==> Holding(a, after, written) && fresh(after.foot - s.foot)
  {
    after, written := s, docs;
    DocumentAt(a, s, docs, i);
    OpenSlot(a, s.elems, s.foot, i);
    ghost var others := s.foot - s.elems[i].foot;
    var x;
    ghost var val;
    x, val := Decode(v, s.foot);
    var out;
    ghost var kid;
    out, kid := SetIntoDocument(a[i].o, rest, x, s.elems[i], val);
    if out.Err? { return Some(BadWrite(out.e)), after, written; }
    MapValue(kid);
    e, written := None, docs[i := EntriesOf(kid.kids)];
    after := Replaced(a, s, docs, i, others, kid, EntriesOf(kid.kids));
  }

  /** Stamping one of the documents. */
  method StampDocument(a: array<Ref>, i: nat, l: Labels, ghost s: Shape, ghost docs: seq<Doc>) returns (ghost after: Shape)
    requires Holding(a, s, docs) && i < a.Length
    modifies s.foot
    ensures Holding(a, after, docs[i := Stamp(docs[i], l)]) && fresh(after.foot - s.foot)
  {
    DocumentAt(a, s, docs, i);
    OpenSlot(a, s.elems, s.foot, i);
    ghost var others := s.foot - s.elems[i].foot;
    ghost var kid := StampLabels(a[i].o, l, s.elems[i], s.foot);
    after := Replaced(a, s, docs, i, others, kid, Stamp(docs[i], l));
  }

  /** The value a field gets, or why there is none to write. */
  method Choose(t: Text, f: SpecEntry, input: map<string, Value>) returns (e: Option<RenderError>, raw: Option<Value>)
    ensures e.Some? ==> forall docs :: ApplyField(t, docs, f, input) == Failed(e.value)
    ensures e.None? && raw.None? ==> forall docs :: ApplyField(t, docs, f, input) == Documents(docs)
    ensures e.None? && raw.Some? ==> forall docs :: ApplyField(t, docs, f, input) == SetPath(docs, f.path, raw.value)
  {
    e, raw := None, None;
    var v := f.default;
    if f.path in input {
      v := input[f.path];
    } else {
      if f.required { return Some(MissingValue(f.caption)), None; }
      if v == Null { return; }
    }
    if !Validate(t, f, v) { return Some(Invalid(f.caption)), None; }
    raw := Some(v);
    assert ChosenFor(f, input) == raw;
  }

  /** The loop over the fields. */
  method RunFields(t: Text, a: array<Ref>, fields: seq<SpecEntry>, input: map<string, Value>, ghost s: Shape, ghost docs: seq<Doc>)
    returns (e: Option<RenderError>, ghost after: Shape, ghost written: seq<Doc>)
    requires Holding(a, s, docs)
    modifies s.foot
    ensures ApplyFields(t, docs, fields, input) == if e.Some? then Failed(e.value) else Documents(written)
    ensures e.None? ==> Holding(a, after, written) && fresh(after.foot - s.foot)
  {
    e, after, written := None, s, docs;
    assert fields[0..] == fields;
    for j := 0 to |fields|
      invariant e == None && Holding(a, after, written) && fresh(after.foot - s.foot)
      invariant ApplyFields(t, docs, fields, input) == ApplyFields(t, written, fields[j..], input)
    {
      assert fields[j..][0] == fields[j] && fields[j..][1..] == fields[j + 1..];
      var failed, raw := Choose(t, fields[j], input);
      if failed.Some? { return failed, after, written; }
      if raw.Some? {
        e, after, written := SetJSONPath(a, fields[j].path, raw.value, after, written);
        if e.Some? { return; }
      }
    }
  }

  /** The loop over the documents. */
  method RunStamps(a: array<Ref>, l: Labels, ghost s: Shape, ghost docs: seq<Doc>) returns (ghost after: Shape)
    requires Holding(a, s, docs)
    modifies s.foot
    ensures Holding(a, after, StampAll(docs, l)) && fresh(after.foot - s.foot)
  {
    after := s;
    ghost var now := docs;
    for i := 0 to a.Length
      invariant Holding(a, after, now) && fresh(after.foot - s.foot) && |now| == |docs|
      invariant forall k :: 0 <= k < |docs| ==> now[k] == if k < i then Stamp(docs[k], l) else docs[k]
    {
      after := StampDocument(a, i, l, after, now);
      now := now[i := Stamp(now[i], l)];
    }
    assert now == StampAll(docs, l);
  }

  /** The renderer: the documents are decoded, changed in place field by field, stamped in
      place, and written out. */
  method Run(t: Text, resources: Source<seq<Doc>>, spec: Source<seq<SpecEntry>>, values: Source<Value>, l: Labels)
    returns (r: Rendered)
    ensures r == RenderDocs(t, resources, spec, values, l)
  {
    if resources.Malformed? { return Failed(BadResources); }
    if !SpecParses(t, spec) { return Failed(BadSpec); }
    var input := InputOf(values);
    if input.None? { return Failed(BadValues); }
    var docs := resources.content;
    var a;
    ghost var s;
    a, s := DecodeAll(docs);
    var e;
    ghost var written;
    e, s, written := RunFields(t, a, spec.content, input.value, s, docs);
    if e.Some? { return Failed(e.value); }
    s := RunStamps(a, l, s, written);
    var out := EncodeAll(a, s, StampAll(written, l));
    r := Documents(out);
  }

  method DecodeAll(docs: seq<Doc>) returns (a: array<Ref>, ghost s: Shape)
    ensures Holding(a, s, docs) && fresh(s.foot)
  {
    var values := seq(|docs|, i requires 0 <= i < |docs| => Map(docs[i]));
    var root;
    root, s := Decode(Arr(values), {});
    a := root.a;
    assert ValueOf(s).a == values;
    forall i | 0 <= i < |docs| ensures s.elems[i].SMap? && EntriesOf(s.elems[i].kids) == docs[i] {
      assert ValueOf(s.elems[i]) == values[i];
      if s.elems[i].SMap? { MapValue(s.elems[i]); }
    }
  }

  method EncodeAll(a: array<Ref>, ghost s: Shape, ghost docs: seq<Doc>) returns (out: seq<Doc>)
    requires Holding(a, s, docs)
    ensures out == docs
  {
    out := [];
    for i := 0 to a.Length
      invariant |out| == i && forall j :: 0 <= j < i ==> out[j] == docs[j]
    {
      DocumentAt(a, s, docs, i);
      var v := Encode(a[i], s.elems[i]);
      out := out + [v.m];
    }
  }
}
