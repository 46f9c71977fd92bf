/** Serialise, then render: writing the users' values into the serialised documents is the
    same as serialising an editor state that fixes those values in the first place. */
module RenderLaws {
  import opened Values
  import opened PathGrammar
  import opened PathWriters
  import opened UiSpec
  import opened Targets
  import opened Stamps
  import opened StrictWriter
  import opened Confluence
  import opened UiMode
  import opened UiState
  import opened Render

  // --- Which editor states the law is about ---

  function EntryFor(r: UIResource, s: string): SpecEntry
    requires s in r.fields && HasSpec(r.fields[s]) && r.fields[s].Exposed?
  {
    r.fields[s].spec.value.(path := EntryPath(r, s))
  }

  predicate HasSpec(f: UIField) {
    f.Exposed? ==> f.spec.Some?
  }

  ghost predicate AllSpecced(r: UIResource) {
    forall s :: s in r.fields ==> HasSpec(r.fields[s])
  }

  /** No two fields meet. A text that is no path names no place. */
  ghost predicate ApartFields(r: UIResource) {
    forall s, u :: s in r.fields && u in r.fields && s != u && Tokens(s).Ok? && Tokens(u).Ok? ==> Apart(PathOf(s), PathOf(u))
  }

  /** No two fields of a resource meet, none touches its kind or name, and kind and name can be
      written into a path head. Exposed fields need no default. */
  ghost predicate Renderable(r: UIResource) {
    && IsKind(r.kind) && r.name != "" && ']' !in r.name
    && ApartFields(r) && AllSpecced(r)
    && forall s :: s in r.fields && Tokens(s).Ok? ==>
         Apart(PathOf(s), [Key("kind")]) && Apart(PathOf(s), [Key("metadata"), Key("name")])
  }

  /** The positions of a kind among the resources. */
  function KindPositions(rs: seq<UIResource>, kind: string): seq<nat> {
    if rs == [] then []
    else
      var n := |rs| - 1;
      KindPositions(rs[..n], kind) + if rs[n].kind == kind then [n] else []
  }

  /** Kind and name tell the resources apart, and no name reads as another one's position. */
  ghost predicate AllRenderable(rs: seq<UIResource>) {
    && (forall i :: 0 <= i < |rs| ==> Renderable(rs[i]) && NameMeans(KindPositions(rs, rs[i].kind), rs[i].name, i))
    && (forall i, j :: 0 <= i < j < |rs| ==> !(rs[i].kind == rs[j].kind && rs[i].name == rs[j].name))
  }

  /** What a field writes while serialising, if anything. */
  function Written(f: UIField): Option<Value> {
    match f
    case Fixed(v) => Some(v)
    case Exposed(Some(spec)) => if spec.default == Null then None else Some(spec.default)
    case _ => None
  }

  /** The value a field shows in the rendered document, if any. */
  function ShownValue(r: UIResource, s: string, input: map<string, Value>): Option<Value>
    requires s in r.fields && HasSpec(r.fields[s])
  {
    if r.fields[s].Exposed? then ChosenFor(EntryFor(r, s), input) else Written(r.fields[s])
  }

  /** Exposed without a default, and supplied: serialising leaves no trace of the field, so the
      renderer has to find room for it. */
  predicate Late(r: UIResource, s: string, input: map<string, Value>)
    requires s in r.fields && HasSpec(r.fields[s])
  {
    r.fields[s].Exposed? && Written(r.fields[s]).None? && EntryPath(r, s) in input
  }

  /** The state with every exposed field that has a default fixed at the value the input gives it. */
  function Chosen(r: UIResource, input: map<string, Value>): (c: UIResource)
    requires forall s :: s in r.fields ==> HasSpec(r.fields[s])
    ensures c.fields.Keys == r.fields.Keys && c.kind == r.kind && c.name == r.name
  {
    r.(fields := map s | s in r.fields ::
      if r.fields[s].Exposed? && Written(r.fields[s]).Some? then Fixed(ShownValue(r, s, input).value) else r.fields[s])
  }

  // --- Room for a field ---

  /** The text is a path, and the path fits. */
  predicate FitsText(doc: Value, s: string) {
    Tokens(s).Ok? && Fits(doc, PathOf(s))
  }

  lemma TextSets(doc: Value, s: string, v: Value)
    ensures SetText(doc, s, v).Ok? <==> FitsText(doc, s)
    ensures SetText(doc, s, v).Ok? ==> SetText(doc, s, v) == SetInto(doc, PathOf(s), v)
  {
    SetTextIsSetInto(doc, s, v);
    SetsWhereItFits(doc, PathOf(s), v);
  }

  /** Every late field of `order` has room in `doc`. */
  ghost predicate LateFit(doc: Value, r: UIResource, order: seq<string>, input: map<string, Value>)
    requires forall s :: s in order ==> s in r.fields && HasSpec(r.fields[s])
  {
    forall s :: s in order && Late(r, s, input) ==> FitsText(doc, s)
  }

  /** A strict write leaves the room of apart texts as it is. */
  lemma TextFitsStays(doc: Value, s: string, v: Value, u: string)
    requires SetText(doc, s, v).Ok? && (Tokens(u).Ok? ==> Apart(PathOf(u), PathOf(s)))
    ensures FitsText(SetText(doc, s, v).v, u) <==> FitsText(doc, u)
  {
    TextSets(doc, s, v);
    if Tokens(u).Ok? { FitsStays(doc, PathOf(s), v, PathOf(u)); }
  }

  // --- Setting the fields of one resource ---

  datatype Which = Every | Defaulted | LateOnly

  predicate Picks(r: UIResource, s: string, input: map<string, Value>, w: Which)
    requires s in r.fields && HasSpec(r.fields[s])
  {
    r.fields[s].Exposed? && ShownValue(r, s, input).Some? &&
      match w
      case Every => true
      case Defaulted => Written(r.fields[s]).Some?
      case LateOnly => Written(r.fields[s]).None?
  }

  /** The shown values of the exposed fields written one after the other into a document. */
  function SetFields(doc: Value, r: UIResource, order: seq<string>, input: map<string, Value>, w: Which): Result<Value>
    requires forall s :: s in order ==> s in r.fields && HasSpec(r.fields[s])
    decreases |order|
  {
    if order == [] then Ok(doc)
    else
      var s, rest := order[0], order[1..];
      assert s in order;
      if !Picks(r, s, input, w) then SetFields(doc, r, rest, input, w)
      else match SetText(doc, s, ShownValue(r, s, input).value)
        case Err(e) => Err(e)
        case Ok(d) => SetFields(d, r, rest, input, w)
  }

  /** The fields in order, no text twice. */
  ghost predicate Ordered(r: UIResource, order: seq<string>) {
    && NoDuplicates(order) && ApartFields(r)
    && forall s :: s in order ==> s in r.fields && HasSpec(r.fields[s])
  }

  lemma OrderedTail(r: UIResource, order: seq<string>)
    requires Ordered(r, order) && order != []
    ensures order[0] in order && Ordered(r, order[1..])
    ensures forall u :: u in order <==> u == order[0] || u in order[1..]
    ensures forall u :: u in order[1..] ==> u != order[0]
    ensures forall u :: u in order[1..] && Tokens(u).Ok? && Tokens(order[0]).Ok? ==>
              Apart(PathOf(u), PathOf(order[0])) && Apart(PathOf(order[0]), PathOf(u))
  {
  }

  /** Late fields can be set exactly when they all have room before any of them is. */
  lemma {:induction false} LateSetIffFit(doc: Value, r: UIResource, order: seq<string>, input: map<string, Value>)
    requires Ordered(r, order)
    ensures SetFields(doc, r, order, input, LateOnly).Ok? <==> LateFit(doc, r, order, input)
    decreases |order|
  {
    if order != [] {
      OrderedTail(r, order);
      var s, rest := order[0], order[1..];
      if !Picks(r, s, input, LateOnly) {
        LateSetIffFit(doc, r, rest, input);
      } else {
        var v := ShownValue(r, s, input).value;
        TextSets(doc, s, v);
        if FitsText(doc, s) {
          var d := SetText(doc, s, v).v;
          LateSetIffFit(d, r, rest, input);
          forall u | u in rest ensures FitsText(d, u) <==> FitsText(doc, u) { TextFitsStays(doc, s, v, u); }
        }
      }
    }
  }

  /** The places of fields with a default exist in the document. */
  ghost predicate Holds(doc: Value, r: UIResource, order: seq<string>)
    requires forall s :: s in order ==> s in r.fields
  {
    forall s :: s in order && r.fields[s].Exposed? && Written(r.fields[s]).Some? ==> Tokens(s).Ok? && Get(doc, PathOf(s)).Some?
  }

  lemma HoldsStays(doc: Value, r: UIResource, order: seq<string>, v: Value)
    requires Ordered(r, order) && order != [] && Holds(doc, r, order) && SetText(doc, order[0], v).Ok?
    ensures Holds(SetText(doc, order[0], v).v, r, order[1..])
  {
    OrderedTail(r, order);
    TextSets(doc, order[0], v);
    forall u | u in order[1..] && r.fields[u].Exposed? && Written(r.fields[u]).Some?
      ensures Get(SetText(doc, order[0], v).v, PathOf(u)).Some?
    {
      StrictFrame(doc, PathOf(order[0]), v, PathOf(u));
    }
  }

  lemma DefaultedCanBeSet(doc: Value, s: string, v: Value)
    requires Tokens(s).Ok? && Get(doc, PathOf(s)).Some?
    ensures SetText(doc, s, v).Ok?
  {
    ExistingCanBeSet(doc, PathOf(s), v);
    SetTextIsSetInto(doc, s, v);
  }

  /** A write at an apart text may come before or after all the fields with a default. */
  lemma {:induction false} SetBeforeDefaults(doc: Value, r: UIResource, order: seq<string>, input: map<string, Value>, s: string, v: Value)
    requires Ordered(r, order) && Holds(doc, r, order) && SetText(doc, s, v).Ok?
    requires forall u :: u in order && Tokens(u).Ok? ==> Apart(PathOf(s), PathOf(u)) && Apart(PathOf(u), PathOf(s))
    ensures SetFields(doc, r, order, input, Defaulted).Ok?
    ensures SetText(SetFields(doc, r, order, input, Defaulted).v, s, v).Ok?
    ensures SetFields(SetText(doc, s, v).v, r, order, input, Defaulted) == SetText(SetFields(doc, r, order, input, Defaulted).v, s, v)
    decreases |order|
  {
    if order != [] {
      OrderedTail(r, order);
      var u, rest := order[0], order[1..];
      if !Picks(r, u, input, Defaulted) {
        SetBeforeDefaults(doc, r, rest, input, s, v);
      } else {
        var w := ShownValue(r, u, input).value;
        DefaultedCanBeSet(doc, u, w);
        TextsExchange(doc, s, v, u, w);
        HoldsStays(doc, r, order, w);
        SetBeforeDefaults(SetText(doc, u, w).v, r, rest, input, s, v);
      }
    }
  }

  lemma TextsExchange(doc: Value, s: string, v: Value, u: string, w: Value)
    requires SetText(doc, s, v).Ok? && SetText(doc, u, w).Ok? && Apart(PathOf(s), PathOf(u))
    ensures SetText(SetText(doc, s, v).v, u, w).Ok?
    ensures SetText(SetText(doc, s, v).v, u, w) == SetText(SetText(doc, u, w).v, s, v)
  {
    TextSets(doc, s, v);
    TextSets(doc, u, w);
    StrictWritesExchange(doc, PathOf(s), v, PathOf(u), w);
    SetTextIsSetInto(SetText(doc, s, v).v, u, w);
    SetTextIsSetInto(SetText(doc, u, w).v, s, v);
  }

  /** Setting the fields with a default leaves the room of an apart text as it is. */
  lemma {:induction false} FitsBesideDefaults(doc: Value, r: UIResource, order: seq<string>, input: map<string, Value>, s: string)
    requires Ordered(r, order) && Holds(doc, r, order)
    requires forall u :: u in order && Tokens(s).Ok? && Tokens(u).Ok? && r.fields[u].Exposed? && Written(r.fields[u]).Some? ==> Apart(PathOf(s), PathOf(u))
    ensures SetFields(doc, r, order, input, Defaulted).Ok?
    ensures FitsText(SetFields(doc, r, order, input, Defaulted).v, s) <==> FitsText(doc, s)
    decreases |order|
  {
    if order != [] {
      OrderedTail(r, order);
      var u, rest := order[0], order[1..];
      if !Picks(r, u, input, Defaulted) {
        FitsBesideDefaults(doc, r, rest, input, s);
      } else {
        var w := ShownValue(r, u, input).value;
        DefaultedCanBeSet(doc, u, w);
        HoldsStays(doc, r, order, w);
        TextFitsStays(doc, u, w, s);
        FitsBesideDefaults(SetText(doc, u, w).v, r, rest, input, s);
      }
    }
  }

  /** The defaults overwritten first, then the late fields. */
  function InTwo(doc: Value, r: UIResource, order: seq<string>, input: map<string, Value>): Result<Value>
    requires forall s :: s in order ==> s in r.fields && HasSpec(r.fields[s])
  {
    match SetFields(doc, r, order, input, Defaulted)
    case Err(e) => Err(e)
    case Ok(d) => SetFields(d, r, order, input, LateOnly)
  }

  /** In the order of the entries or in two passes, the outcome is the same. */
  lemma {:induction false} LateMayComeLast(doc: Value, r: UIResource, order: seq<string>, input: map<string, Value>)
    requires Ordered(r, order) && Holds(doc, r, order)
    ensures SameOutcome(SetFields(doc, r, order, input, Every), InTwo(doc, r, order, input))
    decreases |order|
  {
    if order != [] {
      OrderedTail(r, order);
      var s, rest := order[0], order[1..];
      if !Picks(r, s, input, Every) {
        LateMayComeLast(doc, r, rest, input);
      } else {
        var v := ShownValue(r, s, input).value;
        if Written(r.fields[s]).Some? {
          DefaultedCanBeSet(doc, s, v);
          HoldsStays(doc, r, order, v);
          LateMayComeLast(SetText(doc, s, v).v, r, rest, input);
        } else {
          LateFirst(doc, r, order, input);
        }
      }
    }
  }

  /** The step of `LateMayComeLast` for a late field. */
  lemma {:induction false} LateFirst(doc: Value, r: UIResource, order: seq<string>, input: map<string, Value>)
    requires Ordered(r, order) && Holds(doc, r, order) && order != []
    requires Picks(r, order[0], input, LateOnly)
    ensures SameOutcome(SetFields(doc, r, order, input, Every), InTwo(doc, r, order, input))
    decreases |order|, 0
  {
    OrderedTail(r, order);
    var s, rest := order[0], order[1..];
    var v := ShownValue(r, s, input).value;
    FitsBesideDefaults(doc, r, rest, input, s);
    var d := SetFields(doc, r, rest, input, Defaulted).v;
    assert SetFields(doc, r, order, input, Defaulted) == Ok(d);
    TextSets(doc, s, v);
    TextSets(d, s, v);
    if FitsText(doc, s) {
      HoldsStays(doc, r, order, v);
      SetBeforeDefaults(doc, r, rest, input, s, v);
      LateMayComeLast(SetText(doc, s, v).v, r, rest, input);
    }
  }

  // --- Serialising and setting ---

  lemma WriteIsPut(r: UIResource, s: string, doc: Value, entries: seq<SpecEntry>)
    requires s in r.fields && HasSpec(r.fields[s])
    ensures
      var f, out := r.fields[s], WriteField(r, s, doc, entries);
      && (out.Document? <==> !f.UnknownMode? && (Written(f).Some? ==> Tokens(s).Ok? && Put(doc, PathOf(s), Written(f).value).Ok?))
      && (out.Document? ==> out.doc == if Written(f).Some? then Put(doc, PathOf(s), Written(f).value).v else doc)
  {
  }

  /** An existing place may be overwritten before or after all the fields of `order`. */
  lemma {:induction false} SetBeforeFields(r: UIResource, order: seq<string>, doc: Value, entries: seq<SpecEntry>, p: Path, v: Value)
    requires forall s :: s in order ==> s in r.fields && HasSpec(r.fields[s])
    requires (forall s :: s in order && Tokens(s).Ok? ==> Apart(p, PathOf(s))) && Get(doc, p).Some?
    requires WriteFields(r, order, doc, entries).Document?
    ensures SetInto(doc, p, v).Ok? && WriteFields(r, order, SetInto(doc, p, v).v, entries).Document?
    ensures SetInto(WriteFields(r, order, doc, entries).doc, p, v) == Ok(WriteFields(r, order, SetInto(doc, p, v).v, entries).doc)
    decreases |order|
  {
    ExistingCanBeSet(doc, p, v);
    if order != [] {
      var s := order[0];
      var first := WriteField(r, s, doc, entries);
      WriteIsPut(r, s, doc, entries);
      WriteIsPut(r, s, SetInto(doc, p, v).v, entries);
      if Written(r.fields[s]).Some? {
        var w := Written(r.fields[s]).value;
        SetExchangesWithPut(doc, p, v, PathOf(s), w);
        PutFrame(doc, PathOf(s), w, p);
      }
      SetBeforeFields(r, order[1..], first.doc, first.entries, p, v);
    }
  }

  /** Serialising and then setting the chosen values of the fields with a default is
      serialising the chosen values. */
  lemma {:induction false} SettingIsSubstituting(r: UIResource, order: seq<string>, doc: Value, entries: seq<SpecEntry>,
                                                 other: seq<SpecEntry>, input: map<string, Value>)
    requires Ordered(r, order) && AllSpecced(r)
    requires WriteFields(r, order, doc, entries).Document?
    ensures WriteFields(Chosen(r, input), order, doc, other).Document?
    ensures SetFields(WriteFields(r, order, doc, entries).doc, r, order, input, Defaulted)
         == Ok(WriteFields(Chosen(r, input), order, doc, other).doc)
    decreases |order|
  {
    if order != [] {
      OrderedTail(r, order);
      var s, rest, c := order[0], order[1..], Chosen(r, input);
      var first, chosen := WriteField(r, s, doc, entries), WriteField(c, s, doc, other);
      WriteIsPut(r, s, doc, entries);
      WriteIsPut(c, s, doc, other);
      if Picks(r, s, input, Defaulted) {
        DefaultOverwritten(r, order, doc, entries, input);
        SettingIsSubstituting(r, rest, Put(doc, PathOf(s), ShownValue(r, s, input).value).v, first.entries, chosen.entries, input);
      } else {
        assert c.fields[s] == r.fields[s];
        SettingIsSubstituting(r, rest, first.doc, first.entries, chosen.entries, input);
      }
    }
  }

  /** The step of `SettingIsSubstituting` for a field with a default: overwriting it at the end
      is writing the new value in the first place. */
  lemma DefaultOverwritten(r: UIResource, order: seq<string>, doc: Value, entries: seq<SpecEntry>, input: map<string, Value>)
    requires Ordered(r, order) && order != [] && WriteFields(r, order, doc, entries).Document?
    requires order[0] in r.fields && HasSpec(r.fields[order[0]]) && Picks(r, order[0], input, Defaulted)
    ensures
      var s := order[0];
      var v, first := ShownValue(r, s, input).value, WriteField(r, s, doc, entries);
      && Tokens(s).Ok? && Put(doc, PathOf(s), v).Ok? && first.Document?
      && WriteFields(r, order[1..], Put(doc, PathOf(s), v).v, first.entries).Document?
      && SetText(WriteFields(r, order, doc, entries).doc, s, v)
           == Ok(WriteFields(r, order[1..], Put(doc, PathOf(s), v).v, first.entries).doc)
  {
    OrderedTail(r, order);
    var s, rest := order[0], order[1..];
    var v, first, w := ShownValue(r, s, input).value, WriteField(r, s, doc, entries), Written(r.fields[s]).value;
    WriteIsPut(r, s, doc, entries);
    SetOverPut(doc, PathOf(s), w, v);
    PutGet(doc, PathOf(s), w);
    SetBeforeFields(r, rest, first.doc, first.entries, PathOf(s), v);
    SetTextIsSetInto(WriteFields(r, order, doc, entries).doc, s, v);
  }

  /** Serialising leaves every written field's value at its path. */
  lemma {:induction false} FieldsAreReadable(r: UIResource, order: seq<string>, doc: Value, entries: seq<SpecEntry>, s: string)
    requires Ordered(r, order) && WriteFields(r, order, doc, entries).Document?
    requires s in r.fields && Written(r.fields[s]).Some?
    requires s in order || (Tokens(s).Ok? && Get(doc, PathOf(s)) == Written(r.fields[s]))
    ensures Tokens(s).Ok? && Get(WriteFields(r, order, doc, entries).doc, PathOf(s)) == Written(r.fields[s])
    decreases |order|
  {
    if order != [] {
      OrderedTail(r, order);
      var u := order[0];
      WriteIsPut(r, u, doc, entries);
      var first := WriteField(r, u, doc, entries);
      if u == s {
        PutGet(doc, PathOf(s), Written(r.fields[s]).value);
      } else if s !in order && Written(r.fields[u]).Some? {
        PutFrame(doc, PathOf(u), Written(r.fields[u]).value, PathOf(s));
      }
      FieldsAreReadable(r, order[1..], first.doc, first.entries, s);
    }
  }

  // --- Fields and documents are found again ---

  ghost predicate Identified(d: Doc, r: UIResource) {
    HasText(d, "kind", r.kind) && IsNamed(d, r.name)
  }

  ghost predicate Placed(docs: seq<Doc>, rs: seq<UIResource>) {
    |docs| == |rs| && forall i :: 0 <= i < |rs| ==> Identified(docs[i], rs[i])
  }

  lemma IdentityReads(d: Doc, r: UIResource)
    ensures Identified(d, r) <==>
            (Get(Map(d), [Key("kind")]) == Some(Leaf(Str(r.kind))) && Get(Map(d), [Key("metadata"), Key("name")]) == Some(Leaf(Str(r.name))))
  {
    GetKey(d, "kind", []);
    GetKey(d, "metadata", [Key("name")]);
    assert [Key("kind")] + [] == [Key("kind")] && [Key("metadata")] + [Key("name")] == [Key("metadata"), Key("name")];
    if "metadata" in d && d["metadata"].Map? {
      GetKey(d["metadata"].m, "name", []);
      assert [Key("name")] + [] == [Key("name")];
    }
  }

  lemma {:induction false} PutKeepsMap(cur: Value, p: Path, v: Value)
    requires cur.Map? && Put(cur, p, v).Ok?
    ensures Put(cur, p, v).v.Map?
  {
  }

  lemma {:induction false} WrittenIsIdentified(r: UIResource, order: seq<string>, doc: Value, entries: seq<SpecEntry>)
    requires Renderable(r) && doc.Map? && Identified(doc.m, r)
    requires forall s :: s in order ==> s in r.fields
    requires WriteFields(r, order, doc, entries).Document?
    ensures WriteFields(r, order, doc, entries).doc.Map?
    ensures Identified(WriteFields(r, order, doc, entries).doc.m, r)
    decreases |order|
  {
    if order != [] {
      var s := order[0];
      WriteIsPut(r, s, doc, entries);
      var first := WriteField(r, s, doc, entries);
      if Written(r.fields[s]).Some? {
        var w := Written(r.fields[s]).value;
        PutKeepsMap(doc, PathOf(s), w);
        IdentityReads(doc.m, r);
        PutFrame(doc, PathOf(s), w, [Key("kind")]);
        PutFrame(doc, PathOf(s), w, [Key("metadata"), Key("name")]);
        IdentityReads(first.doc.m, r);
      }
      WrittenIsIdentified(r, order[1..], first.doc, first.entries);
    }
  }

  lemma SegIsOneLine(s: string)
    requires FirstSeg(s).Some?
    ensures '\n' !in s[..FirstSeg(s).value.1]
  {
    var n := FirstSeg(s).value.1;
    forall i | 0 <= i < n ensures s[i] != '\n' {
      if s[0] == '[' && 1 <= i < n - 1 { assert s[i] == s[1..][i - 1] && IsDigit(s[1..][i - 1]); }
    }
  }

  lemma AfterDot(tail: string, i: nat)
    requires i < |tail| && (i > 0 || tail[0] != '.')
    ensures tail[i] in TrimDot(tail)
  {
    if tail[0] == '.' { assert tail[i] == tail[1..][i - 1]; }
  }

  lemma {:induction false} PathsAreOneLine(s: string)
    requires Tokens(s).Ok?
    ensures '\n' !in s
    decreases |s|
  {
    if s != "" {
      var n := FirstSeg(s).value.1;
      var tail := s[n..];
      SegIsOneLine(s);
      PathsAreOneLine(TrimDot(tail));
      forall i | 0 <= i < |s| ensures s[i] != '\n' {
        if i < n { assert s[i] == s[..n][i]; }
        else if i > n || s[n] != '.' { assert s[i] in TrimDot(tail) by { AfterDot(tail, i - n); } }
      }
    }
  }

  /** The positions of a kind are the same among the resources and among their documents. */
  lemma {:induction false} PositionsAgree(docs: seq<Doc>, rs: seq<UIResource>, kind: string)
    requires Placed(docs, rs)
    ensures OfKind(docs, kind) == KindPositions(rs, kind)
    decreases |rs|
  {
    if rs != [] {
      var n := |rs| - 1;
      assert Identified(docs[n], rs[n]);
      PositionsAgree(docs[..n], rs[..n], kind);
    }
  }

  lemma NameFindsDocument(docs: seq<Doc>, rs: seq<UIResource>, i: nat)
    requires AllRenderable(rs) && Placed(docs, rs) && i < |rs|
    ensures FindDoc(docs, rs[i].kind, rs[i].name) == Some(i)
  {
    var r := rs[i];
    PositionsAgree(docs, rs, r.kind);
    assert Identified(docs[i], r);
    forall j | 0 <= j < |docs| && HasText(docs[j], "kind", r.kind) && IsNamed(docs[j], r.name)
      ensures j == i
    {
      assert Identified(docs[j], rs[j]);
    }
    FindsByName(docs, r.kind, r.name, i);
  }

  /** Setting an entry's path sets the text in the document of its resource. */
  lemma EntryFindsDocument(docs: seq<Doc>, rs: seq<UIResource>, i: nat, s: string, v: Value)
    requires AllRenderable(rs) && Placed(docs, rs) && i < |rs|
    ensures SetPath(docs, EntryPath(rs[i], s), v).Failed? <==> SetText(Map(docs[i]), s, v).Err?
    ensures SetText(Map(docs[i]), s, v).Ok? ==>
              SetPath(docs, EntryPath(rs[i], s), v) == Documents(docs[i := SetText(Map(docs[i]), s, v).v.m])
  {
    var r := rs[i];
    TextSets(Map(docs[i]), s, v);
    if '\n' in s {
      if Tokens(s).Ok? { PathsAreOneLine(s); }
      HeadNeedsOneLine(r.kind, r.name, s);
    } else {
      HeadReadsBack(r.kind, r.name, s);
      NameFindsDocument(docs, rs, i);
    }
  }

  function OwnEntry(r: UIResource, s: string): seq<SpecEntry>
    requires s in r.fields && HasSpec(r.fields[s])
  {
    if r.fields[s].Exposed? then [EntryFor(r, s)] else []
  }

  lemma EntryListed(r: UIResource, s: string, doc: Value, entries: seq<SpecEntry>)
    requires s in r.fields && HasSpec(r.fields[s]) && WriteField(r, s, doc, entries).Document?
    ensures WriteField(r, s, doc, entries).entries == entries + OwnEntry(r, s)
  {
  }

  function EntriesIn(r: UIResource, order: seq<string>): seq<SpecEntry>
    requires forall s :: s in order ==> s in r.fields && HasSpec(r.fields[s])
    decreases |order|
  {
    if order == [] then []
    else
      var s := order[0];
      assert s in order && HasSpec(r.fields[s]);
      OwnEntry(r, s) + EntriesIn(r, order[1..])
  }

  lemma Regroup(a: seq<SpecEntry>, b: seq<SpecEntry>, c: seq<SpecEntry>)
    ensures (a + b) + c == a + (b + c)
  {
  }

  lemma {:induction false} EntriesAreListed(r: UIResource, order: seq<string>, doc: Value, entries: seq<SpecEntry>)
    requires forall s :: s in order ==> s in r.fields && HasSpec(r.fields[s])
    requires WriteFields(r, order, doc, entries).Document?
    ensures WriteFields(r, order, doc, entries).entries == entries + EntriesIn(r, order)
    decreases |order|
  {
    if order != [] {
      var s, rest := order[0], order[1..];
      var first := WriteField(r, s, doc, entries);
      EntryListed(r, s, doc, entries);
      EntriesAreListed(r, rest, first.doc, first.entries);
      Regroup(entries, OwnEntry(r, s), EntriesIn(r, rest));
    }
  }

  lemma {:induction false} ApplyFieldsConcat(t: Text, docs: seq<Doc>, es: seq<SpecEntry>, more: seq<SpecEntry>, input: map<string, Value>)
    ensures ApplyFields(t, docs, es + more, input) ==
            (match ApplyFields(t, docs, es, input) case Failed(e) => Failed(e) case Documents(ds) => ApplyFields(t, ds, more, input))
    decreases |es|
  {
    if es == [] {
      assert es + more == more;
    } else {
      assert (es + more)[0] == es[0] && (es + more)[1..] == es[1..] + more;
      var first := ApplyField(t, docs, es[0], input);
      if first.Documents? { ApplyFieldsConcat(t, first.docs, es[1..], more, input); }
    }
  }

  /** Rendering accepted entries of one resource changes its document only, as `SetFields` does. */
  ghost predicate BlockIs(t: Text, docs: seq<Doc>, i: nat, r: UIResource, order: seq<string>, input: map<string, Value>)
    requires i < |docs| && forall s :: s in order ==> s in r.fields && HasSpec(r.fields[s])
  {
    var done, out := SetFields(Map(docs[i]), r, order, input, Every), ApplyFields(t, docs, EntriesIn(r, order), input);
    if done.Ok? then done.v.Map? && out == Documents(docs[i := done.v.m]) else out.Failed?
  }

  lemma {:induction false} BlockApplies(t: Text, docs: seq<Doc>, rs: seq<UIResource>, i: nat, order: seq<string>, input: map<string, Value>)
    requires AllRenderable(rs) && Placed(docs, rs) && i < |rs|
    requires forall s :: s in order ==> s in rs[i].fields && HasSpec(rs[i].fields[s])
    requires forall e :: e in EntriesIn(rs[i], order) ==> Accepts(t, e, input)
    ensures BlockIs(t, docs, i, rs[i], order, input)
    decreases |order|
  {
    var r := rs[i];
    if order == [] {
      assert docs[i := docs[i]] == docs;
    } else {
      var s, rest := order[0], order[1..];
      assert s in order && HasSpec(r.fields[s]);
      if !r.fields[s].Exposed? {
        assert EntriesIn(r, order) == EntriesIn(r, rest);
        BlockApplies(t, docs, rs, i, rest, input);
      } else {
        EntryApplies(t, docs, r, order, input);
        if ShownValue(r, s, input).None? {
          BlockApplies(t, docs, rs, i, rest, input);
        } else {
          var v := ShownValue(r, s, input).value;
          EntryFindsDocument(docs, rs, i, s, v);
          if SetText(Map(docs[i]), s, v).Ok? {
            var d := SetText(Map(docs[i]), s, v).v.m;
            SetKeepsPlaces(docs, rs, i, s, v);
            BlockApplies(t, docs[i := d], rs, i, rest, input);
            BlockPrepends(t, docs, i, d, r, order, input);
          }
        }
      }
    }
  }

  /** What is left of a block after its first entry has been set. */
  lemma BlockPrepends(t: Text, docs: seq<Doc>, i: nat, d: Doc, r: UIResource, order: seq<string>, input: map<string, Value>)
    requires i < |docs| && order != [] && forall s :: s in order ==> s in r.fields && HasSpec(r.fields[s])
    requires order[0] in order && Picks(r, order[0], input, Every)
    requires SetText(Map(docs[i]), order[0], ShownValue(r, order[0], input).value) == Ok(Map(d))
    requires ApplyFields(t, docs, EntriesIn(r, order), input) == ApplyFields(t, docs[i := d], EntriesIn(r, order[1..]), input)
    requires BlockIs(t, docs[i := d], i, r, order[1..], input)
    ensures BlockIs(t, docs, i, r, order, input)
  {
    var rest := SetFields(Map(d), r, order[1..], input, Every);
    assert SetFields(Map(docs[i]), r, order, input, Every) == rest;
    assert docs[i := d][i] == d;
    if rest.Ok? { assert docs[i := d][i := rest.v.m] == docs[i := rest.v.m]; }
  }

  function SetShown(docs: seq<Doc>, r: UIResource, s: string, input: map<string, Value>): Rendered
    requires s in r.fields && HasSpec(r.fields[s])
  {
    match ShownValue(r, s, input)
    case None => Documents(docs)
    case Some(v) => SetPath(docs, EntryPath(r, s), v)
  }

  function ApplyOnto(t: Text, soFar: Rendered, fields: seq<SpecEntry>, input: map<string, Value>): Rendered {
    match soFar
    case Failed(e) => Failed(e)
    case Documents(ds) => ApplyFields(t, ds, fields, input)
  }

  /** The first of the entries, when it comes from an exposed field. */
  lemma EntryApplies(t: Text, docs: seq<Doc>, r: UIResource, order: seq<string>, input: map<string, Value>)
    requires order != [] && forall s :: s in order ==> s in r.fields && HasSpec(r.fields[s])
    requires order[0] in order && r.fields[order[0]].Exposed?
    requires forall e :: e in EntriesIn(r, order) ==> Accepts(t, e, input)
    ensures forall e :: e in EntriesIn(r, order[1..]) ==> Accepts(t, e, input)
    ensures ApplyFields(t, docs, EntriesIn(r, order), input)
         == ApplyOnto(t, SetShown(docs, r, order[0], input), EntriesIn(r, order[1..]), input)
  {
    var s, rest := order[0], order[1..];
    var e, es := EntryFor(r, s), EntriesIn(r, rest);
    assert EntriesIn(r, order) == [e] + es && e in EntriesIn(r, order);
    assert ([e] + es)[0] == e && ([e] + es)[1..] == es;
    assert Accepts(t, e, input) && ChosenFor(e, input) == ShownValue(r, s, input);
  }

  lemma SetKeepsIdentity(d: Doc, r: UIResource, s: string, v: Value)
    requires Renderable(r) && s in r.fields && Identified(d, r) && SetText(Map(d), s, v).Ok?
    ensures Identified(SetText(Map(d), s, v).v.m, r)
  {
    TextSets(Map(d), s, v);
    IdentityReads(d, r);
    StrictFrame(Map(d), PathOf(s), v, [Key("kind")]);
    StrictFrame(Map(d), PathOf(s), v, [Key("metadata"), Key("name")]);
    IdentityReads(SetText(Map(d), s, v).v.m, r);
  }

  lemma SetKeepsPlaces(docs: seq<Doc>, rs: seq<UIResource>, i: nat, s: string, v: Value)
    requires AllRenderable(rs) && Placed(docs, rs) && i < |rs| && s in rs[i].fields && SetText(Map(docs[i]), s, v).Ok?
    ensures Placed(docs[i := SetText(Map(docs[i]), s, v).v.m], rs)
  {
    SetKeepsIdentity(docs[i], rs[i], s, v);
  }

  // --- All resources ---

  lemma {:induction false} SerializedAt(rs: seq<UIResource>, orders: seq<seq<string>>)
    requires OrdersFor(rs, orders)
    requires forall i :: 0 <= i < |rs| ==> SerializeIn(rs[i], orders[i]).Document?
    ensures SerializeAllIn(rs, orders).Pair? && |SerializeAllIn(rs, orders).docs| == |rs|
    ensures forall i :: 0 <= i < |rs| ==> SerializeAllIn(rs, orders).docs[i] == MapOf(SerializeIn(rs[i], orders[i]).doc)
    decreases |rs|
  {
    if rs != [] {
      var n := |rs| - 1;
      forall i | 0 <= i < n ensures SerializeIn(rs[..n][i], orders[..n][i]).Document? {
        assert SerializeIn(rs[i], orders[i]).Document?;
      }
      SerializedAt(rs[..n], orders[..n]);
      var before := SerializeAllIn(rs[..n], orders[..n]).docs;
      assert SerializeAllIn(rs, orders).docs == before + [MapOf(SerializeIn(rs[n], orders[n]).doc)];
      forall i | 0 <= i < n ensures SerializeAllIn(rs, orders).docs[i] == MapOf(SerializeIn(rs[i], orders[i]).doc) {
        assert before[i] == MapOf(SerializeIn(rs[..n][i], orders[..n][i]).doc);
      }
    }
  }

  lemma {:induction false} SerializedEach(rs: seq<UIResource>, orders: seq<seq<string>>)
    requires OrdersFor(rs, orders) && SerializeAllIn(rs, orders).Pair?
    ensures forall i :: 0 <= i < |rs| ==> SerializeIn(rs[i], orders[i]).Document?
    decreases |rs|
  {
    if rs != [] {
      var n := |rs| - 1;
      SerializedEach(rs[..n], orders[..n]);
      forall i | 0 <= i < |rs| ensures SerializeIn(rs[i], orders[i]).Document? {
        if i < n { assert rs[..n][i] == rs[i] && orders[..n][i] == orders[i]; }
      }
    }
  }

  lemma BaseIsIdentified(r: UIResource)
    ensures Base(r).Map? && Identified(Base(r).m, r)
  {
  }

  /** The document a resource shows: the chosen values serialised, then the late fields set. */
  ghost function Shown(r: UIResource, order: seq<string>, input: map<string, Value>): Result<Value>
    requires AllSpecced(r) && KeyOrder(order, r.fields.Keys)
  {
    SetFields(DocOf(SerializeIn(Chosen(r, input), order)), r, order, input, LateOnly)
  }

  function DocOf(s: Serialized): Value {
    if s.Document? then s.doc else Null
  }

  /** Every supplied field without a default has room in the serialised document. */
  ghost predicate HasRoom(doc: Value, r: UIResource, input: map<string, Value>)
    requires AllSpecced(r)
  {
    forall s :: s in r.fields && Late(r, s, input) ==> FitsText(doc, s)
  }

  /** One resource: its document is identified, its entries are those of its exposed fields. */
  lemma OneSerialised(r: UIResource, order: seq<string>)
    requires Renderable(r) && KeyOrder(order, r.fields.Keys) && SerializeIn(r, order).Document?
    ensures
      var out := SerializeIn(r, order);
      out.doc.Map? && Identified(out.doc.m, r) && out.entries == EntriesIn(r, order) && Holds(out.doc, r, order)
  {
    BaseIsIdentified(r);
    WrittenIsIdentified(r, order, Base(r), []);
    EntriesAreListed(r, order, Base(r), []);
    assert [] + EntriesIn(r, order) == EntriesIn(r, order);
    forall s | s in order && r.fields[s].Exposed? && Written(r.fields[s]).Some?
      ensures Tokens(s).Ok? && Get(SerializeIn(r, order).doc, PathOf(s)).Some?
    {
      FieldsAreReadable(r, order, Base(r), [], s);
    }
  }

  /** One resource: setting its entries succeeds exactly when the late ones have room, and then
      gives the document it shows. */
  lemma OneResource(r: UIResource, order: seq<string>, input: map<string, Value>)
    requires Renderable(r) && KeyOrder(order, r.fields.Keys) && SerializeIn(r, order).Document?
    ensures SerializeIn(Chosen(r, input), order).Document?
    ensures SameOutcome(SetFields(SerializeIn(r, order).doc, r, order, input, Every), Shown(r, order, input))
    ensures SetFields(SerializeIn(r, order).doc, r, order, input, Every).Ok? <==> HasRoom(SerializeIn(r, order).doc, r, input)
  {
    var doc := SerializeIn(r, order).doc;
    OneSerialised(r, order);
    assert Base(Chosen(r, input)) == Base(r);
    SettingIsSubstituting(r, order, Base(r), [], [], input);
    LateMayComeLast(doc, r, order, input);
    var chosen := SerializeIn(Chosen(r, input), order).doc;
    LateSetIffFit(chosen, r, order, input);
    forall s | s in order && Late(r, s, input) ensures FitsText(chosen, s) <==> FitsText(doc, s) {
      LateBesideDefaults(r, order, s);
      FitsBesideDefaults(doc, r, order, input, s);
    }
  }

  lemma LateBesideDefaults(r: UIResource, order: seq<string>, s: string)
    requires Ordered(r, order) && s in order && Written(r.fields[s]).None?
    ensures forall u :: u in order && Tokens(s).Ok? && Tokens(u).Ok? && Written(r.fields[u]).Some? ==> Apart(PathOf(s), PathOf(u))
  {
  }

  /** The documents when the first `k` resources carry what they show. */
  ghost function Mixed(rs: seq<UIResource>, orders: seq<seq<string>>, input: map<string, Value>, k: nat): (out: seq<Doc>)
    requires OrdersFor(rs, orders) && AllRenderable(rs) && k <= |rs|
  {
    seq(|rs|, i requires 0 <= i < |rs| => MixedAt(rs[i], orders[i], input, i < k))
  }

  ghost function MixedAt(r: UIResource, order: seq<string>, input: map<string, Value>, done: bool): Doc
    requires AllSpecced(r) && KeyOrder(order, r.fields.Keys)
  {
    if !done then MapOf(DocOf(SerializeIn(r, order)))
    else match Shown(r, order, input)
      case Ok(v) => MapOf(v)
      case Err(_) => map[]
  }

  lemma {:induction false} SetFieldsKeepsIdentity(d: Doc, r: UIResource, order: seq<string>, input: map<string, Value>, w: Which)
    requires Renderable(r) && Identified(d, r) && forall s :: s in order ==> s in r.fields && HasSpec(r.fields[s])
    requires SetFields(Map(d), r, order, input, w).Ok?
    ensures SetFields(Map(d), r, order, input, w).v.Map?
    ensures Identified(SetFields(Map(d), r, order, input, w).v.m, r)
    decreases |order|
  {
    if order != [] {
      var s := order[0];
      assert s in order;
      if Picks(r, s, input, w) {
        var v := ShownValue(r, s, input).value;
        SetKeepsIdentity(d, r, s, v);
        SetFieldsKeepsIdentity(SetText(Map(d), s, v).v.m, r, order[1..], input, w);
      } else {
        SetFieldsKeepsIdentity(d, r, order[1..], input, w);
      }
    }
  }

  lemma ShownIsIdentified(r: UIResource, order: seq<string>, input: map<string, Value>)
    requires Renderable(r) && KeyOrder(order, r.fields.Keys) && SerializeIn(r, order).Document?
    requires HasRoom(SerializeIn(r, order).doc, r, input)
    ensures Shown(r, order, input).Ok? && Shown(r, order, input).v.Map? && Identified(Shown(r, order, input).v.m, r)
    ensures SetFields(SerializeIn(r, order).doc, r, order, input, Every) == Shown(r, order, input)
  {
    OneSerialised(r, order);
    OneResource(r, order, input);
    SetFieldsKeepsIdentity(SerializeIn(r, order).doc.m, r, order, input, Every);
  }

  /** The first `k` resources have room for what is supplied to them. */
  ghost predicate RoomUpTo(rs: seq<UIResource>, orders: seq<seq<string>>, input: map<string, Value>, k: nat)
    requires OrdersFor(rs, orders) && AllRenderable(rs) && k <= |rs|
  {
    forall i :: 0 <= i < k ==> HasRoom(DocOf(SerializeIn(rs[i], orders[i])), rs[i], input)
  }

  lemma MixedIsPlaced(rs: seq<UIResource>, orders: seq<seq<string>>, input: map<string, Value>, k: nat)
    requires OrdersFor(rs, orders) && AllRenderable(rs) && k <= |rs| && SerializeAllIn(rs, orders).Pair?
    requires RoomUpTo(rs, orders, input, k)
    ensures Placed(Mixed(rs, orders, input, k), rs)
  {
    SerializedEach(rs, orders);
    forall i | 0 <= i < |rs| ensures Identified(Mixed(rs, orders, input, k)[i], rs[i]) {
      OneSerialised(rs[i], orders[i]);
      if i < k { ShownIsIdentified(rs[i], orders[i], input); }
    }
  }

  /** The entries of resource `i`, on documents of which the first `i` carry what they show. */
  lemma OwnBlock(t: Text, rs: seq<UIResource>, orders: seq<seq<string>>, input: map<string, Value>, i: nat)
    requires OrdersFor(rs, orders) && AllRenderable(rs) && i < |rs| && SerializeAllIn(rs, orders).Pair?
    requires RoomUpTo(rs, orders, input, i)
    requires forall e :: e in EntriesIn(rs[i], orders[i]) ==> Accepts(t, e, input)
    ensures
      var out := ApplyFields(t, Mixed(rs, orders, input, i), EntriesIn(rs[i], orders[i]), input);
      if HasRoom(DocOf(SerializeIn(rs[i], orders[i])), rs[i], input) then out == Documents(Mixed(rs, orders, input, i + 1)) else out.Failed?
  {
    SerializedEach(rs, orders);
    OneSerialised(rs[i], orders[i]);
    OneResource(rs[i], orders[i], input);
    MixedIsPlaced(rs, orders, input, i);
    var docs := Mixed(rs, orders, input, i);
    assert Map(docs[i]) == SerializeIn(rs[i], orders[i]).doc;
    BlockApplies(t, docs, rs, i, orders[i], input);
    if HasRoom(SerializeIn(rs[i], orders[i]).doc, rs[i], input) {
      ShownIsIdentified(rs[i], orders[i], input);
      MixedNext(rs, orders, input, i);
    }
  }

  lemma MixedNext(rs: seq<UIResource>, orders: seq<seq<string>>, input: map<string, Value>, i: nat)
    requires OrdersFor(rs, orders) && AllRenderable(rs) && i < |rs|
    ensures Mixed(rs, orders, input, i)[i := MixedAt(rs[i], orders[i], input, true)] == Mixed(rs, orders, input, i + 1)
  {
  }

  /** The entries of the first `k` resources. */
  ghost function EntriesUpTo(rs: seq<UIResource>, orders: seq<seq<string>>, k: nat): seq<SpecEntry>
    requires OrdersFor(rs, orders) && k <= |rs|
  {
    if SerializeAllIn(rs[..k], orders[..k]).Pair? then SerializeAllIn(rs[..k], orders[..k]).entries else []
  }

  lemma NextBlock(rs: seq<UIResource>, orders: seq<seq<string>>, i: nat)
    requires OrdersFor(rs, orders) && AllRenderable(rs) && i < |rs| && SerializeAllIn(rs, orders).Pair?
    ensures EntriesUpTo(rs, orders, i + 1) == EntriesUpTo(rs, orders, i) + EntriesIn(rs[i], orders[i])
    ensures EntriesUpTo(rs, orders, i + 1) <= SerializeAllIn(rs, orders).entries
  {
    PrefixEntries(rs, orders, i);
    PrefixEntries(rs, orders, i + 1);
    SerializeOneMore(rs, orders, i);
    SerializedEach(rs, orders);
    OneSerialised(rs[i], orders[i]);
  }

  lemma InPrefix(e: SpecEntry, block: seq<SpecEntry>, before: seq<SpecEntry>, all: seq<SpecEntry>)
    requires e in block && before + block <= all
    ensures e in all
  {
    assert e in before + block;
  }

  /** Rendering accepted entries of the first `k` resources, all of which have room. */
  lemma {:induction false} BlocksApply(t: Text, rs: seq<UIResource>, orders: seq<seq<string>>, input: map<string, Value>, k: nat)
    requires OrdersFor(rs, orders) && AllRenderable(rs) && k <= |rs| && SerializeAllIn(rs, orders).Pair?
    requires RoomUpTo(rs, orders, input, k)
    requires forall e :: e in SerializeAllIn(rs, orders).entries ==> Accepts(t, e, input)
    ensures ApplyFields(t, Mixed(rs, orders, input, 0), EntriesUpTo(rs, orders, k), input) == Documents(Mixed(rs, orders, input, k))
    decreases k
  {
    if k > 0 {
      var i := k - 1;
      BlocksApply(t, rs, orders, input, i);
      NextOutcome(t, rs, orders, input, i);
    } else {
      assert rs[..0] == [];
    }
  }

  /** After the entries of the first `i` resources, those of the next one decide. */
  lemma NextOutcome(t: Text, rs: seq<UIResource>, orders: seq<seq<string>>, input: map<string, Value>, i: nat)
    requires OrdersFor(rs, orders) && AllRenderable(rs) && i < |rs| && SerializeAllIn(rs, orders).Pair?
    requires RoomUpTo(rs, orders, input, i)
    requires forall e :: e in SerializeAllIn(rs, orders).entries ==> Accepts(t, e, input)
    requires ApplyFields(t, Mixed(rs, orders, input, 0), EntriesUpTo(rs, orders, i), input) == Documents(Mixed(rs, orders, input, i))
    ensures
      var out := ApplyFields(t, Mixed(rs, orders, input, 0), EntriesUpTo(rs, orders, i + 1), input);
      if HasRoom(DocOf(SerializeIn(rs[i], orders[i])), rs[i], input) then out == Documents(Mixed(rs, orders, input, i + 1)) else out.Failed?
  {
    var before, block := EntriesUpTo(rs, orders, i), EntriesIn(rs[i], orders[i]);
    NextBlock(rs, orders, i);
    forall e | e in block ensures Accepts(t, e, input) { InPrefix(e, block, before, SerializeAllIn(rs, orders).entries); }
    ApplyFieldsConcat(t, Mixed(rs, orders, input, 0), before, block, input);
    OwnBlock(t, rs, orders, input, i);
  }

  /** A resource without room fails the rendering. */
  lemma {:induction false} NoRoomFails(t: Text, rs: seq<UIResource>, orders: seq<seq<string>>, input: map<string, Value>, i: nat)
    requires OrdersFor(rs, orders) && AllRenderable(rs) && i < |rs| && SerializeAllIn(rs, orders).Pair?
    requires forall e :: e in SerializeAllIn(rs, orders).entries ==> Accepts(t, e, input)
    requires !HasRoom(DocOf(SerializeIn(rs[i], orders[i])), rs[i], input)
    ensures ApplyFields(t, Mixed(rs, orders, input, 0), SerializeAllIn(rs, orders).entries, input).Failed?
    decreases i
  {
    if j :| 0 <= j < i && !HasRoom(DocOf(SerializeIn(rs[j], orders[j])), rs[j], input) {
      NoRoomFails(t, rs, orders, input, j);
    } else {
      BlocksApply(t, rs, orders, input, i);
      NextOutcome(t, rs, orders, input, i);
      NextBlock(rs, orders, i);
      FailureStays(t, Mixed(rs, orders, input, 0), EntriesUpTo(rs, orders, i + 1), SerializeAllIn(rs, orders).entries, input);
    }
  }

  lemma FailureStays(t: Text, docs: seq<Doc>, some: seq<SpecEntry>, all: seq<SpecEntry>, input: map<string, Value>)
    requires some <= all && ApplyFields(t, docs, some, input).Failed?
    ensures ApplyFields(t, docs, all, input).Failed?
  {
    assert all == some + all[|some|..];
    ApplyFieldsConcat(t, docs, some, all[|some|..], input);
  }

  lemma {:induction false} PrefixEntries(rs: seq<UIResource>, orders: seq<seq<string>>, k: nat)
    requires OrdersFor(rs, orders) && k <= |rs| && SerializeAllIn(rs, orders).Pair?
    ensures OrdersFor(rs[..k], orders[..k]) && SerializeAllIn(rs[..k], orders[..k]).Pair?
    ensures SerializeAllIn(rs[..k], orders[..k]).entries <= SerializeAllIn(rs, orders).entries
    decreases |rs| - k
  {
    if k == |rs| {
      assert rs[..k] == rs && orders[..k] == orders;
    } else {
      PrefixEntries(rs, orders, k + 1);
      SerializeOneMore(rs, orders, k);
    }
  }

  /** The documents all resources show. */
  ghost function ShownDocs(rs: seq<UIResource>, orders: seq<seq<string>>, input: map<string, Value>): seq<Doc>
    requires OrdersFor(rs, orders) && AllRenderable(rs)
  {
    Mixed(rs, orders, input, |rs|)
  }

  /** On accepted input, the fields can be applied exactly when there is room for the late ones. */
  lemma AcceptedRenders(t: Text, rs: seq<UIResource>, orders: seq<seq<string>>, input: map<string, Value>)
    requires OrdersFor(rs, orders) && AllRenderable(rs) && SerializeAllIn(rs, orders).Pair?
    requires forall e :: e in SerializeAllIn(rs, orders).entries ==> Accepts(t, e, input)
    ensures
      var out := ApplyFields(t, SerializeAllIn(rs, orders).docs, SerializeAllIn(rs, orders).entries, input);
      if RoomUpTo(rs, orders, input, |rs|) then out == Documents(ShownDocs(rs, orders, input)) else out.Failed?
  {
    var pair, n := SerializeAllIn(rs, orders), |rs|;
    assert rs[..n] == rs && orders[..n] == orders;
    SerializedEach(rs, orders);
    SerializedAt(rs, orders);
    assert Mixed(rs, orders, input, 0) == pair.docs;
    if i :| 0 <= i < n && !HasRoom(DocOf(SerializeIn(rs[i], orders[i])), rs[i], input) {
      NoRoomFails(t, rs, orders, input, i);
    } else {
      BlocksApply(t, rs, orders, input, n);
    }
  }

  /** There is room in the serialised documents for every supplied field without a default. */
  ghost predicate RoomForAll(docs: seq<Doc>, rs: seq<UIResource>, input: map<string, Value>)
    requires |docs| == |rs| && AllRenderable(rs)
  {
    forall i :: 0 <= i < |rs| ==> HasRoom(Map(docs[i]), rs[i], input)
  }

  lemma RoomIsRoom(rs: seq<UIResource>, orders: seq<seq<string>>, input: map<string, Value>)
    requires OrdersFor(rs, orders) && AllRenderable(rs) && SerializeAllIn(rs, orders).Pair?
    ensures |SerializeAllIn(rs, orders).docs| == |rs|
    ensures RoomForAll(SerializeAllIn(rs, orders).docs, rs, input) <==> RoomUpTo(rs, orders, input, |rs|)
  {
    SerializedEach(rs, orders);
    SerializedAt(rs, orders);
    forall i | 0 <= i < |rs|
      ensures Map(SerializeAllIn(rs, orders).docs[i]) == DocOf(SerializeIn(rs[i], orders[i]))
    {
      OneSerialised(rs[i], orders[i]);
    }
  }

  lemma RenderedFields(t: Text, docs: seq<Doc>, entries: seq<SpecEntry>, input: map<string, Value>, l: Labels)
    requires SpecParses(t, Parsed(entries))
    ensures
      var out, applied := RenderDocs(t, Parsed(docs), Parsed(entries), Parsed(Map(input)), l), ApplyFields(t, docs, entries, input);
      (out.Documents? <==> applied.Documents?) && (applied.Documents? ==> out.docs == StampAll(applied.docs, l))
  {
  }

  /** The law. On the serialised documents and entries of a renderable state, rendering
      succeeds exactly when every entry accepts the input and every supplied field without a
      default has room in the serialised document; the result is then what serialising the
      chosen values and setting those fields gives, stamped. */
  lemma SerialiseThenRender(t: Text, rs: seq<UIResource>, orders: seq<seq<string>>, input: map<string, Value>, l: Labels)
    requires OrdersFor(rs, orders) && AllRenderable(rs) && SerializeAllIn(rs, orders).Pair?
    requires SpecParses(t, Parsed(SerializeAllIn(rs, orders).entries))
    ensures
      var pair := SerializeAllIn(rs, orders);
      var out := RenderDocs(t, Parsed(pair.docs), Parsed(pair.entries), Parsed(Map(input)), l);
      && |pair.docs| == |rs|
      && (out.Documents? <==> (forall e :: e in pair.entries ==> Accepts(t, e, input)) && RoomForAll(pair.docs, rs, input))
      && (out.Documents? ==> out.docs == StampAll(ShownDocs(rs, orders, input), l))
  {
    var pair := SerializeAllIn(rs, orders);
    RoomIsRoom(rs, orders, input);
    RenderedFields(t, pair.docs, pair.entries, input, l);
    if ApplyFields(t, pair.docs, pair.entries, input).Documents? {
      RenderedIsAccepted(t, pair.docs, pair.entries, input);
    }
    if forall e :: e in pair.entries ==> Accepts(t, e, input) {
      AcceptedRenders(t, rs, orders, input);
    }
  }

  // --- What a reader finds ---

  /** Setting fields leaves each of them readable, and the places of the others as they were. */
  lemma {:induction false} SetFieldsReads(doc: Value, r: UIResource, order: seq<string>, input: map<string, Value>, w: Which, s: string, x: Value)
    requires Ordered(r, order) && SetFields(doc, r, order, input, w).Ok?
    requires s in r.fields && HasSpec(r.fields[s])
    requires if s in order && Picks(r, s, input, w) then ShownValue(r, s, input) == Some(x) else Tokens(s).Ok? && Get(doc, PathOf(s)) == Some(x)
    requires Tokens(s).Ok? ==> PathOf(s) != []
    ensures Tokens(s).Ok? && Get(SetFields(doc, r, order, input, w).v, PathOf(s)) == Some(x)
    decreases |order|
  {
    if order != [] {
      OrderedTail(r, order);
      var u, rest := order[0], order[1..];
      if !Picks(r, u, input, w) {
        SetFieldsReads(doc, r, rest, input, w, s, x);
      } else {
        var v := ShownValue(r, u, input).value;
        TextSets(doc, u, v);
        if u == s {
          StrictGet(doc, PathOf(s), v);
        } else if !(s in order && Picks(r, s, input, w)) {
          StrictFrame(doc, PathOf(u), v, PathOf(s));
        }
        SetFieldsReads(SetText(doc, u, v).v, r, rest, input, w, s, x);
      }
    }
  }

  /** A serialised field is fixed or exposed. */
  lemma {:induction false} KnownModes(r: UIResource, order: seq<string>, doc: Value, entries: seq<SpecEntry>, s: string)
    requires s in order && forall u :: u in order ==> u in r.fields
    requires WriteFields(r, order, doc, entries).Document?
    ensures !r.fields[s].UnknownMode?
    decreases |order|
  {
    if order[0] != s {
      var first := WriteField(r, order[0], doc, entries);
      KnownModes(r, order[1..], first.doc, first.entries, s);
    }
  }

  lemma ShownReads(r: UIResource, order: seq<string>, input: map<string, Value>, s: string)
    requires Renderable(r) && KeyOrder(order, r.fields.Keys) && SerializeIn(r, order).Document?
    requires Shown(r, order, input).Ok? && s in r.fields && ShownValue(r, s, input).Some?
    ensures Tokens(s).Ok? && Get(Shown(r, order, input).v, PathOf(s)) == ShownValue(r, s, input)
  {
    var c, x := Chosen(r, input), ShownValue(r, s, input).value;
    OneResource(r, order, input);
    KnownModes(r, order, Base(r), [], s);
    if Written(r.fields[s]).Some? {
      assert Base(c) == Base(r) && Written(c.fields[s]) == Some(x);
      FieldsAreReadable(c, order, Base(c), [], s);
    }
    SetFieldsReads(SerializeIn(c, order).doc, r, order, input, LateOnly, s, x);
  }

  /** In the rendered documents every field outside the stamped places that has a value reads as
      supplied, or as its default, or as it was fixed. */
  lemma RenderedFieldsAreReadable(t: Text, rs: seq<UIResource>, orders: seq<seq<string>>, input: map<string, Value>, l: Labels, i: nat, s: string)
    requires OrdersFor(rs, orders) && AllRenderable(rs) && SerializeAllIn(rs, orders).Pair?
    requires SpecParses(t, Parsed(SerializeAllIn(rs, orders).entries))
    requires i < |rs| && s in rs[i].fields && ShownValue(rs[i], s, input).Some? && OutsideStamps(PathOf(s))
    requires RenderDocs(t, Parsed(SerializeAllIn(rs, orders).docs), Parsed(SerializeAllIn(rs, orders).entries), Parsed(Map(input)), l).Documents?
    ensures
      var out := RenderDocs(t, Parsed(SerializeAllIn(rs, orders).docs), Parsed(SerializeAllIn(rs, orders).entries), Parsed(Map(input)), l);
      i < |out.docs| && Get(Map(out.docs[i]), PathOf(s)) == ShownValue(rs[i], s, input)
  {
    SerialiseThenRender(t, rs, orders, input, l);
    RoomIsRoom(rs, orders, input);
    SerializedEach(rs, orders);
    assert HasRoom(DocOf(SerializeIn(rs[i], orders[i])), rs[i], input);
    ShownIsIdentified(rs[i], orders[i], input);
    ShownReads(rs[i], orders[i], input, s);
    StampFrame(ShownDocs(rs, orders, input)[i], l, PathOf(s));
  }

  // --- A field without a default, with and without room ---

  /** A field without a default has room beside any other field that fills the place above it,
      also below an array. */
  lemma {:induction false} RoomInExistingMap(doc: Value, p: Path, k: string)
    requires Get(doc, p).Some? && Get(doc, p).value.Map?
    ensures Fits(doc, p + [Key(k)])
    decreases |p|
  {
    if p == [] {
      assert [] + [Key(k)] == [Key(k)] && [Key(k)][1..] == [];
    } else {
      assert (p + [Key(k)])[1..] == p[1..] + [Key(k)] && (p + [Key(k)])[0] == p[0];
      RoomInExistingMap(if p[0].Key? then doc.m[p[0].k] else doc.a[p[0].i], p[1..], k);
    }
  }

  lemma ArrayTextEntersArray(d: Doc, v: Value)
    requires "a" !in d
    ensures SetText(Map(d), "a[0]", v) == Err(NoAutoArray)
  {
    IdentRunStops("a", "[0]");
    assert "a" + "[0]" == "a[0]";
    assert FirstSeg("a[0]") == Some((Key("a"), 1));
  }

  /** The resource `r` with one exposed field below an array and no default for it. */
  ghost predicate OneBareField(r: UIResource, e: SpecEntry) {
    && IsKind(r.kind) && r.apiVersion != "" && r.name != "" && ']' !in r.name
    && r.fields == map["a[0]" := Exposed(Some(e))] && e.default == Null
  }

  lemma BareFieldRefused(t: Text, r: UIResource, e: SpecEntry, v: Value)
    requires OneBareField(r, e)
    ensures SetPath([Base(r).m], EntryPath(r, "a[0]"), v) == Failed(BadWrite(NoAutoArray))
  {
    HeadReadsBack(r.kind, r.name, "a[0]");
    var docs := [Base(r).m];
    assert docs[..0] == [] && OfKind(docs, r.kind) == [0];
    FindsByName(docs, r.kind, r.name, 0);
    ArrayTextEntersArray(Base(r).m, v);
  }

  lemma BareFieldSerialises(r: UIResource, e: SpecEntry)
    requires OneBareField(r, e)
    ensures SerializeIn(r, ["a[0]"]) == Document(Base(r), [e.(path := EntryPath(r, "a[0]"))])
  {
    var entry := e.(path := EntryPath(r, "a[0]"));
    var order := ["a[0]"];
    assert order[0] == "a[0]" && order[1..] == [];
    assert WriteField(r, "a[0]", Base(r), []) == Document(Base(r), [entry]);
  }

  lemma OnlyFieldFails(t: Text, docs: seq<Doc>, f: SpecEntry, v: Value)
    requires Validate(t, f, v) && SetPath(docs, f.path, v).Failed?
    ensures ApplyFields(t, docs, [f], map[f.path := v]) == SetPath(docs, f.path, v)
  {
    assert ApplyField(t, docs, f, map[f.path := v]) == SetPath(docs, f.path, v);
  }

  /** A state whose only field is exposed below an array and has no default has no room for it:
      the serialised document has no such array, and the strict writer will not create one,
      however valid the value. */
  lemma NoDefaultBelowArrayFails(t: Text, r: UIResource, e: SpecEntry, v: Value)
    requires OneBareField(r, e) && Validate(t, e, v)
    ensures
      var entry := e.(path := EntryPath(r, "a[0]"));
      && SerializeIn(r, ["a[0]"]) == Document(Base(r), [entry])
      && ApplyFields(t, [Base(r).m], [entry], map[entry.path := v]) == Failed(BadWrite(NoAutoArray))
  {
    BareFieldSerialises(r, e);
    BareFieldRefused(t, r, e, v);
    OnlyFieldFails(t, [Base(r).m], e.(path := EntryPath(r, "a[0]")), v);
  }
}
