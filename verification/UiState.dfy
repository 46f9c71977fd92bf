/** The editor state as a whole: several resources, and the ui-spec that exposes some of their fields. */
module UiState {
  import opened Values
  import opened PathGrammar
  import opened Targets
  import opened UiSpec
  import opened UiMode

  // --- Serialising all resources ---

  datatype SerializedAll = Refused(e: SerializeError) | Pair(docs: seq<Doc>, entries: seq<SpecEntry>)

  /** One iteration order for the field map of every resource. */
  ghost predicate OrdersFor(rs: seq<UIResource>, orders: seq<seq<string>>) {
    |orders| == |rs| && forall i :: 0 <= i < |rs| ==> KeyOrder(orders[i], rs[i].fields.Keys)
  }

  /** The documents and ui-spec entries, resource by resource; the first refusal ends it. */
  ghost function SerializeAllIn(rs: seq<UIResource>, orders: seq<seq<string>>): SerializedAll
    requires OrdersFor(rs, orders)
    decreases |rs|
  {
    if rs == [] then Pair([], [])
    else
      var n := |rs| - 1;
      match SerializeAllIn(rs[..n], orders[..n])
      case Refused(e) => Refused(e)
      case Pair(docs, entries) => (
        match SerializeIn(rs[n], orders[n])
        case Rejected(e) => Refused(e)
        case Document(doc, es) => Pair(docs + [MapOf(doc)], entries + es)
      )
  }

  function MapOf(v: Value): Doc {
    if v.Map? then v.m else map[]
  }

  lemma SerializeOneMore(rs: seq<UIResource>, orders: seq<seq<string>>, i: nat)
    requires OrdersFor(rs, orders) && i < |rs|
    ensures OrdersFor(rs[..i], orders[..i]) && OrdersFor(rs[..i + 1], orders[..i + 1])
    ensures SerializeAllIn(rs[..i + 1], orders[..i + 1]) ==
            (match SerializeAllIn(rs[..i], orders[..i])
             case Refused(e) => Refused(e)
             case Pair(docs, entries) => (
               match SerializeIn(rs[i], orders[i])
               case Rejected(e) => Refused(e)
               case Document(doc, es) => Pair(docs + [MapOf(doc)], entries + es)
             ))
  {
    assert rs[..i + 1][..i] == rs[..i] && orders[..i + 1][..i] == orders[..i];
  }

  /** A refusal of some resource refuses the whole state. */
  lemma {:induction false} RefusalStays(rs: seq<UIResource>, orders: seq<seq<string>>, i: nat)
    requires OrdersFor(rs, orders) && i <= |rs| && OrdersFor(rs[..i], orders[..i])
    requires SerializeAllIn(rs[..i], orders[..i]).Refused?
    ensures SerializeAllIn(rs, orders) == SerializeAllIn(rs[..i], orders[..i])
    decreases |rs| - i
  {
    if i == |rs| {
      assert rs[..i] == rs && orders[..i] == orders;
    } else {
      SerializeOneMore(rs, orders, i);
      RefusalStays(rs, orders, i + 1);
    }
  }

  lemma SomeOrders(rs: seq<UIResource>) returns (orders: seq<seq<string>>)
    ensures OrdersFor(rs, orders)
  {
    orders := [];
    while |orders| < |rs|
      invariant |orders| <= |rs| && forall i :: 0 <= i < |orders| ==> KeyOrder(orders[i], rs[i].fields.Keys)
    {
      var order := SomeKeyOrder(rs[|orders|].fields.Keys);
      orders := orders + [order];
    }
  }

  /** The serialiser's outer loop. */
  method SerializeUIMode(rs: seq<UIResource>) returns (out: SerializedAll, ghost orders: seq<seq<string>>)
    ensures OrdersFor(rs, orders) && out == SerializeAllIn(rs, orders)
    ensures exists os :: OrdersFor(rs, os) && out == SerializeAllIn(rs, os)
  {
    var docs: seq<Doc>, entries: seq<SpecEntry> := [], [];
    orders := SomeOrders(rs);
    for i := 0 to |rs|
      invariant OrdersFor(rs, orders)
      invariant OrdersFor(rs[..i], orders[..i]) && SerializeAllIn(rs[..i], orders[..i]) == Pair(docs, entries)
    {
      ghost var before := orders;
      var one;
      ghost var order;
      one, order := SerializeResource(rs[i]);
      orders := orders[i := order];
      assert orders[..i] == before[..i];
      SerializeOneMore(rs, orders, i);
      if one.Rejected? {
        RefusalStays(rs, orders, i + 1);
        return Refused(one.e), orders;
      }
      docs, entries := docs + [MapOf(one.doc)], entries + one.entries;
    }
    assert rs[..|rs|] == rs && orders[..|rs|] == orders;
    out := Pair(docs, entries);
  }

  // --- Reading documents and a ui-spec back into the editor ---

  predicate IsWordChar(c: char) {
    IsIdentChar(c)
  }

  function WordRun(s: string): (n: nat)
    ensures n <= |s| && (forall i :: 0 <= i < n ==> IsWordChar(s[i])) && (n < |s| ==> !IsWordChar(s[n]))
  {
    IdentRun(s)
  }

  predicate OneLine(s: string) {
    forall i :: 0 <= i < |s| ==> s[i] !in {'\n', '\r', '\U{2028}', '\U{2029}'}
  }

  /** `Kind[name].sub`: a word, a bracketed name, a dot, and one non-empty line. */
  function ParseEntryPath(p: string): Option<Head> {
    var n := WordRun(p);
    var tail := p[n..];
    var close := IndexOf(tail, ']');
    if n >= 1 && tail != "" && tail[0] == '[' && 2 <= close && close + 2 < |tail| && tail[close + 1] == '.' && OneLine(tail[close + 2..])
    then Some(Head(p[..n], tail[1..close], tail[close + 2..]))
    else None
  }

  /** The first resource of that kind and name. */
  function FindResource(rs: seq<UIResource>, kind: string, name: string): (r: Option<nat>)
    ensures r.Some? ==> r.value < |rs| && rs[r.value].kind == kind && rs[r.value].name == name
    ensures r.Some? ==> forall j :: 0 <= j < r.value ==> !(rs[j].kind == kind && rs[j].name == name)
    ensures r.None? ==> forall j :: 0 <= j < |rs| ==> !(rs[j].kind == kind && rs[j].name == name)
  {
    if rs == [] then None
    else if rs[0].kind == kind && rs[0].name == name then Some(0)
    else match FindResource(rs[1..], kind, name)
      case None => None
      case Some(j) => Some(j + 1)
  }

  /** One ui-spec entry turns the field it names into an exposed one; others are dropped with a warning. */
  function Promote(rs: seq<UIResource>, e: SpecEntry): (out: seq<UIResource>)
    ensures |out| == |rs|
  {
    match ParseEntryPath(e.path)
    case None => rs
    case Some(head) => (
      match FindResource(rs, head.kind, head.selector)
      case None => rs
      case Some(i) => rs[i := rs[i].(fields := rs[i].fields[head.rest := Exposed(Some(e))])]
    )
  }

  function PromoteAll(rs: seq<UIResource>, es: seq<SpecEntry>): (out: seq<UIResource>)
    ensures |out| == |rs|
    decreases |es|
  {
    if es == [] then rs else PromoteAll(Promote(rs, es[0]), es[1..])
  }

  /** The documents the editor accepts, in order. */
  function Accepted(docs: seq<Source<Value>>): (r: seq<Doc>)
    ensures forall i :: 0 <= i < |r| ==> Named(r[i])
  {
    if docs == [] then []
    else
      var n := |docs| - 1;
      var last := docs[n];
      Accepted(docs[..n]) + if last.Parsed? && last.content.Map? && Named(last.content.m) then [last.content.m] else []
  }

  ghost predicate ResourcesFor(docs: seq<Doc>, rs: seq<UIResource>)
    requires forall i :: 0 <= i < |docs| ==> Named(docs[i])
  {
    |rs| == |docs| && forall i :: 0 <= i < |docs| ==> ResourceFor(docs[i], rs[i])
  }

  /** The ui-spec's entries promoted, if it parses. */
  function Exposing(flat: seq<UIResource>, spec: Source<seq<SpecEntry>>): seq<UIResource> {
    if spec.Parsed? then PromoteAll(flat, spec.content) else flat
  }

  /** What the editor tells about documents and entries it does not take over. */
  datatype Warning =
    | BadDocument | Skipped(apiVersion: string, kind: string, name: string)
    | BadSpec | BadPath(path: string) | NoResource(kind: string, name: string)

  /** Documents that are no objects at all pass silently; an array counts as an object. */
  function DocWarning(d: Source<Value>): seq<Warning> {
    match d
    case Malformed => [BadDocument]
    case Parsed(Map(m)) => if Named(m) then [] else [Skipped(TextAt(m, "apiVersion"), TextAt(m, "kind"), TextAt(MetaOf(m), "name"))]
    case Parsed(Arr(_)) => [Skipped("", "", "")]
    case _ => []
  }

  function DocWarnings(docs: seq<Source<Value>>): seq<Warning> {
    if docs == [] then [] else DocWarnings(docs[..|docs| - 1]) + DocWarning(docs[|docs| - 1])
  }

  function EntryWarning(rs: seq<UIResource>, e: SpecEntry): seq<Warning> {
    match ParseEntryPath(e.path)
    case None => [BadPath(e.path)]
    case Some(head) => if FindResource(rs, head.kind, head.selector).None? then [NoResource(head.kind, head.selector)] else []
  }

  function EntryWarnings(rs: seq<UIResource>, es: seq<SpecEntry>): seq<Warning>
    decreases |es|
  {
    if es == [] then [] else EntryWarning(rs, es[0]) + EntryWarnings(Promote(rs, es[0]), es[1..])
  }

  function SpecWarnings(rs: seq<UIResource>, spec: Source<seq<SpecEntry>>): seq<Warning> {
    if spec.Parsed? then EntryWarnings(rs, spec.content) else [BadSpec]
  }

  /** A warning for every document and entry that is not taken over, and no others: an entry
      without one has turned the field it names into an exposed one. */
  lemma UnwarnedEntryCounts(rs: seq<UIResource>, e: SpecEntry)
    ensures EntryWarning(rs, e) == [] <==>
            exists i, s :: 0 <= i < |rs| && Promote(rs, e) == rs[i := rs[i].(fields := rs[i].fields[s := Exposed(Some(e))])]
              && ParseEntryPath(e.path) == Some(Head(rs[i].kind, rs[i].name, s))
  {
    if EntryWarning(rs, e) == [] {
      var head := ParseEntryPath(e.path).value;
      var i := FindResource(rs, head.kind, head.selector).value;
      assert Promote(rs, e) == rs[i := rs[i].(fields := rs[i].fields[head.rest := Exposed(Some(e))])];
    }
  }

  /** Opening a pair of texts in the editor. */
  method YamlToUIState(docs: seq<Source<Value>>, spec: Source<seq<SpecEntry>>)
    returns (rs: seq<UIResource>, warnings: seq<Warning>, ghost flat: seq<UIResource>)
    ensures ResourcesFor(Accepted(docs), flat) && rs == Exposing(flat, spec) && warnings == DocWarnings(docs) + SpecWarnings(flat, spec)
    ensures exists f :: ResourcesFor(Accepted(docs), f) && rs == Exposing(f, spec) && warnings == DocWarnings(docs) + SpecWarnings(f, spec)
  {
    rs, warnings := FlattenDocuments(docs);
    flat := rs;
    if spec.Malformed? { return rs, warnings + [BadSpec], flat; }
    var more;
    rs, more := PromoteEntries(rs, spec.content);
    warnings := warnings + more;
  }

  /** The second loop: entry by entry, a field is exposed or a warning given. */
  method PromoteEntries(flat: seq<UIResource>, entries: seq<SpecEntry>) returns (rs: seq<UIResource>, warnings: seq<Warning>)
    ensures rs == PromoteAll(flat, entries) && warnings == EntryWarnings(flat, entries)
  {
    rs, warnings := flat, [];
    for j := 0 to |entries|
      invariant PromoteAll(flat, entries) == PromoteAll(rs, entries[j..])
      invariant EntryWarnings(flat, entries) == warnings + EntryWarnings(rs, entries[j..])
    {
      assert entries[j..][0] == entries[j] && entries[j..][1..] == entries[j + 1..];
      WarnedOneMore(rs, entries[j..], warnings);
      var warning;
      rs, warning := PromoteEntry(rs, entries[j]);
      warnings := warnings + warning;
    }
    assert entries[0..] == entries;
  }

  method PromoteEntry(rs: seq<UIResource>, e: SpecEntry) returns (out: seq<UIResource>, warning: seq<Warning>)
    ensures out == Promote(rs, e) && warning == EntryWarning(rs, e)
  {
    var head := ParseEntryPath(e.path);
    if head.None? { return rs, [BadPath(e.path)]; }
    var found := FindResource(rs, head.value.kind, head.value.selector);
    if found.None? { return rs, [NoResource(head.value.kind, head.value.selector)]; }
    var i := found.value;
    out, warning := rs[i := rs[i].(fields := rs[i].fields[head.value.rest := Exposed(Some(e))])], [];
  }

  lemma WarnedOneMore(rs: seq<UIResource>, es: seq<SpecEntry>, more: seq<Warning>)
    requires es != []
    ensures more + EntryWarnings(rs, es) == (more + EntryWarning(rs, es[0])) + EntryWarnings(Promote(rs, es[0]), es[1..])
  {
  }

  /** The first loop: every parsed document becomes a resource or a warning, or passes silently. */
  method FlattenDocuments(docs: seq<Source<Value>>) returns (rs: seq<UIResource>, warnings: seq<Warning>)
    ensures ResourcesFor(Accepted(docs), rs) && warnings == DocWarnings(docs)
  {
    rs, warnings := [], [];
    for i := 0 to |docs|
      invariant ResourcesFor(Accepted(docs[..i]), rs) && warnings == DocWarnings(docs[..i])
    {
      assert docs[..i + 1][..i] == docs[..i];
      match docs[i] {
        case Malformed => warnings := warnings + [BadDocument];
        case Parsed(Map(m)) =>
          var r := ResourceOf(m);
          if r.Some? { rs := rs + [r.value]; }
          else { warnings := warnings + [Skipped(TextAt(m, "apiVersion"), TextAt(m, "kind"), TextAt(MetaOf(m), "name"))]; }
        case Parsed(Arr(_)) => warnings := warnings + [Skipped("", "", "")];
        case _ =>
      }
    }
    assert docs[..|docs|] == docs;
  }

  /** The entry path of a serialised field names that field again when it is read back. */
  lemma EntryPathReadsBack(r: UIResource, path: string)
    requires r.kind != "" && (forall i :: 0 <= i < |r.kind| ==> IsWordChar(r.kind[i]))
    requires r.name != "" && ']' !in r.name && path != "" && OneLine(path)
    ensures ParseEntryPath(EntryPath(r, path)) == Some(Head(r.kind, r.name, path))
  {
    var tail := "[" + r.name + "]" + ("." + path);
    EntrySpelling(r.kind, r.name, path);
    WordRunStops(r.kind, tail);
    Selected(r.name, "." + path);
    DotBehind(r.name, path);
  }

  /** Behind a word and a bracketed name everything is the field, as long as it is one line. */
  lemma EntryPathIsOneLine(kind: string, name: string, path: string)
    requires kind != "" && forall c :: c in kind ==> 'A' <= c <= 'Z' || 'a' <= c <= 'z' || '0' <= c <= '9' || c == '_'
    requires name != "" && ']' !in name
    ensures ParseEntryPath(kind + "[" + name + "]." + path) ==
            if path == "" || '\n' in path || '\r' in path || '\U{2028}' in path || '\U{2029}' in path then None
            else Some(Head(kind, name, path))
  {
    forall i | 0 <= i < |kind| ensures IsWordChar(kind[i]) { assert kind[i] in kind; }
    WordRunStops(kind, "[" + name + "]" + ("." + path));
    EntrySpelling(kind, name, path);
    Selected(name, "." + path);
    DotBehind(name, path);
    LineBreaks(path);
  }

  lemma LineBreaks(s: string)
    ensures OneLine(s) <==> !('\n' in s || '\r' in s || '\U{2028}' in s || '\U{2029}' in s)
  {
    if OneLine(s) {
      forall c | c in s ensures c !in {'\n', '\r', '\U{2028}', '\U{2029}'} {
        var i :| 0 <= i < |s| && s[i] == c;
      }
    }
  }

  lemma WordRunStops(kind: string, tail: string)
    requires forall i :: 0 <= i < |kind| ==> IsWordChar(kind[i])
    requires tail != "" && tail[0] == '['
    ensures WordRun(kind + tail) == |kind| && (kind + tail)[..|kind|] == kind && (kind + tail)[|kind|..] == tail
  {
    IdentRunStops(kind, tail);
  }

  lemma DotBehind(name: string, path: string)
    ensures
      var tail := "[" + name + "]" + ("." + path);
      tail[|name| + 2] == '.' && tail[|name| + 3..] == path
  {
  }

  /** Resources the entry paths can tell apart. */
  ghost predicate Addressed(rs: seq<UIResource>) {
    && (forall i :: 0 <= i < |rs| ==>
          && rs[i].kind != "" && (forall c :: c in rs[i].kind ==> IsWordChar(c))
          && rs[i].name != "" && ']' !in rs[i].name
          && forall s :: s in rs[i].fields ==> s != "" && OneLine(s))
    && (forall i, j :: 0 <= i < j < |rs| ==> !(rs[i].kind == rs[j].kind && rs[i].name == rs[j].name))
  }

  ghost predicate SameIdentity(rs: seq<UIResource>, flat: seq<UIResource>) {
    |flat| == |rs| && forall i :: 0 <= i < |rs| ==> flat[i].kind == rs[i].kind && flat[i].name == rs[i].name
  }

  /** `e` is the entry of field `s` of resource `i`. */
  ghost predicate EntryOf(rs: seq<UIResource>, e: SpecEntry, i: nat, s: string) {
    i < |rs| && s in rs[i].fields && e.path == EntryPath(rs[i], s)
      && rs[i].fields[s].Exposed? && rs[i].fields[s].spec.Some? && e == rs[i].fields[s].spec.value.(path := e.path)
  }

  ghost predicate FieldsAfter(rs: seq<UIResource>, es: seq<SpecEntry>, flat: seq<UIResource>, out: seq<UIResource>) {
    SameIdentity(flat, out) && |flat| == |rs| && forall i, s :: 0 <= i < |rs| ==> FieldAfter(rs, es, flat, out, i, s)
  }

  ghost predicate FieldAfter(rs: seq<UIResource>, es: seq<SpecEntry>, flat: seq<UIResource>, out: seq<UIResource>, i: nat, s: string)
    requires i < |rs| == |flat| == |out|
  {
    if Listed(rs, es, i, s)
    then s in out[i].fields && out[i].fields[s] == Exposed(Some(rs[i].fields[s].spec.value.(path := EntryPath(rs[i], s))))
    else (s in out[i].fields <==> s in flat[i].fields) && (s in flat[i].fields ==> out[i].fields[s] == flat[i].fields[s])
  }

  lemma PromoteOne(rs: seq<UIResource>, flat: seq<UIResource>, e: SpecEntry, i: nat, s: string)
    requires Addressed(rs) && SameIdentity(rs, flat) && EntryOf(rs, e, i, s)
    ensures Promote(flat, e) == flat[i := flat[i].(fields := flat[i].fields[s := Exposed(Some(e))])]
  {
    assert forall j :: 0 <= j < |rs[i].kind| ==> rs[i].kind[j] in rs[i].kind;
    EntryPathReadsBack(rs[i], s);
    var found := FindResource(flat, rs[i].kind, rs[i].name);
    assert flat[i].kind == rs[i].kind && flat[i].name == rs[i].name;
    assert found.Some?;
    assert found.value == i by {
      var j := found.value;
      assert flat[j].kind == rs[j].kind && flat[j].name == rs[j].name;
    }
  }

  lemma OneEntryOneField(rs: seq<UIResource>, e: SpecEntry, i: nat, s: string, j: nat, u: string)
    requires Addressed(rs) && EntryOf(rs, e, i, s) && EntryOf(rs, e, j, u)
    ensures i == j && s == u
  {
    assert forall x :: 0 <= x < |rs[i].kind| ==> rs[i].kind[x] in rs[i].kind;
    assert forall x :: 0 <= x < |rs[j].kind| ==> rs[j].kind[x] in rs[j].kind;
    EntryPathReadsBack(rs[i], s);
    EntryPathReadsBack(rs[j], u);
  }

  ghost predicate Listed(rs: seq<UIResource>, es: seq<SpecEntry>, i: nat, s: string) {
    exists e :: e in es && EntryOf(rs, e, i, s)
  }

  lemma ListedOneMore(rs: seq<UIResource>, es: seq<SpecEntry>, i: nat, s: string, j: nat, u: string)
    requires Addressed(rs) && es != [] && EntryOf(rs, es[0], i, s)
    ensures Listed(rs, es, j, u) <==> (j == i && u == s) || Listed(rs, es[1..], j, u)
  {
    assert forall y :: y in es <==> y == es[0] || y in es[1..];
    if Listed(rs, es, j, u) && !Listed(rs, es[1..], j, u) {
      OneEntryOneField(rs, es[0], i, s, j, u);
    }
  }

  /** Promoting the entries of `rs` exposes exactly the fields they came from. */
  lemma {:induction false} PromotedFields(rs: seq<UIResource>, flat: seq<UIResource>, es: seq<SpecEntry>)
    requires Addressed(rs) && SameIdentity(rs, flat)
    requires forall e :: e in es ==> exists i, s :: EntryOf(rs, e, i, s)
    ensures FieldsAfter(rs, es, flat, PromoteAll(flat, es))
    decreases |es|
  {
    if es != [] {
      var e := es[0];
      assert e in es;
      var i, s :| EntryOf(rs, e, i, s);
      PromoteOne(rs, flat, e, i, s);
      assert forall x :: x in es[1..] ==> x in es;
      PromotedFields(rs, Promote(flat, e), es[1..]);
      OneMorePromoted(rs, flat, es, i, s);
    }
  }

  lemma OneMorePromoted(rs: seq<UIResource>, flat: seq<UIResource>, es: seq<SpecEntry>, i: nat, s: string)
    requires Addressed(rs) && SameIdentity(rs, flat) && es != [] && EntryOf(rs, es[0], i, s)
    requires Promote(flat, es[0]) == flat[i := flat[i].(fields := flat[i].fields[s := Exposed(Some(es[0]))])]
    requires FieldsAfter(rs, es[1..], Promote(flat, es[0]), PromoteAll(flat, es))
    ensures FieldsAfter(rs, es, flat, PromoteAll(flat, es))
  {
    forall j, u | 0 <= j < |rs| ensures FieldAfter(rs, es, flat, PromoteAll(flat, es), j, u) {
      assert FieldAfter(rs, es[1..], Promote(flat, es[0]), PromoteAll(flat, es), j, u);
      ListedOneMore(rs, es, i, s, j, u);
    }
  }

  lemma {:induction false} EntriesOfResource(r: UIResource, order: seq<string>, doc: Value, entries: seq<SpecEntry>)
    requires forall s :: s in order ==> s in r.fields
    requires WriteFields(r, order, doc, entries).Document?
    ensures
      var es := WriteFields(r, order, doc, entries).entries;
      && entries <= es
      && (forall s :: s in order && r.fields[s].Exposed? ==>
            r.fields[s].spec.Some? && r.fields[s].spec.value.(path := EntryPath(r, s)) in es)
      && (forall e :: e in es ==> e in entries || exists s :: s in order && EntryOf([r], e, 0, s))
    decreases |order|
  {
    if order != [] {
      var s := order[0];
      var first := WriteField(r, s, doc, entries);
      EntriesOfResource(r, order[1..], first.doc, first.entries);
      var es := WriteFields(r, order, doc, entries).entries;
      assert order == [s] + order[1..];
      if r.fields[s].Exposed? {
        var e := r.fields[s].spec.value.(path := EntryPath(r, s));
        assert first.entries == entries + [e] && e in first.entries;
        assert EntryOf([r], e, 0, s) && s in order;
        assert forall x :: x in es[..|first.entries|] ==> x in es;
        assert es[..|first.entries|] == first.entries;
        assert entries <= es;
      }
    }
  }

  ghost predicate ExposedListed(r: UIResource, es: seq<SpecEntry>) {
    forall s :: s in r.fields && r.fields[s].Exposed? ==> r.fields[s].spec.Some? && r.fields[s].spec.value.(path := EntryPath(r, s)) in es
  }

  ghost predicate HasOwner(rs: seq<UIResource>, e: SpecEntry) {
    exists i, s :: EntryOf(rs, e, i, s)
  }

  lemma OwnersOneMore(rs: seq<UIResource>, before: seq<SpecEntry>, es: seq<SpecEntry>)
    requires rs != []
    requires forall e :: e in before ==> HasOwner(rs[..|rs| - 1], e)
    requires forall e :: e in es ==> e in before || HasOwner([rs[|rs| - 1]], e)
    ensures forall e :: e in es ==> HasOwner(rs, e)
  {
    var n := |rs| - 1;
    forall e | e in es ensures HasOwner(rs, e) {
      if e in before {
        var i, s :| EntryOf(rs[..n], e, i, s);
        assert EntryOf(rs, e, i, s);
      } else {
        var i, s :| EntryOf([rs[n]], e, i, s);
        assert EntryOf(rs, e, n, s);
      }
    }
  }

  lemma ExposuresOneMore(rs: seq<UIResource>, first: seq<UIResource>, before: seq<SpecEntry>, es: seq<SpecEntry>)
    requires rs != [] && first == rs[..|rs| - 1] && before <= es && ExposedListed(rs[|rs| - 1], es)
    requires forall i :: 0 <= i < |first| ==> ExposedListed(first[i], before)
    ensures forall i :: 0 <= i < |rs| ==> ExposedListed(rs[i], es)
  {
    forall i | 0 <= i < |rs| ensures ExposedListed(rs[i], es) {
      if i < |rs| - 1 {
        assert ExposedListed(first[i], before);
        assert forall e :: e in before ==> e in es;
      }
    }
  }

  lemma OwnEntries(r: UIResource, order: seq<string>)
    requires KeyOrder(order, r.fields.Keys) && SerializeIn(r, order).Document?
    ensures ExposedListed(r, SerializeIn(r, order).entries)
    ensures forall e :: e in SerializeIn(r, order).entries ==> HasOwner([r], e)
  {
    EntriesOfResource(r, order, Base(r), []);
  }

  /** Serialising lists an entry for every exposed field and no others. */
  lemma {:induction false} EntriesOfAll(rs: seq<UIResource>, orders: seq<seq<string>>)
    requires OrdersFor(rs, orders) && SerializeAllIn(rs, orders).Pair?
    ensures forall i :: 0 <= i < |rs| ==> ExposedListed(rs[i], SerializeAllIn(rs, orders).entries)
    ensures forall e :: e in SerializeAllIn(rs, orders).entries ==> HasOwner(rs, e)
    decreases |rs|
  {
    if rs != [] {
      var n := |rs| - 1;
      EntriesOfAll(rs[..n], orders[..n]);
      var before, own := SerializeAllIn(rs[..n], orders[..n]).entries, SerializeIn(rs[n], orders[n]).entries;
      OwnEntries(rs[n], orders[n]);
      OwnersOneMore(rs, before, before + own);
      ExposuresOneMore(rs, rs[..n], before, before + own);
    }
  }

  /** Exposures survive serialising and reopening: whatever the documents flatten to, the
      fields exposed afterwards in the resources of the same names are exactly those exposed
      before, each with its own entry, and the others stay as the flattening left them. */
  lemma ExposuresSurvive(rs: seq<UIResource>, orders: seq<seq<string>>, flat: seq<UIResource>)
    requires OrdersFor(rs, orders) && SerializeAllIn(rs, orders).Pair?
    requires Addressed(rs) && SameIdentity(rs, flat)
    ensures
      var out := PromoteAll(flat, SerializeAllIn(rs, orders).entries);
      SameIdentity(rs, out) && forall i, s :: 0 <= i < |rs| ==> Reopened(rs[i], flat[i], out[i], s)
  {
    var es := SerializeAllIn(rs, orders).entries;
    EntriesOfAll(rs, orders);
    forall e | e in es ensures exists i, s :: EntryOf(rs, e, i, s) { assert HasOwner(rs, e); }
    PromotedFields(rs, flat, es);
    forall i, s | 0 <= i < |rs| ensures Reopened(rs[i], flat[i], PromoteAll(flat, es)[i], s) {
      if s in rs[i].fields && rs[i].fields[s].Exposed? {
        assert ExposedListed(rs[i], es);
        var e := rs[i].fields[s].spec.value.(path := EntryPath(rs[i], s));
        assert e in es && EntryOf(rs, e, i, s);
      }
      assert FieldAfter(rs, es, flat, PromoteAll(flat, es), i, s);
    }
  }

  /** The field `s` of the reopened resource `out`: exposed again if it was, else as flattened. */
  ghost predicate Reopened(r: UIResource, flat: UIResource, out: UIResource, s: string) {
    if s in r.fields && r.fields[s].Exposed?
    then r.fields[s].spec.Some? && s in out.fields && out.fields[s] == Exposed(Some(r.fields[s].spec.value.(path := EntryPath(r, s))))
    else (s in out.fields <==> s in flat.fields) && (s in flat.fields ==> out.fields[s] == flat.fields[s])
  }
}
