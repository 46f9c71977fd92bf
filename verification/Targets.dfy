/** The head of a ui-spec path, `Kind[selector].rest`, and the document it picks. */
module Targets {
  import opened Values
  import opened PathGrammar

  predicate IsLetter(c: char) {
    'A' <= c <= 'Z' || 'a' <= c <= 'z'
  }

  function LetterRun(s: string): (n: nat)
    ensures n <= |s| && (forall i :: 0 <= i < n ==> IsLetter(s[i])) && (n < |s| ==> !IsLetter(s[n]))
  {
    if s != "" && IsLetter(s[0]) then 1 + LetterRun(s[1..]) else 0
  }

  /** Where `c` first occurs, or the length. */
  function IndexOf(s: string, c: char): (n: nat)
    ensures n <= |s| && (forall i :: 0 <= i < n ==> s[i] != c) && (n < |s| ==> s[n] == c)
  {
    if s != "" && s[0] != c then 1 + IndexOf(s[1..], c) else 0
  }

  datatype Head = Head(kind: string, selector: string, rest: string)

  /** A capitalised kind of at least two letters, an optional bracketed selector, and one line of rest. */
  function ParseHead(p: string): Option<Head> {
    var n := LetterRun(p);
    if n < 2 || !('A' <= p[0] <= 'Z') then None else ParseSelector(p[..n], p[n..])
  }

  function ParseSelector(kind: string, tail: string): Option<Head> {
    var close := IndexOf(tail, ']');
    var selected := tail != "" && tail[0] == '[' && 2 <= close < |tail|;
    var rest := if selected then tail[close + 1..] else tail;
    if '\n' in rest then None
    else Some(Head(kind, if selected then tail[1..close] else "", TrimDot(rest)))
  }

  /** Kinds the head grammar can express. */
  predicate IsKind(s: string) {
    |s| >= 2 && 'A' <= s[0] <= 'Z' && forall i :: 0 <= i < |s| ==> IsLetter(s[i])
  }

  lemma {:induction false} LetterRunStops(k: string, s: string)
    requires forall i :: 0 <= i < |k| ==> IsLetter(k[i])
    requires s == "" || !IsLetter(s[0])
    ensures LetterRun(k + s) == |k|
    decreases |k|
  {
    if k == "" {
      assert k + s == s;
    } else {
      assert (k + s)[1..] == k[1..] + s;
      LetterRunStops(k[1..], s);
    }
  }

  lemma {:induction false} IndexOfStops(k: string, c: char, s: string)
    requires c !in k
    ensures IndexOf(k + [c] + s, c) == |k|
    decreases |k|
  {
    if k == "" {
      assert k + [c] + s == [c] + s;
    } else {
      assert (k + [c] + s)[0] == k[0] && (k + [c] + s)[1..] == k[1..] + [c] + s;
      IndexOfStops(k[1..], c, s);
    }
  }

  /** The head grammar on a kind followed by `tail`. */
  lemma HeadOf(kind: string, tail: string)
    requires IsKind(kind) && (tail == "" || !IsLetter(tail[0]))
    ensures LetterRun(kind + tail) == |kind| && (kind + tail)[..|kind|] == kind && (kind + tail)[|kind|..] == tail
  {
    LetterRunStops(kind, tail);
  }

  lemma Selected(name: string, rest: string)
    requires name != "" && ']' !in name
    ensures
      var tail := "[" + name + "]" + rest;
      IndexOf(tail, ']') == |name| + 1 && tail[1..|name| + 1] == name && tail[|name| + 2..] == rest
  {
    var tail := "[" + name + "]" + rest;
    assert tail == ("[" + name) + [']'] + rest;
    IndexOfStops("[" + name, ']', rest);
  }

  lemma RegroupText(a: string, b: string, c: string, x: string, y: string, e: string)
    ensures a + b + c + (x + y) + e == a + ((b + c + x) + (y + e))
  {
  }

  /** How an entry path is put together. */
  lemma EntrySpelling(kind: string, name: string, path: string)
    ensures kind + "[" + name + "]." + path == kind + ("[" + name + "]" + ("." + path))
  {
    RegroupText(kind, "[", name, "]", ".", path);
    assert "]" + "." == "].";
  }

  /** The head grammar reads back what the serialiser writes. */
  lemma HeadReadsBack(kind: string, name: string, path: string)
    requires IsKind(kind) && name != "" && ']' !in name && '\n' !in path
    ensures ParseHead(kind + "[" + name + "]." + path) == Some(Head(kind, name, path))
  {
    var tail := "[" + name + "]" + ("." + path);
    HeadOf(kind, tail);
    SelectorReadsBack(kind, name, path);
    EntrySpelling(kind, name, path);
  }

  /** A path with a line break is no path of the head grammar. */
  lemma HeadNeedsOneLine(kind: string, name: string, path: string)
    requires IsKind(kind) && name != "" && ']' !in name && '\n' in path
    ensures ParseHead(kind + "[" + name + "]." + path) == None
  {
    var rest := "." + path;
    HeadOf(kind, "[" + name + "]" + rest);
    Selected(name, rest);
    EntrySpelling(kind, name, path);
    var i :| 0 <= i < |path| && path[i] == '\n';
    assert rest[i + 1] == '\n';
  }

  lemma SelectorReadsBack(kind: string, name: string, path: string)
    requires name != "" && ']' !in name && '\n' !in path
    ensures ParseSelector(kind, "[" + name + "]" + ("." + path)) == Some(Head(kind, name, path))
  {
    Selected(name, "." + path);
    DotTrimmed(path);
  }

  lemma DotTrimmed(path: string)
    requires '\n' !in path
    ensures TrimDot("." + path) == path && '\n' !in "." + path
  {
  }

  // --- Finding the document ---

  /** `strconv.Atoi`: an optional sign and decimal digits, within 64 bits. */
  function Atoi(s: string): Option<int> {
    var signed := s != "" && (s[0] == '-' || s[0] == '+');
    var digits := if signed then s[1..] else s;
    if digits == "" || !AllDigits(digits) then None
    else
      var size: int := Number(digits);
      var n := if signed && s[0] == '-' then -size else size;
      if -MAX_INT - 1 <= n <= MAX_INT then Some(n) else None
  }

  type Doc = map<string, Value>

  predicate HasText(m: map<string, Value>, k: string, s: string) {
    k in m && m[k] == Leaf(Str(s))
  }

  predicate IsNamed(d: Doc, name: string) {
    "metadata" in d && d["metadata"].Map? && HasText(d["metadata"].m, "name", name)
  }

  /** The documents of a kind, by position and in order. */
  function OfKind(docs: seq<Doc>, kind: string): (r: seq<nat>)
    ensures forall j :: 0 <= j < |r| ==> r[j] < |docs| && HasText(docs[r[j]], "kind", kind)
    ensures forall i :: 0 <= i < |docs| && HasText(docs[i], "kind", kind) ==> i in r
  {
    if docs == [] then []
    else
      var n := |docs| - 1;
      OfKind(docs[..n], kind) + if HasText(docs[n], "kind", kind) then [n] else []
  }

  function FirstNamed(docs: seq<Doc>, among: seq<nat>, name: string): (r: Option<nat>)
    requires forall j :: 0 <= j < |among| ==> among[j] < |docs|
    ensures r.Some? ==> r.value in among && IsNamed(docs[r.value], name)
    ensures r.None? ==> forall i :: i in among ==> !IsNamed(docs[i], name)
  {
    if among == [] then None
    else if IsNamed(docs[among[0]], name) then Some(among[0])
    else FirstNamed(docs, among[1..], name)
  }

  /** Which document a selector means: the only one of its kind, or one by position among
      those of its kind, or one by name, in this order. */
  function FindDoc(docs: seq<Doc>, kind: string, selector: string): (r: Option<nat>)
    ensures r.Some? ==> r.value < |docs| && HasText(docs[r.value], "kind", kind)
  {
    var matches := OfKind(docs, kind);
    if selector == "" && |matches| == 1 then Some(matches[0])
    else if Atoi(selector).Some? && 0 <= Atoi(selector).value < |matches| then Some(matches[Atoi(selector).value])
    else FirstNamed(docs, matches, selector)
  }

  lemma OfKindOneMore(docs: seq<Doc>, kind: string, i: nat)
    requires i < |docs|
    ensures OfKind(docs[..i + 1], kind) == OfKind(docs[..i], kind) + if HasText(docs[i], "kind", kind) then [i] else []
  {
    assert docs[..i + 1][..i] == docs[..i];
  }

  /** The name does not read as a position, or reads as the position `i` has among its kind. */
  predicate NameMeans(positions: seq<nat>, name: string, i: nat) {
    Atoi(name).Some? && 0 <= Atoi(name).value < |positions| ==> positions[Atoi(name).value] == i
  }

  /** The only document of its kind and name is found by that name exactly when the name, read
      as a position among the documents of that kind, does not lead to another one. */
  lemma FindsByName(docs: seq<Doc>, kind: string, name: string, i: nat)
    requires i < |docs| && HasText(docs[i], "kind", kind) && IsNamed(docs[i], name) && name != ""
    requires forall j :: 0 <= j < |docs| && HasText(docs[j], "kind", kind) && IsNamed(docs[j], name) ==> j == i
    ensures FindDoc(docs, kind, name) == Some(i) <==> NameMeans(OfKind(docs, kind), name, i)
  {
  }

  function SecretNamed(name: string): Doc {
    map["kind" := Leaf(Str("Secret")), "metadata" := Map(map["name" := Leaf(Str(name))])]
  }

  /** A numeric name is taken as a position first, and may pick another document. */
  lemma NumericNameIsAPosition(other: string)
    requires other != "0"
    ensures
      var docs := [SecretNamed(other), SecretNamed("0")];
      FindDoc(docs, "Secret", "0") == Some(0) && IsNamed(docs[1], "0") && !IsNamed(docs[0], "0")
  {
    TwoSecrets(other, "0");
    assert "0"[..0] == "" && Number("0") == 0;
    assert Atoi("0") == Some(0);
  }

  lemma TwoSecrets(a: string, b: string)
    ensures OfKind([SecretNamed(a), SecretNamed(b)], "Secret") == [0, 1]
  {
    var docs := [SecretNamed(a), SecretNamed(b)];
    OfKindOneMore(docs, "Secret", 0);
    OfKindOneMore(docs, "Secret", 1);
    assert docs[..0] == [] && docs[..2] == docs;
  }

  // --- Paths without a selector, and selectors that are positions ---

  /** `s` is a capital letter followed by one or more letters. */
  predicate Capitalised(s: string) {
    |s| >= 2 && 'A' <= s[0] <= 'Z' && forall c :: c in s ==> 'A' <= c <= 'Z' || 'a' <= c <= 'z'
  }

  lemma CapitalisedIsKind(s: string)
    ensures IsKind(s) <==> Capitalised(s)
  {
    if Capitalised(s) {
      forall i | 0 <= i < |s| ensures IsLetter(s[i]) { assert s[i] in s; }
    }
    if IsKind(s) {
      forall c | c in s ensures IsLetter(c) {
        var i :| 0 <= i < |s| && s[i] == c;
      }
    }
  }

  /** The selector may be left out: the kind is followed by a dot and the path. */
  lemma HeadWithoutSelector(kind: string, path: string)
    requires Capitalised(kind) && '\n' !in path
    ensures ParseHead(kind + ("." + path)) == Some(Head(kind, "", path))
  {
    CapitalisedIsKind(kind);
    HeadOf(kind, "." + path);
    DotTrimmed(path);
  }

  /** A text whose first letters are no capitalised kind is no path. */
  lemma HeadNeedsKind(letters: string, tail: string)
    requires forall c :: c in letters ==> 'A' <= c <= 'Z' || 'a' <= c <= 'z'
    requires tail == "" || !('A' <= tail[0] <= 'Z' || 'a' <= tail[0] <= 'z')
    requires |letters| < 2 || 'a' <= letters[0] <= 'z'
    ensures ParseHead(letters + tail) == None
  {
    forall i | 0 <= i < |letters| ensures IsLetter(letters[i]) { assert letters[i] in letters; }
    LetterRunStops(letters, tail);
    if letters != "" { assert (letters + tail)[0] == letters[0]; }
  }

  predicate OfThatKind(d: Doc, kind: string) {
    "kind" in d && d["kind"] == Leaf(Str(kind))
  }

  /** How many documents of the kind there are. */
  function CountKind(docs: seq<Doc>, kind: string): nat {
    if docs == [] then 0 else CountKind(docs[..|docs| - 1], kind) + if OfThatKind(docs[|docs| - 1], kind) then 1 else 0
  }

  lemma {:induction false} KindAt(docs: seq<Doc>, kind: string, i: nat)
    requires i < |docs| && OfThatKind(docs[i], kind)
    ensures |OfKind(docs, kind)| == CountKind(docs, kind)
    ensures CountKind(docs[..i], kind) < |OfKind(docs, kind)| && OfKind(docs, kind)[CountKind(docs[..i], kind)] == i
    decreases |docs|
  {
    var n := |docs| - 1;
    KindCount(docs, kind);
    KindCount(docs[..n], kind);
    if i < n {
      KindAt(docs[..n], kind, i);
      assert docs[..n][..i] == docs[..i];
    }
  }

  lemma {:induction false} KindCount(docs: seq<Doc>, kind: string)
    ensures |OfKind(docs, kind)| == CountKind(docs, kind)
    decreases |docs|
  {
    if docs != [] { KindCount(docs[..|docs| - 1], kind); }
  }

  /** Without a selector, the only document of its kind is meant. */
  lemma FindsOnlyOne(docs: seq<Doc>, kind: string, i: nat)
    requires i < |docs| && OfThatKind(docs[i], kind) && CountKind(docs, kind) == 1
    ensures FindDoc(docs, kind, "") == Some(i)
  {
    KindAt(docs, kind, i);
  }

  /** A number means the document with that many of its kind before it, except that a kind
      with too few documents is searched by name. */
  lemma FindsByPosition(docs: seq<Doc>, kind: string, i: nat)
    requires i < |docs| && OfThatKind(docs[i], kind) && CountKind(docs[..i], kind) <= 0x7FFF_FFFF_FFFF_FFFF
    ensures FindDoc(docs, kind, Decimal(CountKind(docs[..i], kind))) == Some(i)
  {
    KindAt(docs, kind, i);
    DecimalIsPlain(CountKind(docs[..i], kind));
  }

  /** A decimal text has no sign. */
  lemma DecimalIsPlain(n: nat)
    requires n <= 0x7FFF_FFFF_FFFF_FFFF
    ensures Atoi(Decimal(n)) == Some(n)
  {
    NumberOfDecimal(n);
    assert IsDigit(Decimal(n)[0]);
  }

  /** Nothing of the kind: nothing is meant. */
  lemma FindsNothing(docs: seq<Doc>, kind: string, selector: string)
    requires forall i :: 0 <= i < |docs| ==> !OfThatKind(docs[i], kind)
    ensures FindDoc(docs, kind, selector) == None
  {
  }
}
