/** The path grammar both writers share: `a.b[0].c`. */
module PathGrammar {
  import opened Values

  predicate IsIdentStart(c: char) {
    'A' <= c <= 'Z' || 'a' <= c <= 'z' || c == '_'
  }

  predicate IsDigit(c: char) {
    '0' <= c <= '9'
  }

  predicate IsIdentChar(c: char) {
    IsIdentStart(c) || IsDigit(c)
  }

  predicate IsIdent(s: string) {
    s != "" && IsIdentStart(s[0]) && forall i :: 0 <= i < |s| ==> IsIdentChar(s[i])
  }

  /** Length of the longest run of identifier characters (or digits) at the front. */
  function IdentRun(s: string): (n: nat)
    ensures n <= |s| && (forall i :: 0 <= i < n ==> IsIdentChar(s[i])) && (n < |s| ==> !IsIdentChar(s[n]))
  {
    if s != "" && IsIdentChar(s[0]) then 1 + IdentRun(s[1..]) else 0
  }

  function DigitRun(s: string): (n: nat)
    ensures n <= |s| && (forall i :: 0 <= i < n ==> IsDigit(s[i])) && (n < |s| ==> !IsDigit(s[n]))
  {
    if s != "" && IsDigit(s[0]) then 1 + DigitRun(s[1..]) else 0
  }

  predicate AllDigits(s: string) {
    forall i :: 0 <= i < |s| ==> IsDigit(s[i])
  }

  function Number(s: string): nat
    requires AllDigits(s)
  {
    if s == "" then 0 else 10 * Number(s[..|s| - 1]) + (s[|s| - 1] as int - '0' as int)
  }

  /** Decimal text of an index. */
  function Decimal(n: nat): (s: string)
    ensures s != "" && AllDigits(s)
  {
    if n < 10 then [('0' as int + n) as char] else Decimal(n / 10) + [('0' as int + n % 10) as char]
  }

  lemma {:induction false} NumberOfDecimal(n: nat)
    ensures Number(Decimal(n)) == n
  {
    if n >= 10 {
      NumberOfDecimal(n / 10);
      var s := Decimal(n);
      assert s[..|s| - 1] == Decimal(n / 10);
    }
  }

  /** 64-bit `int`, as the server is built. */
  const MAX_INT := 0x7FFF_FFFF_FFFF_FFFF

  /** `strconv.Atoi` of an all-digit string with its error ignored: it saturates. */
  function AtoiDigits(s: string): nat
    requires AllDigits(s)
  {
    if Number(s) > MAX_INT then MAX_INT else Number(s)
  }

  /** The segment at the front of `s` with the number of characters it takes, if one matches. */
  function FirstSeg(s: string): (r: Option<(Seg, nat)>)
    ensures r.Some? ==> 1 <= r.value.1 <= |s|
    ensures r.Some? && r.value.0.Key? ==> IsIdent(r.value.0.k)
  {
    if s == "" then None
    else if IsIdentStart(s[0]) then Some((Key(s[..IdentRun(s)]), IdentRun(s)))
    else if s[0] == '[' then
      var n := DigitRun(s[1..]);
      if n >= 1 && 1 + n < |s| && s[1 + n] == ']' then Some((Idx(AtoiDigits(s[1..1 + n])), n + 2)) else None
    else None
  }

  function TrimDot(s: string): (r: string)
    ensures |r| <= |s|
  {
    if s != "" && s[0] == '.' then s[1..] else s
  }

  /** All segments of a path text. */
  function Tokens(s: string): (r: Result<Path>)
    ensures r.Ok? ==> forall i :: 0 <= i < |r.v| && r.v[i].Key? ==> IsIdent(r.v[i].k)
    ensures s != "" && r.Ok? ==> r.v != []
    decreases |s|
  {
    if s == "" then Ok([])
    else match FirstSeg(s)
      case None => Err(BadRemainder)
      case Some((seg, n)) =>
        Prepend([seg], Tokens(TrimDot(s[n..])))
  }

  /** The path a text stands for. */
  function PathOf(s: string): Path {
    if Tokens(s).Ok? then Tokens(s).v else []
  }

  function Prepend(segs: Path, r: Result<Path>): Result<Path> {
    match r
    case Err(e) => Err(e)
    case Ok(p) => Ok(segs + p)
  }

  lemma PrependTwice(p: Path, q: Path, r: Result<Path>)
    ensures Prepend(p, Prepend(q, r)) == Prepend(p + q, r)
  {
    if r.Ok? {
      assert p + (q + r.v) == (p + q) + r.v;
    }
  }

  /** One turn of the tokenizer loop. */
  lemma OneSegment(segs: Path, rest: string)
    requires rest != "" && FirstSeg(rest).Some?
    ensures
      var (seg, n) := FirstSeg(rest).value;
      Prepend(segs, Tokens(rest)) == Prepend(segs + [seg], Tokens(TrimDot(rest[n..])))
  {
    var (seg, n) := FirstSeg(rest).value;
    PrependTwice(segs, [seg], Tokens(TrimDot(rest[n..])));
  }

  /** The tokenizer loop of the growing writer. */
  method Tokenize(path: string) returns (r: Result<Path>)
    ensures r == Tokens(path)
  {
    var segs: Path := [];
    var rest := path;
    assert Tokens(path).Ok? ==> [] + Tokens(path).v == Tokens(path).v;
    while rest != ""
      invariant Tokens(path) == Prepend(segs, Tokens(rest))
      decreases |rest|
    {
      var m := FirstSeg(rest);
      match m {
        case None => return Err(BadRemainder);
        case Some((seg, n)) =>
          var tail := TrimDot(rest[n..]);
          OneSegment(segs, rest);
          segs, rest := segs + [seg], tail;
      }
    }
    assert segs + [] == segs;
    r := Ok(segs);
  }

  // --- Building path texts ---

  /** The text of `path` extended by one step, as the flattening writes it. */
  function Extend(path: string, step: Seg): string {
    match step
    case Key(k) => if path == "" then k else path + "." + k
    case Idx(i) => path + "[" + Decimal(i) + "]"
  }

  function PathText(path: string, p: Path): string
    decreases |p|
  {
    if p == [] then path else PathText(Extend(path, p[0]), p[1..])
  }

  /** Steps the grammar can express: identifier keys, indices within `int`. */
  predicate Expressible(p: Path) {
    forall i :: 0 <= i < |p| ==> match p[i] case Key(k) => IsIdent(k) case Idx(n) => n <= MAX_INT
  }

  /** The text that follows a non-empty path when `p` is appended to it. */
  function Suffix(p: Path): string
    decreases |p|
  {
    if p == [] then ""
    else (match p[0] case Key(k) => "." + k case Idx(i) => "[" + Decimal(i) + "]") + Suffix(p[1..])
  }

  lemma {:induction false} PathTextIsSuffix(path: string, p: Path)
    requires path != ""
    ensures PathText(path, p) == path + Suffix(p)
    decreases |p|
  {
    if p != [] {
      PathTextIsSuffix(Extend(path, p[0]), p[1..]);
    }
  }

  lemma {:induction false} IdentRunStops(k: string, s: string)
    requires forall i :: 0 <= i < |k| ==> IsIdentChar(k[i])
    requires s == "" || !IsIdentChar(s[0])
    ensures IdentRun(k + s) == |k|
    decreases |k|
  {
    if k == "" {
      assert k + s == s;
    } else {
      assert (k + s)[1..] == k[1..] + s;
      IdentRunStops(k[1..], s);
    }
  }

  lemma {:induction false} DigitRunStops(k: string, s: string)
    requires AllDigits(k) && s != "" && !IsDigit(s[0])
    ensures DigitRun(k + s) == |k|
    decreases |k|
  {
    if k == "" {
      assert k + s == s;
    } else {
      assert (k + s)[1..] == k[1..] + s;
      DigitRunStops(k[1..], s);
    }
  }

  lemma KeyAtFront(k: string, tail: string)
    requires IsIdent(k) && (tail == "" || !IsIdentChar(tail[0]))
    ensures Tokens(k + tail) == Prepend([Key(k)], Tokens(TrimDot(tail)))
  {
    IdentRunStops(k, tail);
    assert (k + tail)[..|k|] == k && (k + tail)[|k|..] == tail;
  }

  lemma IndexAtFront(i: nat, tail: string)
    requires i <= MAX_INT
    ensures Tokens("[" + Decimal(i) + "]" + tail) == Prepend([Idx(i)], Tokens(TrimDot(tail)))
  {
    var d := Decimal(i);
    NumberOfDecimal(i);
    DigitRunStops(d, "]" + tail);
    BracketParts(d, tail);
    assert FirstSeg("[" + d + "]" + tail) == Some((Idx(i), |d| + 2));
  }

  lemma TrimmedSuffix(p: Path)
    requires p != []
    ensures TrimDot(Suffix(p)) ==
            (match p[0] case Key(k) => k case Idx(i) => "[" + Decimal(i) + "]") + Suffix(p[1..])
    ensures Suffix(p)[0] == '.' || Suffix(p)[0] == '['
  {
    var tail := Suffix(p[1..]);
    match p[0]
    case Key(k) => assert "." + k + tail == "." + (k + tail);
    case Idx(i) =>
  }

  /** Tokenizing undoes the writing of any suffix. */
  lemma {:induction false} TokensOfSuffix(p: Path)
    requires Expressible(p)
    ensures Tokens(TrimDot(Suffix(p))) == Ok(p)
    decreases |p|
  {
    if p != [] {
      var rest := p[1..];
      TokensOfSuffix(rest);
      TrimmedSuffix(p);
      if rest != [] { TrimmedSuffix(rest); }
      FrontOfSuffix(p[0], Suffix(rest));
      assert p == [p[0]] + rest;
    }
  }

  lemma FrontOfSuffix(step: Seg, tail: string)
    requires Expressible([step]) && (tail == "" || tail[0] == '.' || tail[0] == '[')
    ensures Tokens((match step case Key(k) => k case Idx(i) => "[" + Decimal(i) + "]") + tail)
         == Prepend([step], Tokens(TrimDot(tail)))
  {
    assert [step][0] == step;
    match step
    case Key(k) => KeyAtFront(k, tail);
    case Idx(i) => IndexAtFront(i, tail);
  }

  /** Round trip of the grammar: a path that starts with a key is read back from its text. */
  lemma TokensOfPathText(p: Path)
    requires Expressible(p) && p != [] && p[0].Key?
    ensures Tokens(PathText("", p)) == Ok(p)
  {
    var k := p[0].k;
    assert Extend("", p[0]) == k;
    PathTextIsSuffix(k, p[1..]);
    assert TrimDot(Suffix(p)) == k + Suffix(p[1..]) by {
      assert Suffix(p) == "." + k + Suffix(p[1..]);
    }
    TokensOfSuffix(p);
  }

  // --- The grammar, character by character ---

  /** Letters, digits and underscores, with no digit in front. */
  predicate Word(k: string) {
    && k != "" && !('0' <= k[0] <= '9')
    && forall c :: c in k ==> 'A' <= c <= 'Z' || 'a' <= c <= 'z' || '0' <= c <= '9' || c == '_'
  }

  /** A digit string. */
  predicate Numeral(d: string) {
    d != "" && forall c :: c in d ==> '0' <= c <= '9'
  }

  /** The identifiers of the grammar are exactly the words. */
  lemma WordsAreIdentifiers(k: string)
    ensures IsIdent(k) <==> Word(k)
  {
    if Word(k) {
      forall i | 0 <= i < |k| ensures IsIdentChar(k[i]) { assert k[i] in k; }
      assert k[0] in k;
    }
    if IsIdent(k) {
      forall c | c in k ensures 'A' <= c <= 'Z' || 'a' <= c <= 'z' || '0' <= c <= '9' || c == '_' {
        var i :| 0 <= i < |k| && k[i] == c;
        assert IsIdentChar(k[i]);
      }
    }
  }

  /** A word on its own is one key. */
  lemma WordIsKey(k: string)
    requires Word(k)
    ensures Tokens(k) == Ok([Key(k)])
  {
    WordsAreIdentifiers(k);
    KeyAtFront(k, "");
    assert k + "" == k && Tokens("") == Ok([]) && [Key(k)] + [] == [Key(k)];
  }

  /** Behind a word, a dot is skipped, a bracket goes on, and anything else is refused. */
  lemma AfterWord(k: string, c: char, tail: string)
    requires Word(k) && !('A' <= c <= 'Z' || 'a' <= c <= 'z' || '0' <= c <= '9' || c == '_')
    ensures
      Tokens(k + ([c] + tail)) ==
        if c == '.' then Prepend([Key(k)], Tokens(tail))
        else if c == '[' then Prepend([Key(k)], Tokens([c] + tail))
        else Err(BadRemainder)
  {
    WordsAreIdentifiers(k);
    var rest := [c] + tail;
    KeyAtFront(k, rest);
    assert TrimDot(rest) == if c == '.' then tail else rest;
    if c != '.' && c != '[' { OtherStartIsRefused(c, tail); }
  }

  /** A bracketed digit string is its number, up to the largest 64-bit integer. */
  lemma NumeralIsIndex(d: string, tail: string)
    requires Numeral(d)
    ensures AllDigits(d)
    ensures
      Tokens("[" + d + "]" + tail) ==
        Prepend([Idx(if Number(d) < 0x8000_0000_0000_0000 then Number(d) else 0x7FFF_FFFF_FFFF_FFFF)],
                Tokens(if tail != "" && tail[0] == '.' then tail[1..] else tail))
  {
    NumeralIsDigits(d);
    DigitRunStops(d, "]" + tail);
    BracketParts(d, tail);
    assert FirstSeg("[" + d + "]" + tail) == Some((Idx(AtoiDigits(d)), |d| + 2));
  }

  lemma NumeralIsDigits(d: string)
    requires d == "" || Numeral(d)
    ensures AllDigits(d)
  {
    assert forall i :: 0 <= i < |d| ==> d[i] in d;
  }

  lemma BracketParts(d: string, tail: string)
    ensures
      var s := "[" + d + "]" + tail;
      && |s| == |d| + 2 + |tail| && s[0] == '[' && s[1..] == d + ("]" + tail)
      && s[1..1 + |d|] == d && s[1 + |d|] == ']' && s[|d| + 2..] == tail
  {
  }

  /** A segment starts with a letter, an underscore or a bracket. */
  lemma OtherStartIsRefused(c: char, tail: string)
    requires c != '[' && !('A' <= c <= 'Z' || 'a' <= c <= 'z' || c == '_')
    ensures Tokens([c] + tail) == Err(BadRemainder)
  {
  }

  /** A bracket wants a digit string and a closing bracket behind it. */
  lemma OpenIndexIsRefused(d: string, tail: string)
    requires (d == "" || Numeral(d)) && (tail == "" || !('0' <= tail[0] <= '9'))
    requires d == "" || tail == "" || tail[0] != ']'
    ensures Tokens("[" + d + tail) == Err(BadRemainder)
  {
    NumeralIsDigits(d);
    OpenRun(d, tail);
    assert FirstSeg("[" + d + tail) == None;
  }

  /** The digit string ends where `tail` begins. */
  lemma OpenRun(d: string, tail: string)
    requires AllDigits(d) && (tail == "" || !IsDigit(tail[0]))
    ensures
      var s := "[" + d + tail;
      && s[0] == '[' && |s| == 1 + |d| + |tail| && DigitRun(s[1..]) == |d|
      && (tail != "" ==> s[1 + |d|] == tail[0])
  {
    assert ("[" + d + tail)[1..] == d + tail;
    if tail == "" {
      AllDigitRun(d);
      assert d + tail == d;
    } else {
      DigitRunStops(d, tail);
    }
  }

  lemma {:induction false} AllDigitRun(d: string)
    requires AllDigits(d)
    ensures DigitRun(d) == |d|
    decreases |d|
  {
    if d != "" { AllDigitRun(d[1..]); }
  }
}
