/** The ui-spec: which places of a template a user may set, and what is accepted there. */
module UiSpec {
  import opened Values

  datatype FieldType = TString | TInteger | TBoolean | TEnum | TAutocomplete | TOther

  /** One entry (`caption` is its label); a missing default is `Null`, a missing pattern the empty string. */
  datatype SpecEntry = SpecEntry(
    path: string, caption: string, kind: FieldType, min: Option<int>, max: Option<int>,
    pattern: string, values: seq<string>, default: Value, required: bool)

  /** What the model leaves open: regular expressions and the printing of values. */
  datatype Text = Text(compiles: string -> bool, matches: (string, string) -> bool, sprint: Value -> string)

  /** Truncation toward zero for floats, and nothing else is a number. */
  function ToInt(v: Value): Option<int> {
    match v
    case Leaf(Int(i)) => Some(i)
    case Leaf(Float(whole, _)) => Some(whole)
    case _ => None
  }

  predicate Validate(t: Text, f: SpecEntry, v: Value) {
    match f.kind
    case TInteger =>
      var n := ToInt(v);
      n.Some? && (f.min.Some? ==> n.value >= f.min.value) && (f.max.Some? ==> n.value <= f.max.value)
    case TString => v.Leaf? && v.s.Str? && (f.pattern != "" ==> t.matches(f.pattern, v.s.s))
    case TAutocomplete => v.Leaf? && v.s.Str? && (f.pattern != "" ==> t.matches(f.pattern, v.s.s))
    case TBoolean => v.Leaf? && v.s.Bool?
    case TEnum => t.sprint(v) in f.values
    case TOther => true
  }

  /** A stored text, seen through its parser. */
  datatype Source<+T> = Malformed | Parsed(content: T)

  predicate SpecParses(t: Text, spec: Source<seq<SpecEntry>>) {
    spec.Parsed? && forall f :: f in spec.content && f.pattern != "" ==> t.compiles(f.pattern)
  }
}
