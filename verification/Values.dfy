/** Parsed documents, paths inside them, and the result types every module shares. */
module Values {

  datatype Option<+T> = None | Some(value: T)

  /** Scalars are opaque apart from the distinctions field validation draws between them. */
  datatype Scalar = Str(s: string) | Int(i: int) | Bool(b: bool) | Float(whole: int, literal: string)

  /** A YAML/JSON document after parsing: a tree of maps, arrays and scalars. */
  datatype Value = Null | Leaf(s: Scalar) | Map(m: map<string, Value>) | Arr(a: seq<Value>)

  /** One step of a path: a map key or an array index. */
  datatype Seg = Key(k: string) | Idx(i: nat)

  type Path = seq<Seg>

  datatype PathError =
    | BadRemainder | EmptyPath | NotAMap | NotAnArray
    | IndexTooLarge | IndexOutOfRange | NoAutoArray

  datatype Result<+T> = Ok(v: T) | Err(e: PathError)

  predicate IsEmpty(v: Value) {
    (v.Map? && v.m == map[]) || (v.Arr? && v.a == [])
  }

  /** Reading a path; `None` when some step does not exist. */
  function Get(v: Value, p: Path): Option<Value>
    decreases |p|
  {
    if p == [] then Some(v)
    else match p[0]
      case Key(k) => if v.Map? && k in v.m then Get(v.m[k], p[1..]) else None
      case Idx(i) => if v.Arr? && i < |v.a| then Get(v.a[i], p[1..]) else None
  }

  lemma {:induction false} GetConcat(v: Value, p: Path, q: Path)
    ensures Get(v, p + q) == if Get(v, p).Some? then Get(Get(v, p).value, q) else None
    decreases |p|
  {
    if p == [] {
      assert p + q == q;
    } else {
      assert (p + q)[0] == p[0] && (p + q)[1..] == p[1..] + q;
      match p[0]
      case Key(k) => if v.Map? && k in v.m { GetConcat(v.m[k], p[1..], q); }
      case Idx(i) => if v.Arr? && i < |v.a| { GetConcat(v.a[i], p[1..], q); }
    }
  }

  /** Neither path is a prefix of the other: they part at some step. */
  predicate Apart(p: Path, q: Path) {
    !(p <= q) && !(q <= p)
  }

  lemma ApartTail(p: Path, q: Path)
    requires Apart(p, q)
    ensures p != [] && q != []
    ensures p[0] == q[0] ==> Apart(p[1..], q[1..])
  {
    if p[0] == q[0] {
      assert p == [p[0]] + p[1..] && q == [q[0]] + q[1..];
    }
  }
}
