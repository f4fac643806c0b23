/** The Python values that the codecs and printers of the source work on. Dicts keep insertion order. */
module PyValue {
  import opened Common
  import opened Text
  import opened Base64

  predicate NumberChar(c: char) { IsDigit(c) || c == '-' || c == '+' || c == '.' || c == 'e' }

  /** The shape of Python's `repr` of a finite float: a number text with a point or an exponent. */
  predicate FloatLiteral(s: string) {
    && |s| >= 2 && (IsDigit(s[0]) || (s[0] == '-' && IsDigit(s[1])))
    && (forall i :: 0 <= i < |s| ==> NumberChar(s[i]))
    && ('.' in s || 'e' in s)
  }

  type Literal = s: string | FloatLiteral(s) witness "0.0"

  /** A float, known by its `repr`: Python's is the shortest text that reads back as the same float. */
  datatype Double = Finite(repr: Literal) | Infinity(negative: bool) | NotANumber

  /** `Other` is an object of any other type; a datetime has its `isoformat`, and `token` tells objects apart. */
  datatype Value =
    | Null
    | Bool(flag: bool)
    | Int(number: int)
    | Float(double: Double)
    | Str(text: string)
    | Bytes(bytes: seq<Byte>)
    | List(items: seq<Value>)
    | Tuple(items: seq<Value>)
    | Dict(entries: seq<(string, Value)>)
    | Other(token: nat, isoformat: Option<string>)

  /** `str(v)` for values whose text the model does not define. */
  type Show = Value -> string

  function Keys(es: seq<(string, Value)>): seq<string> { seq(|es|, i requires 0 <= i < |es| => es[i].0) }

  /** The number of children of a list, tuple or dict. */
  function Count(v: Value): nat { if v.Dict? then |v.entries| else if v.List? || v.Tuple? then |v.items| else 0 }

  predicate UniqueKeys(es: seq<(string, Value)>) {
    forall i, j :: 0 <= i < j < |es| ==> es[i].0 != es[j].0
  }

  /** Every dict, at any depth, has distinct keys: so it is with Python's. */
  predicate WellFormed(v: Value) {
    match v
    case List(xs) => forall i :: 0 <= i < |xs| ==> WellFormed(xs[i])
    case Tuple(xs) => forall i :: 0 <= i < |xs| ==> WellFormed(xs[i])
    case Dict(es) => UniqueKeys(es) && forall i :: 0 <= i < |es| ==> WellFormed(es[i].1)
    case _ => true
  }

  /** The entries with new values. */
  function Zip(es: seq<(string, Value)>, vs: seq<Value>): seq<(string, Value)> {
    if |es| == |vs| then seq(|es|, i requires 0 <= i < |es| => (es[i].0, vs[i])) else []
  }

  /** `d.get(key)`. */
  function Lookup(es: seq<(string, Value)>, key: string): (r: Option<Value>)
    ensures r.Some? <==> exists i :: 0 <= i < |es| && es[i].0 == key
    ensures r.Some? ==> exists i :: 0 <= i < |es| && es[i] == (key, r.value)
  {
    if es == [] then None
    else if es[0].0 == key then
      assert es[0] == (key, es[0].1);
      Some(es[0].1)
    else
      var r := Lookup(es[1..], key);
      assert es == [es[0]] + es[1..];
      r
  }

  /** What `json.loads` can return: texts, numbers, truth values, null, lists and dicts. */
  predicate IsJson(v: Value) {
    match v
    case Bytes(_) => false
    case Tuple(_) => false
    case Other(_, _) => false
    case List(xs) => forall i :: 0 <= i < |xs| ==> IsJson(xs[i])
    case Dict(es) => forall i :: 0 <= i < |es| ==> IsJson(es[i].1)
    case _ => true
  }

  /** Python's truth value; an object of another type counts as true. */
  predicate Truthy(v: Value) {
    match v
    case Null => false
    case Bool(b) => b
    case Int(i) => i != 0
    case Float(x) => !(x.Finite? &&
      (forall i :: 0 <= i < |x.repr| ==> x.repr[i] == '0' || x.repr[i] == '.' || x.repr[i] == '-'))
    case Str(s) => s != []
    case Bytes(b) => b != []
    case List(xs) => xs != []
    case Tuple(xs) => xs != []
    case Dict(es) => es != []
    case Other(_, _) => true
  }
}
