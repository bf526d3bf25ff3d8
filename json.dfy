/**
 * JSON values as Python's `json` module hands them over (objects are
 * insertion-ordered dicts), with the Python semantics the modelled code relies
 * on: truthiness, `type(v)`, numeric comparison, and equality/hashing of
 * values used as dict keys.
 */
module Json {
  import opened PyDict

  datatype Json =
    | JNull
    | JBool(b: bool)
    | JInt(i: int)
    | JFloat(f: real)
    | JStr(s: string)
    | JList(items: seq<Json>)
    | JObject(fields: Dict<string, Json>)

  /** `bool(v)` */
  predicate Truthy(v: Json) {
    match v
    case JNull => false
    case JBool(b) => b
    case JInt(i) => i != 0
    case JFloat(f) => f != 0.0
    case JStr(s) => s != []
    case JList(xs) => xs != []
    case JObject(fs) => fs != []
  }

  /** The Python classes of JSON values. */
  datatype PyType = NoneType | BoolType | IntType | FloatType | StrType | ListType | DictType

  /** `type(v)` */
  function TypeOf(v: Json): PyType {
    match v
    case JNull => NoneType
    case JBool(_) => BoolType
    case JInt(_) => IntType
    case JFloat(_) => FloatType
    case JStr(_) => StrType
    case JList(_) => ListType
    case JObject(_) => DictType
  }

  /** `bool`, `int` and `float` take part in numeric comparison (`True == 1`). */
  predicate IsNumber(v: Json) { v.JBool? || v.JInt? || v.JFloat? }

  function NumValue(v: Json): real
    requires IsNumber(v)
  {
    match v
    case JBool(b) => if b then 1.0 else 0.0
    case JInt(i) => i as real
    case JFloat(f) => f
  }

  /** Python `a == b` on JSON scalars and containers. */
  predicate PyEq(a: Json, b: Json) {
    if IsNumber(a) && IsNumber(b) then NumValue(a) == NumValue(b)
    else if IsNumber(a) || IsNumber(b) then false
    else a == b
  }

  /** Lists and dicts cannot be hashed (`TypeError: unhashable type`). */
  predicate Hashable(v: Json) { !v.JList? && !v.JObject? }

  /** The identity of a hashable value as a dict key. */
  datatype HashKey = KNone | KNum(r: real) | KStr(s: string)

  function KeyOf(v: Json): (k: HashKey)
    requires Hashable(v)
    ensures IsNumber(v) <==> k.KNum?
  {
    match v
    case JNull => KNone
    case JStr(s) => KStr(s)
    case JBool(b) => KNum(if b then 1.0 else 0.0)
    case JInt(i) => KNum(i as real)
    case JFloat(f) => KNum(f)
    case JList(_) => KNone
    case JObject(_) => KNone
  }

  /** Two hashable values denote the same dict key exactly when Python calls them equal. */
  lemma KeyOfIsEquality(a: Json, b: Json)
    requires Hashable(a) && Hashable(b)
    ensures KeyOf(a) == KeyOf(b) <==> PyEq(a, b)
  {
  }
}
