/**
 The slice of Python's runtime that the coopcontrol core relies on: decoded
 JSON/YAML values, the truthiness of such values, the exceptions the core raises
 or lets escape, and the `in` and `[]` operators on values of unknown shape.
 */
module Python {

  datatype Option<+T> = None | Some(value: T)

  /** A value produced by `json.load` or `yaml.safe_load`. Floats are exact reals. */
  datatype Json =
    | JNull
    | JBool(b: bool)
    | JInt(i: int)
    | JFloat(f: real)
    | JStr(s: string)
    | JArr(items: seq<Json>)
    | JObj(fields: map<string, Json>)

  /** The result of `bool(v)`. */
  predicate Truthy(v: Json) {
    match v
    case JNull => false
    case JBool(b) => b
    case JInt(i) => i != 0
    case JFloat(f) => f != 0.0
    case JStr(s) => |s| > 0
    case JArr(items) => |items| > 0
    case JObj(fields) => |fields| > 0
  }

  /** `bool(v)` is False exactly for None, False, zero, and the empty string,
      list and dict. */
  lemma FalsyValues(v: Json)
    ensures !Truthy(v) <==> v in {JNull, JBool(false), JInt(0), JFloat(0.0), JStr(""), JArr([]), JObj(map[])}
  {
  }

  /** The exceptions that the core raises, catches or lets escape. */
  datatype Exception =
    | ValueError(message: string)
    | KeyError(key: string)
    | TypeError(message: string)
    | AttributeError(message: string)
    | HttpError(reason: string)
    | UrlError(reason: string)
    | ApiError(apiName: string, message: string)
    | TimestampOutOfRange

  /** A Python call either returns a value or raises an exception. */
  datatype Result<+T> = Ok(value: T) | Raised(exc: Exception) {

    predicate IsFailure() {
      Raised?
    }

    function PropagateFailure<U>(): Result<U>
      requires Raised?
    {
      Raised(exc)
    }

    function Extract(): T
      requires Ok?
    {
      value
    }
  }

  /** `p in s` for two strings: `p` occurs contiguously somewhere in `s`. */
  predicate IsSubstring(p: string, s: string)
    decreases |s|
  {
    p <= s || (|s| > 0 && IsSubstring(p, s[1..]))
  }

  /** `key in v` for a string `key`: key membership on a dict, substring search on
      a string, element equality on a list; any other value is not iterable. */
  function Contains(v: Json, key: string): (r: Result<bool>)
    ensures r.Raised? <==> !(v.JObj? || v.JStr? || v.JArr?)
    ensures v.JObj? ==> r == Ok(key in v.fields)
    ensures v.JArr? ==> r == Ok(JStr(key) in v.items)
  {
    match v
    case JObj(fields) => Ok(key in fields)
    case JStr(s) => Ok(IsSubstring(key, s))
    case JArr(items) => Ok(JStr(key) in items)
    case _ => Raised(TypeError("argument is not iterable"))
  }

  /** `v[key]` for a string `key`: only a dict holding `key` yields a value; a dict
      without it raises KeyError, strings and lists reject a string index and
      every other value is not subscriptable. */
  function Subscript(v: Json, key: string): (r: Result<Json>)
    ensures r.Ok? <==> v.JObj? && key in v.fields
    ensures r.Ok? ==> r.value == v.fields[key]
    ensures v.JObj? && key !in v.fields ==> r == Raised(KeyError(key))
    ensures !v.JObj? ==> r.Raised? && r.exc.TypeError?
  {
    match v
    case JObj(fields) => if key in fields then Ok(fields[key]) else Raised(KeyError(key))
    case _ => Raised(TypeError("object is not subscriptable by a string"))
  }

  /** `d.get(key)` on a dict: the value when present, otherwise `None`. */
  function DictGet(fields: map<string, Json>, key: string): (r: Json)
    ensures key in fields ==> r == fields[key]
    ensures key !in fields ==> r == JNull
  {
    if key in fields then fields[key] else JNull
  }

  /** `v.get(key)`: only a dict has the method. */
  function MethodGet(v: Json, key: string): (r: Result<Json>)
    ensures r.Ok? <==> v.JObj?
    ensures r.Ok? ==> r.value == DictGet(v.fields, key)
    ensures r.Raised? ==> r.exc.AttributeError?
  {
    match v
    case JObj(fields) => Ok(DictGet(fields, key))
    case _ => Raised(AttributeError("object has no attribute 'get'"))
  }
}
