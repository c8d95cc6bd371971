/** The JavaScript values the backend handles: JSON documents returned by the
    model endpoint and by `JSON.parse`, with the property-access rules the
    service relies on (`.key`, `?.key`, `?.[0]`, `??` and truthiness). */
module JsValues {
  import opened Base

  /** A JSON value. Numbers are kept as reals: only their truthiness matters here. */
  datatype Value =
    | JNull
    | JBool(b: bool)
    | JNum(n: real)
    | JStr(s: string)
    | JArr(items: seq<Value>)
    | JObj(props: map<string, Value>)

  /** `!!v`: false exactly for null, false, 0 and the empty string. */
  predicate Truthy(v: Value) {
    match v
    case JNull => false
    case JBool(b) => b
    case JNum(n) => n != 0.0
    case JStr(s) => |s| > 0
    case JArr(_) => true
    case JObj(_) => true
  }

  /** The TypeError a property read on `null` throws. */
  function NullRead(key: string): Error {
    Error("TypeError", "Cannot read properties of null (reading '" + key + "')")
  }

  /** `v.key` on a value that is not null: only objects have the keys read here;
      strings, arrays, numbers and booleans yield `undefined` (None). */
  function Member(v: Value, key: string): (r: Option<Value>)
    ensures r.Some? <==> v.JObj? && key in v.props
    ensures r.Some? ==> r.value == v.props[key]
  {
    match v
    case JObj(props) => if key in props then Some(props[key]) else None
    case _ => None
  }

  /** `u?.key`, where None stands for `undefined`. */
  function ChainMember(u: Option<Value>, key: string): (r: Option<Value>)
    ensures u.None? || u == Some(JNull) ==> r.None?
    ensures u.Some? && u.value != JNull ==> r == Member(u.value, key)
  {
    match u
    case None => None
    case Some(JNull) => None
    case Some(v) => Member(v, key)
  }

  /** `u?.[0]`: the first element of an array, the first character of a string,
      property "0" of an object, and `undefined` otherwise. */
  function ChainFirst(u: Option<Value>): (r: Option<Value>)
    ensures u == Some(JNull) || u.None? ==> r.None?
    ensures u.Some? && u.value.JArr? ==> (r.Some? <==> |u.value.items| > 0)
    ensures u.Some? && u.value.JArr? && |u.value.items| > 0 ==> r == Some(u.value.items[0])
  {
    match u
    case None => None
    case Some(JArr(items)) => if |items| > 0 then Some(items[0]) else None
    case Some(JStr(s)) => if |s| > 0 then Some(JStr([s[0]])) else None
    case Some(JObj(props)) => if "0" in props then Some(props["0"]) else None
    case Some(_) => None
  }

  /** `u ?? null`. */
  function OrNull(u: Option<Value>): (r: Value)
    ensures u.Some? ==> r == u.value
    ensures u.None? ==> r == JNull
  {
    match u
    case Some(v) => v
    case None => JNull
  }
}
