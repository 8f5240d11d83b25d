/**
 * JSON values as `JSON.parse` produces them, with the JavaScript semantics the application applies
 * to them: property reads (undefined when absent, a TypeError on null), truthiness, `a || b`,
 * `Array.prototype.includes` and string conversion.
 */
module JsValue {
  import opened Wrappers
  import opened Text

  /** Numbers are kept as integers; fractional numbers are not represented. */
  datatype Json =
    | JNull
    | JBool(b: bool)
    | JNumber(n: int)
    | JString(s: string)
    | JArray(items: seq<Json>)
    | JObject(fields: map<string, Json>)

  /**
   * `v.key` for a property name that is not built into strings or arrays (every key the application
   * reads): `undefined` (None) unless `v` is an object holding the key; reading from `null` throws.
   */
  function Member(v: Json, key: string): (r: Result<Option<Json>, string>)
    ensures r.Failure? <==> v.JNull?
    ensures r.Success? && r.value.Some? <==> v.JObject? && key in v.fields
  {
    match v
    case JNull => Failure("Cannot read properties of null (reading '" + key + "')")
    case JObject(fields) => Success(if key in fields then Some(fields[key]) else None)
    case _ => Success(None)
  }

  /** JavaScript truthiness of a value that may be `undefined` (None). */
  predicate Truthy(v: Option<Json>) {
    match v
    case None => false
    case Some(JNull) => false
    case Some(JBool(b)) => b
    case Some(JNumber(n)) => n != 0
    case Some(JString(s)) => s != ""
    case Some(_) => true
  }

  /** `v || fallback`. */
  function OrElse(v: Option<Json>, fallback: Json): (r: Json)
    ensures Truthy(v) ==> Some(r) == v
    ensures !Truthy(v) ==> r == fallback
  {
    if Truthy(v) then v.value else fallback
  }

  /** Arrays and objects compare by reference; two values parsed separately are never the same reference. */
  predicate IsPrimitive(v: Json) {
    !v.JArray? && !v.JObject?
  }

  /** `SameValueZero`, as `includes` uses it, between two parsed values. */
  predicate SameValueZero(a: Json, b: Json) {
    IsPrimitive(a) && a == b
  }

  /** `items.includes(x)`. */
  predicate Includes(items: seq<Json>, x: Json) {
    exists i :: 0 <= i < |items| && SameValueZero(items[i], x)
  }

  /** `String(v)`, which `+=` on a string applies to its right operand. */
  function ToJsString(v: Json): string
    decreases v, 1
  {
    match v
    case JNull => "null"
    case JBool(b) => if b then "true" else "false"
    case JNumber(n) => IntToString(n)
    case JString(s) => s
    case JArray(items) => JoinElements(items)
    case JObject(_) => "[object Object]"
  }

  /** `Array.prototype.join(',')`, which writes `null` elements as empty text. */
  function JoinElements(items: seq<Json>): string
    decreases items, 0
  {
    if |items| == 0 then ""
    else
      var first := if items[0].JNull? then "" else ToJsString(items[0]);
      if |items| == 1 then first else first + "," + JoinElements(items[1..])
  }
}
