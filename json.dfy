/**
 * Untrusted input as `JSON.parse` delivers it, and the handful of JavaScript
 * operations the validators apply to it: property lookup, truthiness,
 * `typeof … === 'object'` and `String(…)`.
 */
module Json {
  import opened Wrappers
  import Text

  /** A parsed JSON value. Numbers are integers in this model. */
  datatype JsonValue =
    | JNull
    | JBool(b: bool)
    | JNum(n: int)
    | JStr(s: string)
    | JArr(items: seq<JsonValue>)
    | JObj(fields: map<string, JsonValue>)

  /** `v[key]`: the property of an object, `undefined` (None) for anything else or a missing key. */
  function Get(v: JsonValue, key: string): (r: Option<JsonValue>)
    ensures r.Some? <==> v.JObj? && key in v.fields
  {
    if v.JObj? && key in v.fields then Some(v.fields[key]) else None
  }

  /** JavaScript truthiness; `undefined`, `null`, `false`, `0` and `""` are falsy. */
  predicate Truthy(p: Option<JsonValue>) {
    match p
    case None => false
    case Some(JNull) => false
    case Some(JBool(b)) => b
    case Some(JNum(n)) => n != 0
    case Some(JStr(s)) => s != ""
    case Some(_) => true
  }

  /** `typeof v === 'object' && v !== null`: arrays are objects too. */
  predicate IsObjectLike(v: JsonValue) {
    v.JObj? || v.JArr?
  }

  /** Negation of `!x || typeof x !== 'object'`. */
  predicate IsObjectField(p: Option<JsonValue>) {
    p.Some? && IsObjectLike(p.value)
  }

  /** Negation of `!x || typeof x !== 'string'`: a non-empty string. */
  predicate IsNonEmptyString(p: Option<JsonValue>) {
    p.Some? && p.value.JStr? && p.value.s != ""
  }

  /** Negation of `!x || typeof x !== 'string' || x.trim().length === 0`. */
  predicate IsNonBlankString(p: Option<JsonValue>) {
    p.Some? && p.value.JStr? && Text.Trim(p.value.s) != ""
  }

  /** Negation of `!x || typeof x !== 'number'`: a non-zero number. */
  predicate IsNonZeroNumber(p: Option<JsonValue>) {
    p.Some? && p.value.JNum? && p.value.n != 0
  }

  /** `String(v)` for a JSON value. */
  function ToJsString(v: JsonValue): string
    decreases v, 1
  {
    match v
    case JNull => "null"
    case JBool(b) => if b then "true" else "false"
    case JNum(n) => Text.IntToString(n)
    case JStr(s) => s
    case JArr(items) => JoinElements(v, items)
    case JObj(_) => "[object Object]"
  }

  /** `Array.prototype.join(',')` over the elements of `whole`, where null renders as "". */
  function JoinElements(ghost whole: JsonValue, items: seq<JsonValue>): string
    requires forall e | e in items :: e < whole
    decreases whole, 0, |items|
  {
    if items == [] then ""
    else
      assert items[0] in items;
      assert forall e | e in items[1..] :: e in items;
      var first := if items[0].JNull? then "" else ToJsString(items[0]);
      if |items| == 1 then first else first + "," + JoinElements(whole, items[1..])
  }

  /** `String(x || '')`: a falsy value becomes the empty string. */
  function StringOrEmpty(p: Option<JsonValue>): (r: string)
    ensures p.Some? && p.value.JStr? ==> r == p.value.s
    ensures !Truthy(p) ==> r == ""
  {
    if Truthy(p) then ToJsString(p.value) else ""
  }

  /**
   * The platform's `JSON.parse` and `JSON.stringify`, which the model does not
   * implement: `parse` yields None where `JSON.parse` throws.
   */
  datatype JsonCodec = JsonCodec(parse: string -> Option<JsonValue>, stringify: JsonValue -> string)

  /** The round trip the platform codec is relied on to complete for `v`. */
  predicate RoundTrips(codec: JsonCodec, v: JsonValue) {
    codec.parse(codec.stringify(v)) == Some(v)
  }
}
