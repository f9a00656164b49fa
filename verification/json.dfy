/**
 * JSON values as JavaScript code sees them after `JSON.parse`, with the handful of language
 * operations the recipe code applies to them: property access that yields `undefined`,
 * truthiness, `??`, `||`, strict equality and conversion to string.
 *
 * `undefined` is `None`: an absent property and a property holding `undefined` are the same
 * thing here, which is also how `JSON.stringify` treats them.
 */
module JsonValues {
  import opened Wrappers
  import opened Text

  datatype Json =
    | JNull
    | JBool(b: bool)
    | JNum(n: real)
    | JStr(s: string)
    | JArr(items: seq<Json>)
    | JObj(fields: map<string, Json>)

  /** What a call can throw: an `Error` the code raises with its own message, or an error the
      engine raises itself (a `TypeError` from reading a property of `null`, a `SyntaxError`
      from `JSON.parse` outside any `try`), whose message the model does not track. */
  datatype Thrown = Raised(message: string) | EngineError

  /** The parts of the JavaScript runtime the model leaves uninterpreted: `JSON.parse` (`None`
      when it throws) and the decimal text `Number.prototype.toString` writes. */
  datatype Runtime = Runtime(parse: string -> Option<Json>, numberText: real -> string)

  /** `v?.key`: the property of an object, `undefined` for anything else. */
  function Get(v: Option<Json>, key: string): (r: Option<Json>)
    ensures r.Some? <==> v.Some? && v.value.JObj? && key in v.value.fields
  {
    if v.Some? && v.value.JObj? && key in v.value.fields then Some(v.value.fields[key]) else None
  }

  /** `v?.[0]`: the first element of an array, the property "0" of an object, the first
      character of a string, and `undefined` otherwise. */
  function First(v: Option<Json>): (r: Option<Json>)
    ensures v.Some? && v.value.JArr? ==> r == (if |v.value.items| > 0 then Some(v.value.items[0]) else None)
    ensures v.Some? && v.value.JObj? ==> r == Get(v, "0")
    ensures r.Some? ==> v.Some? && (v.value.JArr? || v.value.JObj? || v.value.JStr?)
  {
    match v
    case Some(JArr(items)) => if |items| > 0 then Some(items[0]) else None
    case Some(JObj(_)) => Get(v, "0")
    case Some(JStr(s)) => if |s| > 0 then Some(JStr(s[..1])) else None
    case _ => None
  }

  /** The own enumerable properties `{...v}` copies: an object's fields, an array's elements or a
      string's characters under their decimal index, and nothing for other values. */
  function SpreadFields(v: Json): (r: map<string, Json>)
    ensures v.JObj? ==> r == v.fields
    ensures v.JArr? ==> forall i :: 0 <= i < |v.items| ==> NatToString(i) in r && r[NatToString(i)] == v.items[i]
    ensures v.JStr? ==> forall i :: 0 <= i < |v.s| ==> NatToString(i) in r && r[NatToString(i)] == JStr([v.s[i]])
    ensures !v.JObj? ==> forall k :: k in r ==> AllDigits(k)
    ensures v.JNull? || v.JBool? || v.JNum? ==> r == map[]
  {
    match v
    case JObj(m) => m
    case JArr(items) => Indexed(items)
    case JStr(s) => Indexed(seq(|s|, i requires 0 <= i < |s| => JStr([s[i]])))
    case _ => map[]
  }

  /** The elements of `items` keyed by their decimal index. */
  function Indexed(items: seq<Json>): (r: map<string, Json>)
    ensures forall i :: 0 <= i < |items| ==> NatToString(i) in r && r[NatToString(i)] == items[i]
    ensures forall k :: k in r ==> AllDigits(k)
    decreases |items|
  {
    if |items| == 0 then map[]
    else
      var n := |items| - 1;
      NatToStringDistinctBelow(n);
      Indexed(items[..n])[NatToString(n) := items[n]]
  }

  /** The object fields `m` with `key` set to `v`, where setting `undefined` leaves the key out
      (as `JSON.stringify` does). */
  function Put(m: map<string, Json>, key: string, v: Option<Json>): (r: map<string, Json>)
    ensures Get(Some(JObj(r)), key) == v
    ensures forall k :: k != key ==> Get(Some(JObj(r)), k) == Get(Some(JObj(m)), k)
  {
    if v.Some? then m[key := v.value] else m - {key}
  }

  /** JavaScript truthiness of a JSON value (`undefined` is falsy). */
  predicate Truthy(v: Option<Json>) {
    match v
    case None => false
    case Some(JNull) => false
    case Some(JBool(b)) => b
    case Some(JNum(n)) => n != 0.0
    case Some(JStr(s)) => s != ""
    case Some(_) => true
  }

  /** `null` or `undefined`. */
  predicate Nullish(v: Option<Json>) {
    v.None? || v.value.JNull?
  }

  /** `a ?? b`. */
  function Coalesce(a: Option<Json>, b: Option<Json>): (r: Option<Json>)
    ensures !Nullish(a) ==> r == a
    ensures Nullish(a) ==> r == b
  {
    if Nullish(a) then b else a
  }

  /** `a || b`. */
  function Or(a: Option<Json>, b: Option<Json>): (r: Option<Json>)
    ensures Truthy(a) ==> r == a
    ensures !Truthy(a) ==> r == b
  {
    if Truthy(a) then a else b
  }

  /** `Array.isArray`. */
  predicate IsArray(v: Option<Json>) {
    v.Some? && v.value.JArr?
  }

  /** `typeof v === "string"`. */
  predicate IsString(v: Option<Json>) {
    v.Some? && v.value.JStr?
  }

  /** `a === b` between a value read from parsed JSON and another value. Objects and arrays
      are compared by reference, and a freshly parsed object is never the same reference as
      any other value, so they are never equal. */
  predicate StrictEquals(a: Option<Json>, b: Option<Json>) {
    match (a, b)
    case (None, None) => true
    case (Some(JNull), Some(JNull)) => true
    case (Some(JBool(x)), Some(JBool(y))) => x == y
    case (Some(JNum(x)), Some(JNum(y))) => x == y
    case (Some(JStr(x)), Some(JStr(y))) => x == y
    case _ => false
  }

  /** `String(v)` (and `v.toString()` where it does not throw): arrays join their elements with
      commas, writing `null` elements as nothing; objects give "[object Object]". */
  function ToJsString(rt: Runtime, v: Json): string
    decreases v, 1
  {
    match v
    case JNull => "null"
    case JBool(b) => if b then "true" else "false"
    case JNum(n) => rt.numberText(n)
    case JStr(s) => s
    case JArr(items) => JoinItems(rt, v, items)
    case JObj(_) => "[object Object]"
  }

  /** `items.join(",")` for the elements of the array `whole`. */
  function JoinItems(rt: Runtime, whole: Json, items: seq<Json>): string
    requires whole.JArr? && forall i :: 0 <= i < |items| ==> items[i] < whole
    decreases whole, 0, |items|
  {
    if |items| == 0 then ""
    else
      var last := items[|items| - 1];
      var text := if last.JNull? then "" else ToJsString(rt, last);
      if |items| == 1 then text else JoinItems(rt, whole, items[..|items| - 1]) + "," + text
  }

  /** `String(key)` for a computed property key: `undefined` becomes "undefined". */
  function PropertyKey(rt: Runtime, v: Option<Json>): string {
    match v
    case None => "undefined"
    case Some(j) => ToJsString(rt, j)
  }

  /** The text a string-valued property holds, or `None` when it holds anything else. */
  function StringOf(v: Option<Json>): (r: Option<string>)
    ensures r.Some? <==> IsString(v)
  {
    if IsString(v) then Some(v.value.s) else None
  }

  /** A strict equality against a string literal holds only for that very string. */
  lemma StrictEqualsString(a: Option<Json>, s: string)
    ensures StrictEquals(a, Some(JStr(s))) <==> a == Some(JStr(s))
  {
  }

  /** Strict equality between parsed values is symmetric. */
  lemma StrictEqualsSymmetric(a: Option<Json>, b: Option<Json>)
    ensures StrictEquals(a, b) == StrictEquals(b, a)
  {
  }
}
