/**
 * JSON values as the application handles them after `JSON.parse`, with the few JavaScript
 * semantics the code leans on: property reads, truthiness and conversion to a string.
 * Numbers are integers; objects map keys to values (duplicate keys are resolved by the parser).
 */
module Js {
  import opened Wrappers
  import Text

  datatype Json =
    | JNull
    | JBool(b: bool)
    | JNum(n: int)
    | JStr(s: string)
    | JArr(items: seq<Json>)
    | JObj(fields: map<string, Json>)

  /** `v.key` on a value that is not `null`: an own property of an object, otherwise `undefined`. */
  function Get(v: Json, key: string): Option<Json> {
    match v
    case JObj(m) => if key in m then Some(m[key]) else None
    case _ => None
  }

  /** `v?.key` where `v` may be `undefined` or `null`. */
  function GetOpt(v: Option<Json>, key: string): Option<Json> {
    match v
    case Some(j) => Get(j, key)
    case None => None
  }

  /** JavaScript truthiness; `None` stands for `undefined`. */
  predicate Truthy(v: Option<Json>) {
    match v
    case None => false
    case Some(JNull) => false
    case Some(JBool(b)) => b
    case Some(JNum(n)) => n != 0
    case Some(JStr(s)) => s != ""
    case Some(_) => true
  }

  /** `a || b`. */
  function Or(a: Option<Json>, b: Option<Json>): (r: Option<Json>)
    ensures Truthy(a) ==> r == a
    ensures !Truthy(a) ==> r == b
  {
    if Truthy(a) then a else b
  }

  /**
   * Whether converting `v` to a string or a number throws a TypeError. A parsed object with its
   * own `toString` key has hidden the inherited method behind data that cannot be called, and the
   * inherited `valueOf` returns the object itself, which is no primitive; an own `valueOf` alone
   * is skipped and the inherited `toString` prints "[object Object]". An array prints its
   * elements, so it throws when one of them does (`null` elements print as nothing, unconverted).
   */
  predicate StringThrows(v: Json)
    decreases v
  {
    match v
    case JObj(m) => "toString" in m
    case JArr(items) => exists i :: 0 <= i < |items| && items[i] != JNull && StringThrows(items[i])
    case _ => false
  }

  /**
   * `String(v)`: how a value is printed by a template literal or `+=` onto a string, for a value
   * on which the conversion does not throw (see `StringThrows`).
   */
  function JsString(v: Json): string
    decreases v, 1
  {
    match v
    case JNull => "null"
    case JBool(b) => if b then "true" else "false"
    case JNum(n) => Text.ShowInt(n)
    case JStr(s) => s
    case JArr(items) => Text.Join(ElementStrings(items, v), ",")
    case JObj(_) => "[object Object]"
  }

  /** Array elements as `Array.prototype.join` prints them: `null` becomes the empty string. */
  function ElementStrings(items: seq<Json>, parent: Json): seq<string>
    requires forall i :: 0 <= i < |items| ==> items[i] < parent
    decreases parent, 0, |items|
  {
    if items == [] then []
    else [if items[0] == JNull then "" else JsString(items[0])] + ElementStrings(items[1..], parent)
  }

  /** `value || fallback` printed as a string, for a value that may be absent. */
  function StringOr(v: Option<Json>, fallback: string): string {
    if Truthy(v) then JsString(v.value) else fallback
  }
}
