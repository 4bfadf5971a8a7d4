/** The JavaScript value semantics the handlers depend on: truthiness, `||`, `String(v)`, and
    reading a field of a parsed JSON object. */
module Js {

  datatype JsValue =
    | Undefined
    | Str(s: string)
      /** `null`, a boolean, a number, an array or an object, given by its truthiness and by
          the text `String(v)` yields for it. */
    | Other(truthy: bool, text: string)

  predicate Truthy(v: JsValue) {
    match v
    case Undefined => false
    case Str(s) => s != ""
    case Other(t, _) => t
  }

  /** `String(v)`, also what a template literal inserts. */
  function ToString(v: JsValue): string {
    match v
    case Undefined => "undefined"
    case Str(s) => s
    case Other(_, text) => text
  }

  /** `v || fallback` for a string `fallback`. */
  function Or(v: JsValue, fallback: string): (r: JsValue)
    ensures Truthy(v) ==> r == v
    ensures !Truthy(v) ==> r == Str(fallback)
    // with a non-empty fallback the result is always truthy
    ensures fallback != "" ==> Truthy(r)
  {
    if Truthy(v) then v else Str(fallback)
  }

  /** A parsed JSON object. */
  type JsonObject = map<string, JsValue>

  /** `obj.key`: a missing property reads as `undefined`. */
  function Field(obj: JsonObject, key: string): JsValue {
    if key in obj then obj[key] else Undefined
  }
}
