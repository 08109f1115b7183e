/**
 * JSON values as the store's producers hand them over, and the bits of
 * JavaScript semantics the store applies to them: truthiness, `typeof`,
 * and the `x || {}` / `x || null` fallbacks.
 */
module Json {
  import opened Wrappers

  /** Numbers are integers here: fractional and non-finite numbers are not modelled. */
  datatype Json =
    | JNull
    | JBool(b: bool)
    | JNum(n: int)
    | JStr(s: string)
    | JArr(items: seq<Json>)
    | JObj(fields: map<string, Json>)

  /**
   * `JSON.stringify`, which the model does not define: any total function, where
   * `Err(message)` stands for the call throwing with that message.
   */
  type Stringify = Json -> Result<string, string>

  /** JavaScript truthiness. */
  predicate Truthy(j: Json) {
    match j
    case JNull => false
    case JBool(b) => b
    case JNum(n) => n != 0
    case JStr(s) => s != ""
    case _ => true
  }

  /** `typeof j === 'object'` (arrays and null included). */
  predicate IsObjectTyped(j: Json) {
    j.JNull? || j.JArr? || j.JObj?
  }

  const EmptyObject: Json := JObj(map[])

  /** `v || {}` for a field that may be absent. */
  function OrEmptyObject(v: Option<Json>): (r: Json)
    ensures Truthy(r)
    ensures v.Some? && Truthy(v.value) ==> r == v.value
    ensures !(v.Some? && Truthy(v.value)) ==> r == EmptyObject
  {
    if v.Some? && Truthy(v.value) then v.value else EmptyObject
  }

  /** A string field that is present and truthy (non-empty). */
  predicate Present(s: Option<string>) {
    s.Some? && s.value != ""
  }

  /** `s || null` for a string field that may be absent. */
  function OrNull(s: Option<string>): (r: Option<string>)
    ensures r.Some? <==> Present(s)
    ensures r.Some? ==> r == s
  {
    if Present(s) then s else None
  }
}
