/**
 * The size-bounded serializer (`safeJsonStringify` in src/lib/requestDetailsDb.js).
 * Sizes are counted in string code units, as `String.prototype.length` counts them.
 */
module Serializer {
  import opened Wrappers
  import opened Json
  import opened JsMath

  const TruncationMarker: string := "... (truncated due to size limit)"

  /** `str.length > maxSize ? str.substring(0, maxSize) + marker : str`. */
  function Bound(text: string, maxSize: int): (r: string)
    ensures |text| <= maxSize ==> r == text
    ensures |text| > maxSize ==>
              && |r| == Max(maxSize, 0) + |TruncationMarker|
              && r[..Max(maxSize, 0)] == text[..Max(maxSize, 0)]
              && r[Max(maxSize, 0)..] == TruncationMarker
  {
    if |text| > maxSize then text[..Max(maxSize, 0)] + TruncationMarker else text
  }

  /** The object serialized in place of a value `JSON.stringify` rejected. */
  function ErrorObject(message: string): Json {
    JObj(map["error" := JStr("Failed to stringify object"), "message" := JStr(message)])
  }

  /**
   * `safeJsonStringify(obj, maxSize)`: the bounded serialization, or, when
   * serializing throws, the (unbounded) serialization of an error object
   * carrying the message. The result is an error only when that second
   * serialization throws as well.
   */
  function SafeJsonStringify(stringify: Stringify, obj: Json, maxSize: int): (r: Result<string, string>)
    ensures stringify(obj).Ok? ==> r == Ok(Bound(stringify(obj).value, maxSize))
    ensures stringify(obj).Err? ==> r == stringify(ErrorObject(stringify(obj).error))
  {
    match stringify(obj)
    case Ok(text) => Ok(Bound(text, maxSize))
    case Err(message) => stringify(ErrorObject(message))
  }
}
