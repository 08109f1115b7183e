/**
 * Header redaction (`sanitizeHeaders` in src/lib/requestDetailsDb.js): every
 * header whose lower-cased name contains a sensitive word is removed, not
 * masked; all other headers keep their values.
 */
module Headers {
  import opened Json
  import opened Text

  const SensitiveKeys: seq<string> := ["authorization", "x-api-key", "cookie", "token", "api-key"]

  /** The header name, lower-cased, contains one of the sensitive words. */
  predicate IsSensitive(key: string) {
    exists word :: word in SensitiveKeys && Contains(Lower(key), word)
  }

  /** `{ ...arr }`: an array spread into an object keyed by its decimal indexes. */
  function IndexMap(items: seq<Json>): (m: map<string, Json>)
    decreases |items|
  {
    if items == [] then map[]
    else IndexMap(items[..|items| - 1])[NatToDecimal(|items| - 1) := items[|items| - 1]]
  }

  /** `{ ...headers }` for a value that is an object or an array. */
  function Spread(headers: Json): map<string, Json> {
    match headers
    case JObj(fields) => fields
    case JArr(items) => IndexMap(items)
    case _ => map[]
  }

  /** The header map the redaction starts from: none unless the value is a truthy object. */
  function Copied(headers: Json): map<string, Json> {
    if Truthy(headers) && IsObjectTyped(headers) then Spread(headers) else map[]
  }

  /** What `sanitizeHeaders` returns, as a value. */
  function Sanitized(headers: Json): (r: map<string, Json>)
    ensures forall k :: k in r <==> k in Copied(headers) && !IsSensitive(k)
    ensures forall k :: k in r ==> r[k] == Copied(headers)[k]
  {
    map k | k in Copied(headers) && !IsSensitive(k) :: Copied(headers)[k]
  }

  /**
   * The redaction loop: copy the headers, then visit every key once and delete
   * it when it is sensitive. A falsy or non-object value gives the empty map.
   */
  method SanitizeHeaders(headers: Json) returns (sanitized: map<string, Json>)
    ensures forall k :: k in sanitized ==> !IsSensitive(k)
    ensures forall k :: k in Copied(headers) && !IsSensitive(k) ==> k in sanitized && sanitized[k] == Copied(headers)[k]
    ensures !(Truthy(headers) && IsObjectTyped(headers)) ==> sanitized == map[]
    ensures sanitized == Sanitized(headers)
  {
    if !Truthy(headers) || !IsObjectTyped(headers) {
      return map[];
    }
    var copy := Spread(headers);
    sanitized := copy;
    var keys := copy.Keys;
    while keys != {}
      invariant keys <= copy.Keys
      invariant forall k :: k in sanitized <==> k in copy && (k in keys || !IsSensitive(k))
      invariant forall k :: k in sanitized ==> sanitized[k] == copy[k]
      decreases keys
    {
      var key :| key in keys;
      if IsSensitive(key) {
        sanitized := sanitized - {key};
      }
      keys := keys - {key};
    }
  }

  /**
   * The worked example: `{Authorization: "Bearer x", "X-Custom": "ok"}` keeps
   * only "X-Custom".
   */
  lemma AuthorizationHeaderDropped()
    ensures Sanitized(JObj(map["Authorization" := JStr("Bearer x"), "X-Custom" := JStr("ok")]))
         == map["X-Custom" := JStr("ok")]
  {
    var h := JObj(map["Authorization" := JStr("Bearer x"), "X-Custom" := JStr("ok")]);
    AuthorizationIsSensitive();
    CustomHeaderIsNot();
    var r := Sanitized(h);
    assert Copied(h) == h.fields;
    assert r.Keys == {"X-Custom"};
  }

  lemma AuthorizationIsSensitive()
    ensures IsSensitive("Authorization")
  {
    var lower := Lower("Authorization");
    assert lower == "authorization";
    assert SensitiveKeys[0] == "authorization";
    assert StartsWith(lower, SensitiveKeys[0]);
    assert SensitiveKeys[0] in SensitiveKeys && Contains(lower, SensitiveKeys[0]);
  }

  lemma CustomHeaderIsNot()
    ensures !IsSensitive("X-Custom")
  {
    var s := Lower("X-Custom");
    assert s == "x-custom";
    forall word | word in SensitiveKeys ensures !Contains(s, word) {
      ContainsIffOccurs(s, word);
      forall i | 0 <= i ensures !OccursAt(s, word, i) {
        if i + |word| <= |s| {
          assert s[i..i + |word|][0] == s[i];
          assert s[i..i + |word|][1] == s[i + 1];
        }
      }
    }
  }
}
