/**
 * The GET handler of /api/usage/request-details
 * (src/app/api/usage/request-details/route.js): read the query string,
 * default and validate the paging parameters, and build the filter handed
 * to the query.
 */
module RequestDetailsRoute {
  import opened Wrappers
  import opened Json
  import opened Text

  // ---------------------------------------------------------------------------
  // Query string
  // ---------------------------------------------------------------------------

  /** The decoded name/value pairs of the URL's query string, in order. */
  type SearchParams = seq<(string, string)>

  /** `searchParams.get(name)`: the first value under `name`, or null. */
  function Get(params: SearchParams, name: string): (v: Option<string>)
    ensures v.None? <==> forall i :: 0 <= i < |params| ==> params[i].0 != name
    ensures v.Some? ==> exists i :: 0 <= i < |params| && params[i] == (name, v.value)
                          && forall j :: 0 <= j < i ==> params[j].0 != name
  {
    if params == [] then None
    else if params[0].0 == name then Some(params[0].1)
    else
      var rest := Get(params[1..], name);
      if rest.Some? then
        ghost var i :| 0 <= i < |params[1..]| && params[1..][i] == (name, rest.value)
                       && forall j :: 0 <= j < i ==> params[1..][j].0 != name;
        assert params[i + 1] == (name, rest.value);
        rest
      else rest
  }

  lemma GetCons(p: (string, string), rest: SearchParams, name: string)
    ensures Get([p] + rest, name) == if p.0 == name then Some(p.1) else Get(rest, name)
  {
    assert ([p] + rest)[1..] == rest;
  }

  // ---------------------------------------------------------------------------
  // parseInt with no radix
  // ---------------------------------------------------------------------------

  /** The characters `parseInt` skips before the number: white space and line terminators. */
  predicate IsWhiteSpace(c: char) {
    || c == '\t' || c == '\n' || c == '\U{000B}' || c == '\U{000C}' || c == '\r' || c == ' '
    || c == '\U{00A0}' || c == '\U{1680}' || ('\U{2000}' <= c <= '\U{200A}')
    || c == '\U{2028}' || c == '\U{2029}' || c == '\U{202F}' || c == '\U{205F}'
    || c == '\U{3000}' || c == '\U{FEFF}'
  }

  function TrimStart(s: string): (r: string)
    ensures |r| <= |s| && r == s[|s| - |r|..]
    ensures |r| > 0 ==> !IsWhiteSpace(r[0])
  {
    if |s| > 0 && IsWhiteSpace(s[0]) then TrimStart(s[1..]) else s
  }

  /** The value of `c` as a digit of `radix` (10 or 16), or none. */
  function DigitValue(c: char, radix: nat): (d: Option<nat>)
    ensures d.Some? ==> d.value < radix || radix < 10
  {
    if '0' <= c <= '9' && (c as int - '0' as int) < radix then Some(c as int - '0' as int)
    else if radix == 16 && 'a' <= c <= 'f' then Some(c as int - 'a' as int + 10)
    else if radix == 16 && 'A' <= c <= 'F' then Some(c as int - 'A' as int + 10)
    else None
  }

  /** How many characters at the start of `s` are digits of `radix`. */
  function DigitRun(s: string, radix: nat): (n: nat)
    ensures n <= |s|
    ensures forall i :: 0 <= i < n ==> DigitValue(s[i], radix).Some?
    ensures n < |s| ==> DigitValue(s[n], radix).None?
  {
    if |s| > 0 && DigitValue(s[0], radix).Some? then 1 + DigitRun(s[1..], radix) else 0
  }

  /** The number the digits `ds` spell in `radix`, most significant first. */
  function DigitsValue(ds: string, radix: nat): nat
    requires forall i :: 0 <= i < |ds| ==> DigitValue(ds[i], radix).Some?
  {
    if ds == [] then 0
    else DigitsValue(ds[..|ds| - 1], radix) * radix + DigitValue(ds[|ds| - 1], radix).value
  }

  /** `n` with the sign `parseInt` read. */
  function Signed(negative: bool, n: nat): int {
    var m: int := n;
    if negative then -m else m
  }

  /** The number after the sign: `0x`/`0X` selects hexadecimal, then the longest run of digits. */
  function ParseUnsigned(unsigned: string): Option<nat> {
    if HexPrefixed(unsigned) then ReadDigits(unsigned[2..], 16) else ReadDigits(unsigned, 10)
  }

  predicate HexPrefixed(s: string) {
    |s| >= 2 && s[0] == '0' && (s[1] == 'x' || s[1] == 'X')
  }

  /** The value of the longest run of `radix` digits at the start of `s`, None when there is none. */
  function ReadDigits(s: string, radix: nat): Option<nat> {
    var n := DigitRun(s, radix);
    if n == 0 then None else Some(DigitsValue(s[..n], radix))
  }

  /**
   * `parseInt(v)`: skip leading white space, take one sign, then read the
   * number; None is NaN (no digits, or a null argument, whose string "null"
   * has none).
   */
  function ParseInt(v: Option<string>): (r: Option<int>)
  {
    if v.None? then None else ParseTrimmed(TrimStart(v.value))
  }

  /** `parseInt` after the white space: one optional sign, then the number. */
  function ParseTrimmed(t: string): Option<int> {
    var negative := |t| > 0 && t[0] == '-';
    var unsigned := if |t| > 0 && (t[0] == '-' || t[0] == '+') then t[1..] else t;
    match ParseUnsigned(unsigned)
    case None => None
    case Some(magnitude) => Some(Signed(negative, magnitude))
  }

  /** The decimal digits of n spell n. */
  lemma {:induction false} DecimalValue(n: nat)
    ensures forall i :: 0 <= i < |NatToDecimal(n)| ==> DigitValue(NatToDecimal(n)[i], 10).Some?
    ensures DigitsValue(NatToDecimal(n), 10) == n
    decreases n
  {
    var s := NatToDecimal(n);
    if n >= 10 {
      DecimalValue(n / 10);
      assert s[..|s| - 1] == NatToDecimal(n / 10);
    }
  }

  /** After a run of decimal digits that ends the string or is followed by a non-digit, DigitRun stops there. */
  lemma {:induction false} DigitRunOfDecimal(ds: string, rest: string)
    requires forall i :: 0 <= i < |ds| ==> IsDecimalDigit(ds[i])
    requires rest == [] || !IsDecimalDigit(rest[0])
    ensures DigitRun(ds + rest, 10) == |ds|
    decreases |ds|
  {
    if ds != [] {
      DigitRunOfDecimal(ds[1..], rest);
      assert (ds + rest)[1..] == ds[1..] + rest;
    }
  }

  /** Decimal digits not followed by another digit or an `x` read back as their value. */
  lemma ParseUnsignedDecimal(n: nat, rest: string)
    requires rest == [] || (!IsDecimalDigit(rest[0]) && rest[0] != 'x' && rest[0] != 'X')
    ensures ParseUnsigned(NatToDecimal(n) + rest) == Some(n)
  {
    var ds := NatToDecimal(n);
    DecimalValue(n);
    DigitRunOfDecimal(ds, rest);
    var u := ds + rest;
    if |u| >= 2 {
      if |ds| >= 2 { assert u[1] == ds[1]; } else { assert u[1] == rest[0]; }
    }
    assert !HexPrefixed(u);
    assert u[..|ds|] == ds;
  }

  /** The sign `String` writes before a number. */
  function Sign(negative: bool): string {
    if negative then "-" else ""
  }

  /** After a sign (or none) and no white space, `parseInt` reads the unsigned number and applies the sign. */
  lemma ParseIntSigned(u: string, negative: bool)
    requires |u| > 0 && !IsWhiteSpace(u[0]) && u[0] != '-' && u[0] != '+'
    ensures ParseUnsigned(u).Some? ==>
              ParseInt(Some(Sign(negative) + u)) == Some(Signed(negative, ParseUnsigned(u).value))
  {
    var s := Sign(negative) + u;
    assert s[0] == '-' || s[0] == u[0];
    assert TrimStart(s) == s;
    if negative {
      assert s[1..] == u;
    } else {
      assert s == u;
    }
  }

  /**
   * `parseInt` reads back what `String(n)` writes, with or without a minus
   * sign, whatever text follows that does not continue the number.
   */
  lemma ParseIntReadsDecimal(n: nat, negative: bool, rest: string)
    requires rest == [] || (!IsDecimalDigit(rest[0]) && rest[0] != 'x' && rest[0] != 'X')
    ensures ParseInt(Some(Sign(negative) + (NatToDecimal(n) + rest))) == Some(Signed(negative, n))
  {
    ParseUnsignedDecimal(n, rest);
    ParseIntSigned(NatToDecimal(n) + rest, negative);
  }

  /** Text with no digits at the start (after one optional sign) parses to NaN. */
  lemma NoDigitsIsNaN(s: string)
    requires |s| > 0 && !IsWhiteSpace(s[0]) && s[0] != '-' && s[0] != '+' && !IsDecimalDigit(s[0])
    ensures ParseInt(Some(s)) == None
  {
  }

  // ---------------------------------------------------------------------------
  // The handler
  // ---------------------------------------------------------------------------

  const DefaultPage := 1
  const DefaultPageSize := 20
  const MaxPageSize := 100

  const PageError := "Page must be >= 1"
  const PageSizeError := "PageSize must be between 1 and 100"
  const FetchError := "Failed to fetch request details"

  /** `parseInt(searchParams.get(name)) || default`: NaN and 0 fall back to the default. */
  function IntParam(params: SearchParams, name: string, default: int): (n: int)
    ensures ParseInt(Get(params, name)).None? ==> n == default
    ensures ParseInt(Get(params, name)) == Some(0) ==> n == default
    ensures ParseInt(Get(params, name)).Some? && ParseInt(Get(params, name)).value != 0 ==> n == ParseInt(Get(params, name)).value
    ensures default != 0 ==> n != 0
  {
    var parsed := ParseInt(Get(params, name));
    if parsed.None? || parsed.value == 0 then default else parsed.value
  }

  /**
   * The filter handed to the query: page and size always, each text filter
   * only when given non-empty (dates stay as the strings given).
   */
  datatype RouteFilter = RouteFilter(
    page: int,
    pageSize: int,
    provider: Option<string>,
    model: Option<string>,
    connectionId: Option<string>,
    status: Option<string>,
    startDate: Option<string>,
    endDate: Option<string>)

  /**
   * The validation and filter-building part of GET: the page is checked
   * first, then the page size; the error is the 400 response's message.
   */
  function ParseRequestDetailsQuery(params: SearchParams): (r: Result<RouteFilter, string>)
    ensures var page := IntParam(params, "page", DefaultPage);
            var pageSize := IntParam(params, "pageSize", DefaultPageSize);
            && (r.Err? <==> page < 1 || pageSize < 1 || pageSize > MaxPageSize)
            && (page < 1 ==> r == Err(PageError))
            && (page >= 1 && (pageSize < 1 || pageSize > MaxPageSize) ==> r == Err(PageSizeError))
            && (r.Ok? ==> r.value.page == page && r.value.pageSize == pageSize)
    ensures r.Ok? ==> 1 <= r.value.page && 1 <= r.value.pageSize <= MaxPageSize
    ensures r.Ok? ==>
              && r.value.provider == OrNull(Get(params, "provider"))
              && r.value.model == OrNull(Get(params, "model"))
              && r.value.connectionId == OrNull(Get(params, "connectionId"))
              && r.value.status == OrNull(Get(params, "status"))
              && r.value.startDate == OrNull(Get(params, "startDate"))
              && r.value.endDate == OrNull(Get(params, "endDate"))
  {
    var page := IntParam(params, "page", DefaultPage);
    var pageSize := IntParam(params, "pageSize", DefaultPageSize);
    if page < 1 then Err(PageError)
    else if pageSize < 1 || pageSize > MaxPageSize then Err(PageSizeError)
    else
      Ok(RouteFilter(
        page, pageSize,
        OrNull(Get(params, "provider")), OrNull(Get(params, "model")),
        OrNull(Get(params, "connectionId")), OrNull(Get(params, "status")),
        OrNull(Get(params, "startDate")), OrNull(Get(params, "endDate"))))
  }

  /** An HTTP response: its status and JSON body. */
  datatype Response = Response(status: int, body: Json)

  function ErrorBody(message: string): Json {
    JObj(map["error" := JStr(message)])
  }

  /**
   * `GET(request)`: a 400 with the validation message, otherwise the query's
   * result as a 200, or a 500 when the query throws. The query itself
   * (`getRequestDetails` of src/lib/usageDb.js) is a parameter.
   */
  function HandleGet(params: SearchParams, fetch: RouteFilter -> Result<Json, string>): (resp: Response)
    ensures resp.status == 400 <==> ParseRequestDetailsQuery(params).Err?
    ensures resp.status == 400 ==> resp.body == ErrorBody(ParseRequestDetailsQuery(params).error)
    ensures resp.status == 200 <==> ParseRequestDetailsQuery(params).Ok? && fetch(ParseRequestDetailsQuery(params).value).Ok?
    ensures resp.status == 200 ==> resp.body == fetch(ParseRequestDetailsQuery(params).value).value
    ensures resp.status == 500 ==> resp.body == ErrorBody(FetchError)
    ensures resp.status in {200, 400, 500}
  {
    match ParseRequestDetailsQuery(params)
    case Err(message) => Response(400, ErrorBody(message))
    case Ok(filter) =>
      match fetch(filter)
      case Ok(result) => Response(200, result)
      case Err(_) => Response(500, ErrorBody(FetchError))
  }

  /** With neither parameter given the request asks for page 1 of 20 rows. */
  lemma NoPagingParamsIsFirstPageOfTwenty(params: SearchParams)
    requires forall i :: 0 <= i < |params| ==> params[i].0 != "page" && params[i].0 != "pageSize"
    ensures ParseRequestDetailsQuery(params).Ok?
    ensures ParseRequestDetailsQuery(params).value.page == 1
    ensures ParseRequestDetailsQuery(params).value.pageSize == 20
  {
  }

  lemma ParseIntZero()
    ensures ParseInt(Some("0")) == Some(0)
  {
    ParseIntReadsDecimal(0, false, "");
    assert NatToDecimal(0) == "0";
    assert Sign(false) + (NatToDecimal(0) + "") == "0";
  }

  lemma ParseIntMinusOne()
    ensures ParseInt(Some("-1")) == Some(-1)
  {
    ParseIntReadsDecimal(1, true, "");
    assert NatToDecimal(1) == "1";
    assert NatToDecimal(1) + "" == "1";
    assert Sign(true) + "1" == "-1";
    assert Signed(true, 1) == -1;
  }

  /** `page=0` falls back to page 1 rather than being rejected. */
  lemma ZeroPageIsDefaulted(rest: SearchParams)
    requires forall i :: 0 <= i < |rest| ==> rest[i].0 != "page" && rest[i].0 != "pageSize"
    ensures ParseRequestDetailsQuery([("page", "0")] + rest).Ok?
    ensures ParseRequestDetailsQuery([("page", "0")] + rest).value.page == 1
  {
    var params := [("page", "0")] + rest;
    GetCons(("page", "0"), rest, "page");
    GetCons(("page", "0"), rest, "pageSize");
    ParseIntZero();
    assert IntParam(params, "page", DefaultPage) == 1;
    assert IntParam(params, "pageSize", DefaultPageSize) == 20;
  }

  /** `page=-1` is rejected with the page message, whatever the page size. */
  lemma NegativePageIsRejected(rest: SearchParams)
    requires forall i :: 0 <= i < |rest| ==> rest[i].0 != "page"
    ensures ParseRequestDetailsQuery([("page", "-1")] + rest) == Err(PageError)
  {
    var params := [("page", "-1")] + rest;
    GetCons(("page", "-1"), rest, "page");
    ParseIntMinusOne();
    assert IntParam(params, "page", DefaultPage) == -1;
  }

  /**
   * A page size written in decimal is accepted exactly when it is 1 to 100,
   * and then used as given; 0 falls back to 20.
   */
  lemma PageSizeAcceptedIffInRange(n: nat)
    ensures var r := ParseRequestDetailsQuery([("pageSize", NatToDecimal(n))]);
            && (r.Ok? <==> n <= MaxPageSize)
            && (r.Ok? ==> r.value.pageSize == (if n == 0 then DefaultPageSize else n))
            && (r.Err? ==> r.error == PageSizeError)
  {
    var params := [("pageSize", NatToDecimal(n))];
    ParseIntReadsDecimal(n, false, "");
    assert Sign(false) + (NatToDecimal(n) + "") == NatToDecimal(n);
    assert Get(params, "pageSize") == Some(NatToDecimal(n));
    assert Get(params, "page") == None;
    assert IntParam(params, "pageSize", DefaultPageSize) == (if n == 0 then DefaultPageSize else n);
  }
}
