/** What `request` (app/services/api.ts:298-306) does to its options object
    before handing it to the HTTP layer, and the header defaulting of
    `getRequestHeaders` (290-297). The HTTP call itself is not modelled. */
module Requests {
  import opened JsValues
  import opened QueryStrings
  import Network
  import Responses

  const ContentType := "Content-Type"
  const Json := "application/json"

  /** A header value read with `headers['Content-Type']`, as a JS value. */
  function HeaderValue(headers: Dict<string>, name: string): JsValue {
    match Lookup(headers, name)
    case Some(v) => Str(v)
    case None => JsValue.Undefined
  }

  /** `getRequestHeaders`: the caller's headers (a fresh object when there are
      none) with `Content-Type` set to JSON when it is missing or empty. */
  function GetRequestHeaders(headers: Option<Dict<string>>): (r: Dict<string>)
    ensures var given := if headers.Some? then headers.value else [];
            && Lookup(r, ContentType) == (if Truthy(HeaderValue(given, ContentType)) then Lookup(given, ContentType) else Some(Json))
            && (forall k :: k != ContentType ==> Lookup(r, k) == Lookup(given, k))
            && (Lookup(given, ContentType).Some? ==> Keys(r) == Keys(given))
            && (Lookup(given, ContentType).None? ==> r == given + [(ContentType, Json)])
            && (DistinctKeys(given) ==> DistinctKeys(r))
  {
    var given := if headers.Some? then headers.value else [];
    assert DistinctKeys(given) ==> DistinctKeys(Put(given, ContentType, Json)) by {
      if DistinctKeys(given) { PutKeepsKeysDistinct(given, ContentType, Json); }
    }
    if !Truthy(HeaderValue(given, ContentType)) then Put(given, ContentType, Json) else given
  }

  /** The headers that come out always carry a non-empty `Content-Type`, and
      running them through `getRequestHeaders` again changes nothing, so a
      retried request keeps its headers. */
  lemma HeadersIdempotent(headers: Option<Dict<string>>)
    ensures var r := GetRequestHeaders(headers);
            && Truthy(HeaderValue(r, ContentType))
            && GetRequestHeaders(Some(r)) == r
  {
  }

  /** A caller's explicit content type is kept. */
  lemma ExplicitContentTypeKept(headers: Dict<string>, t: string)
    requires t != ""
    requires Lookup(headers, ContentType) == Some(t)
    ensures GetRequestHeaders(Some(headers)) == headers
  {
  }

  /** The mutable `HttpRequestOptions` object passed to `request`. */
  class RequestOptions {
    var url: string
    var queryParams: Option<Params>
    var headers: Option<Dict<string>>

    /** Plain JS objects never repeat a key. */
    predicate Valid()
      reads this
    {
      queryParams.Some? && queryParams.value.ObjectParams? ==> DistinctKeys(queryParams.value.fields)
    }

    constructor (url: string, queryParams: Option<Params>, headers: Option<Dict<string>>)
      requires queryParams.Some? && queryParams.value.ObjectParams? ==> DistinctKeys(queryParams.value.fields)
      ensures this.url == url && this.queryParams == queryParams && this.headers == headers
      ensures Valid()
    {
      this.url := url;
      this.queryParams := queryParams;
      this.headers := headers;
    }
  }

  /** Whether `if (requestParams.queryParams)` takes its branch: the
      parameters are present and truthy. */
  predicate HasQueryParams(queryParams: Option<Params>) {
    queryParams.Some? && !(queryParams.value.ScalarParams? && !queryParams.value.truthy)
  }

  /** The URL `request` sends to. */
  function FinalUrl(url: string, queryParams: Option<Params>): string {
    if HasQueryParams(queryParams) then QueryStringSpec(queryParams.value, url) else url
  }

  /** The part of `request` before the HTTP call: without a connection it
      throws `NoNetworkError` and touches nothing; otherwise truthy query
      parameters are folded into the URL and removed (falsy ones are left
      alone, URL included), and the headers are defaulted. */
  method Preflight(network: Network.NetworkService, options: RequestOptions) returns (err: Option<Responses.RequestError>)
    requires options.Valid()
    modifies options
    ensures !network.connected ==> err == Some(Responses.NoNetwork) && unchanged(options)
    ensures network.connected ==> && err.None?
                                  && options.url == FinalUrl(old(options.url), old(options.queryParams))
                                  && options.queryParams == (if HasQueryParams(old(options.queryParams)) then None else old(options.queryParams))
                                  && options.headers == Some(GetRequestHeaders(old(options.headers)))
  {
    if !network.connected {
      return Some(Responses.NoNetwork);
    }
    if HasQueryParams(options.queryParams) {
      options.url := QueryString(options.queryParams.value, options.url);
      options.queryParams := None;
    }
    options.headers := Some(GetRequestHeaders(options.headers));
    err := None;
  }
}
