/**
 * `APIClient`: default headers, the headers of one request, the optional
 * bearer token, and the check of the response status. Sending the request,
 * URL resolution and JSON encoding and decoding are not modelled: the
 * resolved URL and the network exchange are parameters.
 */
module Api {
  import opened Wrappers
  import opened Text

  type Headers = map<string, string>

  const ContentType := "Content-Type"
  const Authorization := "Authorization"

  /** The header every client starts with. */
  const JsonContentType: Headers := map[ContentType := "application/json"]

  /** A client value; the URL session is left out. */
  datatype APIClient = APIClient(
    baseURL: string,
    defaultHeaders: Headers,
    authToken: Option<string>,
    includeAuthToken: bool)

  /** `current.merging(other) { current, _ in current }`: the union of the keys, where a key already present keeps its value. */
  function MergeKeepingCurrent(current: Headers, other: Headers): (m: Headers)
    ensures m.Keys == current.Keys + other.Keys
    ensures forall k :: k in current ==> m[k] == current[k]
    ensures forall k :: k in other && k !in current ==> m[k] == other[k]
  {
    map k | k in current.Keys + other.Keys :: if k in current then current[k] else other[k]
  }

  /** `init`: the caller's headers join the JSON content type, which they cannot replace. */
  function NewClient(baseURL: string, defaultHeaders: Headers := map[], authToken: Option<string> := None,
                     includeAuthToken: bool := false): (c: APIClient)
    ensures c.baseURL == baseURL && c.authToken == authToken && c.includeAuthToken == includeAuthToken
    ensures c.defaultHeaders.Keys == {ContentType} + defaultHeaders.Keys
    ensures c.defaultHeaders[ContentType] == "application/json"
    ensures forall k :: k in defaultHeaders && k != ContentType ==> c.defaultHeaders[k] == defaultHeaders[k]
  {
    APIClient(baseURL, MergeKeepingCurrent(JsonContentType, defaultHeaders), authToken, includeAuthToken)
  }

  /** Whether the request carries `Authorization: Bearer <token>`. */
  predicate SendsToken(c: APIClient) {
    c.includeAuthToken && c.authToken.Some?
  }

  /**
   * `combinedHeaders`: the defaults, plus the request's headers for keys the
   * defaults lack, with the bearer token over any earlier `Authorization`.
   */
  function CombinedHeaders(c: APIClient, headers: Headers): (m: Headers)
    ensures m.Keys == c.defaultHeaders.Keys + headers.Keys + (if SendsToken(c) then {Authorization} else {})
    ensures SendsToken(c) ==> m[Authorization] == "Bearer " + c.authToken.value
    ensures forall k :: k in c.defaultHeaders && !(SendsToken(c) && k == Authorization) ==>
      m[k] == c.defaultHeaders[k]
    ensures forall k :: k in headers && k !in c.defaultHeaders && !(SendsToken(c) && k == Authorization) ==>
      m[k] == headers[k]
  {
    var merged := MergeKeepingCurrent(c.defaultHeaders, headers);
    if SendsToken(c) then merged[Authorization := "Bearer " + c.authToken.value] else merged
  }

  /** The per-request headers never replace a default header, except the token's `Authorization`. */
  lemma DefaultsWin(c: APIClient, headers: Headers, k: string)
    requires k in c.defaultHeaders && k != Authorization
    ensures CombinedHeaders(c, headers)[k] == c.defaultHeaders[k]
  {
  }

  /** Without the token the combination is the plain merge; with it, only `Authorization` differs. */
  lemma TokenOnlyTouchesAuthorization(c: APIClient, headers: Headers)
    ensures !SendsToken(c) ==> CombinedHeaders(c, headers) == MergeKeepingCurrent(c.defaultHeaders, headers)
    ensures SendsToken(c) ==>
      CombinedHeaders(c, headers) - {Authorization} == MergeKeepingCurrent(c.defaultHeaders, headers) - {Authorization}
  {
  }

  /** A client built by `init` always sends the JSON content type, whatever the request adds. */
  lemma ContentTypeAlwaysJson(baseURL: string, defaults: Headers, token: Option<string>, withToken: bool, headers: Headers)
    ensures CombinedHeaders(NewClient(baseURL, defaults, token, withToken), headers)[ContentType] == "application/json"
  {
  }

  /** The request handed to the session; `body` stands for the encoded payload. */
  datatype Request<T> = Request(url: string, httpMethod: string, headers: Headers, body: Option<T>)

  /**
   * The request that `sendRequest` builds: method as given (`POST` by
   * default), the combined headers copied one by one into the request, and a
   * body exactly when a payload is given.
   */
  method BuildRequest<T>(c: APIClient, url: string, httpMethod: string := "POST", payload: Option<T> := None,
                         headers: Headers := map[]) returns (request: Request<T>)
    ensures request.url == url && request.httpMethod == httpMethod
    ensures request.headers == CombinedHeaders(c, headers)
    ensures request.body == payload
  {
    request := Request(url, "GET", map[], None);
    request := request.(httpMethod := httpMethod);

    var combinedHeaders := MergeKeepingCurrent(c.defaultHeaders, headers);
    if c.includeAuthToken && c.authToken.Some? {
      combinedHeaders := combinedHeaders[Authorization := "Bearer " + c.authToken.value];
    }

    var remaining := combinedHeaders.Keys;
    while remaining != {}
      invariant remaining <= combinedHeaders.Keys
      invariant request.headers.Keys == combinedHeaders.Keys - remaining
      invariant forall k :: k in request.headers ==> request.headers[k] == combinedHeaders[k]
      invariant request.url == url && request.httpMethod == httpMethod && request.body == None
      decreases remaining
    {
      var k :| k in remaining;
      request := request.(headers := request.headers[k := combinedHeaders[k]]);
      remaining := remaining - {k};
    }

    if payload.Some? {
      request := request.(body := payload);
    }
  }

  /** What the session returned: an HTTP response, with its body as UTF-8 text when it decodes. */
  datatype HTTPResponse = HTTPResponse(statusCode: int, bodyText: Option<string>)

  datatype APIError =
    | BadURL
    | BadServerResponse
    | HTTPError(code: int, description: string)

  /** Statuses 200 through 299 are success (`200..<300`). */
  predicate IsSuccessStatus(status: int) {
    200 <= status < 300
  }

  /**
   * The checks after the exchange: a response that is not HTTP is a bad
   * server response; a status outside `200..<300` throws an error whose code
   * is the status and whose description quotes the body.
   */
  function CheckResponse(response: Option<HTTPResponse>): (r: Result<HTTPResponse, APIError>)
    ensures response.None? ==> r == Failure(BadServerResponse)
    ensures response.Some? ==> (r.Success? <==> IsSuccessStatus(response.value.statusCode))
    ensures r.Success? ==> r.value == response.value
    ensures response.Some? && r.Failure? ==>
      r.error == HTTPError(response.value.statusCode,
                           "HTTP " + IntToString(response.value.statusCode) + ": "
                           + response.value.bodyText.GetOr("No response body"))
  {
    match response
    case None => Failure(BadServerResponse)
    case Some(http) =>
      if !(200 <= http.statusCode && http.statusCode < 300) then
        var errorBody := http.bodyText.GetOr("No response body");
        Failure(HTTPError(http.statusCode, "HTTP " + IntToString(http.statusCode) + ": " + errorBody))
      else Success(http)
  }

  /** Every rejected HTTP response reports its own status as the error code. */
  lemma RejectedCarriesStatus(http: HTTPResponse)
    requires !IsSuccessStatus(http.statusCode)
    ensures CheckResponse(Some(http)).Failure?
    ensures CheckResponse(Some(http)).error.HTTPError? && CheckResponse(Some(http)).error.code == http.statusCode
  {
  }

  /**
   * `sendRequest` up to decoding: fail on an unresolvable URL, otherwise build
   * the request, hand it to `exchange` (the network) and check the response.
   */
  method SendRequest<T>(c: APIClient, resolvedURL: Option<string>, exchange: Request<T> -> Option<HTTPResponse>,
                        httpMethod: string := "POST", payload: Option<T> := None, headers: Headers := map[])
    returns (sent: Option<Request<T>>, result: Result<HTTPResponse, APIError>)
    ensures resolvedURL.None? ==> sent.None? && result == Failure(BadURL)
    ensures resolvedURL.Some? ==>
      && sent.Some?
      && sent.value == Request(resolvedURL.value, httpMethod, CombinedHeaders(c, headers), payload)
      && result == CheckResponse(exchange(sent.value))
  {
    if resolvedURL.None? {
      return None, Failure(BadURL);
    }
    var request := BuildRequest(c, resolvedURL.value, httpMethod, payload, headers);
    var response := exchange(request);
    sent := Some(request);
    result := CheckResponse(response);
  }
}
