/**
 * The HTTP client's session side: the `accessToken` entry of the browser's
 * key-value storage, `setAuthToken`, the request interceptor that attaches
 * `Authorization: Bearer <token>` (section 2.1 of RFC 6750) and the
 * interceptors' error pass-through.
 */
module Client {
  import opened Wrappers

  /** The storage key under which the bearer token is kept. */
  const AccessTokenKey: string := "accessToken"

  /** Browser key-value storage (`localStorage`): string keys to string values. */
  class Storage {
    var items: map<string, string>

    constructor (initial: map<string, string>)
      ensures items == initial
    {
      items := initial;
    }

    /** `getItem(key)`: the stored value, or `null`. */
    method GetItem(key: string) returns (v: Option<string>)
      ensures v == Lookup(items, key)
    {
      v := if key in items then Some(items[key]) else None;
    }

    /** `setItem(key, value)`. */
    method SetItem(key: string, value: string)
      modifies this
      ensures items == old(items)[key := value]
    {
      items := items[key := value];
    }

    /** `removeItem(key)`; removing an absent key is allowed and changes nothing. */
    method RemoveItem(key: string)
      modifies this
      ensures items == old(items) - {key}
    {
      items := items - {key};
    }
  }

  /** The value stored under `key`, if any. */
  function Lookup(items: map<string, string>, key: string): Option<string>
  {
    if key in items then Some(items[key]) else None
  }

  /** What reading the `accessToken` entry of the storage returns. */
  function StoredToken(items: map<string, string>): Option<string>
  {
    Lookup(items, AccessTokenKey)
  }

  /** JavaScript truthiness of an optional string: present and not empty. */
  predicate Truthy(token: Option<string>)
  {
    token.Some? && token.value != ""
  }

  /** The storage after `setAuthToken(token)`; `None` is a call with no argument. */
  function StoreToken(items: map<string, string>, token: Option<string>): map<string, string>
  {
    if Truthy(token) then items[AccessTokenKey := token.value] else items - {AccessTokenKey}
  }

  /** `setAuthToken(token)`: write a truthy token, remove the entry otherwise. */
  method SetAuthToken(storage: Storage, token: Option<string>)
    modifies storage
    ensures storage.items == StoreToken(old(storage.items), token)
  {
    if Truthy(token) {
      storage.SetItem(AccessTokenKey, token.value);
    } else {
      storage.RemoveItem(AccessTokenKey);
    }
  }

  /** A non-empty token written is the token read back. */
  lemma StoreThenRead(items: map<string, string>, token: string)
    requires token != ""
    ensures StoredToken(StoreToken(items, Some(token))) == Some(token)
  {
  }

  /** No token, or the empty token, removes the entry. */
  lemma ClearThenRead(items: map<string, string>, token: Option<string>)
    requires token == None || token == Some("")
    ensures StoredToken(StoreToken(items, token)) == None
  {
  }

  /** The last write wins. */
  lemma LastWriteWins(items: map<string, string>, first: Option<string>, second: Option<string>)
    ensures StoreToken(StoreToken(items, first), second) == StoreToken(items, second)
  {
  }

  /** Only the `accessToken` entry is touched. */
  lemma OtherKeysUntouched(items: map<string, string>, token: Option<string>, key: string)
    requires key != AccessTokenKey
    ensures Lookup(StoreToken(items, token), key) == Lookup(items, key)
  {
  }

  /** Writing back the token that is already stored changes nothing. */
  lemma RewriteStoredToken(items: map<string, string>)
    requires Truthy(StoredToken(items))
    ensures StoreToken(items, StoredToken(items)) == items
  {
  }

  // ---------------------------------------------------------------------
  // Request interceptor

  const BearerPrefix: string := "Bearer "

  /** The credentials of section 2.1 of RFC 6750 for a token. */
  function BearerHeader(token: string): string
  {
    BearerPrefix + token
  }

  /** The token in an `Authorization` value of the `Bearer` scheme, if it is one. */
  function BearerToken(header: string): Option<string>
  {
    if |header| >= |BearerPrefix| && header[..|BearerPrefix|] == BearerPrefix
    then Some(header[|BearerPrefix|..])
    else None
  }

  lemma BearerRoundTrip(token: string)
    ensures BearerToken(BearerHeader(token)) == Some(token)
  {
    var h := BearerHeader(token);
    assert h[..|BearerPrefix|] == BearerPrefix;
    assert h[|BearerPrefix|..] == token;
  }

  /** The headers after the request interceptor ran with `token` in storage. */
  function WithBearer(headers: map<string, string>, token: Option<string>): map<string, string>
  {
    if Truthy(token) then headers["Authorization" := BearerHeader(token.value)] else headers
  }

  /** A stored token is attached as exactly `Bearer <token>`, and no other header changes. */
  lemma BearerAttached(headers: map<string, string>, token: string, key: string)
    requires token != ""
    ensures "Authorization" in WithBearer(headers, Some(token))
    ensures WithBearer(headers, Some(token))["Authorization"] == "Bearer " + token
    ensures BearerToken(WithBearer(headers, Some(token))["Authorization"]) == Some(token)
    ensures key != "Authorization" ==> Lookup(WithBearer(headers, Some(token)), key) == Lookup(headers, key)
  {
    BearerRoundTrip(token);
  }

  /** Without a token (or with the empty one) the headers are left as they were. */
  lemma NoTokenNoHeader(headers: map<string, string>, token: Option<string>)
    requires !Truthy(token)
    ensures WithBearer(headers, token) == headers
  {
  }

  /** The mutable request configuration the interceptor is handed. */
  class RequestConfig {
    var httpMethod: string
    var url: string
    var headers: map<string, string>

    constructor (httpMethod: string, url: string, headers: map<string, string>)
      ensures this.httpMethod == httpMethod && this.url == url && this.headers == headers
    {
      this.httpMethod, this.url, this.headers := httpMethod, url, headers;
    }
  }

  /** The request interceptor: updates the config's `Authorization` header in place and returns the same config. */
  method InterceptRequest(storage: Storage, config: RequestConfig) returns (r: RequestConfig)
    modifies config
    ensures r == config
    ensures config.headers == WithBearer(old(config.headers), StoredToken(storage.items))
    ensures config.httpMethod == old(config.httpMethod) && config.url == old(config.url)
  {
    var token := storage.GetItem(AccessTokenKey);
    if Truthy(token) {
      config.headers := config.headers["Authorization" := BearerHeader(token.value)];
    }
    r := config;
  }

  // ---------------------------------------------------------------------
  // Error pass-through

  /** A transport failure; `status` is absent when no response arrived. */
  datatype HttpError = HttpError(status: Option<int>, message: string)

  datatype Response = Response(status: int, body: string)

  /** How a promise settles. */
  datatype Settled<T> = Fulfilled(value: T) | Rejected(error: HttpError)

  /** The request interceptor's error handler re-rejects the error it was given. */
  function InterceptRequestError<T>(error: HttpError): (r: Settled<T>)
    ensures r.Rejected? && r.error == error
  {
    Rejected(error)
  }

  /**
   * The response interceptor: a response passes through and every error,
   * a 401 included, is rejected unchanged. The storage is passed in only to
   * make the frame explicit: the method has no right to change it, so the
   * stored token survives a 401 (the removal there is commented out).
   */
  method InterceptResponse(storage: Storage, outcome: Settled<Response>) returns (r: Settled<Response>)
    ensures r == outcome
    ensures outcome.Rejected? ==> r.Rejected? && r.error == outcome.error
  {
    r := outcome;
  }
}
