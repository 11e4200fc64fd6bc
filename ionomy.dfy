/**
 * The Ionomy API client core: construction of the client configuration,
 * the canonical string that is signed, the authentication headers, the
 * unwrapping of the exchange's `{success, message, data}` envelope, and the
 * `request` primitive that ties them together.
 *
 * Effects are parameters: the HMAC-SHA512 hex digest is `hmac(key, message)`,
 * the clock reading is `ts`, and the HTTP GET is `get`, a function from the
 * outgoing request to the envelope the exchange answers with.
 */
module Ionomy {
  import opened Wrappers
  import Decimal
  import FormUrlencoded

  const DefaultApi: string := "https://ionomy.com/api/v1/"

  const TimeHeader: string := "api-auth-time"
  const KeyHeader: string := "api-auth-key"
  const TokenHeader: string := "api-auth-token"

  /** A parameter or header value: a JavaScript string or an integral number. */
  datatype Value = Str(s: string) | Num(n: int)

  /** JavaScript truthiness: the empty string and zero are falsy. */
  predicate Truthy(v: Value)
  {
    match v
    case Str(s) => s != ""
    case Num(n) => n != 0
  }

  /** `String(v)`, as `URLSearchParams` converts each value. */
  function ToText(v: Value): string
  {
    match v
    case Str(s) => s
    case Num(n) => Decimal.IntToDecimal(n)
  }

  /** Request parameters in insertion order, as the keys of a JavaScript object literal are enumerated. */
  type Params = seq<(string, Value)>

  type Headers = map<string, Value>

  type Hmac = (string, string) -> string

  datatype Config = Config(baseURL: string, apiKey: string, apiSecret: string, keepAlive: bool)

  /**
   * The constructor: an empty `api` falls back to the public endpoint, and an
   * omitted `keepAlive` (`None`) defaults to `true`; an explicit `false` is kept.
   * An omitted `api`, `apiKey` or `apiSecret` defaults to `""`.
   */
  function NewClient(api: string, apiKey: string, apiSecret: string, keepAlive: Option<bool>): (c: Config)
    ensures c.baseURL == (if api == "" then DefaultApi else api)
    ensures c.baseURL != ""
    ensures c.apiKey == apiKey && c.apiSecret == apiSecret
    ensures c.keepAlive <==> (keepAlive == None || keepAlive == Some(true))
  {
    Config(if api != "" then api else DefaultApi, apiKey, apiSecret,
      match keepAlive case None => true case Some(k) => k)
  }

  function Stringify(params: Params): (pairs: seq<(string, string)>)
    ensures |pairs| == |params|
    ensures forall i :: 0 <= i < |params| ==> pairs[i] == (params[i].0, ToText(params[i].1))
  {
    if params == [] then [] else [(params[0].0, ToText(params[0].1))] + Stringify(params[1..])
  }

  /** `new URLSearchParams(params).toString()`. */
  function Query(params: Params): (q: string)
    ensures q == "" <==> params == []
  {
    FormUrlencoded.Serialize(Stringify(params))
  }

  /** The string that is signed: the URL, with `?query` only when there is a query, then the timestamp in decimal with no separator. */
  function Canonical(baseURL: string, path: string, params: Params, ts: int): (s: string)
    ensures params == [] ==> s == baseURL + path + Decimal.IntToDecimal(ts)
    ensures params != [] ==> s == baseURL + path + "?" + Query(params) + Decimal.IntToDecimal(ts)
  {
    var query := Query(params);
    var url := baseURL + path + (if query != "" then "?" + query else "");
    url + Decimal.IntToDecimal(ts)
  }

  /** `requestSignature`: the digest of the canonical string, keyed by the API secret. */
  function RequestSignature(cfg: Config, path: string, params: Params, ts: int, hmac: Hmac): (sig: string)
    ensures Verifies(cfg.apiSecret, cfg.baseURL, path, params, map[TimeHeader := Num(ts), TokenHeader := Str(sig)], hmac)
  {
    hmac(cfg.apiSecret, Canonical(cfg.baseURL, path, params, ts))
  }

  /** Requests are signed only when both credentials are non-empty. */
  predicate Signs(cfg: Config)
  {
    cfg.apiKey != "" && cfg.apiSecret != ""
  }

  /** The headers `request` attaches. */
  function AuthHeaders(cfg: Config, path: string, params: Params, ts: int, hmac: Hmac): (h: Headers)
    ensures Signs(cfg) ==> h.Keys == {TimeHeader, KeyHeader, TokenHeader}
    ensures Signs(cfg) ==> h[TimeHeader] == Num(ts) && h[KeyHeader] == Str(cfg.apiKey)
    ensures Signs(cfg) ==> h[TokenHeader] == Str(RequestSignature(cfg, path, params, ts, hmac))
    ensures !Signs(cfg) ==> h == map[]
  {
    if Signs(cfg) then
      map[TimeHeader := Num(ts), KeyHeader := Str(cfg.apiKey), TokenHeader := Str(RequestSignature(cfg, path, params, ts, hmac))]
    else map[]
  }

  /**
   * The recomputation of the signature from a request's path, parameters and
   * time header: the token is the digest, under `secret`, of the canonical
   * string rebuilt from them. (The URL the transport actually puts on the wire
   * is not modelled.)
   */
  predicate Verifies(secret: string, baseURL: string, path: string, params: Params, h: Headers, hmac: Hmac)
  {
    TimeHeader in h && h[TimeHeader].Num? && TokenHeader in h
    && h[TokenHeader] == Str(hmac(secret, Canonical(baseURL, path, params, h[TimeHeader].n)))
  }

  /** The response body, already parsed: `message` and `data` may be absent. */
  datatype Envelope<T> = Envelope(success: bool, message: Option<string>, data: Option<T>)

  /** The error text of `new Error(message)`: an absent message gives the empty string. */
  function ErrorText(message: Option<string>): string
  {
    match message
    case Some(m) => m
    case None => ""
  }

  /** The envelope collapses to its `data` (absent stays absent) or to a failure carrying `message`. */
  function Unwrap<T>(env: Envelope<T>): (r: Result<Option<T>, string>)
    ensures r.Success? <==> env.success
    ensures env.success ==> r.value == env.data
    ensures !env.success ==> r.error == ErrorText(env.message)
  {
    if !env.success then Failure(ErrorText(env.message)) else Success(env.data)
  }

  /** How the exchange reports an outcome; `Unwrap` inverts it. */
  function Respond<T>(outcome: Result<Option<T>, string>): Envelope<T>
  {
    match outcome
    case Success(data) => Envelope(true, None, data)
    case Failure(m) => Envelope(false, Some(m), None)
  }

  /** The GET handed to the HTTP client: path relative to the base URL, query parameters, headers. */
  datatype Outgoing = Get(path: string, params: Params, headers: Headers)

  /** One round trip: the request that was sent and how its promise settles. */
  datatype Exchange<T> = Exchange(request: Outgoing, reply: Result<Option<T>, string>)

  /** `request(endpoint, params)`, with the clock reading `ts` and the transport `get`. */
  function Request<T>(cfg: Config, endpoint: string, params: Params, ts: int, hmac: Hmac, get: Outgoing -> Envelope<T>): (x: Exchange<T>)
    ensures x.request.path == endpoint && x.request.params == params
    ensures Signs(cfg) ==> Verifies(cfg.apiSecret, cfg.baseURL, endpoint, params, x.request.headers, hmac)
    ensures Signs(cfg) ==> x.request.headers.Keys == {TimeHeader, KeyHeader, TokenHeader}
    ensures Signs(cfg) ==> x.request.headers[TimeHeader] == Num(ts) && x.request.headers[KeyHeader] == Str(cfg.apiKey)
    ensures !Signs(cfg) ==> x.request.headers == map[]
    ensures x.reply == Unwrap(get(x.request))
  {
    var request := Get(endpoint, params, AuthHeaders(cfg, endpoint, params, ts, hmac));
    Exchange(request, Unwrap(get(request)))
  }

  // ---- properties ----

  lemma UnwrapRespond<T>(outcome: Result<Option<T>, string>)
    ensures Unwrap(Respond(outcome)) == outcome
  {
  }

  /** Signed headers pass the exchange's check, and only signed requests carry headers at all. */
  lemma SignedHeadersVerify(cfg: Config, path: string, params: Params, ts: int, hmac: Hmac)
    ensures Signs(cfg) ==> Verifies(cfg.apiSecret, cfg.baseURL, path, params, AuthHeaders(cfg, path, params, ts, hmac), hmac)
    ensures AuthHeaders(cfg, path, params, ts, hmac) == map[] <==> !Signs(cfg)
  {
    if Signs(cfg) {
      assert TimeHeader in AuthHeaders(cfg, path, params, ts, hmac);
    }
  }

  lemma StringifyInjective(ps: Params, qs: Params)
    ensures Query(ps) == Query(qs) ==> Stringify(ps) == Stringify(qs)
  {
    FormUrlencoded.SerializeInjective(Stringify(ps), Stringify(qs));
  }

  /**
   * For a fixed base URL, path and timestamp the canonical string determines
   * the parameters: every name, every value as text, and their order.
   */
  lemma CanonicalDeterminesParams(baseURL: string, path: string, ps: Params, qs: Params, ts: int)
    requires Canonical(baseURL, path, ps, ts) == Canonical(baseURL, path, qs, ts)
    ensures Stringify(ps) == Stringify(qs)
  {
    var prefix, suffix := baseURL + path, Decimal.IntToDecimal(ts);
    var s := Canonical(baseURL, path, ps, ts);
    var qp := if ps == [] then "" else "?" + Query(ps);
    var qq := if qs == [] then "" else "?" + Query(qs);
    assert s == prefix + qp + suffix;
    assert s == prefix + qq + suffix;
    assert |qp| == |qq|;
    assert qp == s[|prefix|..|s| - |suffix|];
    assert qq == s[|prefix|..|s| - |suffix|];
    if ps != [] {
      assert qp[1..] == Query(ps) && qq[1..] == Query(qs);
    }
    StringifyInjective(ps, qs);
  }

  /** Swapping two parameters changes the signed string. */
  lemma OrderMatters(baseURL: string, path: string, ts: int)
    ensures Canonical(baseURL, path, [("a", Num(1)), ("b", Num(2))], ts)
         != Canonical(baseURL, path, [("b", Num(2)), ("a", Num(1))], ts)
  {
    var ps: Params := [("a", Num(1)), ("b", Num(2))];
    var qs: Params := [("b", Num(2)), ("a", Num(1))];
    if Canonical(baseURL, path, ps, ts) == Canonical(baseURL, path, qs, ts) {
      CanonicalDeterminesParams(baseURL, path, ps, qs, ts);
      assert false;
    }
  }

  /** A parameterless request signs the URL and the timestamp with nothing between them. */
  lemma MarketsCanonical(baseURL: string)
    ensures Canonical(baseURL, "public/markets", [], 1000) == baseURL + "public/markets" + "1000"
  {
    assert Decimal.IntToDecimal(1000) == "1000";
  }

  /**
   * The timestamp follows the query with no separator, so the signed string
   * alone does not tell a trailing digit of the last value from a leading
   * digit of the timestamp.
   */
  lemma TimestampAbutsQuery(baseURL: string, path: string)
    ensures Canonical(baseURL, path, [("a", Str("1"))], 23) == Canonical(baseURL, path, [("a", Str("12"))], 3)
  {
    assert Decimal.IntToDecimal(23) == "23";
    assert Decimal.IntToDecimal(3) == "3";
    assert Query([("a", Str("1"))]) == "a=1";
    assert Query([("a", Str("12"))]) == "a=12";
  }
}
