/** The Bitget adapter (backend/internal/api/api_bitget.go): the signed
    payload, the request `doRequest` sends and its status rule, the
    balance call and the position stub. Time is Unix seconds, passed in;
    base64 is the `base64` parameter. */
module Bitget {
  import opened Wrappers
  import opened Text
  import opened Model
  import Http

  const BaseUrl: string := "https://api.bitget.com"
  const Label: string := "Bitget API error: "
  const AccountsEndpoint: string := "/api/v1/account/accounts"

  datatype Client = Client(apiKey: string, apiSecret: string, mac: Mac, base64: seq<Byte> -> string,
                           send: Http.Request -> Http.Outcome)

  /** `sign`'s payload: timestamp, method, request path and body, unseparated. */
  function SignPayload(timestamp: string, verb: string, requestPath: string, body: string): (p: string)
    ensures |p| == |timestamp| + |verb| + |requestPath| + |body|
    ensures p[..|timestamp|] == timestamp
    ensures p[|timestamp|..|timestamp| + |verb|] == verb
    ensures p[|timestamp| + |verb|..|timestamp| + |verb| + |requestPath|] == requestPath
    ensures p[|timestamp| + |verb| + |requestPath|..] == body
  {
    timestamp + verb + requestPath + body
  }

  function Sign(c: Client, timestamp: string, verb: string, requestPath: string, body: string): string {
    c.base64(c.mac(c.apiSecret, SignPayload(timestamp, verb, requestPath, body)))
  }

  /** The request `doRequest` sends at second `now`. */
  function Request(c: Client, verb: string, endpoint: string, queryString: string, body: string, now: int): (req: Http.Request)
    ensures req.verb == verb && req.url == Http.Url(BaseUrl, endpoint, queryString)
    ensures Http.HeaderValue(req.headers, "ACCESS-SIGN")
         == c.base64(c.mac(c.apiSecret, DecimalInt(now) + verb + endpoint + body))
  {
    var ts := DecimalInt(now);
    var hs := [Http.Header("ACCESS-KEY", c.apiKey),
               Http.Header("ACCESS-SIGN", Sign(c, ts, verb, endpoint, body)),
               Http.Header("ACCESS-TIMESTAMP", ts),
               Http.Header("Content-Type", "application/json")];
    assert "ACCESS-KEY"[7] != "ACCESS-SIGN"[7];
    Http.Request(verb, Http.Url(BaseUrl, endpoint, queryString), hs)
  }

  /** The query string is not signed: two requests that differ only in it
      carry the same signature. */
  lemma QueryNotSigned(c: Client, verb: string, endpoint: string, q1: string, q2: string, body: string, now: int)
    ensures Http.HeaderValue(Request(c, verb, endpoint, q1, body, now).headers, "ACCESS-SIGN")
         == Http.HeaderValue(Request(c, verb, endpoint, q2, body, now).headers, "ACCESS-SIGN")
  {
  }

  /** `doRequest`: the body on status 200, an error otherwise. */
  function DoRequest(c: Client, verb: string, endpoint: string, queryString: string, body: string, now: int)
    : (r: Result<string, string>)
    ensures var o := c.send(Request(c, verb, endpoint, queryString, body, now));
      && (r.Ok? <==> o.Response? && o.status == Http.StatusOK)
      && (r.Ok? ==> r.value == o.body)
      && (o.Response? && o.status != Http.StatusOK ==> IsPrefix(Label + "status=", r.error))
  {
    Http.Checked(c.send(Request(c, verb, endpoint, queryString, body, now)), Label)
  }

  /** `GetPositionsWithContext`: a stub that never calls the exchange. */
  function GetPositions(c: Client): (r: Result<seq<Position>, string>)
    ensures r.Ok? && r.value == []
  {
    Ok([])
  }

  /** The decoded accounts body: code, message and the parse of `data.USDT`
      (`None` when it is not a number). */
  datatype BalanceEnvelope = BalanceEnvelope(code: int, msg: string, usdt: Option<real>)

  /** `GetBalance` at second `now`. */
  function GetBalance(c: Client, decode: string -> Result<BalanceEnvelope, string>, now: int): (r: Result<real, string>)
    ensures var reply := DoRequest(c, "GET", AccountsEndpoint, "", "", now);
      && (reply.Err? ==> r == Err(reply.error))
      && (reply.Ok? && decode(reply.value).Err? ==> r == Err(decode(reply.value).error))
      && (reply.Ok? && decode(reply.value).Ok? ==>
            var env := decode(reply.value);
            && (env.value.code != 0 ==> r == Err(Label + env.value.msg))
            && (env.value.code == 0 ==> r == Ok(env.value.usdt.GetOr(0.0))))
  {
    match DoRequest(c, "GET", AccountsEndpoint, "", "", now)
    case Err(e) => Err(e)
    case Ok(body) =>
      match decode(body)
      case Err(e) => Err(e)
      case Ok(env) =>
        if env.code != 0 then Err(Label + env.msg)
        else Ok(env.usdt.GetOr(0.0))
  }
}
