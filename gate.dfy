/** The Gate.io adapter (backend/internal/api/api_gate.go): the signed
    payload, the request `doRequest` sends and its status rule, and the
    position stub. Time is Unix seconds, passed in. */
module Gate {
  import opened Wrappers
  import opened Text
  import opened Model
  import Http

  const BaseUrl: string := "https://api.gateio.ws/api/v4"
  const Label: string := "Gate.io API error: "

  datatype Client = Client(apiKey: string, apiSecret: string, mac: Mac, send: Http.Request -> Http.Outcome)

  /** `sign`'s payload: the five fields, newline-separated. */
  function SignPayload(verb: string, urlPath: string, queryString: string, body: string, timestamp: string): string {
    verb + "\n" + urlPath + "\n" + queryString + "\n" + body + "\n" + timestamp
  }

  /** The payload is the five fields joined by "\n". */
  lemma SignPayloadIsJoin(verb: string, urlPath: string, queryString: string, body: string, timestamp: string)
    ensures SignPayload(verb, urlPath, queryString, body, timestamp) == Join("\n", [verb, urlPath, queryString, body, timestamp])
  {
    var parts := [verb, urlPath, queryString, body, timestamp];
    assert parts[1..][1..][1..][1..] == [timestamp];
    assert Join("\n", parts[1..][1..][1..]) == body + "\n" + timestamp;
    assert Join("\n", parts[1..][1..]) == queryString + "\n" + (body + "\n" + timestamp);
    assert Join("\n", parts[1..]) == urlPath + "\n" + (queryString + "\n" + (body + "\n" + timestamp));
  }

  /** Exactly four newlines more than the fields themselves hold. */
  lemma SignPayloadNewlines(verb: string, urlPath: string, queryString: string, body: string, timestamp: string)
    ensures Count(SignPayload(verb, urlPath, queryString, body, timestamp), '\n')
         == Count(verb, '\n') + Count(urlPath, '\n') + Count(queryString, '\n') + Count(body, '\n') + Count(timestamp, '\n') + 4
  {
    var nl := "\n";
    assert Count(nl, '\n') == 1;
    CountConcat(verb, nl, '\n');
    CountConcat(verb + nl, urlPath, '\n');
    CountConcat(verb + nl + urlPath, nl, '\n');
    CountConcat(verb + nl + urlPath + nl, queryString, '\n');
    CountConcat(verb + nl + urlPath + nl + queryString, nl, '\n');
    CountConcat(verb + nl + urlPath + nl + queryString + nl, body, '\n');
    CountConcat(verb + nl + urlPath + nl + queryString + nl + body, nl, '\n');
    CountConcat(verb + nl + urlPath + nl + queryString + nl + body + nl, timestamp, '\n');
  }

  function Sign(c: Client, verb: string, urlPath: string, queryString: string, body: string, timestamp: string): string {
    Hex(c.mac(c.apiSecret, SignPayload(verb, urlPath, queryString, body, timestamp)))
  }

  /** The request `doRequest` sends at second `now`: always signed with an
      empty body. */
  function Request(c: Client, verb: string, endpoint: string, queryString: string, now: int): (req: Http.Request)
    ensures req.verb == verb && req.url == Http.Url(BaseUrl, endpoint, queryString)
    ensures Http.HeaderValue(req.headers, "SIGN")
         == Hex(c.mac(c.apiSecret, verb + "\n" + endpoint + "\n" + queryString + "\n" + "" + "\n" + DecimalInt(now)))
    ensures Http.HeaderValue(req.headers, "Timestamp") == DecimalInt(now)
  {
    var ts := DecimalInt(now);
    var hs := [Http.Header("KEY", c.apiKey),
               Http.Header("SIGN", Sign(c, verb, endpoint, queryString, "", ts)),
               Http.Header("Timestamp", ts),
               Http.Header("Content-Type", "application/json")];
    assert "KEY"[0] != "SIGN"[0] && "KEY"[0] != "Timestamp"[0] && "SIGN"[0] != "Timestamp"[0];
    assert hs[1..][1..][0] == Http.Header("Timestamp", ts);
    assert Http.HeaderValue(hs, "Timestamp") == Http.HeaderValue(hs[1..], "Timestamp") == Http.HeaderValue(hs[1..][1..], "Timestamp");
    Http.Request(verb, Http.Url(BaseUrl, endpoint, queryString), hs)
  }

  /** `doRequest`: the body on status 200, an error otherwise. */
  function DoRequest(c: Client, verb: string, endpoint: string, queryString: string, now: int): (r: Result<string, string>)
    ensures var o := c.send(Request(c, verb, endpoint, queryString, now));
      && (r.Ok? <==> o.Response? && o.status == Http.StatusOK)
      && (r.Ok? ==> r.value == o.body)
      && (o.Response? && o.status != Http.StatusOK ==> IsPrefix(Label + "status=", r.error))
  {
    Http.Checked(c.send(Request(c, verb, endpoint, queryString, now)), Label)
  }

  /** `GetPositionsWithContext`: a stub that never calls the exchange. */
  function GetPositions(c: Client): (r: Result<seq<Position>, string>)
    ensures r.Ok? && r.value == []
  {
    Ok([])
  }
}
