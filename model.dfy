/** The records the backend passes between adapters, repositories and
    services (backend/internal/model), with times as Unix milliseconds. */
module Model {
  import Text

  /** A closed position, as the adapters build it and the position table
      stores it. `id` is the table's surrogate key (0 before it is stored);
      `date` is the exchange-reported close/update time. */
  datatype Position = Position(
    id: int,
    orderId: string,
    exchange: string,
    symbol: string,
    volume: real,
    leverage: int,
    closedPnl: real,
    side: string,
    date: int)

  datatype Withdrawal = Withdrawal(
    id: int,
    exchange: string,
    amount: real,
    currency: string,
    date: int)

  datatype MonthlyIncome = MonthlyIncome(
    id: int,
    exchange: string,
    amount: real,
    pnl: real,
    date: int)

  /** One row of the credential table. */
  datatype ApiKey = ApiKey(
    id: int,
    exchange: string,
    apiKey: string,
    apiSecret: string,
    isActive: bool,
    createdAt: int,
    updatedAt: int)

  datatype ExchangeBalance = ExchangeBalance(exchange: string, balance: real)

  function PositionDate(p: Position): int { p.date }
  function WithdrawalDate(w: Withdrawal): int { w.date }
  function IncomeDate(i: MonthlyIncome): int { i.date }

  /** HMAC-SHA256 keyed by a secret: a foreign primitive, so always a parameter. */
  type Mac = (string, string) -> seq<Text.Byte>
}

/** The HTTP exchange between an adapter and an exchange, with the network
    itself left as a parameter. */
module Http {
  import Text
  import opened Wrappers

  datatype Header = Header(name: string, value: string)

  datatype Request = Request(verb: string, url: string, headers: seq<Header>)

  /** What `client.Do` plus `io.ReadAll` yield: a transport or read error,
      or a status code and a body. */
  datatype Outcome = Failed(err: string) | Response(status: int, body: string)

  const StatusOK := 200

  /** `baseURL + endpoint`, with `"?" + query` only when the query is not empty. */
  function Url(base: string, endpoint: string, query: string): (u: string)
    ensures |u| == |base| + |endpoint| + (if query == "" then 0 else 1 + |query|)
    ensures u[..|base| + |endpoint|] == base + endpoint
    ensures query != "" ==> u[|base| + |endpoint|] == '?' && u[|base| + |endpoint| + 1..] == query
  {
    if query == "" then base + endpoint else base + endpoint + "?" + query
  }

  /** The status rule shared by the adapters' `doRequest`s: a transport
      error is passed through, a status other than 200 becomes
      `<prefix>status=<code>, body=<body>`, and 200 yields the body. */
  function Checked(o: Outcome, prefix: string): (r: Result<string, string>)
    ensures r.Ok? <==> o.Response? && o.status == StatusOK
    ensures r.Ok? ==> r.value == o.body
    ensures o.Failed? ==> r == Err(o.err)
    ensures o.Response? && o.status != StatusOK ==>
      r == Err(prefix + "status=" + Text.DecimalInt(o.status) + ", body=" + o.body)
  {
    match o
    case Failed(e) => Err(e)
    case Response(status, body) =>
      if status != StatusOK then Err(prefix + "status=" + Text.DecimalInt(status) + ", body=" + body)
      else Ok(body)
  }

  /** The value of the first header called `name`, if any. */
  function HeaderValue(hs: seq<Header>, name: string): string {
    if hs == [] then "" else if hs[0].name == name then hs[0].value else HeaderValue(hs[1..], name)
  }
}
