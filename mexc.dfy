/** The MEXC adapter (backend/internal/api/api_mexc.go): the canonical
    query string signed for the private v1 endpoints, the request and status
    rule of `doRequestV1`, the paged position history, record
    normalisation and the balance call.

    The network (`send`), the JSON decoder (`decode`) and the clock are
    parameters; HMAC-SHA256 is the `mac` parameter. */
module Mexc {
  import opened Wrappers
  import opened Text
  import opened Model
  import Http

  const BaseUrl: string := "https://api.mexc.com"
  const HistoryEndpoint: string := "/api/v1/private/position/list/history_positions"
  const OverviewEndpoint: string := "/api/v1/private/account/overview"
  const PageSize: nat := 100

  datatype Client = Client(apiKey: string, apiSecret: string, mac: Mac, send: Http.Request -> Http.Outcome)

  // ---------------------------------------------------------------------
  // Canonical query string

  /** The keys of a set, in some order, each once. */
  ghost function SetToSeq(s: set<string>): (r: seq<string>)
    ensures forall i, j :: 0 <= i < j < |r| ==> r[i] != r[j]
    ensures forall x :: x in r <==> x in s
    decreases s
  {
    if s == {} then []
    else
      var x :| x in s;
      var t := SetToSeq(s - {x});
      assert forall i :: 0 <= i < |t| ==> t[i] != x;
      [x] + t
  }

  /** The parameter names in ascending byte order. */
  ghost function SortedKeys(params: map<string, string>): (r: seq<string>)
    ensures StrictlySorted(r)
    ensures forall x :: x in r <==> x in params
  {
    var ks := SetToSeq(params.Keys);
    SortStringsSorted(ks);
    var r := SortStrings(ks);
    assert forall x :: x in r <==> x in multiset(ks);
    r
  }

  function Pairs(keys: seq<string>, params: map<string, string>): (r: seq<string>)
    requires forall i :: 0 <= i < |keys| ==> keys[i] in params
    ensures |r| == |keys|
  {
    seq(|keys|, i requires 0 <= i < |keys| => keys[i] + "=" + params[keys[i]])
  }

  /** The query `doRequestV1` signs and sends: `k=v` for every parameter,
      keys ascending, joined by "&". */
  ghost function CanonicalQuery(params: map<string, string>): string {
    Join("&", Pairs(SortedKeys(params), params))
  }

  /** The key-collecting loop of `doRequestV1`: every key once, in map
      iteration order. */
  method CollectKeys(params: map<string, string>) returns (keys: seq<string>)
    ensures forall i, j :: 0 <= i < j < |keys| ==> keys[i] != keys[j]
    ensures forall x :: x in keys <==> x in params
  {
    keys := [];
    var rest := params.Keys;
    while rest != {}
      invariant rest <= params.Keys
      invariant forall i, j :: 0 <= i < j < |keys| ==> keys[i] != keys[j]
      invariant forall x :: x in keys <==> x in params && x !in rest
      decreases |rest|
    {
      var k :| k in rest;
      keys := keys + [k];
      rest := rest - {k};
    }
  }

  /** `sort.Strings` on the collected keys. */
  method SortedKeysOf(params: map<string, string>) returns (keys: seq<string>)
    ensures keys == SortedKeys(params)
  {
    var unsorted := CollectKeys(params);
    SortStringsSorted(unsorted);
    keys := SortStrings(unsorted);
    assert forall x :: x in keys <==> x in multiset(unsorted);
    StrictlySortedUnique(keys, SortedKeys(params));
  }

  /** The joining loop of `doRequestV1`: "&" only between pairs. */
  method JoinPairs(keys: seq<string>, params: map<string, string>) returns (query: string)
    requires forall i :: 0 <= i < |keys| ==> keys[i] in params
    ensures query == Join("&", Pairs(keys, params))
  {
    query := "";
    var i := 0;
    while i < |keys|
      invariant 0 <= i <= |keys|
      invariant query == Join("&", Pairs(keys[..i], params))
      invariant query == "" <==> i == 0
    {
      var pair := keys[i] + "=" + params[keys[i]];
      assert Pairs(keys[..i + 1], params) == Pairs(keys[..i], params) + [pair];
      JoinSnoc("&", Pairs(keys[..i], params), pair);
      if query != "" {
        query := query + "&";
      }
      query := query + pair;
      i := i + 1;
    }
    assert keys[..i] == keys;
  }

  /** `doRequestV1`'s query. */
  method BuildQuery(params: map<string, string>) returns (query: string)
    ensures query == CanonicalQuery(params)
  {
    var keys := SortedKeysOf(params);
    query := JoinPairs(keys, params);
  }

  /** No parameters, no query. */
  lemma EmptyQuery()
    ensures CanonicalQuery(map[]) == ""
  {
  }

  /** The history request for page `n`. */
  function PageParams(n: nat): map<string, string> {
    map["page_num" := DecimalNat(n), "page_size" := "100"]
  }

  lemma PageNumBeforePageSize()
    ensures Less("page_num", "page_size")
  {
    var a, b := "page_num", "page_size";
    assert a[..5] == b[..5] == "page_";
    assert a[5] == 'n' < 's' == b[5];
    assert Less(a[5..], b[5..]);
    assert a[4..][1..] == a[5..] && b[4..][1..] == b[5..];
    assert a[3..][1..] == a[4..] && b[3..][1..] == b[4..];
    assert a[2..][1..] == a[3..] && b[2..][1..] == b[3..];
    assert a[1..][1..] == a[2..] && b[1..][1..] == b[2..];
  }

  lemma PageQueryPieces(d: string)
    ensures ("page_num" + "=" + d) + "&" + ("page_size" + "=" + "100") == "page_num=" + d + "&page_size=100"
  {
    assert "page_num" + "=" == "page_num=";
    assert "&" + ("page_size" + "=" + "100") == "&page_size=100";
  }

  /** The history request's keys, in the order they are signed. */
  lemma PageKeys(n: nat)
    ensures SortedKeys(PageParams(n)) == ["page_num", "page_size"]
  {
    assert "page_num" != "page_size" by { assert |"page_num"| != |"page_size"|; }
    PageNumBeforePageSize();
    var want := ["page_num", "page_size"];
    assert StrictlySorted(want);
    StrictlySortedUnique(SortedKeys(PageParams(n)), want);
  }

  lemma PagePairs(n: nat)
    ensures Pairs(["page_num", "page_size"], PageParams(n)) == ["page_num" + "=" + DecimalNat(n), "page_size" + "=" + "100"]
  {
    assert "page_num" != "page_size" by { assert |"page_num"| != |"page_size"|; }
  }

  /** The history query: page number first, then the page size. */
  lemma PageQuery(n: nat)
    ensures CanonicalQuery(PageParams(n)) == "page_num=" + DecimalNat(n) + "&page_size=100"
  {
    PageKeys(n);
    PagePairs(n);
    var ps := ["page_num" + "=" + DecimalNat(n), "page_size" + "=" + "100"];
    assert ps[1..] == [ps[1]];
    assert Join("&", ps) == ps[0] + "&" + ps[1];
    PageQueryPieces(DecimalNat(n));
  }

  // ---------------------------------------------------------------------
  // Signing and the request

  /** `signV1`'s payload: key, decimal timestamp, query. */
  function SignV1Payload(apiKey: string, timestamp: int, query: string): (p: string)
    ensures |p| == |apiKey| + |DecimalInt(timestamp)| + |query|
    ensures p[..|apiKey|] == apiKey && p[|apiKey| + |DecimalInt(timestamp)|..] == query
  {
    apiKey + DecimalInt(timestamp) + query
  }

  function SignV1(c: Client, query: string, timestamp: int): string {
    Hex(c.mac(c.apiSecret, SignV1Payload(c.apiKey, timestamp, query)))
  }

  function V1Request(c: Client, endpoint: string, query: string, timestamp: int): Http.Request {
    Http.Request("GET", Http.Url(BaseUrl, endpoint, query),
      [Http.Header("ApiKey", c.apiKey),
       Http.Header("Request-Time", DecimalInt(timestamp)),
       Http.Header("Signature", SignV1(c, query, timestamp)),
       Http.Header("Content-Type", "application/json")])
  }

  /** The query that is signed is the one sent: the URL carries `?` and the
      same query exactly when it is not empty, and the signature header is
      the MAC of key + timestamp + that query. */
  lemma SignedQueryIsSent(c: Client, endpoint: string, params: map<string, string>, timestamp: int)
    ensures var q := CanonicalQuery(params);
      var req := V1Request(c, endpoint, q, timestamp);
      var n := |BaseUrl| + |endpoint|;
      && req.url[..n] == BaseUrl + endpoint
      && (q == "" <==> |req.url| == n)
      && (q != "" ==> req.url[n] == '?' && req.url[n + 1..] == q)
      && Http.HeaderValue(req.headers, "Signature") == Hex(c.mac(c.apiSecret, c.apiKey + DecimalInt(timestamp) + q))
      && Http.HeaderValue(req.headers, "Request-Time") == DecimalInt(timestamp)
  {
    var q := CanonicalQuery(params);
    var hs := V1Request(c, endpoint, q, timestamp).headers;
    assert "ApiKey"[0] != "Signature"[0] && "ApiKey"[0] != "Request-Time"[0] && "Request-Time"[0] != "Signature"[0];
    assert hs[1..][1..][0] == Http.Header("Signature", SignV1(c, q, timestamp));
    assert Http.HeaderValue(hs, "Signature") == Http.HeaderValue(hs[1..], "Signature") == Http.HeaderValue(hs[1..][1..], "Signature");
  }

  const V1Label := "MEXC API v1 error: "

  /** `doRequestV1`. */
  method DoRequestV1(c: Client, endpoint: string, params: map<string, string>, timestamp: int)
    returns (r: Result<string, string>)
    ensures r == Http.Checked(c.send(V1Request(c, endpoint, CanonicalQuery(params), timestamp)), V1Label)
  {
    var query := BuildQuery(params);
    var signature := SignV1(c, query, timestamp);
    var url := BaseUrl + endpoint;
    if query != "" {
      url := url + "?" + query;
    }
    var req := Http.Request("GET", url,
      [Http.Header("ApiKey", c.apiKey),
       Http.Header("Request-Time", DecimalInt(timestamp)),
       Http.Header("Signature", signature),
       Http.Header("Content-Type", "application/json")]);
    var o := c.send(req);
    if o.Failed? {
      return Err(o.err);
    }
    if o.status != Http.StatusOK {
      return Err(V1Label + "status=" + DecimalInt(o.status) + ", body=" + o.body);
    }
    r := Ok(o.body);
  }

  // ---------------------------------------------------------------------
  // Normalisation

  /** One entry of the array-shaped `data`. */
  datatype MexcPosition = MexcPosition(
    positionId: int, symbol: string, positionType: int, closeVol: real,
    openAvgPrice: real, leverage: int, closeProfitLoss: real, updateTime: int)

  /** `data` as an array, as the object with a `list` (parsed only to be
      dropped), or neither, with the decoder's error. */
  datatype V1Data = DataArray(items: seq<MexcPosition>) | DataObject | DataUnparsable(err: string)

  datatype V1Envelope = V1Envelope(success: bool, code: int, data: V1Data)

  /** `GetContractSize`. */
  function ContractSize(symbol: string): (size: real)
    ensures symbol == "BTCUSDT" ==> size == 0.001
    ensures symbol == "ETHUSDT" ==> size == 0.01
    ensures symbol != "BTCUSDT" && symbol != "ETHUSDT" ==> size == 10.0
  {
    if symbol == "BTCUSDT" then 0.001 else if symbol == "ETHUSDT" then 0.01 else 10.0
  }

  function Side(positionType: int): (side: string)
    ensures side == "Sell" <==> positionType == 2
    ensures side == "Buy" <==> positionType != 2
  {
    if positionType == 2 then "Sell" else "Buy"
  }

  /** The position one history entry becomes. */
  function ToPosition(p: MexcPosition): (r: Position)
    ensures r.orderId == DecimalInt(p.positionId) && r.exchange == "mexc"
    ensures r.closedPnl == p.closeProfitLoss && r.leverage == p.leverage && r.date == p.updateTime
    ensures r.volume == p.closeVol * p.openAvgPrice * ContractSize(p.symbol)
    ensures r.side == Side(p.positionType)
  {
    Position(0, DecimalInt(p.positionId), "mexc", p.symbol, p.closeVol * p.openAvgPrice * ContractSize(p.symbol),
             p.leverage, p.closeProfitLoss, Side(p.positionType), p.updateTime)
  }

  /** The order id determines the position id: distinct entries keep
      distinct order ids, so the table's upsert never merges two of them. */
  lemma OrderIdDeterminesPositionId(a: MexcPosition, b: MexcPosition)
    requires ToPosition(a).orderId == ToPosition(b).orderId
    ensures a.positionId == b.positionId
  {
    DecimalIntInjective(a.positionId, b.positionId);
  }

  function ToPositions(ps: seq<MexcPosition>): (r: seq<Position>)
    ensures |r| == |ps| && forall i :: 0 <= i < |ps| ==> r[i] == ToPosition(ps[i])
  {
    seq(|ps|, i requires 0 <= i < |ps| => ToPosition(ps[i]))
  }

  /** The mapping loop over one page. */
  method AppendPositions(acc: seq<Position>, items: seq<MexcPosition>) returns (r: seq<Position>)
    ensures r == acc + ToPositions(items)
  {
    r := acc;
    var i := 0;
    while i < |items|
      invariant 0 <= i <= |items|
      invariant r == acc + ToPositions(items[..i])
    {
      assert ToPositions(items[..i + 1]) == ToPositions(items[..i]) + [ToPosition(items[i])];
      r := r + [ToPosition(items[i])];
      i := i + 1;
    }
    assert items[..i] == items;
  }

  // ---------------------------------------------------------------------
  // Paging (GetPositionsWithContext)

  function BoolText(b: bool): string { if b then "true" else "false" }

  /** What one page makes the loop do. */
  datatype PageStep = PageFail(err: string) | PageLast(items: seq<MexcPosition>) | PageFull(items: seq<MexcPosition>)

  /** The checks of one page body, in the order the loop makes them. */
  function StepOf(reply: Result<string, string>, decode: string -> Result<V1Envelope, string>): (step: PageStep)
    ensures step.PageFull? ==> |step.items| >= PageSize
    ensures step.PageLast? ==> |step.items| < PageSize
  {
    match reply
    case Err(e) => PageFail(e)
    case Ok(body) =>
      match decode(body)
      case Err(e) => PageFail(e)
      case Ok(env) =>
        if !env.success || env.code != 0 then
          PageFail("MEXC API v1 error: success=" + BoolText(env.success) + ", code=" + DecimalInt(env.code))
        else match env.data
          case DataUnparsable(e) => PageFail("failed to parse MEXC response: " + e)
          case DataObject => PageLast([])
          case DataArray(items) => if |items| < PageSize then PageLast(items) else PageFull(items)
  }

  /** Page `n` as the exchange answers it; `clock(n)` is its request time. */
  ghost function PageAt(c: Client, decode: string -> Result<V1Envelope, string>, clock: nat -> int, n: nat): PageStep {
    StepOf(Http.Checked(c.send(V1Request(c, HistoryEndpoint, CanonicalQuery(PageParams(n)), clock(n))), V1Label), decode)
  }

  /** Request page `n` and classify the answer. */
  method FetchPage(c: Client, decode: string -> Result<V1Envelope, string>, clock: nat -> int, n: nat)
    returns (step: PageStep)
    ensures step == PageAt(c, decode, clock, n)
  {
    var params := map["page_num" := DecimalNat(n), "page_size" := "100"];
    var body := DoRequestV1(c, HistoryEndpoint, params, clock(n));
    if body.Err? {
      return PageFail(body.error);
    }
    var resp := decode(body.value);
    if resp.Err? {
      return PageFail(resp.error);
    }
    if !resp.value.success || resp.value.code != 0 {
      return PageFail("MEXC API v1 error: success=" + BoolText(resp.value.success) + ", code=" + DecimalInt(resp.value.code));
    }
    match resp.value.data {
      case DataUnparsable(e) =>
        step := PageFail("failed to parse MEXC response: " + e);
      case DataObject =>
        step := PageLast([]);
      case DataArray(items) =>
        step := if |items| < PageSize then PageLast(items) else PageFull(items);
    }
  }

  /** Some page from 1 on is not full, so the loop ends. */
  ghost predicate EventuallyLast(at: nat -> PageStep) {
    exists n: nat :: n >= 1 && !at(n).PageFull?
  }

  /** A page at which the loop has stopped at the latest. */
  ghost function Bound(at: nat -> PageStep): (n: nat)
    requires EventuallyLast(at)
    ensures n >= 1 && !at(n).PageFull?
  {
    var n: nat :| n >= 1 && !at(n).PageFull?; n
  }

  /** `all` in front of a page result. */
  function AppendResult(all: seq<Position>, r: Result<seq<Position>, string>): Result<seq<Position>, string> {
    match r
    case Ok(rest) => Ok(all + rest)
    case Err(e) => Err(e)
  }

  lemma AppendResultAssoc(a: seq<Position>, b: seq<Position>, r: Result<seq<Position>, string>)
    ensures AppendResult(a, AppendResult(b, r)) == AppendResult(a + b, r)
  {
    if r.Ok? {
      assert a + (b + r.value) == (a + b) + r.value;
    }
  }

  /** Specification of the page loop from page `n` on. */
  ghost function PagesFrom(at: nat -> PageStep, n: nat, bound: nat): Result<seq<Position>, string>
    requires n <= bound && !at(bound).PageFull?
    decreases bound - n
  {
    match at(n)
    case PageFail(e) => Err(e)
    case PageLast(items) => Ok(ToPositions(items))
    case PageFull(items) => AppendResult(ToPositions(items), PagesFrom(at, n + 1, bound))
  }

  /** The pages requested: `n`, `n` + 1, ... up to the first that is not full. */
  ghost function PagesRequested(at: nat -> PageStep, n: nat, bound: nat): (ps: seq<nat>)
    requires n <= bound && !at(bound).PageFull?
    ensures |ps| >= 1 && ps[0] == n
    decreases bound - n
  {
    if at(n).PageFull? then [n] + PagesRequested(at, n + 1, bound) else [n]
  }

  /** A failed page ends the loop with its error. */
  lemma StepFail(at: nat -> PageStep, page: nat, bound: nat, all: seq<Position>)
    requires page <= bound && !at(bound).PageFull? && at(page).PageFail?
    ensures AppendResult(all, PagesFrom(at, page, bound)) == Err(at(page).err)
    ensures PagesRequested(at, page, bound) == [page]
  {
  }

  /** A page that is not full ends the loop with its entries appended. */
  lemma StepLast(at: nat -> PageStep, page: nat, bound: nat, all: seq<Position>)
    requires page <= bound && !at(bound).PageFull? && at(page).PageLast?
    ensures AppendResult(all, PagesFrom(at, page, bound)) == Ok(all + ToPositions(at(page).items))
    ensures PagesRequested(at, page, bound) == [page]
  {
  }

  /** A full page appends its entries and moves to the next page. */
  lemma StepFull(at: nat -> PageStep, page: nat, bound: nat, all: seq<Position>, pages: seq<nat>)
    requires page <= bound && !at(bound).PageFull? && at(page).PageFull?
    ensures page < bound
    ensures AppendResult(all, PagesFrom(at, page, bound))
         == AppendResult(all + ToPositions(at(page).items), PagesFrom(at, page + 1, bound))
    ensures pages + PagesRequested(at, page, bound) == (pages + [page]) + PagesRequested(at, page + 1, bound)
  {
    AppendResultAssoc(all, ToPositions(at(page).items), PagesFrom(at, page + 1, bound));
  }

  /** `GetPositionsWithContext`; `at` is what the exchange answers for each
      page and `pages` records the page numbers requested. */
  method GetPositions(c: Client, decode: string -> Result<V1Envelope, string>, clock: nat -> int, ghost at: nat -> PageStep)
    returns (r: Result<seq<Position>, string>, pages: seq<nat>)
    requires forall n: nat :: at(n) == PageAt(c, decode, clock, n)
    requires EventuallyLast(at)
    ensures r == PagesFrom(at, 1, Bound(at))
    ensures pages == PagesRequested(at, 1, Bound(at))
  {
    ghost var bound := Bound(at);
    ghost var whole := PagesFrom(at, 1, bound);
    var all: seq<Position> := [];
    var page: nat := 1;
    pages := [];
    if whole.Ok? {
      assert [] + whole.value == whole.value;
    }
    assert [] + PagesRequested(at, 1, bound) == PagesRequested(at, 1, bound);
    while true
      invariant 1 <= page <= bound
      invariant whole == AppendResult(all, PagesFrom(at, page, bound))
      invariant PagesRequested(at, 1, bound) == pages + PagesRequested(at, page, bound)
      decreases bound - page
    {
      var step := FetchPage(c, decode, clock, page);
      if step.PageFail? {
        StepFail(at, page, bound, all);
        return Err(step.err), pages + [page];
      }
      if step.PageLast? {
        StepLast(at, page, bound, all);
        all := AppendPositions(all, step.items);
        return Ok(all), pages + [page];
      }
      StepFull(at, page, bound, all, pages);
      all := AppendPositions(all, step.items);
      pages := pages + [page];
      page := page + 1;
    }
  }

  /** Paging starts at `n`, goes up by one and stops at the first page that
      is not full: failed, shorter than 100 entries, empty or object-shaped. */
  lemma {:induction false} PagesAreConsecutive(at: nat -> PageStep, n: nat, bound: nat)
    requires n <= bound && !at(bound).PageFull?
    ensures var ps := PagesRequested(at, n, bound);
      && (forall i :: 0 <= i < |ps| ==> ps[i] == n + i)
      && (forall i :: 0 <= i < |ps| - 1 ==> at(ps[i]).PageFull?)
      && !at(ps[|ps| - 1]).PageFull?
    decreases bound - n
  {
    var ps := PagesRequested(at, n, bound);
    if at(n).PageFull? {
      PagesAreConsecutive(at, n + 1, bound);
      var qs := PagesRequested(at, n + 1, bound);
      assert ps == [n] + qs;
      assert forall i :: 1 <= i < |ps| ==> ps[i] == qs[i - 1];
    }
  }

  /** The result does not depend on which final page bounds the loop. */
  lemma {:induction false} PagesFromBoundIrrelevant(at: nat -> PageStep, n: nat, b1: nat, b2: nat)
    requires n <= b1 && !at(b1).PageFull?
    requires n <= b2 && !at(b2).PageFull?
    ensures PagesFrom(at, n, b1) == PagesFrom(at, n, b2)
    decreases b1 - n
  {
    if at(n).PageFull? {
      PagesFromBoundIrrelevant(at, n + 1, b1, b2);
    }
  }

  /** A failure on a page the loop reaches makes the whole result that
      error, whatever the earlier pages held. */
  lemma {:induction false} FailedPageFailsAll(at: nat -> PageStep, n: nat, bound: nat, k: nat)
    requires n <= k <= bound && !at(bound).PageFull?
    requires forall j :: n <= j < k ==> at(j).PageFull?
    requires at(k).PageFail?
    ensures PagesFrom(at, n, bound) == Err(at(k).err)
    decreases k - n
  {
    if n < k {
      FailedPageFailsAll(at, n + 1, bound, k);
    }
  }

  /** Without failures, the result is the normalised entries of the pages
      requested, in page order. */
  lemma {:induction false} PagesFromCollectsEntries(at: nat -> PageStep, n: nat, bound: nat)
    requires n <= bound && !at(bound).PageFull?
    requires PagesFrom(at, n, bound).Ok?
    ensures var ps := PagesRequested(at, n, bound);
      && (forall i :: 0 <= i < |ps| ==> !at(ps[i]).PageFail?)
      && PagesFrom(at, n, bound).value == ToPositions(EntriesOf(at, ps))
    decreases bound - n
  {
    var ps := PagesRequested(at, n, bound);
    if at(n).PageFull? {
      PagesFromCollectsEntries(at, n + 1, bound);
      var qs := PagesRequested(at, n + 1, bound);
      assert ps == [n] + qs;
      assert ps[1..] == qs;
      ToPositionsAppend(at(n).items, EntriesOf(at, qs));
    } else {
      assert ps == [n];
      assert EntriesOf(at, ps) == at(n).items + EntriesOf(at, []);
      assert at(n).items + [] == at(n).items;
    }
  }

  /** The entries of the listed pages, concatenated. */
  function EntriesOf(at: nat -> PageStep, ps: seq<nat>): seq<MexcPosition> {
    if ps == [] then []
    else (if at(ps[0]).PageFail? then [] else at(ps[0]).items) + EntriesOf(at, ps[1..])
  }

  lemma ToPositionsAppend(a: seq<MexcPosition>, b: seq<MexcPosition>)
    ensures ToPositions(a + b) == ToPositions(a) + ToPositions(b)
  {
  }

  // ---------------------------------------------------------------------
  // Balance

  /** The decoded overview: flags and the `accountBalance` parse result. */
  datatype BalanceEnvelope = BalanceEnvelope(success: bool, code: int, accountBalance: Option<real>)

  /** `GetBalance` on the outcome of the overview request. */
  function BalanceOf(reply: Result<string, string>, decode: string -> Result<BalanceEnvelope, string>): (r: Result<real, string>)
    ensures reply.Ok? && decode(reply.value).Ok? && decode(reply.value).value.code == 404 ==> r == Ok(0.0)
    ensures reply.Err? ==> r == Err(reply.error)
    ensures r.Ok? && reply.Ok? && decode(reply.value).Ok? && decode(reply.value).value.code != 404 ==>
      decode(reply.value).value.success && decode(reply.value).value.code == 0 &&
      r.value == decode(reply.value).value.accountBalance.GetOr(0.0)
  {
    match reply
    case Err(e) => Err(e)
    case Ok(body) =>
      match decode(body)
      case Err(e) => Err(e)
      case Ok(env) =>
        if !env.success || env.code != 0 then
          if env.code == 404 then Ok(0.0) else Err("MEXC API error: code=" + DecimalInt(env.code))
        else Ok(env.accountBalance.GetOr(0.0))
  }

  /** `GetBalance`: no parameters, so no query and a payload of key and
      timestamp only. */
  method GetBalance(c: Client, decode: string -> Result<BalanceEnvelope, string>, timestamp: int)
    returns (r: Result<real, string>)
    ensures r == BalanceOf(Http.Checked(c.send(V1Request(c, OverviewEndpoint, "", timestamp)), V1Label), decode)
  {
    EmptyQuery();
    var body := DoRequestV1(c, OverviewEndpoint, map[], timestamp);
    if body.Err? {
      return Err(body.error);
    }
    var resp := decode(body.value);
    if resp.Err? {
      return Err(resp.error);
    }
    if !resp.value.success || resp.value.code != 0 {
      if resp.value.code == 404 {
        return Ok(0.0);
      }
      return Err("MEXC API error: code=" + DecimalInt(resp.value.code));
    }
    r := Ok(resp.value.accountBalance.GetOr(0.0));
  }
}
