/** The Bybit adapter (backend/internal/api/api_bybit.go): closed PnL pulled
    in 7-day windows back to the retention floor, cursor pagination inside
    each window, the V5 signature payload and the wallet-balance call.

    The exchange is an oracle. `server(start, end)` is the sequence of
    replies Bybit gives to the successive page requests for one window;
    the pagination loop only ends because Bybit eventually sends a last
    page, so callers require that each such sequence contains one. */
module Bybit {
  import opened Wrappers
  import opened Text
  import opened Model
  import Http
  import Ordering

  const SevenDaysMs: int := 604800000
  const RecvWindow: string := "30000"
  const PageLimit: nat := 100
  const TwoYearsPhrase: string := "earlier than 2 years"

  // ---------------------------------------------------------------------
  // Replies of the close-pnl endpoint, after JSON decoding

  /** One element of `result.list`. Entries that are not JSON objects are
      skipped; for the rest, the string fields default to "" and the
      numeric strings carry their `strconv` parse result. */
  datatype ClosePnlItem =
    | NotAnObject
    | Entry(orderId: string, symbol: string, side: string,
            cumEntryValue: Option<real>, leverage: Option<int>,
            closedPnl: Option<real>, updatedTime: Option<real>)

  /** `result`: not an object, or an object whose `list` may be missing
      (or not an array) and whose `nextPageCursor` defaults to "". */
  datatype ClosePnlResult =
    | ResultNotObject
    | ResultObject(list: Option<seq<ClosePnlItem>>, nextPageCursor: string)

  datatype ClosePnlReply =
    | CallFailed(err: string)
    | Reply(retCode: int, retMsg: string, result: ClosePnlResult)

  /** Go's `int64(f)`: truncation toward zero. */
  function Truncate(x: real): (n: int)
    ensures x >= 0.0 ==> n as real <= x < n as real + 1.0
    ensures x < 0.0 ==> n as real - 1.0 < x <= n as real
  {
    if x >= 0.0 then x.Floor else -((-x).Floor)
  }

  /** The position one close-pnl entry becomes. */
  function ParseEntry(e: ClosePnlItem): (p: Position)
    requires e.Entry?
    ensures p.exchange == "bybit" && p.orderId == e.orderId && p.symbol == e.symbol && p.side == e.side
    ensures p.volume == e.cumEntryValue.GetOr(0.0) && p.closedPnl == e.closedPnl.GetOr(0.0)
    ensures p.leverage == e.leverage.GetOr(0)
  {
    Position(0, e.orderId, "bybit", e.symbol, e.cumEntryValue.GetOr(0.0),
             e.leverage.GetOr(0), e.closedPnl.GetOr(0.0), e.side,
             Truncate(e.updatedTime.GetOr(0.0)))
  }

  predicate IsEntry(e: ClosePnlItem) { e.Entry? }

  /** Specification of `parseClosePnlItems`. */
  function ParsedItems(items: seq<ClosePnlItem>): seq<Position> {
    if items == [] then []
    else if items[0].Entry? then [ParseEntry(items[0])] + ParsedItems(items[1..])
    else ParsedItems(items[1..])
  }

  /** `parseClosePnlItems`: skip non-objects, one position per object. */
  method ParseClosePnlItems(items: seq<ClosePnlItem>) returns (positions: seq<Position>)
    ensures positions == ParsedItems(items)
  {
    positions := [];
    var i := 0;
    while i < |items|
      invariant 0 <= i <= |items|
      invariant positions + ParsedItems(items[i..]) == ParsedItems(items)
    {
      assert items[i..][1..] == items[i + 1..];
      if items[i].Entry? {
        positions := positions + [ParseEntry(items[i])];
      }
      i := i + 1;
    }
    assert items[i..] == [];
  }

  /** Exactly one position per object entry, in order, each tagged "bybit"
      and carrying that entry's order id. */
  lemma {:induction false} ParsedItemsOnePerEntry(items: seq<ClosePnlItem>)
    ensures var es := Ordering.Filter(items, IsEntry);
            |ParsedItems(items)| == |es| <= |items| &&
            forall k :: 0 <= k < |es| ==> ParsedItems(items)[k] == ParseEntry(es[k])
    ensures forall k :: 0 <= k < |ParsedItems(items)| ==> ParsedItems(items)[k].exchange == "bybit"
  {
    if items != [] {
      ParsedItemsOnePerEntry(items[1..]);
    }
  }

  // ---------------------------------------------------------------------
  // One window: cursor pagination (fetchClosePnlChunk)

  function IsRateLimitCode(code: int): bool {
    code == 10001 || code == 10006 || code == 10014
  }

  /** The error `fetchClosePnlChunk` reports for a non-zero retCode. */
  function RetCodeError(code: int, msg: string): (e: string)
    requires code != 0
    ensures e == "rate limit" <==> IsRateLimitCode(code)
  {
    if IsRateLimitCode(code) then "rate limit" else "API error: " + msg
  }

  /** No position inside the "API error: " prefix starts the retention
      phrase: only the "e" of "error" starts like it, and "r" follows. */
  lemma ApiErrorPrefixClean(msg: string)
    ensures forall i :: 0 <= i < |"API error: "| ==> !IsPrefix(TwoYearsPhrase, ("API error: " + msg)[i..])
  {
    var pre := "API error: ";
    var e := pre + msg;
    forall i | 0 <= i < |pre| ensures !IsPrefix(TwoYearsPhrase, e[i..]) {
      var k := if i == 4 then 1 else 0;
      assert e[i..][k] == pre[i + k];
      PrefixMismatch(TwoYearsPhrase, e[i..], k);
    }
  }

  /** A phrase that starts nowhere inside `pre` occurs in `pre + msg`
      exactly when it occurs in `msg`. */
  lemma ContainsPastPrefix(pre: string, msg: string, p: string)
    requires forall i :: 0 <= i < |pre| ==> !IsPrefix(p, (pre + msg)[i..])
    ensures Contains(pre + msg, p) <==> Contains(msg, p)
  {
    var e := pre + msg;
    if Contains(msg, p) {
      var j :| 0 <= j <= |msg| && IsPrefix(p, msg[j..]);
      assert e[|pre| + j..] == msg[j..];
    }
    if Contains(e, p) {
      var i :| 0 <= i <= |e| && IsPrefix(p, e[i..]);
      assert e[i..] == msg[i - |pre|..];
    }
  }

  /** The window loop stops quietly on a retCode error exactly when the
      exchange's message holds the retention phrase: the "API error: "
      prefix cannot complete the phrase and "rate limit" never holds it. */
  lemma RetCodeErrorRetention(code: int, msg: string)
    requires code != 0
    ensures Contains(RetCodeError(code, msg), TwoYearsPhrase)
        <==> !IsRateLimitCode(code) && Contains(msg, TwoYearsPhrase)
  {
    if !IsRateLimitCode(code) {
      assert RetCodeError(code, msg) == "API error: " + msg;
      ApiErrorPrefixClean(msg);
      ContainsPastPrefix("API error: ", msg, TwoYearsPhrase);
    }
  }

  /** What one page tells the loop: fail, give up on the window with an
      empty result, or take the page's items and go on with `next` if any. */
  datatype PageStep =
    | StepFail(err: string)
    | StepDiscard
    | StepTake(items: seq<ClosePnlItem>, next: Option<string>)

  function PageStepOf(r: ClosePnlReply): PageStep {
    match r
    case CallFailed(e) => StepFail(e)
    case Reply(code, msg, res) =>
      if code != 0 then StepFail(RetCodeError(code, msg))
      else match res
        case ResultNotObject => StepDiscard
        case ResultObject(None, _) => StepDiscard
        case ResultObject(Some(items), cursor) =>
          StepTake(items, if cursor == "" || |items| < PageLimit then None else Some(cursor))
  }

  /** A page after which the loop makes no further request. */
  predicate IsLastPage(r: ClosePnlReply) {
    !(PageStepOf(r).StepTake? && PageStepOf(r).next.Some?)
  }

  /** The exchange ends the listing of this window at some page. */
  predicate Ends(t: seq<ClosePnlReply>) {
    exists k :: 0 <= k < |t| && IsLastPage(t[k])
  }

  /** Index of the page the loop stops at. */
  function LastPage(t: seq<ClosePnlReply>): (n: nat)
    requires Ends(t)
    ensures n < |t| && IsLastPage(t[n])
    ensures forall j :: 0 <= j < n ==> !IsLastPage(t[j])
    decreases |t|
  {
    if IsLastPage(t[0]) then 0
    else
      var k :| 0 <= k < |t| && IsLastPage(t[k]);
      assert k > 0 && IsLastPage(t[1..][k - 1]);
      var m := LastPage(t[1..]);
      assert forall j :: 1 <= j <= m ==> t[j] == t[1..][j - 1];
      m + 1
  }

  datatype ChunkOutcome = ChunkFailed(err: string) | ChunkDiscarded | ChunkCollected(positions: seq<Position>)

  function Prepend(ps: seq<Position>, o: ChunkOutcome): ChunkOutcome {
    if o.ChunkCollected? then ChunkCollected(ps + o.positions) else o
  }

  lemma PrependPrepend(a: seq<Position>, b: seq<Position>, o: ChunkOutcome)
    ensures Prepend(a, Prepend(b, o)) == Prepend(a + b, o)
  {
    if o.ChunkCollected? {
      assert a + (b + o.positions) == (a + b) + o.positions;
    }
  }

  /** The pages of one window from page `k` on, read until the last one. */
  function ChunkFrom(t: seq<ClosePnlReply>, k: nat): ChunkOutcome
    requires Ends(t) && k <= LastPage(t)
    decreases LastPage(t) - k
  {
    match PageStepOf(t[k])
    case StepFail(e) => ChunkFailed(e)
    case StepDiscard => ChunkDiscarded
    case StepTake(items, next) =>
      if next.None? then ChunkCollected(ParsedItems(items))
      else Prepend(ParsedItems(items), ChunkFrom(t, k + 1))
  }

  /** Specification of `fetchClosePnlChunk` (its always-empty second result
      is dropped). */
  function ChunkResult(t: seq<ClosePnlReply>): Result<seq<Position>, string>
    requires Ends(t)
  {
    match ChunkFrom(t, 0)
    case ChunkFailed(e) => Err(e)
    case ChunkDiscarded => Ok([])
    case ChunkCollected(ps) => Ok(ps)
  }

  /** The cursor sent with request `j`: "" first, then the
      `nextPageCursor` of the page before. */
  function CursorOf(t: seq<ClosePnlReply>, j: nat): string
    requires Ends(t) && j <= LastPage(t)
  {
    if j == 0 then "" else PageStepOf(t[j - 1]).next.value
  }

  /** `cursors` are the cursors of the first `|cursors|` requests. */
  predicate CursorsMatch(t: seq<ClosePnlReply>, cursors: seq<string>)
    requires Ends(t) && |cursors| <= LastPage(t) + 1
  {
    forall j :: 0 <= j < |cursors| ==> cursors[j] == CursorOf(t, j)
  }

  lemma CursorsSnoc(t: seq<ClosePnlReply>, cursors: seq<string>, c: string)
    requires Ends(t) && |cursors| <= LastPage(t) && CursorsMatch(t, cursors) && c == CursorOf(t, |cursors|)
    ensures CursorsMatch(t, cursors + [c])
  {
  }

  /** The checks `fetchClosePnlChunk` makes on one reply, in its order:
      call error, retCode, `result` shape, `list` shape, then whether a
      further page is wanted. */
  method ReadPage(reply: ClosePnlReply) returns (step: PageStep)
    ensures step == PageStepOf(reply)
  {
    if reply.CallFailed? {
      return StepFail(reply.err);
    }
    if reply.retCode != 0 {
      if reply.retCode == 10001 || reply.retCode == 10006 || reply.retCode == 10014 {
        return StepFail("rate limit");
      }
      return StepFail("API error: " + reply.retMsg);
    }
    if reply.result.ResultNotObject? {
      return StepDiscard;
    }
    if reply.result.list.None? {
      return StepDiscard;
    }
    var items := reply.result.list.value;
    var next := reply.result.nextPageCursor;
    if next == "" || |items| < PageLimit {
      return StepTake(items, None);
    }
    return StepTake(items, Some(next));
  }

  /** `fetchClosePnlChunk`. `t` is the exchange's replies for this window;
      `cursors` records the cursor sent with each request made. */
  method FetchClosePnlChunk(startTime: int, endTime: int, t: seq<ClosePnlReply>)
    returns (r: Result<seq<Position>, string>, cursors: seq<string>)
    requires Ends(t)
    ensures r == ChunkResult(t)
    ensures |cursors| == LastPage(t) + 1
    ensures forall j :: 0 <= j < |cursors| ==> cursors[j] == CursorOf(t, j)
  {
    var all: seq<Position> := [];
    var cursor := "";
    var k := 0;
    cursors := [];
    ghost var n := LastPage(t);
    while true
      invariant 0 <= k <= n
      invariant ChunkFrom(t, 0) == Prepend(all, ChunkFrom(t, k))
      invariant |cursors| == k && CursorsMatch(t, cursors)
      invariant cursor == CursorOf(t, k)
      decreases n - k
    {
      CursorsSnoc(t, cursors, cursor);
      cursors := cursors + [cursor];
      var step := ReadPage(t[k]);
      match step {
        case StepFail(e) =>
          assert IsLastPage(t[k]) && k == n;
          assert ChunkFrom(t, k) == ChunkFailed(e);
          return Err(e), cursors;
        case StepDiscard =>
          assert IsLastPage(t[k]) && k == n;
          assert ChunkFrom(t, k) == ChunkDiscarded;
          return Ok([]), cursors;
        case StepTake(items, next) =>
          ghost var before := all;
          if |items| > 0 {
            var positions := ParseClosePnlItems(items);
            all := all + positions;
          } else {
            assert ParsedItems(items) == [];
            assert all + [] == all;
          }
          assert all == before + ParsedItems(items);
          if next.None? {
            assert IsLastPage(t[k]) && k == n;
            assert ChunkFrom(t, 0) == ChunkCollected(all) by {
              assert ChunkFrom(t, k) == ChunkCollected(ParsedItems(items));
            }
            return Ok(all), cursors;
          }
          assert k < n;
          assert ChunkFrom(t, 0) == Prepend(all, ChunkFrom(t, k + 1)) by {
            assert ChunkFrom(t, k) == Prepend(ParsedItems(items), ChunkFrom(t, k + 1));
            PrependPrepend(before, ParsedItems(items), ChunkFrom(t, k + 1));
          }
          cursor := next.value;
          k := k + 1;
      }
    }
  }

  /** A window fails exactly when the page the loop stops at fails, and
      with that page's error. */
  lemma {:induction false} ChunkErrorIsLastPageError(t: seq<ClosePnlReply>, k: nat)
    requires Ends(t) && k <= LastPage(t)
    ensures ChunkFrom(t, k).ChunkFailed? <==> PageStepOf(t[LastPage(t)]).StepFail?
    ensures ChunkFrom(t, k).ChunkFailed? ==> ChunkFrom(t, k).err == PageStepOf(t[LastPage(t)]).err
    decreases LastPage(t) - k
  {
    if k < LastPage(t) {
      ChunkErrorIsLastPageError(t, k + 1);
    }
  }

  /** A window whose last page has no usable `result` or `list` yields an
      empty list without error, whatever the earlier pages held. */
  lemma {:induction false} ChunkDiscardsCollectedPages(t: seq<ClosePnlReply>, k: nat)
    requires Ends(t) && k <= LastPage(t) && PageStepOf(t[LastPage(t)]).StepDiscard?
    ensures ChunkFrom(t, k) == ChunkDiscarded
    decreases LastPage(t) - k
  {
    if k < LastPage(t) {
      ChunkDiscardsCollectedPages(t, k + 1);
    }
  }

  /** The parsed items of pages `k` up to (not including) `n`, in fetch order. */
  function ItemsBetween(t: seq<ClosePnlReply>, k: nat, n: nat): seq<Position>
    requires n <= |t|
    requires forall j :: k <= j < n ==> PageStepOf(t[j]).StepTake?
    decreases n - k
  {
    if k >= n then [] else ParsedItems(PageStepOf(t[k]).items) + ItemsBetween(t, k + 1, n)
  }

  /** When every page read holds a list, the window's positions are the
      pages' parsed items concatenated in fetch order. */
  lemma {:induction false} ChunkConcatenatesPages(t: seq<ClosePnlReply>, k: nat)
    requires Ends(t) && k <= LastPage(t)
    requires forall j :: k <= j <= LastPage(t) ==> PageStepOf(t[j]).StepTake?
    ensures ChunkFrom(t, k) == ChunkCollected(ItemsBetween(t, k, LastPage(t) + 1))
    decreases LastPage(t) - k
  {
    if k < LastPage(t) {
      ChunkConcatenatesPages(t, k + 1);
    } else {
      assert ItemsBetween(t, k + 1, LastPage(t) + 1) == [];
      assert ParsedItems(PageStepOf(t[k]).items) + [] == ParsedItems(PageStepOf(t[k]).items);
    }
  }

  // ---------------------------------------------------------------------
  // The window loop (getClosePnl)

  datatype Window = Window(start: int, end: int)

  /** Start of the window ending at `endTime`: seven days back, clamped to the floor. */
  function WindowStart(endTime: int, maxHistory: int): int {
    if endTime - SevenDaysMs < maxHistory then maxHistory else endTime - SevenDaysMs
  }

  /** The windows the loop walks through from `endTime` down to `maxHistory`
      when no window fails. */
  function Tiling(endTime: int, maxHistory: int): seq<Window>
    decreases endTime - maxHistory
  {
    if endTime <= maxHistory then []
    else
      var s := WindowStart(endTime, maxHistory);
      [Window(s, endTime)] + Tiling(s, maxHistory)
  }

  ghost predicate ServerEnds(server: (int, int) -> seq<ClosePnlReply>) {
    forall s, e :: Ends(server(s, e))
  }

  /** `ps` in front of a result that may be an error. */
  function AppendResult(ps: seq<Position>, r: Result<seq<Position>, string>): Result<seq<Position>, string> {
    match r
    case Ok(rest) => Ok(ps + rest)
    case Err(e) => Err(e)
  }

  lemma AppendResultAssoc(a: seq<Position>, b: seq<Position>, r: Result<seq<Position>, string>)
    ensures AppendResult(a, AppendResult(b, r)) == AppendResult(a + b, r)
  {
    if r.Ok? {
      assert a + (b + r.value) == a + b + r.value;
    }
  }

  /** Specification of `getClosePnl` from `endTime` on. */
  function ClosePnlFrom(endTime: int, maxHistory: int, server: (int, int) -> seq<ClosePnlReply>)
    : Result<seq<Position>, string>
    requires ServerEnds(server)
    decreases endTime - maxHistory
  {
    if endTime <= maxHistory then Ok([])
    else
      var s := WindowStart(endTime, maxHistory);
      match ChunkResult(server(s, endTime))
      case Err(e) => if Contains(e, TwoYearsPhrase) then Ok([]) else Err(e)
      case Ok(ps) => AppendResult(ps, ClosePnlFrom(s, maxHistory, server))
  }

  /** The windows requested before the loop stops. */
  function WindowsVisited(endTime: int, maxHistory: int, server: (int, int) -> seq<ClosePnlReply>)
    : seq<Window>
    requires ServerEnds(server)
    decreases endTime - maxHistory
  {
    if endTime <= maxHistory then []
    else
      var s := WindowStart(endTime, maxHistory);
      if ChunkResult(server(s, endTime)).Err? then [Window(s, endTime)]
      else [Window(s, endTime)] + WindowsVisited(s, maxHistory, server)
  }

  /** One step of the window loop. */
  lemma ClosePnlUnfold(endTime: int, maxHistory: int, server: (int, int) -> seq<ClosePnlReply>)
    requires ServerEnds(server) && endTime > maxHistory
    ensures var s := WindowStart(endTime, maxHistory);
      var c := ChunkResult(server(s, endTime));
      && ClosePnlFrom(endTime, maxHistory, server) ==
           (if c.Err? then (if Contains(c.error, TwoYearsPhrase) then Ok([]) else Err(c.error))
            else AppendResult(c.value, ClosePnlFrom(s, maxHistory, server)))
      && WindowsVisited(endTime, maxHistory, server) ==
           (if c.Err? then [Window(s, endTime)]
            else [Window(s, endTime)] + WindowsVisited(s, maxHistory, server))
  {
  }

  /** `getClosePnl`: `now` is `time.Now()` and `maxHistory` is
      `now.AddDate(-2, 0, 1)`, both in Unix milliseconds. */
  method GetClosePnl(now: int, maxHistory: int, server: (int, int) -> seq<ClosePnlReply>)
    returns (r: Result<seq<Position>, string>, windows: seq<Window>)
    requires ServerEnds(server)
    ensures r == ClosePnlFrom(now, maxHistory, server)
    ensures windows == WindowsVisited(now, maxHistory, server)
  {
    var all: seq<Position> := [];
    var endTime := now;
    windows := [];
    var whole := ClosePnlFrom(now, maxHistory, server);
    if whole.Ok? {
      assert [] + whole.value == whole.value;
    }
    while endTime > maxHistory
      invariant ClosePnlFrom(now, maxHistory, server) == AppendResult(all, ClosePnlFrom(endTime, maxHistory, server))
      invariant WindowsVisited(now, maxHistory, server) == windows + WindowsVisited(endTime, maxHistory, server)
      decreases endTime - maxHistory
    {
      var startTime := endTime - SevenDaysMs;
      if startTime < maxHistory {
        startTime := maxHistory;
      }
      assert startTime == WindowStart(endTime, maxHistory);
      ghost var before := windows;
      windows := windows + [Window(startTime, endTime)];
      var chunk, _ := FetchClosePnlChunk(startTime, endTime, server(startTime, endTime));
      if chunk.Err? {
        if Contains(chunk.error, TwoYearsPhrase) {
          assert ClosePnlFrom(endTime, maxHistory, server) == Ok([]) by {
            ClosePnlUnfold(endTime, maxHistory, server);
          }
          assert WindowsVisited(endTime, maxHistory, server) == [Window(startTime, endTime)] by {
            ClosePnlUnfold(endTime, maxHistory, server);
          }
          assert all + [] == all;
          return Ok(all), windows;
        }
        assert ClosePnlFrom(endTime, maxHistory, server) == Err(chunk.error) by {
          ClosePnlUnfold(endTime, maxHistory, server);
        }
        assert WindowsVisited(endTime, maxHistory, server) == [Window(startTime, endTime)] by {
          ClosePnlUnfold(endTime, maxHistory, server);
        }
        return Err(chunk.error), windows;
      }
      assert ClosePnlFrom(endTime, maxHistory, server) == AppendResult(chunk.value, ClosePnlFrom(startTime, maxHistory, server)) by {
        ClosePnlUnfold(endTime, maxHistory, server);
      }
      assert WindowsVisited(endTime, maxHistory, server) == [Window(startTime, endTime)] + WindowsVisited(startTime, maxHistory, server) by {
        ClosePnlUnfold(endTime, maxHistory, server);
      }
      assert before + ([Window(startTime, endTime)] + WindowsVisited(startTime, maxHistory, server))
          == windows + WindowsVisited(startTime, maxHistory, server);
      AppendResultAssoc(all, chunk.value, ClosePnlFrom(startTime, maxHistory, server));
      all := all + chunk.value;
      endTime := startTime;
    }
    assert ClosePnlFrom(endTime, maxHistory, server) == Ok([]);
    assert WindowsVisited(endTime, maxHistory, server) == [];
    assert windows + [] == windows;
    assert all + [] == all;
    r := Ok(all);
  }

  lemma {:induction false} TilingShape(endTime: int, maxHistory: int)
    ensures var w := Tiling(endTime, maxHistory);
      && (endTime <= maxHistory <==> w == [])
      && (w != [] ==> w[0].end == endTime && w[|w| - 1].start == maxHistory)
      && (forall i :: 0 <= i < |w| ==>
            maxHistory <= w[i].start < w[i].end <= endTime && w[i].end - w[i].start <= SevenDaysMs)
      && (forall i :: 0 <= i < |w| - 1 ==> w[i + 1].end == w[i].start)
    decreases endTime - maxHistory
  {
    if endTime > maxHistory {
      var s := WindowStart(endTime, maxHistory);
      TilingShape(s, maxHistory);
      var w := Tiling(endTime, maxHistory);
      assert forall i :: 1 <= i < |w| ==> w[i] == Tiling(s, maxHistory)[i - 1];
    }
  }

  /** The windows do not overlap: every later window ends where or before
      an earlier one starts. */
  lemma TilingDisjoint(endTime: int, maxHistory: int, i: nat, j: nat)
    requires i < j < |Tiling(endTime, maxHistory)|
    ensures Tiling(endTime, maxHistory)[j].end <= Tiling(endTime, maxHistory)[i].start
    decreases j - i
  {
    TilingShape(endTime, maxHistory);
    if j > i + 1 {
      TilingDisjoint(endTime, maxHistory, i + 1, j);
    }
  }

  /** The loop makes ceil((endTime - maxHistory) / 7 days) requests. */
  lemma {:induction false} TilingCount(endTime: int, maxHistory: int)
    requires endTime > maxHistory
    ensures |Tiling(endTime, maxHistory)| == (endTime - maxHistory + SevenDaysMs - 1) / SevenDaysMs
    decreases endTime - maxHistory
  {
    var s := WindowStart(endTime, maxHistory);
    if s > maxHistory {
      TilingCount(s, maxHistory);
      assert endTime - maxHistory + SevenDaysMs - 1
          == (s - maxHistory + SevenDaysMs - 1) + SevenDaysMs;
    }
  }

  /** The windows requested are the first windows of the tiling; the loop
      leaves the tiling early only when the last window requested failed. */
  lemma {:induction false} VisitedIsTilingPrefix(endTime: int, maxHistory: int, server: (int, int) -> seq<ClosePnlReply>)
    requires ServerEnds(server)
    ensures var v := WindowsVisited(endTime, maxHistory, server);
      && v <= Tiling(endTime, maxHistory)
      && (|v| < |Tiling(endTime, maxHistory)| ==>
            v != [] && ChunkResult(server(v[|v| - 1].start, v[|v| - 1].end)).Err?)
    decreases endTime - maxHistory
  {
    if endTime > maxHistory {
      var s := WindowStart(endTime, maxHistory);
      if ChunkResult(server(s, endTime)).Ok? {
        VisitedIsTilingPrefix(s, maxHistory, server);
      }
    }
  }

  /** A window that fails with the retention message ends the loop with
      everything collected so far; any other failure discards it all. */
  lemma {:induction false} ClosePnlStopsOnRetention(endTime: int, maxHistory: int, server: (int, int) -> seq<ClosePnlReply>)
    requires ServerEnds(server)
    ensures var v := WindowsVisited(endTime, maxHistory, server);
      ClosePnlFrom(endTime, maxHistory, server).Err? <==>
        (v != [] && var last := ChunkResult(server(v[|v| - 1].start, v[|v| - 1].end));
          last.Err? && !Contains(last.error, TwoYearsPhrase))
    decreases endTime - maxHistory
  {
    if endTime > maxHistory {
      var s := WindowStart(endTime, maxHistory);
      if ChunkResult(server(s, endTime)).Ok? {
        ClosePnlStopsOnRetention(s, maxHistory, server);
      }
    }
  }

  // ---------------------------------------------------------------------
  // Signing and the balance call

  /** The string `signV5` signs: timestamp, key and the 30000 ms receive
      window, then the query string only for a GET with a non-empty query. */
  function SignV5Payload(apiKey: string, verb: string, queryString: string, timestamp: string): (p: string)
    ensures IsPrefix(timestamp + apiKey + RecvWindow, p)
    ensures p[|timestamp + apiKey + RecvWindow|..] == if verb == "GET" then queryString else ""
  {
    var payload := timestamp + apiKey + RecvWindow;
    if verb == "GET" && queryString != "" then payload + queryString else payload
  }

  /** `signV5`: hex of the HMAC of the payload under the secret. The request
      path is accepted but never signed. */
  function SignV5(apiKey: string, apiSecret: string, verb: string, path: string,
                  queryString: string, timestamp: string, mac: Mac): (sig: string)
    ensures sig == Hex(mac(apiSecret, SignV5Payload(apiKey, verb, queryString, timestamp)))
    ensures |sig| == 2 * |mac(apiSecret, SignV5Payload(apiKey, verb, queryString, timestamp))|
  {
    Hex(mac(apiSecret, SignV5Payload(apiKey, verb, queryString, timestamp)))
  }

  /** The wallet-balance request: fixed query, signed as a GET. */
  function BalanceRequest(apiKey: string, apiSecret: string, timestamp: int, mac: Mac): (req: Http.Request)
    ensures req.verb == "GET"
    ensures Http.HeaderValue(req.headers, "X-BAPI-SIGN")
         == Hex(mac(apiSecret, DecimalInt(timestamp) + apiKey + "30000" + "accountType=UNIFIED"))
  {
    var query := "accountType=UNIFIED";
    var ts := DecimalInt(timestamp);
    Http.Request("GET", "https://api.bybit.com" + "/v5/account/wallet-balance" + "?" + query,
      [Http.Header("X-BAPI-API-KEY", apiKey),
       Http.Header("X-BAPI-SIGN", SignV5(apiKey, apiSecret, "GET", "/v5/account/wallet-balance", query, ts, mac)),
       Http.Header("X-BAPI-TIMESTAMP", ts),
       Http.Header("X-BAPI-RECV-WINDOW", RecvWindow)])
  }

  /** The decoded wallet-balance body: the `totalEquity` string of each
      account in `result.list`, with its parse result. */
  datatype BalanceBody = BalanceBody(retCode: int, retMsg: string, totalEquity: seq<Result<real, string>>)

  /** `GetBalance`. The HTTP status is not checked: any decodable body is used. */
  function GetBalance(apiKey: string, apiSecret: string, timestamp: int, mac: Mac,
                      send: Http.Request -> Http.Outcome,
                      decode: string -> Result<BalanceBody, string>): (r: Result<real, string>)
    ensures var o := send(BalanceRequest(apiKey, apiSecret, timestamp, mac));
      r.Ok? <==> (o.Response? && decode(o.body).Ok? && decode(o.body).value.retCode == 0 &&
                  (decode(o.body).value.totalEquity == [] || decode(o.body).value.totalEquity[0].Ok?))
    ensures var o := send(BalanceRequest(apiKey, apiSecret, timestamp, mac));
      o.Response? && decode(o.body).Ok? && decode(o.body).value.retCode != 0 ==>
        r == Err("Bybit API error: " + decode(o.body).value.retMsg)
    ensures var o := send(BalanceRequest(apiKey, apiSecret, timestamp, mac));
      r.Ok? ==> r.value == (if decode(o.body).value.totalEquity == [] then 0.0
                            else decode(o.body).value.totalEquity[0].value)
  {
    match send(BalanceRequest(apiKey, apiSecret, timestamp, mac))
    case Failed(e) => Err(e)
    case Response(_, body) =>
      match decode(body)
      case Err(e) => Err(e)
      case Ok(b) =>
        if b.retCode != 0 then Err("Bybit API error: " + b.retMsg)
        else if b.totalEquity == [] then Ok(0.0)
        else b.totalEquity[0]
  }
}
