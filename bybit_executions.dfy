/** The Bybit execution-history path (`getExecutionHistory` in
    backend/internal/api/api_bybit.go): one loop that pages through
    `/v5/execution/list` in 7-day windows back from `now`, moving one
    window back whenever a window runs dry and stopping once the next
    window would start more than 30 days ago; then the executions are
    grouped by order id, the last closing execution of each order winning.

    As for the close-pnl path, the exchange is an oracle:
    `server(start, end)` is the sequence of replies to the successive page
    requests for one window. */
module BybitExecutions {
  import opened Wrappers
  import opened Model
  import Bybit

  const SevenDaysMs: int := 604800000
  const ThirtyDaysMs: int := 2592000000

  /** One element of `result.list`: not an object, or an execution whose
      string fields default to "" and whose numeric strings carry their
      parse result. */
  datatype ExecItem =
    | ExecNotObject
    | Execution(orderId: string, symbol: string, side: string, closedSize: string,
                closedSizeValue: Option<real>, execPrice: Option<real>,
                leverage: Option<int>, closedPnl: Option<real>, execTime: Option<real>)

  datatype ExecResult = ExecResultNotObject | ExecResultObject(list: Option<seq<ExecItem>>, nextPageCursor: string)

  /** A transport or decode error, or a decoded reply. */
  datatype ExecReply = ExecCallFailed(err: string) | ExecReply(retCode: int, result: ExecResult)

  /** What one page makes the loop do. */
  datatype ExecStep =
    | ExecFail(err: string)                          // return nil, err
    | ExecStop                                       // break
    | ExecMove(items: seq<ExecItem>)                 // keep the items, go one window back
    | ExecNext(items: seq<ExecItem>, cursor: string) // keep the items, next page

  function ExecStepOf(r: ExecReply): ExecStep {
    match r
    case ExecCallFailed(e) => ExecFail(e)
    case ExecReply(code, res) =>
      if code != 0 then ExecStop
      else match res
        case ExecResultNotObject => ExecStop
        case ExecResultObject(None, _) => ExecStop
        case ExecResultObject(Some(items), cursor) =>
          if items == [] || cursor == "" then ExecMove(items) else ExecNext(items, cursor)
  }

  predicate EndsWindow(r: ExecReply) { !ExecStepOf(r).ExecNext? }

  predicate WindowEnds(t: seq<ExecReply>) {
    exists k :: 0 <= k < |t| && EndsWindow(t[k])
  }

  /** Index of the page after which the loop leaves the window. */
  function LastPage(t: seq<ExecReply>): (n: nat)
    requires WindowEnds(t)
    ensures n < |t| && EndsWindow(t[n])
    ensures forall j :: 0 <= j < n ==> !EndsWindow(t[j])
    decreases |t|
  {
    if EndsWindow(t[0]) then 0
    else
      var k :| 0 <= k < |t| && EndsWindow(t[k]);
      assert k > 0 && EndsWindow(t[1..][k - 1]);
      var m := LastPage(t[1..]);
      assert forall j :: 1 <= j <= m ==> t[j] == t[1..][j - 1];
      m + 1
  }

  ghost predicate ServerEnds(server: (int, int) -> seq<ExecReply>) {
    forall s, e :: WindowEnds(server(s, e))
  }

  /** The executions that are objects, in order. */
  function Objects(items: seq<ExecItem>): (r: seq<ExecItem>)
    ensures |r| <= |items|
    ensures forall i :: 0 <= i < |r| ==> r[i].Execution?
  {
    if items == [] then []
    else if items[0].Execution? then [items[0]] + Objects(items[1..])
    else Objects(items[1..])
  }

  function AppendResult(xs: seq<ExecItem>, r: Result<seq<ExecItem>, string>): Result<seq<ExecItem>, string> {
    match r
    case Ok(rest) => Ok(xs + rest)
    case Err(e) => Err(e)
  }

  /** A request the loop makes. */
  datatype ExecRequest = ExecRequest(startTime: int, endTime: int, cursor: string)

  /** What the paging loop yields: the executions (or the error) and the
      requests it made. */
  datatype Trace = Trace(result: Result<seq<ExecItem>, string>, requests: seq<ExecRequest>)

  /** `xs` collected and `qs` requested before the rest of the trace. */
  function Combine(xs: seq<ExecItem>, qs: seq<ExecRequest>, t: Trace): Trace {
    Trace(AppendResult(xs, t.result), qs + t.requests)
  }

  /** The window the loop is in ends at `endTime`; it is only entered when
      its start is within 30 days of `now`. */
  predicate InWindow(now: int, server: (int, int) -> seq<ExecReply>, endTime: int, k: nat)
    requires ServerEnds(server)
  {
    endTime - SevenDaysMs >= now - ThirtyDaysMs && k <= LastPage(server(endTime - SevenDaysMs, endTime))
  }

  /** Specification of the paging loop from page `k` of the window ending
      at `endTime` on, `cursor` being the cursor sent with that page. */
  ghost function TraceFrom(now: int, server: (int, int) -> seq<ExecReply>, endTime: int, k: nat, cursor: string): Trace
    requires ServerEnds(server) && InWindow(now, server, endTime, k)
    decreases endTime - (now - ThirtyDaysMs), LastPage(server(endTime - SevenDaysMs, endTime)) - k
  {
    var start := endTime - SevenDaysMs;
    var q := [ExecRequest(start, endTime, cursor)];
    match ExecStepOf(server(start, endTime)[k])
    case ExecFail(e) => Trace(Err(e), q)
    case ExecStop => Trace(Ok([]), q)
    case ExecMove(items) =>
      if start - SevenDaysMs < now - ThirtyDaysMs then Trace(Ok(Objects(items)), q)
      else Combine(Objects(items), q, TraceFrom(now, server, start, 0, ""))
    case ExecNext(items, next) => Combine(Objects(items), q, TraceFrom(now, server, endTime, k + 1, next))
  }

  predicate InRange(now: int, q: ExecRequest) {
    now - 4 * SevenDaysMs <= q.startTime && q.endTime == q.startTime + SevenDaysMs && q.endTime <= now
  }

  /** Every request covers one of the four 7-day windows back from `now`
      (the 30-day limit stops the loop before a fifth, which would start
      35 days back), and the first one asks for the window ending at
      `endTime` with the given cursor. */
  lemma {:induction false} TraceRequestsInRange(now: int, server: (int, int) -> seq<ExecReply>,
                                                endTime: int, k: nat, cursor: string, j: nat)
    requires ServerEnds(server) && InWindow(now, server, endTime, k)
    requires endTime == now - j * SevenDaysMs
    ensures var qs := TraceFrom(now, server, endTime, k, cursor).requests;
      && |qs| >= 1 && qs[0] == ExecRequest(endTime - SevenDaysMs, endTime, cursor)
      && forall i :: 0 <= i < |qs| ==> InRange(now, qs[i]) && qs[i].endTime <= endTime
    decreases endTime - (now - ThirtyDaysMs), LastPage(server(endTime - SevenDaysMs, endTime)) - k
  {
    var start := endTime - SevenDaysMs;
    assert j <= 3;
    match ExecStepOf(server(start, endTime)[k])
    case ExecFail(_) =>
    case ExecStop =>
    case ExecMove(_) =>
      if start - SevenDaysMs >= now - ThirtyDaysMs {
        TraceRequestsInRange(now, server, start, 0, "", j + 1);
      }
    case ExecNext(_, next) =>
      TraceRequestsInRange(now, server, endTime, k + 1, next, j);
  }

  function ReplyAt(server: (int, int) -> seq<ExecReply>, endTime: int, k: nat): ExecReply
    requires ServerEnds(server) && k <= LastPage(server(endTime - SevenDaysMs, endTime))
  {
    server(endTime - SevenDaysMs, endTime)[k]
  }

  function RequestAt(endTime: int, cursor: string): seq<ExecRequest> {
    [ExecRequest(endTime - SevenDaysMs, endTime, cursor)]
  }

  /** A page that fails ends the loop with its error. */
  lemma StepFail(now: int, server: (int, int) -> seq<ExecReply>, endTime: int, k: nat, cursor: string)
    requires ServerEnds(server) && InWindow(now, server, endTime, k)
    requires ReplyAt(server, endTime, k).ExecCallFailed?
    ensures TraceFrom(now, server, endTime, k, cursor) == Trace(Err(ReplyAt(server, endTime, k).err), RequestAt(endTime, cursor))
  {
  }

  /** A page with a non-zero retCode or without a usable list ends the loop
      with what was collected. */
  lemma StepStop(now: int, server: (int, int) -> seq<ExecReply>, endTime: int, k: nat, cursor: string)
    requires ServerEnds(server) && InWindow(now, server, endTime, k)
    requires var reply := ReplyAt(server, endTime, k);
      reply.ExecReply? && (reply.retCode != 0 || reply.result.ExecResultNotObject? || reply.result.list.None?)
    ensures TraceFrom(now, server, endTime, k, cursor) == Combine([], RequestAt(endTime, cursor), Trace(Ok([]), []))
  {
    assert RequestAt(endTime, cursor) + [] == RequestAt(endTime, cursor);
    var none: seq<ExecItem> := [];
    assert none + [] == none;
  }

  /** A page with items and a cursor leads to the next page of the window. */
  lemma StepNext(now: int, server: (int, int) -> seq<ExecReply>, endTime: int, k: nat, cursor: string)
    requires ServerEnds(server) && InWindow(now, server, endTime, k)
    requires var reply := ReplyAt(server, endTime, k);
      reply.ExecReply? && reply.retCode == 0 && reply.result.ExecResultObject? && reply.result.list.Some? &&
      reply.result.list.value != [] && reply.result.nextPageCursor != ""
    ensures InWindow(now, server, endTime, k + 1)
    ensures var reply := ReplyAt(server, endTime, k);
      TraceFrom(now, server, endTime, k, cursor) ==
        Combine(Objects(reply.result.list.value), RequestAt(endTime, cursor),
                TraceFrom(now, server, endTime, k + 1, reply.result.nextPageCursor))
  {
  }

  /** An empty page, or one without a cursor, moves one window back, or
      ends the loop when that window would start past the 30-day limit. */
  lemma StepMove(now: int, server: (int, int) -> seq<ExecReply>, endTime: int, k: nat, cursor: string)
    requires ServerEnds(server) && InWindow(now, server, endTime, k)
    requires var reply := ReplyAt(server, endTime, k);
      reply.ExecReply? && reply.retCode == 0 && reply.result.ExecResultObject? && reply.result.list.Some? &&
      (reply.result.list.value == [] || reply.result.nextPageCursor == "")
    ensures var items := ReplyAt(server, endTime, k).result.list.value;
      var start := endTime - SevenDaysMs;
      TraceFrom(now, server, endTime, k, cursor) ==
        Combine(Objects(items), RequestAt(endTime, cursor),
                if start - SevenDaysMs < now - ThirtyDaysMs then Trace(Ok([]), [])
                else TraceFrom(now, server, start, 0, ""))
  {
    var items := ReplyAt(server, endTime, k).result.list.value;
    assert RequestAt(endTime, cursor) + [] == RequestAt(endTime, cursor);
    assert Objects(items) + [] == Objects(items);
  }

  lemma CombineAssoc(a: seq<ExecItem>, qa: seq<ExecRequest>, b: seq<ExecItem>, qb: seq<ExecRequest>, t: Trace)
    ensures Combine(a, qa, Combine(b, qb, t)) == Combine(a + b, qa + qb, t)
  {
    assert qa + (qb + t.requests) == qa + qb + t.requests;
    if t.result.Ok? {
      assert a + (b + t.result.value) == a + b + t.result.value;
    }
  }

  lemma CombineNil(t: Trace)
    ensures Combine([], [], t) == t
  {
    assert [] + t.requests == t.requests;
    if t.result.Ok? {
      assert [] + t.result.value == t.result.value;
    }
  }

  /** The paging loop of `getExecutionHistory`: the executions collected,
      and the window and cursor of every request made. */
  method CollectExecutions(now: int, server: (int, int) -> seq<ExecReply>)
    returns (r: Result<seq<ExecItem>, string>, requests: seq<ExecRequest>)
    requires ServerEnds(server)
    ensures InWindow(now, server, now, 0)
    ensures Trace(r, requests) == TraceFrom(now, server, now, 0, "")
  {
    var allExecutions: seq<ExecItem> := [];
    var cursor := "";
    var endTime := now;
    var sevenDaysAgo := now - SevenDaysMs;
    var thirtyDaysAgo := now - ThirtyDaysMs;
    var k: nat := 0;
    requests := [];
    var page := 0;
    CombineNil(TraceFrom(now, server, now, 0, ""));
    while true
      invariant sevenDaysAgo == endTime - SevenDaysMs && InWindow(now, server, endTime, k)
      invariant TraceFrom(now, server, now, 0, "") == Combine(allExecutions, requests, TraceFrom(now, server, endTime, k, cursor))
      decreases endTime - thirtyDaysAgo, LastPage(server(sevenDaysAgo, endTime)) - k
    {
      page := page + 1;
      ghost var before, asked := allExecutions, requests;
      requests := requests + [ExecRequest(sevenDaysAgo, endTime, cursor)];
      var reply := server(sevenDaysAgo, endTime)[k];
      ghost var rest := TraceFrom(now, server, endTime, k, cursor);
      if reply.ExecCallFailed? {
        assert TraceFrom(now, server, now, 0, "") == Trace(Err(reply.err), requests) by {
          assert ReplyAt(server, endTime, k) == reply;
          StepFail(now, server, endTime, k, cursor);
          assert rest == Trace(Err(reply.err), RequestAt(endTime, cursor));
          assert requests == asked + RequestAt(endTime, cursor);
        }
        return Err(reply.err), requests;
      }
      if reply.retCode != 0 || reply.result.ExecResultNotObject? || reply.result.list.None? {
        assert TraceFrom(now, server, now, 0, "") == Trace(Ok(allExecutions), requests) by {
          assert ReplyAt(server, endTime, k) == reply;
          StepStop(now, server, endTime, k, cursor);
          assert requests == asked + RequestAt(endTime, cursor);
          CombineAssoc(before, asked, [], RequestAt(endTime, cursor), Trace(Ok([]), []));
          assert before + [] == before;
          assert requests + [] == requests;
        }
        return Ok(allExecutions), requests;
      }
      var execList := reply.result.list.value;
      // an empty page, or a page without a cursor, moves the window back
      var moveWindow := true;
      if |execList| > 0 {
        allExecutions := AppendObjects(allExecutions, execList);
        var nextCursor := reply.result.nextPageCursor;
        if nextCursor != "" {
          assert InWindow(now, server, endTime, k + 1) &&
            TraceFrom(now, server, now, 0, "") ==
              Combine(allExecutions, requests, TraceFrom(now, server, endTime, k + 1, nextCursor)) by {
            assert ReplyAt(server, endTime, k) == reply;
            StepNext(now, server, endTime, k, cursor);
            assert rest == Combine(Objects(execList), RequestAt(endTime, cursor),
                                   TraceFrom(now, server, endTime, k + 1, nextCursor));
            assert requests == asked + RequestAt(endTime, cursor);
            assert allExecutions == before + Objects(execList);
            CombineAssoc(before, asked, Objects(execList), RequestAt(endTime, cursor),
                         TraceFrom(now, server, endTime, k + 1, nextCursor));
          }
          cursor := nextCursor;
          k := k + 1;
          moveWindow := false;
        }
      } else {
        assert Objects(execList) == [] && before + [] == before;
      }
      if moveWindow {
        ghost var tail := if sevenDaysAgo - SevenDaysMs < thirtyDaysAgo then Trace(Ok([]), [])
                          else TraceFrom(now, server, sevenDaysAgo, 0, "");
        assert TraceFrom(now, server, now, 0, "") == Combine(allExecutions, requests, tail) by {
          assert ReplyAt(server, endTime, k) == reply;
          StepMove(now, server, endTime, k, cursor);
          assert rest == Combine(Objects(execList), RequestAt(endTime, cursor), tail);
          assert requests == asked + RequestAt(endTime, cursor);
          assert allExecutions == before + Objects(execList);
          CombineAssoc(before, asked, Objects(execList), RequestAt(endTime, cursor), tail);
        }
        endTime := sevenDaysAgo;
        sevenDaysAgo := endTime - SevenDaysMs;
        cursor := "";
        if sevenDaysAgo < thirtyDaysAgo {
          assert TraceFrom(now, server, now, 0, "") == Trace(Ok(allExecutions), requests) by {
            assert tail == Trace(Ok([]), []);
            assert allExecutions + [] == allExecutions && requests + [] == requests;
          }
          return Ok(allExecutions), requests;
        }
        k := 0;
      }
    }
  }

  /** An execution that closes (part of) a position. */
  predicate Closing(e: ExecItem) {
    e.Execution? && e.orderId != "" && e.closedSize != "0" && e.closedSize != ""
  }

  /** `orderMap` after the grouping loop has seen `s`. */
  function GroupLast(s: seq<ExecItem>): map<string, ExecItem> {
    if s == [] then map[]
    else
      var m := GroupLast(s[..|s| - 1]);
      var x := s[|s| - 1];
      if Closing(x) then m[x.orderId := x] else m
  }

  /** The position built from one grouped execution. */
  function ToPosition(e: ExecItem): (p: Position)
    requires e.Execution?
    ensures p.orderId == e.orderId && p.exchange == "bybit"
    ensures p.leverage == (if e.leverage.GetOr(0) == 0 then 1 else e.leverage.GetOr(0))
    ensures p.leverage != 0
  {
    var lev := if e.leverage.GetOr(0) == 0 then 1 else e.leverage.GetOr(0);
    Position(0, e.orderId, "bybit", e.symbol, e.closedSizeValue.GetOr(0.0) * e.execPrice.GetOr(0.0),
             lev, e.closedPnl.GetOr(0.0), e.side, Bybit.Truncate(e.execTime.GetOr(0.0)))
  }

  /** The volume is the closed size times the execution price, each
      defaulting to 0 when it does not parse; it is never negative for
      non-negative inputs. */
  lemma ExecutionVolume(e: ExecItem)
    requires e.Execution?
    ensures ToPosition(e).volume == e.closedSizeValue.GetOr(0.0) * e.execPrice.GetOr(0.0)
    ensures e.closedSizeValue.GetOr(0.0) >= 0.0 && e.execPrice.GetOr(0.0) >= 0.0 ==> ToPosition(e).volume >= 0.0
  {
  }

  /** The positions the method returns for a grouping map: one per key,
      built from that key's execution. */
  predicate PositionsOf(m: map<string, ExecItem>, ps: seq<Position>)
  {
    && |ps| == |m|
    && (forall i, j :: 0 <= i < j < |ps| ==> ps[i].orderId != ps[j].orderId)
    && (forall i :: 0 <= i < |ps| ==> ps[i].orderId in m && m[ps[i].orderId].Execution? &&
                                      ps[i] == ToPosition(m[ps[i].orderId]))
    && (forall id :: id in m ==> exists i :: 0 <= i < |ps| && ps[i].orderId == id)
  }

  /** Every grouped execution is a closing execution filed under its own id. */
  lemma {:induction false} GroupLastWellFormed(s: seq<ExecItem>)
    ensures forall id :: id in GroupLast(s) ==> Closing(GroupLast(s)[id]) && GroupLast(s)[id].orderId == id
  {
    if s != [] {
      GroupLastWellFormed(s[..|s| - 1]);
    }
  }

  /** The map holds exactly the ids of the closing executions. */
  lemma {:induction false} GroupLastKeys(s: seq<ExecItem>)
    ensures forall id :: id in GroupLast(s) <==> exists i :: 0 <= i < |s| && Closing(s[i]) && s[i].orderId == id
  {
    if s != [] {
      var init := s[..|s| - 1];
      GroupLastKeys(init);
      var x := s[|s| - 1];
      forall id ensures id in GroupLast(s) <==> exists i :: 0 <= i < |s| && Closing(s[i]) && s[i].orderId == id {
        if id in GroupLast(s) && !(Closing(x) && x.orderId == id) {
          assert id in GroupLast(init);
          var i :| 0 <= i < |init| && Closing(init[i]) && init[i].orderId == id;
          assert s[i] == init[i];
        }
        if (exists i :: 0 <= i < |s| && Closing(s[i]) && s[i].orderId == id) && !(Closing(x) && x.orderId == id) {
          var i :| 0 <= i < |s| && Closing(s[i]) && s[i].orderId == id;
          assert i < |init| && init[i] == s[i];
        }
      }
    }
  }

  /** Under each id the map keeps the last closing execution with that id. */
  lemma {:induction false} GroupLastIsLast(s: seq<ExecItem>, id: string)
    requires id in GroupLast(s)
    ensures exists i :: (0 <= i < |s| && s[i] == GroupLast(s)[id] &&
      forall j :: i < j < |s| ==> !(Closing(s[j]) && s[j].orderId == id))
  {
    var init := s[..|s| - 1];
    var x := s[|s| - 1];
    if Closing(x) && x.orderId == id {
      assert s[|s| - 1] == GroupLast(s)[id];
    } else {
      GroupLastIsLast(init, id);
      var i :| 0 <= i < |init| && init[i] == GroupLast(init)[id] &&
        forall j :: i < j < |init| ==> !(Closing(init[j]) && init[j].orderId == id);
      assert s[i] == GroupLast(s)[id];
      forall j | i < j < |s| ensures !(Closing(s[j]) && s[j].orderId == id) {
        if j < |init| { assert s[j] == init[j]; }
      }
    }
  }

  /** The loop appending the object entries of one page. */
  method AppendObjects(acc: seq<ExecItem>, items: seq<ExecItem>) returns (r: seq<ExecItem>)
    ensures r == acc + Objects(items)
  {
    r := acc;
    var i := 0;
    while i < |items|
      invariant 0 <= i <= |items|
      invariant r == acc + Objects(items[..i])
    {
      ObjectsSnoc(items, i);
      if items[i].Execution? {
        r := r + [items[i]];
      }
      i := i + 1;
    }
    assert items[..i] == items;
  }

  /** The grouping loop: `orderMap`, filled in list order. */
  method GroupExecutions(executions: seq<ExecItem>) returns (orderMap: map<string, ExecItem>)
    ensures orderMap == GroupLast(executions)
  {
    orderMap := map[];
    var j := 0;
    while j < |executions|
      invariant 0 <= j <= |executions|
      invariant orderMap == GroupLast(executions[..j])
    {
      assert executions[..j + 1][..j] == executions[..j];
      var e := executions[j];
      if e.Execution? && e.orderId != "" && e.closedSize != "0" && e.closedSize != "" {
        orderMap := orderMap[e.orderId := e];
      }
      j := j + 1;
    }
    assert executions[..j] == executions;
  }

  /** Every grouped execution is filed under its own order id. */
  predicate FiledByOrderId(m: map<string, ExecItem>) {
    forall id :: id in m ==> m[id].Execution? && m[id].orderId == id
  }

  /** The state of the map loop: the keys outside `rest` have been turned
      into positions, `at` telling where each one sits. */
  ghost predicate Visited(m: map<string, ExecItem>, ps: seq<Position>, at: map<string, nat>, rest: set<string>)
    requires FiledByOrderId(m)
  {
    && rest <= m.Keys && at.Keys == m.Keys - rest
    && |ps| + |rest| == |m|
    && (forall a, b :: 0 <= a < b < |ps| ==> ps[a].orderId != ps[b].orderId)
    && (forall a :: 0 <= a < |ps| ==> ps[a].orderId in at && ps[a] == ToPosition(m[ps[a].orderId]))
    && (forall x :: x in at ==> at[x] < |ps| && ps[at[x]].orderId == x)
  }

  lemma VisitKeys(m: map<string, ExecItem>, ps: seq<Position>, at: map<string, nat>, rest: set<string>, id: string)
    requires FiledByOrderId(m) && Visited(m, ps, at, rest) && id in rest
    ensures rest - {id} <= m.Keys && at[id := |ps|].Keys == m.Keys - (rest - {id})
    ensures |ps| + 1 + |rest - {id}| == |m|
  {
    assert m.Keys - (rest - {id}) == (m.Keys - rest) + {id};
  }

  lemma VisitDistinct(m: map<string, ExecItem>, ps: seq<Position>, at: map<string, nat>, rest: set<string>, id: string)
    requires FiledByOrderId(m) && Visited(m, ps, at, rest) && id in rest
    ensures var ps' := ps + [ToPosition(m[id])];
      forall a, b :: 0 <= a < b < |ps'| ==> ps'[a].orderId != ps'[b].orderId
  {
    var ps' := ps + [ToPosition(m[id])];
    assert id !in at;
    forall a, b | 0 <= a < b < |ps'| ensures ps'[a].orderId != ps'[b].orderId {
      assert ps'[a] == ps[a];
      if b < |ps| {
        assert ps'[b] == ps[b];
      }
    }
  }

  lemma VisitBuilt(m: map<string, ExecItem>, ps: seq<Position>, at: map<string, nat>, rest: set<string>, id: string)
    requires FiledByOrderId(m) && Visited(m, ps, at, rest) && id in rest
    ensures var ps' := ps + [ToPosition(m[id])];
      forall a :: 0 <= a < |ps'| ==> ps'[a].orderId in at[id := |ps|] && ps'[a] == ToPosition(m[ps'[a].orderId])
  {
    var ps' := ps + [ToPosition(m[id])];
    forall a | 0 <= a < |ps'| ensures ps'[a].orderId in at[id := |ps|] && ps'[a] == ToPosition(m[ps'[a].orderId]) {
      if a < |ps| {
        assert ps'[a] == ps[a];
      }
    }
  }

  lemma VisitAt(m: map<string, ExecItem>, ps: seq<Position>, at: map<string, nat>, rest: set<string>, id: string)
    requires FiledByOrderId(m) && Visited(m, ps, at, rest) && id in rest
    ensures var ps', at' := ps + [ToPosition(m[id])], at[id := |ps|];
      forall x :: x in at' ==> at'[x] < |ps'| && ps'[at'[x]].orderId == x
  {
    var ps', at' := ps + [ToPosition(m[id])], at[id := |ps|];
    forall x | x in at' ensures at'[x] < |ps'| && ps'[at'[x]].orderId == x {
      if x != id {
        assert ps'[at[x]] == ps[at[x]];
      }
    }
  }

  lemma VisitOne(m: map<string, ExecItem>, ps: seq<Position>, at: map<string, nat>, rest: set<string>, id: string)
    requires FiledByOrderId(m) && Visited(m, ps, at, rest) && id in rest
    ensures Visited(m, ps + [ToPosition(m[id])], at[id := |ps|], rest - {id})
  {
    VisitKeys(m, ps, at, rest, id);
    VisitDistinct(m, ps, at, rest, id);
    VisitBuilt(m, ps, at, rest, id);
    VisitAt(m, ps, at, rest, id);
  }

  lemma VisitedAll(m: map<string, ExecItem>, ps: seq<Position>, at: map<string, nat>)
    requires FiledByOrderId(m) && Visited(m, ps, at, {})
    ensures PositionsOf(m, ps)
  {
    forall x | x in m ensures exists a :: 0 <= a < |ps| && ps[a].orderId == x {
      assert ps[at[x]].orderId == x;
    }
  }

  /** The loop over `orderMap`, in whatever order the map yields its keys. */
  method PositionsFromMap(orderMap: map<string, ExecItem>) returns (positions: seq<Position>)
    requires FiledByOrderId(orderMap)
    ensures PositionsOf(orderMap, positions)
  {
    positions := [];
    var rest := orderMap.Keys;
    ghost var at: map<string, nat> := map[];
    while rest != {}
      invariant Visited(orderMap, positions, at, rest)
      decreases |rest|
    {
      var id :| id in rest;
      VisitOne(orderMap, positions, at, rest, id);
      at := at[id := |positions|];
      positions := positions + [ToPosition(orderMap[id])];
      rest := rest - {id};
    }
    VisitedAll(orderMap, positions, at);
  }

  /** `getExecutionHistory`. `now` is `time.Now()` in Unix milliseconds;
      `requests` records the window and cursor of every request made. */
  method GetExecutionHistory(now: int, server: (int, int) -> seq<ExecReply>)
    returns (r: Result<seq<Position>, string>, requests: seq<ExecRequest>)
    requires ServerEnds(server)
    ensures InWindow(now, server, now, 0)
    ensures var t := TraceFrom(now, server, now, 0, "");
      && requests == t.requests
      && (r.Err? <==> t.result.Err?)
      && (r.Err? ==> r.error == t.result.error)
      && (r.Ok? ==> PositionsOf(GroupLast(t.result.value), r.value))
  {
    var collected;
    collected, requests := CollectExecutions(now, server);
    if collected.Err? {
      return Err(collected.error), requests;
    }
    var orderMap := GroupExecutions(collected.value);
    GroupLastWellFormed(collected.value);
    var positions := PositionsFromMap(orderMap);
    r := Ok(positions);
  }

  lemma ObjectsSnoc(s: seq<ExecItem>, i: nat)
    requires i < |s|
    ensures Objects(s[..i + 1]) == Objects(s[..i]) + (if s[i].Execution? then [s[i]] else [])
  {
    ObjectsAppend(s[..i], [s[i]]);
    assert s[..i + 1] == s[..i] + [s[i]];
  }

  lemma {:induction false} ObjectsAppend(a: seq<ExecItem>, b: seq<ExecItem>)
    ensures Objects(a + b) == Objects(a) + Objects(b)
  {
    if a == [] {
      assert a + b == b;
    } else {
      assert (a + b)[0] == a[0] && (a + b)[1..] == a[1..] + b;
      ObjectsAppend(a[1..], b);
    }
  }

}
