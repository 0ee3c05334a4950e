/** The demo-data endpoints (backend/internal/handler/test_handler.go):
    generate one hundred random positions, and delete the generated ones
    again. */
module TestHandler {
  import opened Wrappers
  import opened Model
  import opened Text
  import Calendar
  import Sql
  import PositionRepository

  const StatusMethodNotAllowed := 405
  const StatusInternalServerError := 500

  /** What the handlers write back. */
  datatype Reply = Done(count: nat) | HttpError(status: int, message: string)

  // -----------------------------------------------------------------
  // Generation

  const GeneratedCount := 100
  const Exchanges: seq<string> := ["bybit", "mexc"]
  const Symbols: seq<string> := ["BTCUSDT", "ETHUSDT", "SOLUSDT", "XRPUSDT", "BNBUSDT"]
  const Sides: seq<string> := ["Buy", "Sell"]

  /** The prefix every generated order id carries. */
  const TestPrefix := "test_position"

  /** `fmt.Sprintf("test_position_%d_%d", time.Now().UnixNano(), i)`. */
  function TestOrderId(nanos: int, i: nat): (o: string)
    ensures IsPrefix(TestPrefix + "_", o)
  {
    "test_position_" + DecimalInt(nanos) + "_" + DecimalNat(i)
  }

  /** The number of decimal digits at the end of `s`. */
  function TrailingDigits(s: string): (n: nat)
    ensures n <= |s|
  {
    if s == [] || !IsDigit(s[|s| - 1]) then 0 else 1 + TrailingDigits(s[..|s| - 1])
  }

  lemma {:induction false} TrailingDigitsOf(p: string, d: string)
    requires AllDigits(d)
    ensures TrailingDigits(p + "_" + d) == |d|
  {
    var s := p + "_" + d;
    if d != [] {
      assert s[..|s| - 1] == p + "_" + d[..|d| - 1];
      TrailingDigitsOf(p, d[..|d| - 1]);
    } else {
      assert s[|s| - 1] == '_';
    }
  }

  /** The loop index is the digits after the last underscore, so two
      generated ids differ whenever their indexes do, whatever the clock
      read. */
  lemma TestOrderIdsDistinct(nanos1: int, nanos2: int, i: nat, j: nat)
    requires i != j
    ensures TestOrderId(nanos1, i) != TestOrderId(nanos2, j)
  {
    if TestOrderId(nanos1, i) == TestOrderId(nanos2, j) {
      var s := TestOrderId(nanos1, i);
      TrailingDigitsOf("test_position_" + DecimalInt(nanos1), DecimalNat(i));
      TrailingDigitsOf("test_position_" + DecimalInt(nanos2), DecimalNat(j));
      assert DecimalNat(i) == s[|s| - TrailingDigits(s)..] == DecimalNat(j);
      DecimalNatInjective(i, j);
    }
  }

  /** `rand.Intn(n)`: the `k`-th draw of the seeded generator, below `n`. */
  function Intn(draw: nat -> nat, k: nat, n: nat): (r: nat)
    requires n > 0
    ensures r < n
  {
    draw(k) % n
  }

  /** The `i`-th generated position: seven draws, in the order the loop
      makes them, at clock reading `now` (milliseconds) and `nanos`. */
  function Generated(i: nat, now: int, nanos: int, draw: nat -> nat): (p: Position)
    ensures p.orderId == TestOrderId(nanos, i) && p.id == 0
    ensures p.exchange in Exchanges && p.symbol in Symbols && p.side in Sides
    ensures 1 <= p.leverage <= 20
    ensures 100.0 <= p.volume <= 9999.0
    ensures -500.0 <= p.closedPnl <= 999.0
    ensures now - 179 * Calendar.MsPerDay <= p.date <= now
    ensures (now - p.date) % Calendar.MsPerDay == 0
  {
    var k := 7 * i;
    var daysAgo := Intn(draw, k + 6, 180);
    Position(
      0,
      TestOrderId(nanos, i),
      Exchanges[Intn(draw, k, 2)],
      Symbols[Intn(draw, k + 1, 5)],
      (Intn(draw, k + 3, 9900) + 100) as real,
      Intn(draw, k + 4, 20) + 1,
      (Intn(draw, k + 5, 1500) - 500) as real,
      Sides[Intn(draw, k + 2, 2)],
      now - daysAgo * Calendar.MsPerDay)
  }

  /** The generation loop, the `i`-th iteration reading `clock(i)` and
      `nanos(i)`. */
  method GeneratePositions(clock: nat -> int, nanos: nat -> int, draw: nat -> nat) returns (ps: seq<Position>)
    ensures |ps| == GeneratedCount
    ensures forall i :: 0 <= i < |ps| ==> ps[i] == Generated(i, clock(i), nanos(i), draw)
  {
    ps := [];
    for i := 0 to GeneratedCount
      invariant |ps| == i
      invariant forall j :: 0 <= j < i ==> ps[j] == Generated(j, clock(j), nanos(j), draw)
    {
      ps := ps + [Generated(i, clock(i), nanos(i), draw)];
    }
  }

  /** The generated batch never repeats an order id, so it holds one
      hundred distinct upserts. */
  lemma GeneratedOrderIdsDistinct(ps: seq<Position>, clock: nat -> int, nanos: nat -> int, draw: nat -> nat)
    requires forall i :: 0 <= i < |ps| ==> ps[i] == Generated(i, clock(i), nanos(i), draw)
    ensures forall i, j :: 0 <= i < j < |ps| ==> ps[i].orderId != ps[j].orderId
  {
    forall i, j | 0 <= i < j < |ps| ensures ps[i].orderId != ps[j].orderId {
      TestOrderIdsDistinct(nanos(i), nanos(j), i, j);
    }
  }

  // -----------------------------------------------------------------
  // Deletion

  /** The selection test as written: a 14-byte prefix compared with the
      13-byte literal. */
  predicate SelectedAsWritten(orderId: string) {
    |orderId| >= 14 && orderId[..14] == TestPrefix
  }

  /** No order id passes the test as written. */
  lemma AsWrittenSelectsNothing(orderId: string)
    ensures !SelectedAsWritten(orderId)
  {
    if |orderId| >= 14 {
      assert |orderId[..14]| != |TestPrefix|;
    }
  }

  /** Not even the ids the generator itself produces. */
  lemma GeneratedIdsNotSelectedAsWritten(nanos: int, i: nat)
    ensures IsPrefix(TestPrefix, TestOrderId(nanos, i))
    ensures !SelectedAsWritten(TestOrderId(nanos, i))
  {
    AsWrittenSelectsNothing(TestOrderId(nanos, i));
    assert TestOrderId(nanos, i)[..|TestPrefix|] == (TestPrefix + "_")[..|TestPrefix|];
  }

  /** The selection the comment describes: the order id starts with
      `test_position`. */
  predicate Selected(orderId: string) {
    IsPrefix(TestPrefix, orderId)
  }

  /** The intended test picks every generated position. */
  lemma GeneratedIdsSelected(nanos: int, i: nat)
    ensures Selected(TestOrderId(nanos, i))
  {
    GeneratedIdsNotSelectedAsWritten(nanos, i);
  }

  /** The table after the deletion loop has visited the first `k` listed
      positions: a selected one is deleted unless its delete fails. */
  function Purged(t: PositionRepository.Table, ps: seq<Position>, select: string -> bool,
                  faults: nat -> Option<string>, k: nat): PositionRepository.Table
    requires k <= |ps|
  {
    if k == 0 then t
    else if select(ps[k - 1].orderId) && faults(k - 1).None? then
      PositionRepository.Delete(Purged(t, ps, select, faults, k - 1), ps[k - 1].id)
    else Purged(t, ps, select, faults, k - 1)
  }

  /** The `deleted` counter after the first `k` listed positions. */
  function PurgedCount(ps: seq<Position>, select: string -> bool, faults: nat -> Option<string>, k: nat): (n: nat)
    requires k <= |ps|
    ensures n <= k
  {
    if k == 0 then 0
    else PurgedCount(ps, select, faults, k - 1) + (if select(ps[k - 1].orderId) && faults(k - 1).None? then 1 else 0)
  }

  /** As written, the loop deletes nothing and reports 0. */
  lemma {:induction false} AsWrittenPurgeIsNoOp(t: PositionRepository.Table, ps: seq<Position>,
                                               faults: nat -> Option<string>, k: nat)
    requires k <= |ps|
    ensures Purged(t, ps, SelectedAsWritten, faults, k) == t
    ensures PurgedCount(ps, SelectedAsWritten, faults, k) == 0
  {
    if k > 0 {
      AsWrittenSelectsNothing(ps[k - 1].orderId);
      AsWrittenPurgeIsNoOp(t, ps, faults, k - 1);
    }
  }

  lemma {:induction false} PurgedValid(t: PositionRepository.Table, ps: seq<Position>, select: string -> bool,
                                       faults: nat -> Option<string>, k: nat)
    requires k <= |ps| && PositionRepository.Valid(t)
    ensures PositionRepository.Valid(Purged(t, ps, select, faults, k))
  {
    if k > 0 {
      PurgedValid(t, ps, select, faults, k - 1);
      var u := Purged(t, ps, select, faults, k - 1);
      if select(ps[k - 1].orderId) && faults(k - 1).None? {
        PositionRepository.DeleteValid(u, ps[k - 1].id);
      }
    }
  }

  /** The loop only ever removes rows. */
  lemma {:induction false} PurgeSubset(t: PositionRepository.Table, ps: seq<Position>, select: string -> bool,
                                       faults: nat -> Option<string>, k: nat)
    requires k <= |ps|
    ensures forall x :: x in Purged(t, ps, select, faults, k).rows ==> x in t.rows
  {
    if k > 0 {
      PurgeSubset(t, ps, select, faults, k - 1);
      var u := Purged(t, ps, select, faults, k - 1);
      if select(ps[k - 1].orderId) && faults(k - 1).None? {
        PositionRepository.DeleteMembers(u, ps[k - 1].id);
      }
    }
  }

  /** A row whose id no successful delete named survives the loop. */
  lemma {:induction false} PurgeKeeps(t: PositionRepository.Table, ps: seq<Position>, select: string -> bool,
                                      faults: nat -> Option<string>, k: nat, x: Position)
    requires k <= |ps| && x in t.rows
    requires forall i :: 0 <= i < k && select(ps[i].orderId) && faults(i).None? ==> ps[i].id != x.id
    ensures x in Purged(t, ps, select, faults, k).rows
  {
    if k > 0 {
      PurgeKeeps(t, ps, select, faults, k - 1, x);
      var u := Purged(t, ps, select, faults, k - 1);
      if select(ps[k - 1].orderId) && faults(k - 1).None? {
        PositionRepository.DeleteMembers(u, ps[k - 1].id);
      }
    }
  }

  /** A listed position whose delete succeeded is gone after the loop. */
  lemma {:induction false} PurgeRemoves(t: PositionRepository.Table, ps: seq<Position>, select: string -> bool,
                                        faults: nat -> Option<string>, k: nat, i: nat)
    requires i < k <= |ps|
    ensures select(ps[i].orderId) && faults(i).None? ==>
      forall x :: x in Purged(t, ps, select, faults, k).rows ==> x.id != ps[i].id
  {
    if select(ps[i].orderId) && faults(i).None? {
      var u := Purged(t, ps, select, faults, k - 1);
      if i == k - 1 {
        PositionRepository.DeleteMembers(u, ps[i].id);
      } else {
        PurgeRemoves(t, ps, select, faults, k - 1, i);
        if select(ps[k - 1].orderId) && faults(k - 1).None? {
          PositionRepository.DeleteMembers(u, ps[k - 1].id);
        }
      }
    }
  }

  /** With the intended test and no failing delete, no test position is
      left. */
  lemma TestRowsRemoved(t: PositionRepository.Table, ps: seq<Position>, faults: nat -> Option<string>)
    requires multiset(ps) == multiset(t.rows)
    requires forall i :: 0 <= i < |ps| ==> faults(i).None?
    ensures forall x :: x in Purged(t, ps, Selected, faults, |ps|).rows ==> !Selected(x.orderId)
  {
    forall x | x in Purged(t, ps, Selected, faults, |ps|).rows ensures !Selected(x.orderId) {
      PurgeSubset(t, ps, Selected, faults, |ps|);
      assert x in multiset(ps);
      var i :| 0 <= i < |ps| && ps[i] == x;
      PurgeRemoves(t, ps, Selected, faults, |ps|, i);
    }
  }

  /** Ids are unique, so a row is known by its id. */
  lemma IdsDetermineRows(t: PositionRepository.Table, x: Position, y: Position)
    requires PositionRepository.Valid(t) && x in t.rows && y in t.rows
    ensures x.id == y.id ==> x == y
  {
    var a :| 0 <= a < |t.rows| && t.rows[a] == x;
    var b :| 0 <= b < |t.rows| && t.rows[b] == y;
  }

  /** With the intended test, every row that is not a test position
      survives, whatever the order of the listing. */
  lemma OrdinaryRowsSurvive(t: PositionRepository.Table, ps: seq<Position>, faults: nat -> Option<string>, x: Position)
    requires PositionRepository.Valid(t) && multiset(ps) == multiset(t.rows)
    requires x in t.rows && !Selected(x.orderId)
    ensures x in Purged(t, ps, Selected, faults, |ps|).rows
  {
    forall i | 0 <= i < |ps| && Selected(ps[i].orderId) && faults(i).None? ensures ps[i].id != x.id {
      assert ps[i] in multiset(t.rows);
      IdsDetermineRows(t, ps[i], x);
    }
    PurgeKeeps(t, ps, Selected, faults, |ps|, x);
  }

  class TestHandler {
    const repo: PositionRepository.PositionTable

    constructor (repo: PositionRepository.PositionTable)
      ensures this.repo == repo
    {
      this.repo := repo;
    }

    /** `GenerateTestPositions`: POST only; the generated batch is saved
        in one go. */
    method GenerateTestPositions(verb: string, clock: nat -> int, nanos: nat -> int, draw: nat -> nat,
                                 fault: PositionRepository.BatchFault) returns (reply: Reply, ghost ps: seq<Position>)
      requires repo.Inv()
      modifies repo
      ensures repo.Inv()
      ensures verb != "POST" ==> reply == HttpError(StatusMethodNotAllowed, "Method not allowed") && repo.State() == old(repo.State())
      ensures verb == "POST" ==> |ps| == GeneratedCount
      ensures verb == "POST" ==> forall i :: 0 <= i < |ps| ==> ps[i] == Generated(i, clock(i), nanos(i), draw)
      ensures verb == "POST" && fault.StatementFails? && fault.index < GeneratedCount ==>
        reply == HttpError(StatusInternalServerError, fault.err) && repo.State() == old(repo.State())
      ensures verb == "POST" && (fault.BatchOk? || fault.index >= GeneratedCount) ==>
        reply == Done(GeneratedCount) && repo.State() == PositionRepository.Batch(old(repo.State()), ps)
    {
      if verb != "POST" {
        return HttpError(StatusMethodNotAllowed, "Method not allowed"), [];
      }
      var generated := GeneratePositions(clock, nanos, draw);
      ps := generated;
      var err := repo.SavePositionBatch(generated, fault);
      if err.Some? {
        return HttpError(StatusInternalServerError, err.value), ps;
      }
      reply := Done(|generated|);
    }

    /** The deletion loop over the listed positions with the selection
        test `select`, the `i`-th delete failing when `faults(i)` holds an
        error. */
    method PurgeListed(ps: seq<Position>, select: string -> bool, faults: nat -> Option<string>) returns (deleted: nat)
      requires repo.Inv()
      modifies repo
      ensures repo.Inv()
      ensures repo.State() == Purged(old(repo.State()), ps, select, faults, |ps|)
      ensures deleted == PurgedCount(ps, select, faults, |ps|)
    {
      ghost var start := repo.State();
      deleted := 0;
      for i := 0 to |ps|
        invariant repo.Inv()
        invariant repo.State() == Purged(start, ps, select, faults, i)
        invariant deleted == PurgedCount(ps, select, faults, i)
      {
        var p := ps[i];
        if select(p.orderId) {
          var err := repo.DeletePosition(p.id, faults(i));
          if err.Some? {
            continue;
          }
          deleted := deleted + 1;
        }
      }
    }

    /** `DeleteTestPositions` as written: POST only; lists every position,
        then runs the deletion loop with the 14-byte test, which no order id
        passes, so the table is left as it was and the reply counts 0. */
    method DeleteTestPositions(verb: string, listFault: Sql.Fault, faults: nat -> Option<string>) returns (reply: Reply)
      requires repo.Inv()
      modifies repo
      ensures repo.Inv()
      ensures verb != "POST" ==> reply == HttpError(StatusMethodNotAllowed, "Method not allowed")
      ensures verb == "POST" && Sql.ScanResult(old(repo.rows), listFault).Err? ==>
        reply.HttpError? && reply.status == StatusInternalServerError
      ensures verb == "POST" && Sql.ScanResult(old(repo.rows), listFault).Ok? ==> reply == Done(0)
      ensures repo.State() == old(repo.State())
    {
      if verb != "POST" {
        return HttpError(StatusMethodNotAllowed, "Method not allowed");
      }
      var listed := repo.GetAllPositions(listFault);
      if listed.Err? {
        return HttpError(StatusInternalServerError, listed.error);
      }
      ghost var start := repo.State();
      var ps := listed.value;
      var deleted := PurgeListed(ps, SelectedAsWritten, faults);
      AsWrittenPurgeIsNoOp(start, ps, faults, |ps|);
      reply := Done(deleted);
    }

    /** `DeleteTestPositions` with the prefix test its comment describes:
        it deletes the test positions one by one, counting the deletes that
        succeed. */
    method DeleteTestPositionsIntended(verb: string, listFault: Sql.Fault, faults: nat -> Option<string>) returns (reply: Reply)
      requires repo.Inv()
      modifies repo
      ensures repo.Inv()
      ensures verb != "POST" ==> reply == HttpError(StatusMethodNotAllowed, "Method not allowed") && repo.State() == old(repo.State())
      ensures verb == "POST" && Sql.ScanResult(old(repo.rows), listFault).Err? ==>
        reply.HttpError? && reply.status == StatusInternalServerError && repo.State() == old(repo.State())
      ensures reply.Done? ==> reply.count <= |old(repo.rows)|
      ensures reply.Done? ==> forall x :: x in old(repo.rows) && !Selected(x.orderId) ==> x in repo.rows
      ensures reply.Done? && (forall i :: 0 <= i < |old(repo.rows)| ==> faults(i).None?) ==>
        forall x :: x in repo.rows ==> !Selected(x.orderId)
      ensures forall x :: x in repo.rows ==> x in old(repo.rows)
    {
      if verb != "POST" {
        return HttpError(StatusMethodNotAllowed, "Method not allowed");
      }
      var listed := repo.GetAllPositions(listFault);
      if listed.Err? {
        return HttpError(StatusInternalServerError, listed.error);
      }
      ghost var start := repo.State();
      var ps := listed.value;
      assert |ps| == |multiset(ps)| == |multiset(start.rows)| == |start.rows|;
      var deleted := PurgeListed(ps, Selected, faults);
      PurgedValid(start, ps, Selected, faults, |ps|);
      PurgeSubset(start, ps, Selected, faults, |ps|);
      if forall i :: 0 <= i < |ps| ==> faults(i).None? {
        TestRowsRemoved(start, ps, faults);
      }
      forall x | x in start.rows && !Selected(x.orderId) ensures x in repo.rows {
        OrdinaryRowsSurvive(start, ps, faults, x);
      }
      reply := Done(deleted);
    }
  }
}
