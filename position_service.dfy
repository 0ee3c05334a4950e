/** The position service (backend/internal/service/position_service.go):
    pass-throughs to the position table and the two PnL totals. */
module PositionService {
  import opened Wrappers
  import opened Model
  import opened Ordering
  import Calendar
  import Sql
  import PositionRepository

  /** The service's exchange filter: `""` keeps every position. */
  function Matches(exchange: string): Position -> bool {
    (p: Position) => exchange == "" || p.exchange == exchange
  }

  function ClosedPnl(p: Position): real { p.closedPnl }

  /** The closed PnL of the positions the filter keeps. */
  function TotalPnl(ps: seq<Position>, exchange: string): real {
    SumBy(Filter(ps, Matches(exchange)), ClosedPnl)
  }

  /** With no exchange named, the total covers every position. */
  lemma TotalPnlOfAll(ps: seq<Position>)
    ensures TotalPnl(ps, "") == SumBy(ps, ClosedPnl)
  {
    FilterAll(ps, Matches(""));
  }

  /** A named exchange with no positions totals 0. */
  lemma TotalPnlNoMatch(ps: seq<Position>, exchange: string)
    requires exchange != ""
    requires forall i :: 0 <= i < |ps| ==> ps[i].exchange != exchange
    ensures TotalPnl(ps, exchange) == 0.0
  {
    SumByFilterNone(ps, Matches(exchange), ClosedPnl);
  }

  /** The total does not depend on the order the rows come back in. */
  lemma TotalPnlOrderFree(a: seq<Position>, b: seq<Position>, exchange: string)
    requires multiset(a) == multiset(b)
    ensures TotalPnl(a, exchange) == TotalPnl(b, exchange)
  {
    SumWherePermutation(a, b, Matches(exchange), ClosedPnl);
  }

  /** The range CalculateMonthlyPnl queries: from the first of the month,
      00:00 UTC, to the same instant one calendar month later. */
  function MonthWindow(year: int, month: int): (w: (int, int))
    ensures w.0 == Calendar.MonthStart(year, month)
    ensures 28 * Calendar.MsPerDay <= w.1 - w.0 <= 31 * Calendar.MsPerDay
    ensures w.1 == Calendar.MonthStart(year, month + 1)
  {
    Calendar.MonthLength(year, month);
    (Calendar.MonthStart(year, month), Calendar.MonthStart(year, month + 1))
  }

  /** The positions a monthly total covers. */
  function InMonth(rows: seq<Position>, year: int, month: int): seq<Position> {
    var w := MonthWindow(year, month);
    Filter(rows, PositionRepository.InRange(w.0, w.1))
  }

  /** Both ends of the range are inclusive, so a position dated exactly at
      the start of the next month is counted in this month as well. */
  lemma NextMonthStartCounted(rows: seq<Position>, year: int, month: int, k: nat)
    requires k < |rows| && rows[k].date == Calendar.MonthStart(year, month + 1)
    ensures rows[k] in InMonth(rows, year, month)
    ensures rows[k] in InMonth(rows, year, month + 1)
  {
    var w := MonthWindow(year, month);
    var v := MonthWindow(year, month + 1);
    FilterMultiset(rows, PositionRepository.InRange(w.0, w.1), rows[k]);
    FilterMultiset(rows, PositionRepository.InRange(v.0, v.1), rows[k]);
  }

  class PositionService {
    const repo: PositionRepository.PositionTable

    constructor (repo: PositionRepository.PositionTable)
      ensures this.repo == repo
    {
      this.repo := repo;
    }

    method SavePosition(p: Position, fault: Option<string>) returns (err: Option<string>)
      requires repo.Inv()
      modifies repo
      ensures repo.Inv() && err == fault
      ensures fault.Some? ==> repo.State() == old(repo.State())
      ensures fault.None? ==> repo.State() == PositionRepository.Upsert(old(repo.State()), p)
    {
      err := repo.SavePosition(p, fault);
    }

    method SavePositionsBatch(ps: seq<Position>, fault: PositionRepository.BatchFault) returns (err: Option<string>)
      requires repo.Inv()
      modifies repo
      ensures repo.Inv()
      ensures err.None? <==> fault.BatchOk? || fault.index >= |ps|
      ensures err.Some? ==> err == Some(fault.err) && repo.State() == old(repo.State())
      ensures err.None? ==> repo.State() == PositionRepository.Batch(old(repo.State()), ps)
    {
      err := repo.SavePositionBatch(ps, fault);
    }

    method GetAllPositions(fault: Sql.Fault) returns (r: Result<seq<Position>, string>)
      ensures r.Ok? <==> Sql.ScanResult(repo.rows, fault).Ok?
      ensures r.Ok? ==> multiset(r.value) == multiset(repo.rows) && SortedDesc(r.value, PositionDate)
    {
      r := repo.GetAllPositions(fault);
    }

    method GetPositionsByExchange(exchange: string, fault: Sql.Fault) returns (r: Result<seq<Position>, string>)
      ensures r.Ok? <==> Sql.ScanResult(Filter(repo.rows, PositionRepository.OnExchange(exchange)), fault).Ok?
      ensures r.Ok? ==> multiset(r.value) == multiset(Filter(repo.rows, PositionRepository.OnExchange(exchange)))
      ensures r.Ok? ==> SortedDesc(r.value, PositionDate)
    {
      r := repo.GetPositionsByExchange(exchange, fault);
    }

    method GetPositionsByDateRange(start: int, end: int, fault: Sql.Fault) returns (r: Result<seq<Position>, string>)
      ensures r.Ok? <==> Sql.ScanResult(Filter(repo.rows, PositionRepository.InRange(start, end)), fault).Ok?
      ensures r.Ok? ==> multiset(r.value) == multiset(Filter(repo.rows, PositionRepository.InRange(start, end)))
      ensures r.Ok? ==> SortedDesc(r.value, PositionDate)
    {
      r := repo.GetPositionsByDateRange(start, end, fault);
    }

    method DeletePosition(id: int, fault: Option<string>) returns (err: Option<string>)
      requires repo.Inv()
      modifies repo
      ensures repo.Inv() && err == fault
      ensures fault.Some? ==> repo.State() == old(repo.State())
      ensures fault.None? ==> repo.State() == PositionRepository.Delete(old(repo.State()), id)
    {
      err := repo.DeletePosition(id, fault);
    }

    /** `CalculateTotalPnl`: `(0, err)` when the read fails. */
    method CalculateTotalPnl(exchange: string, fault: Sql.Fault) returns (total: real, err: Option<string>)
      ensures err.None? <==> Sql.ScanResult(repo.rows, fault).Ok?
      ensures err.Some? ==> total == 0.0
      ensures err.None? ==> total == TotalPnl(repo.rows, exchange)
    {
      var r := repo.GetAllPositions(fault);
      if r.Err? {
        return 0.0, Some(r.error);
      }
      total := SumWhere(r.value, Matches(exchange), ClosedPnl);
      TotalPnlOrderFree(r.value, repo.rows, exchange);
      err := None;
    }

    /** `CalculateMonthlyPnl`: the total over the month's inclusive range. */
    method CalculateMonthlyPnl(year: int, month: int, exchange: string, fault: Sql.Fault) returns (total: real, err: Option<string>)
      ensures err.None? <==> Sql.ScanResult(InMonth(repo.rows, year, month), fault).Ok?
      ensures err.Some? ==> total == 0.0
      ensures err.None? ==> total == TotalPnl(InMonth(repo.rows, year, month), exchange)
    {
      var w := MonthWindow(year, month);
      var r := repo.GetPositionsByDateRange(w.0, w.1, fault);
      if r.Err? {
        return 0.0, Some(r.error);
      }
      total := SumWhere(r.value, Matches(exchange), ClosedPnl);
      TotalPnlOrderFree(r.value, InMonth(repo.rows, year, month), exchange);
      err := None;
    }
  }
}
