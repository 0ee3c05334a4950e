/** The monthly income service
    (backend/internal/service/monthly_income_service.go): pass-throughs to
    the income ledger and two totals of the recorded PnL. */
module MonthlyIncomeService {
  import opened Wrappers
  import opened Model
  import opened Ordering
  import Calendar
  import Sql
  import MonthlyIncomeRepository
  import PositionService

  /** The service's exchange filter: `""` keeps every income. */
  function Matches(exchange: string): MonthlyIncome -> bool {
    (i: MonthlyIncome) => exchange == "" || i.exchange == exchange
  }

  /** The totals add up `PNL`; `Amount` takes no part in them. */
  function Pnl(i: MonthlyIncome): real { i.pnl }

  function TotalIncome(incomes: seq<MonthlyIncome>, exchange: string): real {
    SumBy(Filter(incomes, Matches(exchange)), Pnl)
  }

  lemma TotalIncomeOfAll(incomes: seq<MonthlyIncome>)
    ensures TotalIncome(incomes, "") == SumBy(incomes, Pnl)
  {
    FilterAll(incomes, Matches(""));
  }

  /** Changing only the amounts changes no total. */
  lemma {:induction false} TotalIgnoresAmount(a: seq<MonthlyIncome>, b: seq<MonthlyIncome>, exchange: string)
    requires |a| == |b|
    requires forall i :: 0 <= i < |a| ==> a[i] == b[i].(amount := a[i].amount)
    ensures TotalIncome(a, exchange) == TotalIncome(b, exchange)
  {
    if a != [] {
      TotalIgnoresAmount(a[1..], b[1..], exchange);
    }
  }

  lemma TotalIncomeOrderFree(a: seq<MonthlyIncome>, b: seq<MonthlyIncome>, exchange: string)
    requires multiset(a) == multiset(b)
    ensures TotalIncome(a, exchange) == TotalIncome(b, exchange)
  {
    SumWherePermutation(a, b, Matches(exchange), Pnl);
  }

  /** The incomes a monthly total covers: the same inclusive month range
      as the position service's. */
  function InMonth(rows: seq<MonthlyIncome>, year: int, month: int): seq<MonthlyIncome> {
    var w := PositionService.MonthWindow(year, month);
    Filter(rows, MonthlyIncomeRepository.InRange(w.0, w.1))
  }

  class MonthlyIncomeService {
    const repo: MonthlyIncomeRepository.MonthlyIncomeTable

    constructor (repo: MonthlyIncomeRepository.MonthlyIncomeTable)
      ensures this.repo == repo
    {
      this.repo := repo;
    }

    method SaveMonthlyIncome(income: MonthlyIncome, fault: Option<string>) returns (err: Option<string>)
      requires repo.Inv()
      modifies repo
      ensures repo.Inv() && err == fault
      ensures fault.Some? ==> repo.State() == old(repo.State())
      ensures fault.None? ==> repo.State() == MonthlyIncomeRepository.Inserted(old(repo.State()), income)
    {
      err := repo.SaveMonthlyIncome(income, fault);
    }

    method GetAllMonthlyIncomes(fault: Sql.Fault) returns (r: Result<seq<MonthlyIncome>, string>)
      ensures r.Ok? <==> Sql.ScanResult(repo.rows, fault).Ok?
      ensures r.Ok? ==> multiset(r.value) == multiset(repo.rows) && SortedDesc(r.value, IncomeDate)
    {
      r := repo.GetAllMonthlyIncomes(fault);
    }

    method GetIncomesByExchange(exchange: string, fault: Sql.Fault) returns (r: Result<seq<MonthlyIncome>, string>)
      ensures r.Ok? <==> Sql.ScanResult(Filter(repo.rows, MonthlyIncomeRepository.OnExchange(exchange)), fault).Ok?
      ensures r.Ok? ==> multiset(r.value) == multiset(Filter(repo.rows, MonthlyIncomeRepository.OnExchange(exchange)))
      ensures r.Ok? ==> SortedDesc(r.value, IncomeDate)
    {
      r := repo.GetIncomesByExchange(exchange, fault);
    }

    method GetIncomesByDateRange(start: int, end: int, fault: Sql.Fault) returns (r: Result<seq<MonthlyIncome>, string>)
      ensures r.Ok? <==> Sql.ScanResult(Filter(repo.rows, MonthlyIncomeRepository.InRange(start, end)), fault).Ok?
      ensures r.Ok? ==> multiset(r.value) == multiset(Filter(repo.rows, MonthlyIncomeRepository.InRange(start, end)))
      ensures r.Ok? ==> SortedDesc(r.value, IncomeDate)
    {
      r := repo.GetIncomesByDateRange(start, end, fault);
    }

    method DeleteMonthlyIncome(id: int, fault: Option<string>) returns (err: Option<string>)
      requires repo.Inv()
      modifies repo
      ensures repo.Inv() && err == fault
      ensures fault.Some? ==> repo.State() == old(repo.State())
      ensures fault.None? ==> repo.State() == MonthlyIncomeRepository.Deleted(old(repo.State()), id)
    {
      err := repo.DeleteMonthlyIncome(id, fault);
    }

    /** `CalculateTotalIncome`: `(0, err)` when the read fails. */
    method CalculateTotalIncome(exchange: string, fault: Sql.Fault) returns (total: real, err: Option<string>)
      ensures err.None? <==> Sql.ScanResult(repo.rows, fault).Ok?
      ensures err.Some? ==> total == 0.0
      ensures err.None? ==> total == TotalIncome(repo.rows, exchange)
    {
      var r := repo.GetAllMonthlyIncomes(fault);
      if r.Err? {
        return 0.0, Some(r.error);
      }
      total := SumWhere(r.value, Matches(exchange), Pnl);
      TotalIncomeOrderFree(r.value, repo.rows, exchange);
      err := None;
    }

    /** `CalculateMonthlyTotal`: the PnL total over the month's inclusive range. */
    method CalculateMonthlyTotal(year: int, month: int, exchange: string, fault: Sql.Fault) returns (total: real, err: Option<string>)
      ensures err.None? <==> Sql.ScanResult(InMonth(repo.rows, year, month), fault).Ok?
      ensures err.Some? ==> total == 0.0
      ensures err.None? ==> total == TotalIncome(InMonth(repo.rows, year, month), exchange)
    {
      var w := PositionService.MonthWindow(year, month);
      var r := repo.GetIncomesByDateRange(w.0, w.1, fault);
      if r.Err? {
        return 0.0, Some(r.error);
      }
      total := SumWhere(r.value, Matches(exchange), Pnl);
      TotalIncomeOrderFree(r.value, InMonth(repo.rows, year, month), exchange);
      err := None;
    }
  }
}
