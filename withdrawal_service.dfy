/** The withdrawal service (backend/internal/service/withdrawal_service.go):
    pass-throughs to the withdrawal ledger and the withdrawn total. */
module WithdrawalService {
  import opened Wrappers
  import opened Model
  import opened Ordering
  import Sql
  import WithdrawalRepository

  /** The service's exchange filter: `""` keeps every withdrawal. */
  function Matches(exchange: string): Withdrawal -> bool {
    (w: Withdrawal) => exchange == "" || w.exchange == exchange
  }

  function Amount(w: Withdrawal): real { w.amount }

  function TotalWithdrawn(ws: seq<Withdrawal>, exchange: string): real {
    SumBy(Filter(ws, Matches(exchange)), Amount)
  }

  lemma TotalWithdrawnOfAll(ws: seq<Withdrawal>)
    ensures TotalWithdrawn(ws, "") == SumBy(ws, Amount)
  {
    FilterAll(ws, Matches(""));
  }

  /** No matching withdrawal gives a total of 0. */
  lemma TotalWithdrawnNoMatch(ws: seq<Withdrawal>, exchange: string)
    requires exchange != ""
    requires forall i :: 0 <= i < |ws| ==> ws[i].exchange != exchange
    ensures TotalWithdrawn(ws, exchange) == 0.0
  {
    SumByFilterNone(ws, Matches(exchange), Amount);
  }

  lemma TotalWithdrawnOrderFree(a: seq<Withdrawal>, b: seq<Withdrawal>, exchange: string)
    requires multiset(a) == multiset(b)
    ensures TotalWithdrawn(a, exchange) == TotalWithdrawn(b, exchange)
  {
    SumWherePermutation(a, b, Matches(exchange), Amount);
  }

  /** Recording a withdrawal adds its amount to the total of every filter
      that keeps it, and nothing to the others. */
  lemma SaveAddsAmount(l: WithdrawalRepository.Ledger, w: Withdrawal, exchange: string)
    ensures TotalWithdrawn(WithdrawalRepository.Inserted(l, w).rows, exchange)
         == TotalWithdrawn(l.rows, exchange) + (if exchange == "" || w.exchange == exchange then w.amount else 0.0)
  {
    var x := w.(id := l.nextId);
    FilterAppend(l.rows, x, Matches(exchange));
    if Matches(exchange)(x) {
      SumByAppend(Filter(l.rows, Matches(exchange)), x, Amount);
    } else {
      assert Filter(l.rows, Matches(exchange)) + [] == Filter(l.rows, Matches(exchange));
    }
  }

  class WithdrawalService {
    const repo: WithdrawalRepository.WithdrawalTable

    constructor (repo: WithdrawalRepository.WithdrawalTable)
      ensures this.repo == repo
    {
      this.repo := repo;
    }

    method SaveWithdrawal(w: Withdrawal, fault: Option<string>) returns (err: Option<string>)
      requires repo.Inv()
      modifies repo
      ensures repo.Inv() && err == fault
      ensures fault.Some? ==> repo.State() == old(repo.State())
      ensures fault.None? ==> repo.State() == WithdrawalRepository.Inserted(old(repo.State()), w)
    {
      err := repo.SaveWithdrawal(w, fault);
    }

    method GetAllWithdrawals(fault: Sql.Fault) returns (r: Result<seq<Withdrawal>, string>)
      ensures r.Ok? <==> Sql.ScanResult(repo.rows, fault).Ok?
      ensures r.Ok? ==> multiset(r.value) == multiset(repo.rows) && SortedDesc(r.value, WithdrawalDate)
    {
      r := repo.GetAllWithdrawals(fault);
    }

    method GetWithdrawalsByExchange(exchange: string, fault: Sql.Fault) returns (r: Result<seq<Withdrawal>, string>)
      ensures r.Ok? <==> Sql.ScanResult(Filter(repo.rows, WithdrawalRepository.OnExchange(exchange)), fault).Ok?
      ensures r.Ok? ==> multiset(r.value) == multiset(Filter(repo.rows, WithdrawalRepository.OnExchange(exchange)))
      ensures r.Ok? ==> SortedDesc(r.value, WithdrawalDate)
    {
      r := repo.GetWithdrawalsByExchange(exchange, fault);
    }

    method GetWithdrawalsByDateRange(start: int, end: int, fault: Sql.Fault) returns (r: Result<seq<Withdrawal>, string>)
      ensures r.Ok? <==> Sql.ScanResult(Filter(repo.rows, WithdrawalRepository.InRange(start, end)), fault).Ok?
      ensures r.Ok? ==> multiset(r.value) == multiset(Filter(repo.rows, WithdrawalRepository.InRange(start, end)))
      ensures r.Ok? ==> SortedDesc(r.value, WithdrawalDate)
    {
      r := repo.GetWithdrawalsByDateRange(start, end, fault);
    }

    method DeleteWithdrawal(id: int, fault: Option<string>) returns (err: Option<string>)
      requires repo.Inv()
      modifies repo
      ensures repo.Inv() && err == fault
      ensures fault.Some? ==> repo.State() == old(repo.State())
      ensures fault.None? ==> repo.State() == WithdrawalRepository.Deleted(old(repo.State()), id)
    {
      err := repo.DeleteWithdrawal(id, fault);
    }

    /** `CalculateTotalWithdrawals`: `(0, err)` when the read fails. */
    method CalculateTotalWithdrawals(exchange: string, fault: Sql.Fault) returns (total: real, err: Option<string>)
      ensures err.None? <==> Sql.ScanResult(repo.rows, fault).Ok?
      ensures err.Some? ==> total == 0.0
      ensures err.None? ==> total == TotalWithdrawn(repo.rows, exchange)
    {
      var r := repo.GetAllWithdrawals(fault);
      if r.Err? {
        return 0.0, Some(r.error);
      }
      total := SumWhere(r.value, Matches(exchange), Amount);
      TotalWithdrawnOrderFree(r.value, repo.rows, exchange);
      err := None;
    }
  }
}
