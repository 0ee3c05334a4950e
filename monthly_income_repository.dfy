/** The monthly income ledger (backend/internal/repository/monthly_income_repository.go):
    append-only inserts with a fresh id, ordered reads and a delete by id. */
module MonthlyIncomeRepository {
  import opened Wrappers
  import opened Model
  import opened Ordering
  import Sql

  datatype Ledger = Ledger(rows: seq<MonthlyIncome>, nextId: int)

  /** Ids are unique and drawn from the sequence before `nextId`. */
  ghost predicate Valid(l: Ledger) {
    && l.nextId >= 1
    && (forall i, j :: 0 <= i < j < |l.rows| ==> l.rows[i].id != l.rows[j].id)
    && (forall i :: 0 <= i < |l.rows| ==> 1 <= l.rows[i].id < l.nextId)
  }

  /** `INSERT INTO monthly_income (exchange, amount, pnl, date)`: the id
      comes from the sequence, never from the caller. */
  function Inserted(l: Ledger, w: MonthlyIncome): Ledger {
    Ledger(l.rows + [w.(id := l.nextId)], l.nextId + 1)
  }

  /** Every insert adds exactly one row, with a fresh id and the given
      fields; nothing is deduplicated, not even an identical income. */
  lemma InsertAppends(l: Ledger, w: MonthlyIncome)
    requires Valid(l)
    ensures var m := Inserted(l, w);
      && Valid(m) && |m.rows| == |l.rows| + 1 && m.rows[..|l.rows|] == l.rows
      && m.rows[|l.rows|] == MonthlyIncome(l.nextId, w.exchange, w.amount, w.pnl, w.date)
      && forall i :: 0 <= i < |l.rows| ==> l.rows[i].id != m.rows[|l.rows|].id
  {
    assert Inserted(l, w).rows[..|l.rows|] == l.rows;
  }

  function IdOf(w: MonthlyIncome): int { w.id }

  function OtherId(id: int): MonthlyIncome -> bool {
    (w: MonthlyIncome) => w.id != id
  }

  function OnExchange(exchange: string): MonthlyIncome -> bool {
    (w: MonthlyIncome) => w.exchange == exchange
  }

  function InRange(start: int, end: int): MonthlyIncome -> bool {
    (w: MonthlyIncome) => start <= w.date <= end
  }

  /** `DELETE FROM monthly_income WHERE id = $1`. */
  function Deleted(l: Ledger, id: int): Ledger {
    Ledger(Filter(l.rows, OtherId(id)), l.nextId)
  }

  lemma DeleteValid(l: Ledger, id: int)
    requires Valid(l)
    ensures Valid(Deleted(l, id))
  {
    FilterKeepsDistinct(l.rows, OtherId(id), IdOf);
    var r := Deleted(l, id).rows;
    forall i | 0 <= i < |r| ensures 1 <= r[i].id < l.nextId {
      var k :| 0 <= k < |l.rows| && l.rows[k] == r[i];
    }
  }

  /** Delete removes exactly the row with that id and keeps every other
      row; a missing id changes nothing. */
  lemma DeleteOnlyThatId(l: Ledger, id: int)
    requires Valid(l)
    ensures forall x :: x in Deleted(l, id).rows <==> x in l.rows && x.id != id
    ensures (forall i :: 0 <= i < |l.rows| ==> l.rows[i].id != id) ==> Deleted(l, id) == l
    ensures |Deleted(l, id).rows| == |l.rows| - (if exists i :: 0 <= i < |l.rows| && l.rows[i].id == id then 1 else 0)
  {
    forall x ensures x in Deleted(l, id).rows <==> x in l.rows && x.id != id {
      FilterMultiset(l.rows, OtherId(id), x);
      assert x in Deleted(l, id).rows <==> x in multiset(Deleted(l, id).rows);
    }
    if forall i :: 0 <= i < |l.rows| ==> l.rows[i].id != id {
      FilterAll(l.rows, OtherId(id));
    } else {
      var k :| 0 <= k < |l.rows| && l.rows[k].id == id;
      FilterDropsOne(l.rows, OtherId(id), k);
    }
  }

  class MonthlyIncomeTable {
    var rows: seq<MonthlyIncome>
    var nextId: int

    function State(): Ledger
      reads this
    {
      Ledger(rows, nextId)
    }

    ghost predicate Inv()
      reads this
    {
      Valid(State())
    }

    constructor ()
      ensures rows == [] && nextId == 1 && Inv()
    {
      rows := [];
      nextId := 1;
    }

    /** `SaveMonthlyIncome`. */
    method SaveMonthlyIncome(w: MonthlyIncome, fault: Option<string>) returns (err: Option<string>)
      requires Inv()
      modifies this
      ensures Inv() && err == fault
      ensures fault.Some? ==> State() == old(State())
      ensures fault.None? ==> State() == Inserted(old(State()), w)
    {
      if fault.Some? {
        return fault;
      }
      InsertAppends(State(), w);
      rows, nextId := rows + [w.(id := nextId)], nextId + 1;
      err := None;
    }

    /** `GetAllMonthlyIncomes`: every row, latest first. */
    method GetAllMonthlyIncomes(fault: Sql.Fault) returns (r: Result<seq<MonthlyIncome>, string>)
      ensures r.Ok? <==> Sql.ScanResult(rows, fault).Ok?
      ensures r.Ok? ==> multiset(r.value) == multiset(rows) && SortedDesc(r.value, IncomeDate)
    {
      r := Sql.Scan(SortDesc(rows, IncomeDate), fault);
    }

    /** `GetIncomesByExchange`: exactly the rows of that exchange, latest first. */
    method GetIncomesByExchange(exchange: string, fault: Sql.Fault) returns (r: Result<seq<MonthlyIncome>, string>)
      ensures r.Ok? <==> Sql.ScanResult(Filter(rows, OnExchange(exchange)), fault).Ok?
      ensures r.Ok? ==> multiset(r.value) == multiset(Filter(rows, OnExchange(exchange))) && SortedDesc(r.value, IncomeDate)
      ensures r.Ok? ==> forall x :: x in r.value <==> x in rows && x.exchange == exchange
    {
      var matching := Filter(rows, OnExchange(exchange));
      r := Sql.Scan(SortDesc(matching, IncomeDate), fault);
      if r.Ok? {
        forall x ensures x in r.value <==> x in rows && x.exchange == exchange {
          FilterMultiset(rows, OnExchange(exchange), x);
          assert x in r.value <==> x in multiset(matching);
        }
      }
    }

    /** `GetIncomesByDateRange`: `BETWEEN` includes both ends. */
    method GetIncomesByDateRange(start: int, end: int, fault: Sql.Fault) returns (r: Result<seq<MonthlyIncome>, string>)
      ensures r.Ok? <==> Sql.ScanResult(Filter(rows, InRange(start, end)), fault).Ok?
      ensures r.Ok? ==> multiset(r.value) == multiset(Filter(rows, InRange(start, end))) && SortedDesc(r.value, IncomeDate)
      ensures r.Ok? ==> forall x :: x in r.value <==> x in rows && start <= x.date <= end
    {
      var matching := Filter(rows, InRange(start, end));
      r := Sql.Scan(SortDesc(matching, IncomeDate), fault);
      if r.Ok? {
        forall x ensures x in r.value <==> x in rows && start <= x.date <= end {
          FilterMultiset(rows, InRange(start, end), x);
          assert x in r.value <==> x in multiset(matching);
        }
      }
    }

    /** `DeleteMonthlyIncome`. */
    method DeleteMonthlyIncome(id: int, fault: Option<string>) returns (err: Option<string>)
      requires Inv()
      modifies this
      ensures Inv() && err == fault
      ensures fault.Some? ==> State() == old(State())
      ensures fault.None? ==> State() == Deleted(old(State()), id)
    {
      if fault.Some? {
        return fault;
      }
      DeleteValid(State(), id);
      rows := Filter(rows, OtherId(id));
      err := None;
    }
  }
}
