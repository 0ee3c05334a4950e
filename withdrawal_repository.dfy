/** The withdrawal ledger (backend/internal/repository/withdrawal_repository.go):
    append-only inserts with a fresh id, ordered reads and a delete by id. */
module WithdrawalRepository {
  import opened Wrappers
  import opened Model
  import opened Ordering
  import Sql

  datatype Ledger = Ledger(rows: seq<Withdrawal>, nextId: int)

  /** Ids are unique and drawn from the sequence before `nextId`. */
  ghost predicate Valid(l: Ledger) {
    && l.nextId >= 1
    && (forall i, j :: 0 <= i < j < |l.rows| ==> l.rows[i].id != l.rows[j].id)
    && (forall i :: 0 <= i < |l.rows| ==> 1 <= l.rows[i].id < l.nextId)
  }

  /** `INSERT INTO withdrawal (exchange, amount, currency, date)`: the id
      comes from the sequence, never from the caller. */
  function Inserted(l: Ledger, w: Withdrawal): Ledger {
    Ledger(l.rows + [w.(id := l.nextId)], l.nextId + 1)
  }

  /** Every insert adds exactly one row, with a fresh id and the given
      fields; nothing is deduplicated, not even an identical withdrawal. */
  lemma InsertAppends(l: Ledger, w: Withdrawal)
    requires Valid(l)
    ensures var m := Inserted(l, w);
      && Valid(m) && |m.rows| == |l.rows| + 1 && m.rows[..|l.rows|] == l.rows
      && m.rows[|l.rows|] == Withdrawal(l.nextId, w.exchange, w.amount, w.currency, w.date)
      && forall i :: 0 <= i < |l.rows| ==> l.rows[i].id != m.rows[|l.rows|].id
  {
    assert Inserted(l, w).rows[..|l.rows|] == l.rows;
  }

  function IdOf(w: Withdrawal): int { w.id }

  function OtherId(id: int): Withdrawal -> bool {
    (w: Withdrawal) => w.id != id
  }

  function OnExchange(exchange: string): Withdrawal -> bool {
    (w: Withdrawal) => w.exchange == exchange
  }

  function InRange(start: int, end: int): Withdrawal -> bool {
    (w: Withdrawal) => start <= w.date <= end
  }

  /** `DELETE FROM withdrawal WHERE id = $1`. */
  function Deleted(l: Ledger, id: int): Ledger {
    Ledger(Filter(l.rows, OtherId(id)), l.nextId)
  }

  lemma DeleteValid(l: Ledger, id: int)
    requires Valid(l)
    ensures Valid(Deleted(l, id))
  {
    FilterKeepsDistinct(l.rows, OtherId(id), IdOf);
    var r := Deleted(l, id).rows;
    forall i | 0 <= i < |r| ensures 1 <= r[i].id < l.nextId {
      var k :| 0 <= k < |l.rows| && l.rows[k] == r[i];
    }
  }

  /** Delete removes exactly the row with that id and keeps every other
      row; a missing id changes nothing. */
  lemma DeleteOnlyThatId(l: Ledger, id: int)
    requires Valid(l)
    ensures forall x :: x in Deleted(l, id).rows <==> x in l.rows && x.id != id
    ensures (forall i :: 0 <= i < |l.rows| ==> l.rows[i].id != id) ==> Deleted(l, id) == l
    ensures |Deleted(l, id).rows| == |l.rows| - (if exists i :: 0 <= i < |l.rows| && l.rows[i].id == id then 1 else 0)
  {
    forall x ensures x in Deleted(l, id).rows <==> x in l.rows && x.id != id {
      FilterMultiset(l.rows, OtherId(id), x);
      assert x in Deleted(l, id).rows <==> x in multiset(Deleted(l, id).rows);
    }
    if forall i :: 0 <= i < |l.rows| ==> l.rows[i].id != id {
      FilterAll(l.rows, OtherId(id));
    } else {
      var k :| 0 <= k < |l.rows| && l.rows[k].id == id;
      FilterDropsOne(l.rows, OtherId(id), k);
    }
  }

  class WithdrawalTable {
    var rows: seq<Withdrawal>
    var nextId: int

    function State(): Ledger
      reads this
    {
      Ledger(rows, nextId)
    }

    ghost predicate Inv()
      reads this
    {
      Valid(State())
    }

    constructor ()
      ensures rows == [] && nextId == 1 && Inv()
    {
      rows := [];
      nextId := 1;
    }

    /** `SaveWithdrawal`. */
    method SaveWithdrawal(w: Withdrawal, fault: Option<string>) returns (err: Option<string>)
      requires Inv()
      modifies this
      ensures Inv() && err == fault
      ensures fault.Some? ==> State() == old(State())
      ensures fault.None? ==> State() == Inserted(old(State()), w)
    {
      if fault.Some? {
        return fault;
      }
      InsertAppends(State(), w);
      rows, nextId := rows + [w.(id := nextId)], nextId + 1;
      err := None;
    }

    /** `GetAllWithdrawals`: every row, latest first. */
    method GetAllWithdrawals(fault: Sql.Fault) returns (r: Result<seq<Withdrawal>, string>)
      ensures r.Ok? <==> Sql.ScanResult(rows, fault).Ok?
      ensures r.Ok? ==> multiset(r.value) == multiset(rows) && SortedDesc(r.value, WithdrawalDate)
    {
      r := Sql.Scan(SortDesc(rows, WithdrawalDate), fault);
    }

    /** `GetWithdrawalsByExchange`: exactly the rows of that exchange, latest first. */
    method GetWithdrawalsByExchange(exchange: string, fault: Sql.Fault) returns (r: Result<seq<Withdrawal>, string>)
      ensures r.Ok? <==> Sql.ScanResult(Filter(rows, OnExchange(exchange)), fault).Ok?
      ensures r.Ok? ==> multiset(r.value) == multiset(Filter(rows, OnExchange(exchange))) && SortedDesc(r.value, WithdrawalDate)
      ensures r.Ok? ==> forall x :: x in r.value <==> x in rows && x.exchange == exchange
    {
      var matching := Filter(rows, OnExchange(exchange));
      r := Sql.Scan(SortDesc(matching, WithdrawalDate), fault);
      if r.Ok? {
        forall x ensures x in r.value <==> x in rows && x.exchange == exchange {
          FilterMultiset(rows, OnExchange(exchange), x);
          assert x in r.value <==> x in multiset(matching);
        }
      }
    }

    /** `GetWithdrawalsByDateRange`: `BETWEEN` includes both ends. */
    method GetWithdrawalsByDateRange(start: int, end: int, fault: Sql.Fault) returns (r: Result<seq<Withdrawal>, string>)
      ensures r.Ok? <==> Sql.ScanResult(Filter(rows, InRange(start, end)), fault).Ok?
      ensures r.Ok? ==> multiset(r.value) == multiset(Filter(rows, InRange(start, end))) && SortedDesc(r.value, WithdrawalDate)
      ensures r.Ok? ==> forall x :: x in r.value <==> x in rows && start <= x.date <= end
    {
      var matching := Filter(rows, InRange(start, end));
      r := Sql.Scan(SortDesc(matching, WithdrawalDate), fault);
      if r.Ok? {
        forall x ensures x in r.value <==> x in rows && start <= x.date <= end {
          FilterMultiset(rows, InRange(start, end), x);
          assert x in r.value <==> x in multiset(matching);
        }
      }
    }

    /** `DeleteWithdrawal`. */
    method DeleteWithdrawal(id: int, fault: Option<string>) returns (err: Option<string>)
      requires Inv()
      modifies this
      ensures Inv() && err == fault
      ensures fault.Some? ==> State() == old(State())
      ensures fault.None? ==> State() == Deleted(old(State()), id)
    {
      if fault.Some? {
        return fault;
      }
      DeleteValid(State(), id);
      rows := Filter(rows, OtherId(id));
      err := None;
    }
  }
}
