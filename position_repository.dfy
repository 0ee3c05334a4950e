/** The position table (backend/internal/repository/position_repository.go):
    an upsert keyed on `order_id` alone, a batch of upserts, three ordered
    reads, a point lookup and a delete by id. The table is in memory; a
    database error is the `fault` parameter of each call. */
module PositionRepository {
  import opened Wrappers
  import opened Model
  import opened Ordering
  import Sql

  /** The rows and the next value of the `id` sequence. */
  datatype Table = Table(rows: seq<Position>, nextId: int)

  /** `order_id` is unique and so is `id`, and every id was drawn from the
      sequence before `nextId`. */
  ghost predicate Valid(t: Table) {
    && t.nextId >= 1
    && (forall i, j :: 0 <= i < j < |t.rows| ==> t.rows[i].orderId != t.rows[j].orderId)
    && (forall i, j :: 0 <= i < j < |t.rows| ==> t.rows[i].id != t.rows[j].id)
    && (forall i :: 0 <= i < |t.rows| ==> 1 <= t.rows[i].id < t.nextId)
  }

  /** Index of the row holding `orderId`, if any. */
  function FindOrder(rows: seq<Position>, orderId: string): (r: Option<nat>)
    ensures r.Some? ==> r.value < |rows| && rows[r.value].orderId == orderId
    ensures r.None? <==> forall i :: 0 <= i < |rows| ==> rows[i].orderId != orderId
    ensures r.Some? ==> forall i :: 0 <= i < r.value ==> rows[i].orderId != orderId
  {
    if rows == [] then None
    else if rows[0].orderId == orderId then Some(0)
    else match FindOrder(rows[1..], orderId)
      case None => None
      case Some(i) => Some(i + 1)
  }

  /** The first row holding `orderId` is the one found. */
  lemma {:induction false} FindOrderAt(rows: seq<Position>, orderId: string, i: nat)
    requires i < |rows| && rows[i].orderId == orderId
    requires forall j :: 0 <= j < i ==> rows[j].orderId != orderId
    ensures FindOrder(rows, orderId) == Some(i)
  {
    if i > 0 {
      assert forall j :: 0 <= j < i - 1 ==> rows[1..][j] == rows[j + 1];
      FindOrderAt(rows[1..], orderId, i - 1);
    }
  }

  /** `ON CONFLICT (order_id) DO UPDATE SET volume, leverage, closed_pnl,
      side, date`: `id`, `exchange` and `symbol` stay. */
  function Overwrite(row: Position, p: Position): Position {
    row.(volume := p.volume, leverage := p.leverage, closedPnl := p.closedPnl, side := p.side, date := p.date)
  }

  /** One `INSERT ... ON CONFLICT (order_id) DO UPDATE` statement. */
  function Upsert(t: Table, p: Position): Table {
    match FindOrder(t.rows, p.orderId)
    case Some(i) => Table(t.rows[i := Overwrite(t.rows[i], p)], t.nextId)
    case None => Table(t.rows + [p.(id := t.nextId)], t.nextId + 1)
  }

  /** The row holding `orderId`, if any. */
  function Row(t: Table, orderId: string): (r: Option<Position>)
    ensures r.Some? ==> r.value in t.rows && r.value.orderId == orderId
    ensures r.None? <==> forall i :: 0 <= i < |t.rows| ==> t.rows[i].orderId != orderId
  {
    match FindOrder(t.rows, orderId)
    case Some(i) => Some(t.rows[i])
    case None => None
  }

  /** The upsert keeps the table's keys unique. */
  lemma UpsertValid(t: Table, p: Position)
    requires Valid(t)
    ensures Valid(Upsert(t, p))
  {
  }

  /** A new order id adds one row carrying the eight given fields and a
      fresh id, after the untouched old rows. */
  lemma UpsertNew(t: Table, p: Position)
    requires Valid(t) && Row(t, p.orderId).None?
    ensures var u := Upsert(t, p);
      && |u.rows| == |t.rows| + 1 && u.rows[..|t.rows|] == t.rows
      && u.rows[|t.rows|] == p.(id := t.nextId)
      && forall i :: 0 <= i < |t.rows| ==> u.rows[|t.rows|].id != t.rows[i].id
  {
    assert Upsert(t, p).rows[..|t.rows|] == t.rows;
  }

  /** An existing order id overwrites the five updatable fields of its row
      only; its id, exchange and symbol stay even when `p` names another
      exchange, and every other row is unchanged. */
  lemma UpsertExisting(t: Table, p: Position)
    requires Valid(t) && Row(t, p.orderId).Some?
    ensures var u := Upsert(t, p); var old_ := Row(t, p.orderId).value;
      && |u.rows| == |t.rows| && u.nextId == t.nextId
      && Row(u, p.orderId) == Some(old_.(volume := p.volume, leverage := p.leverage, closedPnl := p.closedPnl,
                                          side := p.side, date := p.date))
      && (forall i :: 0 <= i < |t.rows| && t.rows[i].orderId != p.orderId ==> u.rows[i] == t.rows[i])
  {
    var i := FindOrder(t.rows, p.orderId).value;
    var u := Upsert(t, p);
    FindOrderAt(u.rows, p.orderId, i);
  }

  /** Saving the same position twice leaves the table as saving it once. */
  lemma UpsertIdempotent(t: Table, p: Position)
    requires Valid(t)
    ensures Upsert(Upsert(t, p), p) == Upsert(t, p)
  {
    var u := Upsert(t, p);
    match FindOrder(t.rows, p.orderId)
    case Some(i) =>
      FindOrderAt(u.rows, p.orderId, i);
      assert u.rows[i := Overwrite(u.rows[i], p)] == u.rows;
    case None =>
      FindOrderAt(u.rows, p.orderId, |t.rows|);
      assert u.rows[|t.rows| := Overwrite(u.rows[|t.rows|], p)] == u.rows;
  }

  /** An upsert of one order id leaves the row of any other alone. */
  lemma UpsertOtherRow(t: Table, p: Position, orderId: string)
    requires p.orderId != orderId
    ensures Row(Upsert(t, p), orderId) == Row(t, orderId)
  {
    var u := Upsert(t, p);
    var k := FindOrder(t.rows, orderId);
    if k.Some? {
      FindOrderAt(u.rows, orderId, k.value);
    } else if FindOrder(t.rows, p.orderId).None? {
      assert forall i :: 0 <= i < |u.rows| ==> u.rows[i].orderId != orderId by {
        forall i | 0 <= i < |u.rows| ensures u.rows[i].orderId != orderId {
          if i < |t.rows| { assert u.rows[i] == t.rows[i]; }
        }
      }
    }
  }

  /** The batch's statements in list order. */
  function Batch(t: Table, ps: seq<Position>): Table
    decreases |ps|
  {
    if ps == [] then t else Batch(Upsert(t, ps[0]), ps[1..])
  }

  lemma BatchStep(t: Table, ps: seq<Position>, i: nat)
    requires i < |ps|
    ensures Batch(t, ps[i..]) == Batch(Upsert(t, ps[i]), ps[i + 1..])
  {
    assert ps[i..][1..] == ps[i + 1..];
  }

  lemma {:induction false} BatchValid(t: Table, ps: seq<Position>)
    requires Valid(t)
    ensures Valid(Batch(t, ps))
    decreases |ps|
  {
    if ps != [] {
      UpsertValid(t, ps[0]);
      BatchValid(Upsert(t, ps[0]), ps[1..]);
    }
  }

  lemma {:induction false} BatchOtherRow(t: Table, ps: seq<Position>, orderId: string)
    requires forall j :: 0 <= j < |ps| ==> ps[j].orderId != orderId
    ensures Row(Batch(t, ps), orderId) == Row(t, orderId)
    decreases |ps|
  {
    if ps != [] {
      UpsertOtherRow(t, ps[0], orderId);
      BatchOtherRow(Upsert(t, ps[0]), ps[1..], orderId);
    }
  }

  /** The last position of a batch with a given order id decides that row's
      updatable fields. */
  lemma {:induction false} BatchLastWins(t: Table, ps: seq<Position>, k: nat)
    requires Valid(t) && k < |ps|
    requires forall j :: k < j < |ps| ==> ps[j].orderId != ps[k].orderId
    ensures var r := Row(Batch(t, ps), ps[k].orderId);
      && r.Some? && r.value.volume == ps[k].volume && r.value.leverage == ps[k].leverage
      && r.value.closedPnl == ps[k].closedPnl && r.value.side == ps[k].side && r.value.date == ps[k].date
    decreases |ps|
  {
    UpsertValid(t, ps[0]);
    if k == 0 {
      var u := Upsert(t, ps[0]);
      if Row(t, ps[0].orderId).Some? {
        UpsertExisting(t, ps[0]);
      } else {
        UpsertNew(t, ps[0]);
        FindOrderAt(u.rows, ps[0].orderId, |t.rows|);
      }
      assert forall j :: 0 <= j < |ps[1..]| ==> ps[1..][j] == ps[j + 1];
      BatchOtherRow(u, ps[1..], ps[0].orderId);
    } else {
      assert forall j :: k - 1 < j < |ps[1..]| ==> ps[1..][j] == ps[j + 1];
      BatchLastWins(Upsert(t, ps[0]), ps[1..], k - 1);
    }
  }

  /** Rows by exchange and by inclusive date range. */
  function OnExchange(exchange: string): Position -> bool {
    (p: Position) => p.exchange == exchange
  }

  function InRange(start: int, end: int): Position -> bool {
    (p: Position) => start <= p.date <= end
  }

  /** `WHERE id <> $1`: the rows a delete keeps. */
  function OtherId(id: int): Position -> bool {
    (p: Position) => p.id != id
  }

  datatype BatchFault = BatchOk | StatementFails(index: nat, err: string)

  class PositionTable {
    var rows: seq<Position>
    var nextId: int

    function State(): Table
      reads this
    {
      Table(rows, nextId)
    }

    ghost predicate Inv()
      reads this
    {
      Valid(State())
    }

    constructor ()
      ensures rows == [] && nextId == 1 && Inv()
    {
      rows := [];
      nextId := 1;
    }

    /** `SavePosition`. */
    method SavePosition(p: Position, fault: Option<string>) returns (err: Option<string>)
      requires Inv()
      modifies this
      ensures Inv() && err == fault
      ensures fault.Some? ==> State() == old(State())
      ensures fault.None? ==> State() == Upsert(old(State()), p)
    {
      if fault.Some? {
        return fault;
      }
      UpsertValid(State(), p);
      var t := Upsert(State(), p);
      rows, nextId := t.rows, t.nextId;
      err := None;
    }

    /** `SavePositionBatch`: the statements are queued in list order and sent
        together; pgx runs an unwrapped batch as one implicit transaction,
        so a failing statement leaves the table as it was. */
    method SavePositionBatch(ps: seq<Position>, fault: BatchFault) returns (err: Option<string>)
      requires Inv()
      modifies this
      ensures Inv()
      ensures err.None? <==> fault.BatchOk? || fault.index >= |ps|
      ensures err.Some? ==> err == Some(fault.err) && State() == old(State())
      ensures err.None? ==> State() == Batch(old(State()), ps)
    {
      ghost var start := State();
      var pending := Table(rows, nextId);
      var i := 0;
      assert ps[0..] == ps;
      while i < |ps|
        invariant 0 <= i <= |ps|
        invariant Valid(pending)
        invariant Batch(start, ps) == Batch(pending, ps[i..])
        invariant rows == start.rows && nextId == start.nextId
        invariant fault.StatementFails? ==> fault.index >= i
      {
        if fault.StatementFails? && fault.index == i {
          return Some(fault.err);
        }
        UpsertValid(pending, ps[i]);
        BatchStep(pending, ps, i);
        pending := Upsert(pending, ps[i]);
        i := i + 1;
      }
      rows, nextId := pending.rows, pending.nextId;
      err := None;
    }

    /** `GetAllPositions`: every row, latest first. */
    method GetAllPositions(fault: Sql.Fault) returns (r: Result<seq<Position>, string>)
      ensures r.Ok? <==> Sql.ScanResult(rows, fault).Ok?
      ensures r.Ok? ==> multiset(r.value) == multiset(rows) && SortedDesc(r.value, PositionDate)
    {
      r := Sql.Scan(SortDesc(rows, PositionDate), fault);
    }

    /** `GetPositionsByExchange`: exactly the rows of that exchange, latest first. */
    method GetPositionsByExchange(exchange: string, fault: Sql.Fault) returns (r: Result<seq<Position>, string>)
      ensures r.Ok? <==> Sql.ScanResult(Filter(rows, OnExchange(exchange)), fault).Ok?
      ensures r.Ok? ==> multiset(r.value) == multiset(Filter(rows, OnExchange(exchange))) && SortedDesc(r.value, PositionDate)
      ensures r.Ok? ==> forall x :: x in r.value <==> x in rows && x.exchange == exchange
    {
      var matching := Filter(rows, OnExchange(exchange));
      r := Sql.Scan(SortDesc(matching, PositionDate), fault);
      if r.Ok? {
        forall x ensures x in r.value <==> x in rows && x.exchange == exchange {
          FilterMultiset(rows, OnExchange(exchange), x);
          assert x in r.value <==> x in multiset(matching);
        }
      }
    }

    /** `GetPositionsByDateRange`: `BETWEEN` includes both ends. */
    method GetPositionsByDateRange(start: int, end: int, fault: Sql.Fault) returns (r: Result<seq<Position>, string>)
      ensures r.Ok? <==> Sql.ScanResult(Filter(rows, InRange(start, end)), fault).Ok?
      ensures r.Ok? ==> multiset(r.value) == multiset(Filter(rows, InRange(start, end))) && SortedDesc(r.value, PositionDate)
      ensures r.Ok? ==> forall x :: x in r.value <==> x in rows && start <= x.date <= end
    {
      var matching := Filter(rows, InRange(start, end));
      r := Sql.Scan(SortDesc(matching, PositionDate), fault);
      if r.Ok? {
        forall x ensures x in r.value <==> x in rows && start <= x.date <= end {
          FilterMultiset(rows, InRange(start, end), x);
          assert x in r.value <==> x in multiset(matching);
        }
      }
    }

    /** `GetPositionByOrderID`: the row holding the order id, or pgx's
        no-rows error. */
    method GetPositionByOrderID(orderId: string, fault: Option<string>) returns (r: Result<Position, string>)
      ensures fault.Some? ==> r == Err(fault.value)
      ensures fault.None? && (forall i :: 0 <= i < |rows| ==> rows[i].orderId != orderId) ==> r == Err(Sql.NoRows)
      ensures r.Ok? ==> r.value in rows && r.value.orderId == orderId
      ensures r.Ok? <==> fault.None? && exists i :: 0 <= i < |rows| && rows[i].orderId == orderId
    {
      if fault.Some? {
        return Err(fault.value);
      }
      match Row(State(), orderId) {
        case Some(p) => r := Ok(p);
        case None => r := Err(Sql.NoRows);
      }
    }

    /** `DeletePosition`: drops the row with that id, if there is one. */
    method DeletePosition(id: int, fault: Option<string>) returns (err: Option<string>)
      requires Inv()
      modifies this
      ensures Inv() && err == fault && nextId == old(nextId)
      ensures fault.Some? ==> rows == old(rows)
      ensures fault.None? ==> rows == Filter(old(rows), OtherId(id))
    {
      if fault.Some? {
        return fault;
      }
      DeleteValid(State(), id);
      rows := Filter(rows, OtherId(id));
      err := None;
    }
  }

  function OrderIdOf(p: Position): string { p.orderId }
  function IdOf(p: Position): int { p.id }

  function Delete(t: Table, id: int): Table {
    Table(Filter(t.rows, OtherId(id)), t.nextId)
  }

  /** Deleting keeps the keys unique. */
  lemma DeleteValid(t: Table, id: int)
    requires Valid(t)
    ensures Valid(Delete(t, id))
  {
    FilterKeepsDistinct(t.rows, OtherId(id), OrderIdOf);
    FilterKeepsDistinct(t.rows, OtherId(id), IdOf);
    var r := Delete(t, id).rows;
    forall i | 0 <= i < |r| ensures 1 <= r[i].id < t.nextId {
      var k :| 0 <= k < |t.rows| && t.rows[k] == r[i];
    }
  }

  /** The rows left by a delete are the others. */
  lemma DeleteMembers(t: Table, id: int)
    ensures forall x :: x in Delete(t, id).rows <==> x in t.rows && x.id != id
  {
    forall x ensures x in Delete(t, id).rows <==> x in t.rows && x.id != id {
      FilterMultiset(t.rows, OtherId(id), x);
      assert x in Delete(t, id).rows <==> x in multiset(Delete(t, id).rows);
    }
  }

  /** Delete removes exactly the row with that id; a missing id leaves the
      table as it was. */
  lemma DeleteOnlyThatId(t: Table, id: int)
    requires Valid(t)
    ensures forall x :: x in Delete(t, id).rows <==> x in t.rows && x.id != id
    ensures (forall i :: 0 <= i < |t.rows| ==> t.rows[i].id != id) ==> Delete(t, id) == t
    ensures |Delete(t, id).rows| == |t.rows| - (if exists i :: 0 <= i < |t.rows| && t.rows[i].id == id then 1 else 0)
  {
    DeleteMembers(t, id);
    if forall i :: 0 <= i < |t.rows| ==> t.rows[i].id != id {
      FilterAll(t.rows, OtherId(id));
    } else {
      var k :| 0 <= k < |t.rows| && t.rows[k].id == id;
      FilterDropsOne(t.rows, OtherId(id), k);
    }
  }
}
