/** The credential table (backend/internal/repository/api_key_repository.go):
    one row per exchange, an upsert that always re-activates the row, a
    lookup by exchange and the full listing in exchange order. */
module ApiKeyRepository {
  import opened Wrappers
  import opened Text
  import opened Model
  import Sql

  datatype Table = Table(rows: seq<ApiKey>, nextId: int)

  /** `exchange` is unique (the conflict target) and so is `id`. */
  ghost predicate Valid(t: Table) {
    && t.nextId >= 1
    && (forall i, j :: 0 <= i < j < |t.rows| ==> t.rows[i].exchange != t.rows[j].exchange)
    && (forall i, j :: 0 <= i < j < |t.rows| ==> t.rows[i].id != t.rows[j].id)
    && (forall i :: 0 <= i < |t.rows| ==> 1 <= t.rows[i].id < t.nextId)
  }

  function FindExchange(rows: seq<ApiKey>, exchange: string): (r: Option<nat>)
    ensures r.Some? ==> r.value < |rows| && rows[r.value].exchange == exchange
    ensures r.None? <==> forall i :: 0 <= i < |rows| ==> rows[i].exchange != exchange
  {
    if rows == [] then None
    else if rows[0].exchange == exchange then Some(0)
    else match FindExchange(rows[1..], exchange)
      case None => None
      case Some(i) => Some(i + 1)
  }

  /** With exchanges unique, the row found is the only one. */
  lemma FindExchangeUnique(t: Table, i: nat)
    requires Valid(t) && i < |t.rows|
    ensures FindExchange(t.rows, t.rows[i].exchange) == Some(i)
  {
  }

  /** The `INSERT ... VALUES ($1, $2, $3, true, $4) ON CONFLICT (exchange)
      DO UPDATE` statement at time `now`. A new row's `created_at` is the
      column default, taken to be `now`. */
  function Upserted(t: Table, key: ApiKey, now: int): Table {
    match FindExchange(t.rows, key.exchange)
    case Some(i) =>
      Table(t.rows[i := t.rows[i].(apiKey := key.apiKey, apiSecret := key.apiSecret, isActive := true, updatedAt := now)],
            t.nextId)
    case None =>
      Table(t.rows + [ApiKey(t.nextId, key.exchange, key.apiKey, key.apiSecret, true, now, now)], t.nextId + 1)
  }

  /** The row for an exchange. */
  function Row(t: Table, exchange: string): (r: Option<ApiKey>)
    ensures r.Some? ==> r.value in t.rows && r.value.exchange == exchange
    ensures r.None? <==> forall i :: 0 <= i < |t.rows| ==> t.rows[i].exchange != exchange
  {
    match FindExchange(t.rows, exchange)
    case Some(i) => Some(t.rows[i])
    case None => None
  }

  lemma UpsertValid(t: Table, key: ApiKey, now: int)
    requires Valid(t)
    ensures Valid(Upserted(t, key, now))
  {
  }

  /** After an upsert the exchange's row is active and holds the given key
      and secret, on insert and on update alike; an update keeps the row's
      id and creation time. */
  lemma UpsertActivates(t: Table, key: ApiKey, now: int)
    requires Valid(t)
    ensures var r := Row(Upserted(t, key, now), key.exchange);
      && r.Some? && r.value.isActive && r.value.apiKey == key.apiKey && r.value.apiSecret == key.apiSecret
      && r.value.updatedAt == now
      && (Row(t, key.exchange).Some? ==>
            r.value.id == Row(t, key.exchange).value.id && r.value.createdAt == Row(t, key.exchange).value.createdAt)
      && (Row(t, key.exchange).None? ==> r.value.id == t.nextId && r.value.createdAt == now)
  {
    var u := Upserted(t, key, now);
    UpsertValid(t, key, now);
    match FindExchange(t.rows, key.exchange)
    case Some(i) =>
      FindExchangeUnique(u, i);
    case None =>
      FindExchangeUnique(u, |t.rows|);
  }

  /** An upsert touches no other exchange's row and never adds a second
      row for its own. */
  lemma UpsertOthersUnchanged(t: Table, key: ApiKey, now: int)
    requires Valid(t)
    ensures var u := Upserted(t, key, now);
      && (forall i :: 0 <= i < |t.rows| && t.rows[i].exchange != key.exchange ==> u.rows[i] == t.rows[i])
      && |u.rows| == |t.rows| + (if Row(t, key.exchange).None? then 1 else 0)
  {
  }

  /** The rows of other exchanges read the same after an upsert. */
  lemma RowOtherExchange(t: Table, key: ApiKey, now: int, exchange: string)
    requires Valid(t) && exchange != key.exchange
    ensures Row(Upserted(t, key, now), exchange) == Row(t, exchange)
  {
    var u := Upserted(t, key, now);
    UpsertValid(t, key, now);
    match FindExchange(t.rows, exchange) {
      case Some(i) =>
        FindExchangeUnique(u, i);
      case None =>
        assert forall j :: 0 <= j < |u.rows| ==> u.rows[j].exchange != exchange;
    }
  }

  /** The exchanges of the rows, in row order. */
  function Exchanges(rows: seq<ApiKey>): (r: seq<string>)
    ensures |r| == |rows| && forall i :: 0 <= i < |rows| ==> r[i] == rows[i].exchange
  {
    seq(|rows|, i requires 0 <= i < |rows| => rows[i].exchange)
  }

  /** Every exchange of the sorted list has its row. */
  lemma SortedExchangesFound(t: Table)
    ensures forall k :: 0 <= k < |SortStrings(Exchanges(t.rows))| ==>
      FindExchange(t.rows, SortStrings(Exchanges(t.rows))[k]).Some?
  {
    var keys := SortStrings(Exchanges(t.rows));
    forall k | 0 <= k < |keys| ensures FindExchange(t.rows, keys[k]).Some? {
      assert keys[k] in multiset(Exchanges(t.rows));
    }
  }

  /** The row of each exchange in `exchanges`, in that order. */
  function RowsFor(rows: seq<ApiKey>, exchanges: seq<string>): (r: seq<ApiKey>)
    requires forall k :: 0 <= k < |exchanges| ==> FindExchange(rows, exchanges[k]).Some?
    ensures Exchanges(r) == exchanges
    ensures forall x :: x in r ==> x in rows
  {
    seq(|exchanges|, k requires 0 <= k < |exchanges| => rows[FindExchange(rows, exchanges[k]).value])
  }

  /** With exchanges unique, looking up every exchange in sorted order
      reaches every row. */
  lemma SortedRowsComplete(t: Table)
    requires Valid(t)
    requires forall k :: 0 <= k < |SortStrings(Exchanges(t.rows))| ==>
      FindExchange(t.rows, SortStrings(Exchanges(t.rows))[k]).Some?
    ensures forall x :: x in t.rows ==> x in RowsFor(t.rows, SortStrings(Exchanges(t.rows)))
  {
    var keys := SortStrings(Exchanges(t.rows));
    var r := RowsFor(t.rows, keys);
    forall x | x in t.rows ensures x in r {
      var i :| 0 <= i < |t.rows| && t.rows[i] == x;
      assert Exchanges(t.rows)[i] in multiset(keys);
      var k :| 0 <= k < |keys| && keys[k] == x.exchange;
      FindExchangeUnique(t, i);
      assert r[k] == x;
    }
  }

  /** `ORDER BY exchange`: the rows in ascending exchange order. With
      exchanges unique there is exactly one such order. */
  function SortedRows(t: Table): (r: seq<ApiKey>)
    requires Valid(t)
    ensures |r| == |t.rows|
    ensures forall x :: x in r <==> x in t.rows
    ensures StrictlySorted(Exchanges(r))
  {
    var keys := SortStrings(Exchanges(t.rows));
    assert |keys| == |multiset(keys)| == |multiset(Exchanges(t.rows))| == |t.rows|;
    SortStringsSorted(Exchanges(t.rows));
    SortedExchangesFound(t);
    SortedRowsComplete(t);
    RowsFor(t.rows, keys)
  }

  class ApiKeyTable {
    var rows: seq<ApiKey>
    var nextId: int

    function State(): Table
      reads this
    {
      Table(rows, nextId)
    }

    ghost predicate Inv()
      reads this
    {
      Valid(State())
    }

    constructor ()
      ensures rows == [] && nextId == 1 && Inv()
    {
      rows := [];
      nextId := 1;
    }

    /** `GetByExchange`: the exchange's row, or pgx's no-rows error. */
    method GetByExchange(exchange: string, fault: Option<string>) returns (r: Result<ApiKey, string>)
      ensures fault.Some? ==> r == Err(fault.value)
      ensures fault.None? && (forall i :: 0 <= i < |rows| ==> rows[i].exchange != exchange) ==> r == Err(Sql.NoRows)
      ensures r.Ok? ==> r.value in rows && r.value.exchange == exchange
      ensures r.Ok? <==> fault.None? && exists i :: 0 <= i < |rows| && rows[i].exchange == exchange
      ensures r.Ok? ==> Row(State(), exchange) == Some(r.value)
    {
      if fault.Some? {
        return Err(fault.value);
      }
      match Row(State(), exchange) {
        case Some(k) => r := Ok(k);
        case None => r := Err(Sql.NoRows);
      }
    }

    /** `Upsert` at time `now`. */
    method Upsert(key: ApiKey, now: int, fault: Option<string>) returns (err: Option<string>)
      requires Inv()
      modifies this
      ensures Inv() && err == fault
      ensures fault.Some? ==> State() == old(State())
      ensures fault.None? ==> State() == Upserted(old(State()), key, now)
    {
      if fault.Some? {
        return fault;
      }
      UpsertValid(State(), key, now);
      var t := Upserted(State(), key, now);
      rows, nextId := t.rows, t.nextId;
      err := None;
    }

    /** `GetAll`: every row, in ascending exchange order. */
    method GetAll(fault: Sql.Fault) returns (r: Result<seq<ApiKey>, string>)
      requires Inv()
      ensures r.Ok? <==> Sql.ScanResult(rows, fault).Ok?
      ensures r.Ok? ==> |r.value| == |rows| && (forall x :: x in r.value <==> x in rows) && StrictlySorted(Exchanges(r.value))
      ensures r == Sql.ScanResult(SortedRows(State()), fault)
    {
      r := Sql.Scan(SortedRows(State()), fault);
    }
  }
}
