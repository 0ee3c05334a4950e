/** What the repositories see of PostgreSQL: a query either fails, or
    yields a cursor of rows that the scan loop copies out, and any single
    scan can fail. The SQL engine itself is not modelled; the repositories
    keep their tables in memory. */
module Sql {
  import opened Wrappers

  /** How a statement or a scan fails, if it does. */
  datatype Fault = NoFault | QueryFails(err: string) | ScanFails(row: nat, err: string)

  /** pgx's `ErrNoRows` message, returned by `QueryRow(...).Scan`. */
  const NoRows: string := "no rows in result set"

  /** What the scan loop returns for a cursor. */
  function ScanResult<T>(cursor: seq<T>, fault: Fault): (r: Result<seq<T>, string>)
    ensures r.Ok? ==> r.value == cursor
    ensures r.Ok? <==> fault.NoFault? || (fault.ScanFails? && fault.row >= |cursor|)
  {
    match fault
    case NoFault => Ok(cursor)
    case QueryFails(e) => Err(e)
    case ScanFails(k, e) => if k < |cursor| then Err(e) else Ok(cursor)
  }

  /** The `for rows.Next() { rows.Scan(...); append }` loop. */
  method Scan<T>(cursor: seq<T>, fault: Fault) returns (r: Result<seq<T>, string>)
    ensures r == ScanResult(cursor, fault)
  {
    if fault.QueryFails? {
      return Err(fault.err);
    }
    var acc: seq<T> := [];
    var i := 0;
    while i < |cursor|
      invariant 0 <= i <= |cursor|
      invariant acc == cursor[..i]
      invariant fault.ScanFails? ==> i <= fault.row
    {
      if fault.ScanFails? && fault.row == i {
        return Err(fault.err);
      }
      acc := acc + [cursor[i]];
      i := i + 1;
    }
    assert acc == cursor;
    r := Ok(acc);
  }
}
