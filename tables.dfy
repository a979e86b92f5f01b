/** The tables executors read from and write to: rows in iterator order, an optional bound on the
    rows a temp table accepts, and the temp tuple executors fill before inserting it. */
module Tables {
  import opened Common

  /** How many of `n` rows appended to a table of `count` rows under the bound `maxRows` are
      kept: all of them while the bound allows, and none once the table is full. */
  function Kept(count: nat, maxRows: Option<nat>, n: nat): (k: nat)
    ensures k <= n
    ensures k == n <==> n == 0 || maxRows.None? || count + n <= maxRows.value
    ensures maxRows.Some? && k < n ==> k == if count <= maxRows.value then maxRows.value - count else 0
  {
    if maxRows.None? || count + n <= maxRows.value then n
    else if count <= maxRows.value then maxRows.value - count
    else 0
  }

  /** Appending one more row keeps it exactly when every earlier row was kept and the table is
      still below its bound, and never changes how many of the earlier rows were kept. */
  lemma KeptStep(count: nat, maxRows: Option<nat>, n: nat)
    ensures var k := Kept(count, maxRows, n);
      && (k == n && (maxRows.None? || count + k < maxRows.value) ==> Kept(count, maxRows, n + 1) == n + 1)
      && (!(k == n && (maxRows.None? || count + k < maxRows.value)) ==> Kept(count, maxRows, n + 1) == k)
  {
  }

  /** Once a row is refused, no later row is kept. */
  lemma KeptStops(count: nat, maxRows: Option<nat>, n: nat, total: nat)
    requires 0 < n <= total && Kept(count, maxRows, n - 1) == n - 1
    requires maxRows.Some? && count + n - 1 >= maxRows.value
    ensures Kept(count, maxRows, total) == n - 1
  {
  }

  class Table {
    var rows: seq<Row>
    const maxRows: Option<nat>
    const tempTuple: array<NValue>

    constructor(maxRows: Option<nat>, width: nat)
      ensures rows == [] && this.maxRows == maxRows && tempTuple.Length == width && fresh(tempTuple)
    {
      rows := [];
      this.maxRows := maxRows;
      tempTuple := new NValue[width](_ => NullValue);
    }

    predicate HasRoom()
      reads this
    {
      maxRows.None? || |rows| < maxRows.value
    }

    /** `insertTempTuple`: appends a copy of the row, or reports that the table is full. */
    method InsertTempTuple(row: Row) returns (ok: bool)
      modifies this
      ensures ok == old(HasRoom())
      ensures rows == old(rows) + (if ok then [row] else [])
    {
      ok := HasRoom();
      if ok {
        rows := rows + [row];
      }
    }
  }
}
