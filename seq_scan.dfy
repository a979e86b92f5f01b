/** The sequential-scan executor: walks a persistent table in iterator order, keeps the tuples its
    predicate accepts, skips an inline OFFSET, stops at an inline LIMIT and projects each kept
    tuple through an inline projection. */
module SeqScan {
  import opened Common
  import opened Tables

  /** The plan node: the predicate and the inline projection (its output expressions) and inline
      limit (limit, offset), each absent when the planner attached none. */
  datatype SeqScanNode = SeqScanNode(filter: Option<Expr>, projection: Option<seq<Expr>>, limit: Option<(int, int)>)

  /** The node has a predicate or an inline node: the scan must copy into a temp table. */
  predicate CopiesTuples(node: SeqScanNode) {
    node.filter.Some? || node.projection.Some? || node.limit.Some?
  }

  /** The limit and offset the loop uses, -1 standing for "none". */
  function LimitOf(node: SeqScanNode): int {
    if node.limit.Some? then node.limit.value.0 else -1
  }

  function OffsetOf(node: SeqScanNode): int {
    if node.limit.Some? then node.limit.value.1 else -1
  }

  predicate Accepts(node: SeqScanNode, eval: (Expr, Row) -> NValue, row: Row) {
    node.filter.None? || IsTrue(eval(node.filter.value, row))
  }

  /** The tuples the predicate accepts, in iterator order. */
  function Qualifying(node: SeqScanNode, eval: (Expr, Row) -> NValue, rows: seq<Row>): (q: seq<Row>)
    ensures |q| <= |rows|
    ensures forall r :: r in q ==> r in rows && Accepts(node, eval, r)
    ensures node.filter.None? ==> q == rows
  {
    if rows == [] then []
    else
      var q := Qualifying(node, eval, rows[..|rows| - 1]);
      assert rows[..|rows| - 1] + [rows[|rows| - 1]] == rows;
      if Accepts(node, eval, rows[|rows| - 1]) then q + [rows[|rows| - 1]] else q
  }

  /** What the scan emits for one accepted tuple: the tuple, or its projection. */
  function Emit(node: SeqScanNode, eval: (Expr, Row) -> NValue, row: Row): (out: Row)
    ensures node.projection.Some? ==> (|out| == |node.projection.value| &&
      forall k :: 0 <= k < |out| ==> out[k] == eval(node.projection.value[k], row))
    ensures node.projection.None? ==> out == row
  {
    if node.projection.None? then row
    else seq(|node.projection.value|, k requires 0 <= k < |node.projection.value| => eval(node.projection.value[k], row))
  }

  function EmitAll(node: SeqScanNode, eval: (Expr, Row) -> NValue, rows: seq<Row>): (out: seq<Row>)
    ensures |out| == |rows| && forall i :: 0 <= i < |rows| ==> out[i] == Emit(node, eval, rows[i])
  {
    seq(|rows|, i requires 0 <= i < |rows| => Emit(node, eval, rows[i]))
  }

  lemma EmitAllAppend(node: SeqScanNode, eval: (Expr, Row) -> NValue, rows: seq<Row>, row: Row)
    ensures EmitAll(node, eval, rows + [row]) == EmitAll(node, eval, rows) + [Emit(node, eval, row)]
  {
  }

  /** The number of accepted tuples skipped, and the index just past the last one emitted. */
  function Window(node: SeqScanNode, matched: nat): (w: (nat, nat))
    ensures w.0 <= w.1 <= matched
  {
    var from := if OffsetOf(node) <= 0 then 0 else if OffsetOf(node) < matched then OffsetOf(node) else matched;
    var to := if LimitOf(node) == -1 then matched
              else if LimitOf(node) <= 0 then from
              else if from + LimitOf(node) < matched then from + LimitOf(node) else matched;
    (from, to)
  }

  /** The rows a scan that copies appends to its output table, before the table's bound applies. */
  function ScanOutput(node: SeqScanNode, eval: (Expr, Row) -> NValue, rows: seq<Row>): seq<Row>
  {
    var q := Qualifying(node, eval, rows);
    var w := Window(node, |q|);
    EmitAll(node, eval, q[w.0..w.1])
  }

  lemma {:induction false} QualifyingPrefix(node: SeqScanNode, eval: (Expr, Row) -> NValue, rows: seq<Row>, i: nat)
    requires i <= |rows|
    ensures var q := Qualifying(node, eval, rows[..i]);
      |q| <= |Qualifying(node, eval, rows)| && q == Qualifying(node, eval, rows)[..|q|]
    decreases |rows| - i
  {
    if i < |rows| {
      QualifyingPrefix(node, eval, rows, i + 1);
      assert rows[..i + 1][..i] == rows[..i];
    } else {
      assert rows[..i] == rows;
    }
  }

  /** Every emitted row comes from an accepted tuple, in iterator order; without a projection the
      rows are the accepted tuples themselves. */
  lemma ScanOutputFromAcceptedTuples(node: SeqScanNode, eval: (Expr, Row) -> NValue, rows: seq<Row>)
    ensures var out := ScanOutput(node, eval, rows);
      && (forall i :: 0 <= i < |out| ==> exists r :: r in rows && Accepts(node, eval, r) && out[i] == Emit(node, eval, r))
      && (node.projection.None? ==> forall r :: r in out ==> r in rows && Accepts(node, eval, r))
  {
    var q := Qualifying(node, eval, rows);
    var w := Window(node, |q|);
    var out := ScanOutput(node, eval, rows);
    forall i | 0 <= i < |out|
      ensures exists r :: r in rows && Accepts(node, eval, r) && out[i] == Emit(node, eval, r)
    {
      assert q[w.0..w.1][i] in q;
    }
  }

  /** The offset skips exactly the first `offset` accepted tuples (none for a negative offset), and
      a limit other than -1 bounds the rows emitted. */
  lemma ScanOutputWindow(node: SeqScanNode, eval: (Expr, Row) -> NValue, rows: seq<Row>)
    ensures var q := Qualifying(node, eval, rows);
      var out := ScanOutput(node, eval, rows);
      && (LimitOf(node) == -1 ==> out == EmitAll(node, eval, q[(if 0 <= OffsetOf(node) <= |q| then OffsetOf(node) else if OffsetOf(node) < 0 then 0 else |q|)..]))
      && (LimitOf(node) != -1 ==> |out| <= (if LimitOf(node) < 0 then 0 else LimitOf(node)))
      && (LimitOf(node) == 0 ==> out == [])
  {
  }

  /** With neither predicate nor projection, a scan under LIMIT `l` OFFSET `k` emits the table's
      rows `k` to `k + l`. */
  lemma LimitOffsetSlicesTable(node: SeqScanNode, eval: (Expr, Row) -> NValue, rows: seq<Row>, l: nat, k: nat)
    requires node.filter.None? && node.projection.None? && node.limit == Some((l as int, k as int))
    requires k + l <= |rows|
    ensures ScanOutput(node, eval, rows) == rows[k..k + l]
  {
  }

  class SeqScanExecutor {
    const node: SeqScanNode
    const target: Table
    var output: Table

    constructor(node: SeqScanNode, target: Table)
      ensures this.node == node && this.target == target && output == target
    {
      this.node := node;
      this.target := target;
      output := target;
    }

    /** `p_setOutputTable`: a scan with neither predicate nor inline node outputs the target table
        itself; any other scan gets a fresh, empty temp table. */
    method SetOutputTable(maxRows: Option<nat>, width: nat)
      modifies this`output
      ensures !CopiesTuples(node) ==> output == target
      ensures CopiesTuples(node) ==> (fresh(output) && fresh(output.tempTuple) && output.rows == [] &&
        output.maxRows == maxRows && output.tempTuple.Length == width)
    {
      if !CopiesTuples(node) {
        output := target;
        return;
      }
      output := new Table(maxRows, width);
    }

    /** `p_execute`: a scan that copies appends `ScanOutput` to the output table, failing at the
        first row the table refuses; a scan that does not leaves everything as it is. `read` is the
        number of tuples taken from the iterator. */
    method Execute(eval: (Expr, Row) -> NValue) returns (ok: bool, ghost read: nat)
      requires CopiesTuples(node) ==> output != target
      requires node.projection.Some? ==> |node.projection.value| == output.tempTuple.Length
      modifies output, output.tempTuple
      ensures output == old(output) && target.rows == old(target.rows)
      ensures !CopiesTuples(node) ==> ok && output.rows == old(output.rows)
      ensures CopiesTuples(node) ==>
        var out := ScanOutput(node, eval, target.rows);
        var kept := Kept(|old(output.rows)|, output.maxRows, |out|);
        && ok == (kept == |out|)
        && output.rows == old(output.rows) + out[..kept]
      ensures read <= |target.rows| && (LimitOf(node) == 0 ==> read == 0)
    {
      read := 0;
      if !CopiesTuples(node) {
        return true, read;
      }
      assert target.rows[..0] == [];
      ScanFromIsWindow(node, eval, target.rows, 0, [], 0);
      ok, read := CopyTuples(eval);
    }

    /** The scan loop of `p_execute`: reads tuples while the limit allows, skips the offset,
        emits the rest and stops at the first row the output table refuses. */
    method CopyTuples(eval: (Expr, Row) -> NValue) returns (ok: bool, ghost read: nat)
      requires output != target
      requires node.projection.Some? ==> |node.projection.value| == output.tempTuple.Length
      modifies output, output.tempTuple
      ensures output == old(output) && target.rows == old(target.rows)
      ensures var out := ScanFrom(node, eval, target.rows, 0, 0, 0);
        var kept := Kept(|old(output.rows)|, output.maxRows, |out|);
        && ok == (kept == |out|)
        && output.rows == old(output.rows) + out[..kept]
      ensures read <= |target.rows| && (LimitOf(node) == 0 ==> read == 0)
    {
      read := 0;
      var rows := target.rows;
      var limit := -1;
      var offset := -1;
      if node.limit.Some? {
        limit, offset := node.limit.value.0, node.limit.value.1;
      }
      ghost var start := output.rows;
      ghost var total := ScanFrom(node, eval, rows, 0, 0, 0);
      ghost var emitted: seq<Row> := [];
      var tupleCtr := 0;
      var tupleSkipped := 0;
      var i := 0;
      while (limit == -1 || tupleCtr < limit) && i < |rows|
        invariant 0 <= i <= |rows| && read == i && (limit == 0 ==> i == 0)
        invariant limit == LimitOf(node) && offset == OffsetOf(node)
        invariant emitted + ScanFrom(node, eval, rows, i, tupleSkipped, tupleCtr) == total
        invariant |emitted| == tupleCtr && output.rows == start + emitted
        invariant Kept(|start|, output.maxRows, tupleCtr) == tupleCtr
        invariant output != target && target.rows == rows
      {
        var tuple := rows[i];
        i := i + 1;
        read := i;
        if Accepts(node, eval, tuple) {
          if tupleSkipped < offset {
            tupleSkipped := tupleSkipped + 1;
            continue;
          }
          tupleCtr := tupleCtr + 1;
          var inserted, row := EmitTuple(tuple, eval);
          KeptStep(|start|, output.maxRows, tupleCtr - 1);
          assert (emitted + [row]) + ScanFrom(node, eval, rows, i, tupleSkipped, tupleCtr) == total;
          if !inserted {
            KeptStops(|start|, output.maxRows, tupleCtr, |total|);
            assert total[..tupleCtr - 1] == emitted;
            return false, read;
          }
          emitted := emitted + [row];
        }
      }
      assert emitted == total;
      assert total[..|total|] == total;
      return true, read;
    }

    /** One accepted tuple, projected when the node has an inline projection, inserted into the
        output table. */
    method EmitTuple(tuple: Row, eval: (Expr, Row) -> NValue) returns (ok: bool, row: Row)
      requires node.projection.Some? ==> |node.projection.value| == output.tempTuple.Length
      modifies output, output.tempTuple
      ensures output == old(output) && row == Emit(node, eval, tuple)
      ensures ok == old(output.HasRoom()) && output.rows == old(output.rows) + (if ok then [row] else [])
    {
      if node.projection.Some? {
        row := ProjectTuple(output.tempTuple, node.projection.value, tuple, eval);
      } else {
        row := tuple;
      }
      ok := output.InsertTempTuple(row);
    }
  }

  /** The qualifying tuples grow by the next tuple exactly when the predicate accepts it. */
  lemma QualifyingStep(node: SeqScanNode, eval: (Expr, Row) -> NValue, rows: seq<Row>, i: nat)
    requires i < |rows|
    ensures Qualifying(node, eval, rows[..i + 1]) ==
      Qualifying(node, eval, rows[..i]) + (if Accepts(node, eval, rows[i]) then [rows[i]] else [])
  {
    assert rows[..i + 1][..i] == rows[..i];
  }

  /** The inline projection of one tuple, column by column into the temp tuple. */
  method ProjectTuple(temp: array<NValue>, exprs: seq<Expr>, tuple: Row, eval: (Expr, Row) -> NValue) returns (out: Row)
    requires |exprs| == temp.Length
    modifies temp
    ensures |out| == |exprs| && forall k :: 0 <= k < |exprs| ==> out[k] == eval(exprs[k], tuple)
  {
    for ctr := 0 to temp.Length
      invariant forall k :: 0 <= k < ctr ==> temp[k] == eval(exprs[k], tuple)
    {
      temp[ctr] := eval(exprs[ctr], tuple);
    }
    out := temp[..];
  }

  /** The rows the scan loop still emits after reading `i` tuples, having skipped `skipped`
      accepted tuples and emitted `ctr`: the loop stops at the limit before reading a tuple. */
  function ScanFrom(node: SeqScanNode, eval: (Expr, Row) -> NValue, rows: seq<Row>, i: nat, skipped: nat, ctr: nat): seq<Row>
    requires i <= |rows|
    decreases |rows| - i
  {
    if !((LimitOf(node) == -1 || ctr < LimitOf(node)) && i < |rows|) then []
    else if !Accepts(node, eval, rows[i]) then ScanFrom(node, eval, rows, i + 1, skipped, ctr)
    else if skipped < OffsetOf(node) then ScanFrom(node, eval, rows, i + 1, skipped + 1, ctr)
    else [Emit(node, eval, rows[i])] + ScanFrom(node, eval, rows, i + 1, skipped, ctr + 1)
  }

  /** The loop's output is the declarative one: the accepted tuples past the offset, up to the
      limit, projected. */
  lemma {:induction false} ScanFromIsWindow(node: SeqScanNode, eval: (Expr, Row) -> NValue, rows: seq<Row>, i: nat, qi: seq<Row>, skipped: nat)
    requires i <= |rows| && qi == Qualifying(node, eval, rows[..i])
    requires skipped <= |qi| && skipped == (if |qi| < SkipOf(node) then |qi| else SkipOf(node))
    requires LimitOf(node) != -1 ==> |qi| - skipped <= (if LimitOf(node) < 0 then 0 else LimitOf(node))
    ensures EmitAll(node, eval, qi[skipped..]) + ScanFrom(node, eval, rows, i, skipped, |qi| - skipped) == ScanOutput(node, eval, rows)
    decreases |rows| - i
  {
    var ctr := |qi| - skipped;
    if !((LimitOf(node) == -1 || ctr < LimitOf(node)) && i < |rows|) {
      ScanCompletes(node, eval, rows, i, qi, skipped);
    } else {
      var qi', skipped' := ScanStep(node, eval, rows, i, qi, skipped);
      ScanFromIsWindow(node, eval, rows, i + 1, qi', skipped');
    }
  }

  /** One iteration of the scan loop keeps the emitted rows plus the rows still to come unchanged,
      and the loop's counters in step with the accepted tuples. */
  lemma ScanStep(node: SeqScanNode, eval: (Expr, Row) -> NValue, rows: seq<Row>, i: nat, qi: seq<Row>, skipped: nat)
    returns (qi': seq<Row>, skipped': nat)
    requires i < |rows| && qi == Qualifying(node, eval, rows[..i])
    requires skipped <= |qi| && skipped == (if |qi| < SkipOf(node) then |qi| else SkipOf(node))
    requires LimitOf(node) == -1 || |qi| - skipped < LimitOf(node)
    ensures qi' == Qualifying(node, eval, rows[..i + 1])
    ensures skipped' <= |qi'| && skipped' == (if |qi'| < SkipOf(node) then |qi'| else SkipOf(node))
    ensures LimitOf(node) != -1 ==> |qi'| - skipped' <= (if LimitOf(node) < 0 then 0 else LimitOf(node))
    ensures EmitAll(node, eval, qi[skipped..]) + ScanFrom(node, eval, rows, i, skipped, |qi| - skipped) ==
            EmitAll(node, eval, qi'[skipped'..]) + ScanFrom(node, eval, rows, i + 1, skipped', |qi'| - skipped')
  {
    QualifyingStep(node, eval, rows, i);
    var x := rows[i];
    var ctr := |qi| - skipped;
    if !Accepts(node, eval, x) {
      qi', skipped' := qi, skipped;
    } else if skipped < OffsetOf(node) {
      qi', skipped' := qi + [x], skipped + 1;
      assert qi'[skipped'..] == [] && qi[skipped..] == [];
    } else {
      qi', skipped' := qi + [x], skipped;
      var rest := ScanFrom(node, eval, rows, i + 1, skipped, ctr + 1);
      assert ScanFrom(node, eval, rows, i, skipped, ctr) == [Emit(node, eval, x)] + rest;
      assert qi'[skipped..] == qi[skipped..] + [x];
      EmitAllAppend(node, eval, qi[skipped..], x);
      calc {
        EmitAll(node, eval, qi[skipped..]) + ([Emit(node, eval, x)] + rest);
        (EmitAll(node, eval, qi[skipped..]) + [Emit(node, eval, x)]) + rest;
        EmitAll(node, eval, qi'[skipped'..]) + rest;
      }
    }
  }

  /** The accepted tuples the offset skips: none for a negative offset. */
  function SkipOf(node: SeqScanNode): nat {
    if OffsetOf(node) < 0 then 0 else OffsetOf(node)
  }

  /** When the loop stops without a refusal, the rows emitted so far are the whole scan output. */
  lemma ScanCompletes(node: SeqScanNode, eval: (Expr, Row) -> NValue, rows: seq<Row>, i: nat, qi: seq<Row>, skipped: nat)
    requires i <= |rows| && qi == Qualifying(node, eval, rows[..i])
    requires skipped <= |qi| && skipped == (if |qi| < SkipOf(node) then |qi| else SkipOf(node))
    requires LimitOf(node) != -1 ==> |qi| - skipped <= (if LimitOf(node) < 0 then 0 else LimitOf(node))
    requires i == |rows| || (LimitOf(node) != -1 && |qi| - skipped >= LimitOf(node))
    ensures ScanOutput(node, eval, rows) == EmitAll(node, eval, qi[skipped..])
  {
    QualifyingPrefix(node, eval, rows, i);
    var q := Qualifying(node, eval, rows);
    if i == |rows| {
      assert rows[..i] == rows;
    } else if |qi| - skipped > 0 {
      assert q[skipped..|qi|] == qi[skipped..];
    }
  }

}
