/** The projection executor: maps every input row to one output row, by copying chosen input
    columns, by repeating a parameter vector, or by evaluating one expression per output column. */
module Projection {
  import opened Common
  import opened Tables

  /** The plan node: its three output descriptions, of which the executor uses one, and whether
      it is inlined into another node. */
  datatype ProjectionNode = ProjectionNode(isInline: bool, columnsOnly: seq<nat>, paramsOnly: seq<NValue>, exprs: seq<Expr>)

  datatype Mode = ColumnsMode | ParamsMode | ExprsMode

  /** Column indexes take priority over parameters, and parameters over expressions. */
  function ModeOf(node: ProjectionNode): (m: Mode)
    ensures m == ColumnsMode <==> node.columnsOnly != []
    ensures m == ParamsMode <==> node.columnsOnly == [] && node.paramsOnly != []
    ensures m == ExprsMode <==> node.columnsOnly == [] && node.paramsOnly == []
  {
    if |node.columnsOnly| != 0 then ColumnsMode
    else if |node.paramsOnly| != 0 then ParamsMode
    else ExprsMode
  }

  /** The number of output columns in the chosen mode. */
  function Width(node: ProjectionNode): nat {
    match ModeOf(node)
    case ColumnsMode => |node.columnsOnly|
    case ParamsMode => |node.paramsOnly|
    case ExprsMode => |node.exprs|
  }

  /** Every column index names a column of the row. */
  predicate ColumnsFit(node: ProjectionNode, row: Row) {
    forall c :: 0 <= c < |node.columnsOnly| ==> node.columnsOnly[c] < |row|
  }

  /** The output row for one input row. */
  function ProjectRow(node: ProjectionNode, eval: (Expr, Row) -> NValue, row: Row): (out: Row)
    requires ColumnsFit(node, row)
    ensures |out| == Width(node)
  {
    match ModeOf(node)
    case ColumnsMode => seq(|node.columnsOnly|, c requires 0 <= c < |node.columnsOnly| && ColumnsFit(node, row) => row[node.columnsOnly[c]])
    case ParamsMode => node.paramsOnly
    case ExprsMode => seq(|node.exprs|, c requires 0 <= c < |node.exprs| => eval(node.exprs[c], row))
  }

  /** Each mode's output column, as the mode defines it. */
  lemma ProjectRowColumns(node: ProjectionNode, eval: (Expr, Row) -> NValue, row: Row)
    requires ColumnsFit(node, row)
    ensures var out := ProjectRow(node, eval, row);
      && (ModeOf(node) == ColumnsMode ==> forall c :: 0 <= c < |out| ==> out[c] == row[node.columnsOnly[c]])
      && (ModeOf(node) == ParamsMode ==> out == node.paramsOnly)
      && (ModeOf(node) == ExprsMode ==> forall c :: 0 <= c < |out| ==> out[c] == eval(node.exprs[c], row))
  {
  }

  /** In parameter mode the output row does not depend on the input row. */
  lemma ParamsIgnoreInput(node: ProjectionNode, eval: (Expr, Row) -> NValue, a: Row, b: Row)
    requires ModeOf(node) == ParamsMode && ColumnsFit(node, a) && ColumnsFit(node, b)
    ensures ProjectRow(node, eval, a) == ProjectRow(node, eval, b) == node.paramsOnly
  {
  }

  predicate AllFit(node: ProjectionNode, rows: seq<Row>) {
    forall i :: 0 <= i < |rows| ==> ColumnsFit(node, rows[i])
  }

  /** One output row per input row, in input order. */
  function ProjectAll(node: ProjectionNode, eval: (Expr, Row) -> NValue, rows: seq<Row>): (out: seq<Row>)
    requires AllFit(node, rows)
    ensures |out| == |rows| && forall i :: 0 <= i < |rows| ==> out[i] == ProjectRow(node, eval, rows[i])
  {
    seq(|rows|, i requires 0 <= i < |rows| && AllFit(node, rows) => ProjectRow(node, eval, rows[i]))
  }

  class ProjectionExecutor {
    const node: ProjectionNode
    const input: Table
    var output: Table
    /** whether `p_init` prepared the scratch tuple over the input schema */
    var hasScratchTuple: bool

    constructor(node: ProjectionNode, input: Table, output: Table)
      ensures this.node == node && this.input == input && this.output == output && !hasScratchTuple
    {
      this.node := node;
      this.input := input;
      this.output := output;
      hasScratchTuple := false;
    }

    /** `p_init`: only a projection that runs on its own prepares a tuple over its input. */
    method Init() returns (ok: bool)
      modifies this`hasScratchTuple
      ensures ok && hasScratchTuple == (!node.isInline || old(hasScratchTuple))
    {
      if !node.isInline {
        hasScratchTuple := true;
      }
      return true;
    }

    /** `p_execute`: appends the projection of every input row to the output table, which keeps
        as many as its bound allows; an inline projection is never executed on its own. */
    method Execute(eval: (Expr, Row) -> NValue) returns (ok: bool)
      requires !node.isInline
      requires output != input && Width(node) == output.tempTuple.Length && AllFit(node, input.rows)
      modifies output, output.tempTuple
      ensures ok && output == old(output) && input.rows == old(input.rows)
      ensures var out := ProjectAll(node, eval, input.rows);
        output.rows == old(output.rows) + out[..Kept(|old(output.rows)|, output.maxRows, |out|)]
    {
      var rows := input.rows;
      ghost var start := output.rows;
      ghost var out := ProjectAll(node, eval, rows);
      var i := 0;
      while i < |rows|
        invariant 0 <= i <= |rows| && rows == input.rows && output != input
        invariant output.rows == start + out[..Kept(|start|, output.maxRows, i)]
      {
        var tuple := rows[i];
        var projected := FillTempTuple(output.tempTuple, tuple, eval);
        var inserted := output.InsertTempTuple(projected);
        KeptStep(|start|, output.maxRows, i);
        assert out[..i + 1] == out[..i] + [projected];
        i := i + 1;
      }
      return true;
    }

    /** The per-row loop of `p_execute`: sets the temp tuple's columns from the last one down. */
    method FillTempTuple(temp: array<NValue>, tuple: Row, eval: (Expr, Row) -> NValue) returns (projected: Row)
      requires Width(node) == temp.Length && ColumnsFit(node, tuple)
      modifies temp
      ensures projected == ProjectRow(node, eval, tuple)
    {
      var want := ProjectRow(node, eval, tuple);
      var ctr := temp.Length - 1;
      while ctr >= 0
        invariant -1 <= ctr < temp.Length
        invariant forall c :: ctr < c < temp.Length ==> temp[c] == want[c]
        decreases ctr + 1
      {
        match ModeOf(node) {
          case ColumnsMode => temp[ctr] := tuple[node.columnsOnly[ctr]];
          case ParamsMode => temp[ctr] := node.paramsOnly[ctr];
          case ExprsMode => temp[ctr] := eval(node.exprs[ctr], tuple);
        }
        ctr := ctr - 1;
      }
      projected := temp[..];
      assert projected == want;
    }
  }

  /** A table without a bound receives exactly one output row per input row, in input order. */
  lemma UnboundedOutputGetsEveryRow(node: ProjectionNode, eval: (Expr, Row) -> NValue, rows: seq<Row>, count: nat)
    requires AllFit(node, rows)
    ensures var out := ProjectAll(node, eval, rows);
      out[..Kept(count, None, |out|)] == out && |out| == |rows|
  {
  }
}
