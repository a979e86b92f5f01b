/** Plan shapes for INSERT, UPDATE and DELETE: the DML node, the scan it reads (with the projection
    inlined into it), and the fragment boundary with the coordinator's reduction of the
    per-partition modified-tuple counts. */
module DmlPlans {
  import opened Common
  import opened Catalog
  import opened PlanNodes

  const TEMP_TABLE: string := "VOLT_TEMP_TABLE"

  /** The count column every DML executor outputs. */
  function ModifiedTuples(): Expr {
    ColumnValue(TEMP_TABLE, "modified_tuples", BIGINT_TYPE, BIGINT_BYTES, false)
  }

  /** The coordinator's reduction of the per-partition counts: for a replicated target every
      partition modified the same rows, so one count is kept; otherwise the counts are summed. */
  function Reducer(isReplicated: bool): (k: Kind)
    ensures isReplicated ==> k.Limit? && k.limit == 1 && k.offset == 0
    ensures !isReplicated ==>
      (k.Aggregate? && !k.hashed && !k.coordinating && k.postPredicate.None? && k.aggs == [AggSpec(Sum, false, 0, ModifiedTuples())])
  {
    if isReplicated then Limit(1, 0)
    else Aggregate(false, [AggSpec(Sum, false, 0, ModifiedTuples())], false, None)
  }

  /** `addSumOrLimitAndSendToDMLNode`. */
  function SumOrLimitAndSend(dmlRoot: Plan, isReplicated: bool): Plan {
    Over(Send, Over(Reducer(isReplicated), dmlRoot))
  }

  /** A DML node as the statement runs it: alone on one partition, or under a fragment boundary
      and the coordinator's reduction. */
  function Distribute(dmlNode: Plan, part: StatementPartitioning, isReplicated: bool): Plan {
    if RunsSingle(part) then dmlNode else SumOrLimitAndSend(FragmentPair(dmlNode), isReplicated)
  }

  /** A single-partition statement is the bare DML node; otherwise the plan is a send over the
      reducer over the fragment boundary over the DML node, with exactly one more receive. */
  lemma DistributeFacts(dmlNode: Plan, part: StatementPartitioning, isReplicated: bool)
    ensures var r := Distribute(dmlNode, part, isReplicated);
      && (RunsSingle(part) ==> r == dmlNode)
      && (!RunsSingle(part) ==>
            && r.kind.Send? && |r.children| == 1
            && r.children[0].kind == Reducer(isReplicated) && |r.children[0].children| == 1
            && r.children[0].children[0] == FragmentPair(dmlNode))
      && CountReceives(r) == CountReceives(dmlNode) + (if RunsSingle(part) then 0 else 1)
      && (Paired(r) <==> Paired(dmlNode))
  {
    FragmentPairFacts(dmlNode);
    OverFacts(Reducer(isReplicated), FragmentPair(dmlNode));
    OverFacts(Send, Over(Reducer(isReplicated), FragmentPair(dmlNode)));
  }

  // ---------------------------------------------------------------------------------------------
  // INSERT

  /** The value of a column the statement leaves out, when it has a default or is nullable: a
      timestamp default naming a SQL function calls it, another default is a constant refined to
      the default's type, and no default is a NULL of the column's type. */
  function DefaultExpr(c: Column): Expr {
    if c.defaultType == TIMESTAMP_TYPE && c.defaultCall.Some? then
      Call(c.defaultCall.value.0, c.defaultCall.value.1, TIMESTAMP_TYPE, TIMESTAMP_MAX_BYTES)
    else if c.defaultType != 0 then Constant(Some(c.defaultValue), c.defaultType, c.size)
    else Constant(None, c.vtype, c.size)
  }

  /** Wraps an expression whose type or size differs from the column in a cast to the column's
      type and size. */
  function FitToColumn(e: Expr, c: Column): (r: Expr)
    ensures ValueType(r) == c.vtype && ValueSize(r) == c.size
    ensures r == e <==> ValueType(e) == c.vtype && ValueSize(e) == c.size
    ensures r != e ==> r == Cast(e, c.vtype, c.size)
  {
    if ValueType(e) != c.vtype || ValueSize(e) != c.size then Cast(e, c.vtype, c.size) else e
  }

  predicate LacksValue(c: Column, given: map<string, Expr>) {
    c.name !in given && !c.nullable && c.defaultType == 0
  }

  function NoDefaultMessage(c: Column): string {
    "Column " + c.name + " has no default and is not nullable."
  }

  /** The expression inserted into column `c`. */
  function ColumnExpr(c: Column, given: map<string, Expr>): (r: Result<Expr>)
    ensures r.PlanningError? <==> LacksValue(c, given)
    ensures r.PlanningError? ==> r.msg == NoDefaultMessage(c)
    ensures r.Ok? ==> ValueType(r.value) == c.vtype && ValueSize(r.value) == c.size
  {
    if c.name in given then Ok(FitToColumn(given[c.name], c))
    else if !c.nullable && c.defaultType == 0 then PlanningError(NoDefaultMessage(c))
    else Ok(FitToColumn(DefaultExpr(c), c))
  }

  /** An omitted nullable column without a default is a NULL of exactly the column's type and
      size, with no cast. */
  lemma OmittedNullableIsNull(c: Column, given: map<string, Expr>)
    requires c.name !in given && c.nullable && c.defaultType == 0
    ensures ColumnExpr(c, given) == Ok(Constant(None, c.vtype, c.size))
  {
  }

  /** A timestamp default that names a SQL function is a call of it, cast when the column is not
      a full-width timestamp. */
  lemma FunctionDefaultIsCall(c: Column, given: map<string, Expr>)
    requires c.name !in given && c.defaultType == TIMESTAMP_TYPE && c.defaultCall.Some?
    ensures var call := Call(c.defaultCall.value.0, c.defaultCall.value.1, TIMESTAMP_TYPE, TIMESTAMP_MAX_BYTES);
      ColumnExpr(c, given) == Ok(if c.vtype == TIMESTAMP_TYPE && c.size == TIMESTAMP_MAX_BYTES then call
                                 else Cast(call, c.vtype, c.size))
  {
  }

  function MaterializeColumn(c: Column, e: Expr): SchemaColumn {
    SchemaColumn(TEMP_TABLE, TEMP_TABLE, c.name, e)
  }

  /** The materialize node's schema, column by column in table order; the first column that
      lacks a value stops the planning. */
  function MaterializeSchema(cols: seq<Column>, given: map<string, Expr>): Result<seq<SchemaColumn>>
    decreases |cols|
  {
    if cols == [] then Ok([])
    else
      var n := |cols| - 1;
      match MaterializeSchema(cols[..n], given)
      case PlanningError(m) => PlanningError(m)
      case Ok(schema) =>
        match ColumnExpr(cols[n], given)
        case PlanningError(m) => PlanningError(m)
        case Ok(e) => Ok(schema + [MaterializeColumn(cols[n], e)])
  }

  /** The insert plan: an insert node over a materialize node, distributed when needed. */
  function InsertPlan(t: Table, given: map<string, Expr>, part: StatementPartitioning): Result<Plan> {
    match MaterializeSchema(t.columns, given)
    case PlanningError(m) => PlanningError(m)
    case Ok(schema) =>
      Ok(Distribute(Over(Insert(t.name, !RunsSingle(part)), Leaf(Materialize(schema))), part, t.isReplicated))
  }

  /** The loop of `getNextInsertPlan` over the table's columns. */
  method BuildInsertPlan(t: Table, given: map<string, Expr>, part: StatementPartitioning) returns (r: Result<Plan>)
    ensures r == InsertPlan(t, given, part)
  {
    var cols := t.columns;
    var schema: seq<SchemaColumn> := [];
    var i := 0;
    while i < |cols|
      invariant 0 <= i <= |cols|
      invariant MaterializeSchema(cols[..i], given) == Ok(schema)
    {
      var column := cols[i];
      assert cols[..i + 1][..i] == cols[..i];
      var expr: Expr;
      if column.name in given {
        expr := given[column.name];
      } else {
        if !column.nullable && column.defaultType == 0 {
          assert MaterializeSchema(cols[..i + 1], given) == PlanningError(NoDefaultMessage(column));
          MaterializeSchemaStopsAtError(cols, given, i + 1);
          return PlanningError(NoDefaultMessage(column));
        }
        expr := DefaultExpr(column);
      }
      if ValueType(expr) != column.vtype || ValueSize(expr) != column.size {
        expr := Cast(expr, column.vtype, column.size);
      }
      schema := schema + [MaterializeColumn(column, expr)];
      i := i + 1;
    }
    assert cols[..|cols|] == cols;
    var insertNode := Over(Insert(t.name, !RunsSingle(part)), Leaf(Materialize(schema)));
    if RunsSingle(part) {
      return Ok(insertNode);
    }
    return Ok(SumOrLimitAndSend(FragmentPair(insertNode), t.isReplicated));
  }

  /** Once a prefix of the columns fails, the whole schema fails with the same message. */
  lemma {:induction false} MaterializeSchemaStopsAtError(cols: seq<Column>, given: map<string, Expr>, i: nat)
    requires i <= |cols| && MaterializeSchema(cols[..i], given).PlanningError?
    ensures MaterializeSchema(cols, given) == MaterializeSchema(cols[..i], given)
    decreases |cols| - i
  {
    if i < |cols| {
      assert cols[..i + 1][..i] == cols[..i];
      MaterializeSchemaStopsAtError(cols, given, i + 1);
    } else {
      assert cols[..i] == cols;
    }
  }

  /** The schema has one column per table column, in order, named after it, holding the given
      expression (cast if needed) or the default, always of the column's type and size; it fails
      exactly when some column lacks a value, with the message of the first such column. */
  lemma {:induction false} MaterializeSchemaFacts(cols: seq<Column>, given: map<string, Expr>)
    ensures var r := MaterializeSchema(cols, given);
      && (r.PlanningError? <==> exists i :: 0 <= i < |cols| && LacksValue(cols[i], given))
      && (r.PlanningError? ==> exists i :: (0 <= i < |cols| && LacksValue(cols[i], given) &&
            (forall k :: 0 <= k < i ==> !LacksValue(cols[k], given)) && r.msg == NoDefaultMessage(cols[i])))
      && (r.Ok? ==> |r.value| == |cols| && forall i :: 0 <= i < |cols| ==>
            && r.value[i].column == cols[i].name
            && Ok(r.value[i].expr) == ColumnExpr(cols[i], given)
            && ValueType(r.value[i].expr) == cols[i].vtype
            && ValueSize(r.value[i].expr) == cols[i].size)
    decreases |cols|
  {
    if cols != [] {
      var n := |cols| - 1;
      var pre := cols[..n];
      MaterializeSchemaFacts(pre, given);
      assert forall k :: 0 <= k < n ==> pre[k] == cols[k];
    }
  }

  /** `getNextInsertPlan` fails exactly when a column lacks a value; otherwise every materialized
      column has its target column's type and size, and the insert node is multi-partition
      exactly when the statement is distributed. */
  lemma InsertPlanFacts(t: Table, given: map<string, Expr>, part: StatementPartitioning)
    ensures var r := InsertPlan(t, given, part);
      && (r.PlanningError? <==> exists i :: 0 <= i < |t.columns| && LacksValue(t.columns[i], given))
      && (r.Ok? ==>
            var ins := if RunsSingle(part) then r.value else r.value.children[0].children[0].children[0].children[0];
            && ins.kind == Insert(t.name, !RunsSingle(part))
            && |ins.children| == 1 && ins.children[0].kind.Materialize?
            && |ins.children[0].kind.schema| == |t.columns|
            && (forall i :: 0 <= i < |t.columns| ==>
                  ValueType(ins.children[0].kind.schema[i].expr) == t.columns[i].vtype &&
                  ValueSize(ins.children[0].kind.schema[i].expr) == t.columns[i].size)
            && CountReceives(r.value) == (if RunsSingle(part) then 0 else 1)
            && Paired(r.value))
  {
    MaterializeSchemaFacts(t.columns, given);
    var schema := MaterializeSchema(t.columns, given);
    if schema.Ok? {
      var ins := Over(Insert(t.name, !RunsSingle(part)), Leaf(Materialize(schema.value)));
      OverFacts(Insert(t.name, !RunsSingle(part)), Leaf(Materialize(schema.value)));
      DistributeFacts(ins, part, t.isReplicated);
    }
  }

  // ---------------------------------------------------------------------------------------------
  // DELETE and UPDATE

  /** The magic column that hands the address of each scanned tuple to the DML executor. */
  function TupleAddressColumn(): SchemaColumn {
    SchemaColumn(TEMP_TABLE, TEMP_TABLE, "tuple_address", TupleAddress)
  }

  /** A sequential scan without a predicate matches every row: the delete truncates the table. */
  predicate CanTruncate(scan: Plan) {
    scan.kind.SeqScan? && scan.kind.filter.None?
  }

  /** The delete node: a truncating delete with no scan, or a delete over the scan with the
      tuple-address projection inlined into it. */
  function DeleteNode(t: Table, scan: Plan): Plan {
    if CanTruncate(scan) then Leaf(Delete(t.name, true))
    else Over(Delete(t.name, false), AddInline(scan, Projection([TupleAddressColumn()])))
  }

  /** `getNextDeletePlan` for one scan candidate (its early return of a truncating delete in a
      single-partition procedure is the general single-partition case). */
  function DeletePlan(t: Table, scan: Plan, part: StatementPartitioning): Plan
    requires IsScan(scan.kind)
  {
    Distribute(DeleteNode(t, scan), part, t.isReplicated)
  }

  lemma DeletePlanFacts(t: Table, scan: Plan, part: StatementPartitioning)
    requires IsScan(scan.kind)
    ensures var r := DeletePlan(t, scan, part);
      var del := if RunsSingle(part) then r else r.children[0].children[0].children[0].children[0];
      && del.kind.Delete? && del.kind.target == t.name
      && (del.kind.truncate <==> CanTruncate(scan))
      && (del.kind.truncate ==> del.children == [])
      && (!del.kind.truncate ==> del.children == [AddInline(scan, Projection([TupleAddressColumn()]))])
      && (part.specifiedAsSingle ==> r == del)
      && (Paired(scan) ==> Paired(r))
      && CountReceives(r) == CountReceives(DeleteNode(t, scan)) + (if RunsSingle(part) then 0 else 1)
  {
    var del := DeleteNode(t, scan);
    if !CanTruncate(scan) {
      AddInlineFacts(scan, Projection([TupleAddressColumn()]));
      OverFacts(Delete(t.name, false), AddInline(scan, Projection([TupleAddressColumn()])));
    }
    DistributeFacts(del, part, t.isReplicated);
  }

  function UpdateColumn(u: (string, Expr)): SchemaColumn {
    SchemaColumn(TEMP_TABLE, TEMP_TABLE, u.0, u.1)
  }

  /** The projection inlined into an update's scan: the tuple address, then one column per
      updated column with its new value. */
  function UpdateSchema(updates: seq<(string, Expr)>): seq<SchemaColumn> {
    [TupleAddressColumn()] + seq(|updates|, i requires 0 <= i < |updates| => UpdateColumn(updates[i]))
  }

  /** Some updated column is covered by an index of the table. */
  predicate TouchesIndex(t: Table, updates: seq<(string, Expr)>) {
    exists i, k :: 0 <= i < |updates| && 0 <= k < |t.indexes| && updates[i].0 in t.indexes[k].columns
  }

  function UpdatePlan(t: Table, scan: Plan, updates: seq<(string, Expr)>, part: StatementPartitioning): Plan
    requires IsScan(scan.kind)
  {
    Distribute(Over(Update(t.name, TouchesIndex(t, updates)), AddInline(scan, Projection(UpdateSchema(updates)))),
               part, t.isReplicated)
  }

  /** `getNextUpdatePlan` for one scan candidate: `updates` are the statement's SET columns in the
      order its column map yields them. */
  method BuildUpdatePlan(t: Table, scan: Plan, updates: seq<(string, Expr)>, part: StatementPartitioning) returns (r: Plan)
    requires IsScan(scan.kind)
    ensures r == UpdatePlan(t, scan, updates, part)
  {
    var updateIndexes := false;
    var schema := [TupleAddressColumn()];
    var affectedColumns := IndexedColumnSetForTable(t);
    for i := 0 to |updates|
      invariant |schema| == i + 1 && schema[0] == TupleAddressColumn()
      invariant forall j :: 0 <= j < i ==> schema[j + 1] == UpdateColumn(updates[j])
      invariant updateIndexes <==> exists j, k :: 0 <= j < i && 0 <= k < |t.indexes| && updates[j].0 in t.indexes[k].columns
    {
      schema := schema + [UpdateColumn(updates[i])];
      if updates[i].0 in affectedColumns {
        updateIndexes := true;
      }
    }
    assert schema == UpdateSchema(updates);
    var updateNode := Over(Update(t.name, updateIndexes), AddInline(scan, Projection(schema)));
    if RunsSingle(part) {
      return updateNode;
    }
    return SumOrLimitAndSend(FragmentPair(updateNode), t.isReplicated);
  }

  /** The update maintains indexes exactly when it sets an indexed column, reads the scan with the
      tuple address and the new values projected into it, and is distributed like every DML
      statement. */
  lemma UpdatePlanFacts(t: Table, scan: Plan, updates: seq<(string, Expr)>, part: StatementPartitioning)
    requires IsScan(scan.kind)
    ensures var r := UpdatePlan(t, scan, updates, part);
      var upd := if RunsSingle(part) then r else r.children[0].children[0].children[0].children[0];
      && upd.kind.Update? && upd.kind.target == t.name
      && (upd.kind.updateIndexes <==> exists i, c :: 0 <= i < |updates| && 0 <= c < |t.indexes| && updates[i].0 in t.indexes[c].columns)
      && |upd.children| == 1 && upd.children[0].kind == scan.kind
      && Projection(UpdateSchema(updates)) in upd.children[0].inlines
      && |UpdateSchema(updates)| == |updates| + 1 && UpdateSchema(updates)[0].expr == TupleAddress
      && (forall i :: 0 <= i < |updates| ==> UpdateSchema(updates)[i + 1].column == updates[i].0 && UpdateSchema(updates)[i + 1].expr == updates[i].1)
      && (Paired(scan) ==> Paired(r))
  {
    var node := Over(Update(t.name, TouchesIndex(t, updates)), AddInline(scan, Projection(UpdateSchema(updates))));
    AddInlineFacts(scan, Projection(UpdateSchema(updates)));
    OverFacts(Update(t.name, TouchesIndex(t, updates)), AddInline(scan, Projection(UpdateSchema(updates))));
    DistributeFacts(node, part, t.isReplicated);
  }
}
