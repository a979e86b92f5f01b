/** Aggregation in a SELECT plan: which aggregates can be split between the partitions and the
    coordinator, hash or serial aggregation, the push-down of the partition-side aggregate below
    the fragment boundary, and the decisions that follow (DISTINCT, final projection). */
module AggregatePlanning {
  import opened Common
  import opened PlanNodes
  import opened SelectShaping

  /** The coordinator's aggregate for a pushed-down one: COUNT(*), COUNT and SUM are summed,
      MIN and MAX repeated; a DISTINCT count or sum, or any other aggregate, cannot be split. */
  function CoordinatorAgg(agg: AggKind, distinct: bool): Option<AggKind> {
    match agg
    case CountStar => if distinct then None else Some(Sum)
    case Count => if distinct then None else Some(Sum)
    case Sum => if distinct then None else Some(Sum)
    case Min => Some(Min)
    case Max => Some(Max)
    case _ => None
  }

  predicate IsAggregateColumn(c: AggResultColumn) {
    c.expr.AggregateExpr?
  }

  function ContainsAggregate(e: Expr): bool {
    match e
    case AggregateExpr(_, _, _, _, _) => true
    case Cast(arg, _, _) => ContainsAggregate(arg)
    case _ => false
  }

  /** An output column that is an expression over an aggregate, rather than an aggregate itself,
      is never handed to the aggregate builder. */
  predicate NoNestedAggregates(cols: seq<AggResultColumn>) {
    forall j :: 0 <= j < |cols| ==> cols[j].expr.AggregateExpr? || !ContainsAggregate(cols[j].expr)
  }

  /** The temp-table column that carries aggregate output `c` to the nodes above. */
  function TempColumn(c: AggResultColumn): Expr
    requires IsAggregateColumn(c)
  {
    ColumnValue("VOLT_TEMP_TABLE", c.alias, c.expr.vtype, c.expr.vsize, false)
  }

  /** The partition-side aggregate for output column `j`. */
  function DistSpec(c: AggResultColumn, j: nat): AggSpec
    requires IsAggregateColumn(c)
  {
    AggSpec(c.expr.agg, c.expr.distinct, j, c.expr.arg)
  }

  /** All aggregates can be split. */
  predicate AllSplittable(cols: seq<AggResultColumn>) {
    forall j :: 0 <= j < |cols| && IsAggregateColumn(cols[j]) ==> CoordinatorAgg(cols[j].expr.agg, cols[j].expr.distinct).Some?
  }

  /** The coordinator's aggregate for output column `j`, reading the pushed-down result. */
  function TopSpec(c: AggResultColumn, j: nat): AggSpec
    requires IsAggregateColumn(c) && CoordinatorAgg(c.expr.agg, c.expr.distinct).Some?
  {
    AggSpec(CoordinatorAgg(c.expr.agg, c.expr.distinct).value, c.expr.distinct, j, TempColumn(c))
  }

  /** The aggregates of the partition-side node, one per aggregate column, in column order. */
  function DistAggs(cols: seq<AggResultColumn>): seq<AggSpec>
    decreases |cols|
  {
    if cols == [] then []
    else
      var j := |cols| - 1;
      DistAggs(cols[..j]) + (if IsAggregateColumn(cols[j]) then [DistSpec(cols[j], j)] else [])
  }

  function TopList(cols: seq<AggResultColumn>): seq<AggSpec>
    requires AllSplittable(cols)
    decreases |cols|
  {
    if cols == [] then []
    else
      var j := |cols| - 1;
      TopList(cols[..j]) + (if IsAggregateColumn(cols[j]) then [TopSpec(cols[j], j)] else [])
  }

  /** The coordinator's aggregates, when a coordinator node is wanted and every aggregate splits. */
  function TopAggs(cols: seq<AggResultColumn>, wanted: bool): Option<seq<AggSpec>> {
    if wanted && AllSplittable(cols) then Some(TopList(cols)) else None
  }

  /** The loop over the aggregate output columns: the partition-side aggregates, and the
      coordinator's, which are dropped for good at the first aggregate that cannot be split. */
  method BuildAggregates(cols: seq<AggResultColumn>, topWanted: bool) returns (dist: seq<AggSpec>, top: Option<seq<AggSpec>>)
    requires NoNestedAggregates(cols)
    ensures dist == DistAggs(cols)
    ensures top == TopAggs(cols, topWanted)
  {
    dist := [];
    var topLive := topWanted;
    var topAcc: seq<AggSpec> := [];
    var outputColumnIndex := 0;
    while outputColumnIndex < |cols|
      invariant 0 <= outputColumnIndex <= |cols|
      invariant dist == DistAggs(cols[..outputColumnIndex])
      invariant topLive <==> topWanted && AllSplittable(cols[..outputColumnIndex])
      invariant topLive ==> topAcc == TopList(cols[..outputColumnIndex])
    {
      var j := outputColumnIndex;
      var col := cols[j];
      assert cols[..j + 1][..j] == cols[..j];
      assert cols[..j + 1][j] == col;
      if col.expr.AggregateExpr? {
        dist := dist + [DistSpec(col, j)];
        if topLive {
          var topKind := CoordinatorAgg(col.expr.agg, col.expr.distinct);
          if topKind.None? {
            topLive := false;
          } else {
            topAcc := topAcc + [TopSpec(col, j)];
          }
        }
      }
      assert AllSplittable(cols[..j + 1]) <==>
        (AllSplittable(cols[..j]) && (IsAggregateColumn(col) ==> CoordinatorAgg(col.expr.agg, col.expr.distinct).Some?));
      outputColumnIndex := outputColumnIndex + 1;
    }
    assert cols[..|cols|] == cols;
    top := if topLive then Some(topAcc) else None;
  }

  lemma {:induction false} DistAggsMembers(cols: seq<AggResultColumn>)
    ensures forall j :: 0 <= j < |cols| && IsAggregateColumn(cols[j]) ==> DistSpec(cols[j], j) in DistAggs(cols)
    ensures forall s :: s in DistAggs(cols) ==> exists j :: 0 <= j < |cols| && IsAggregateColumn(cols[j]) && s == DistSpec(cols[j], j)
    ensures forall k :: 0 <= k < |DistAggs(cols)| ==>
      (DistAggs(cols)[k].outputColumn < |cols| && IsAggregateColumn(cols[DistAggs(cols)[k].outputColumn]) &&
       DistAggs(cols)[k] == DistSpec(cols[DistAggs(cols)[k].outputColumn], DistAggs(cols)[k].outputColumn))
    ensures forall k, m :: 0 <= k < m < |DistAggs(cols)| ==> DistAggs(cols)[k].outputColumn < DistAggs(cols)[m].outputColumn
    decreases |cols|
  {
    if cols != [] {
      var j := |cols| - 1;
      var pre := cols[..j];
      DistAggsMembers(pre);
      assert forall i :: 0 <= i < j ==> pre[i] == cols[i];
    }
  }

  /** The partition-side node computes exactly one aggregate per aggregate column, named by its
      position among the output columns, in column order. */
  lemma DistAggsCharacterization(cols: seq<AggResultColumn>)
    ensures forall s :: s in DistAggs(cols) <==> exists j :: 0 <= j < |cols| && IsAggregateColumn(cols[j]) && s == DistSpec(cols[j], j)
    ensures forall k, m :: 0 <= k < m < |DistAggs(cols)| ==> DistAggs(cols)[k].outputColumn < DistAggs(cols)[m].outputColumn
  {
    DistAggsMembers(cols);
  }

  /** When split, the coordinator has one aggregate per pushed-down one, on the same output
      column with the same DISTINCT flag, reading that column of the partition results, and its
      function is the split of the pushed-down one. */
  lemma {:induction false} TopMatchesDist(cols: seq<AggResultColumn>)
    requires AllSplittable(cols)
    ensures |TopList(cols)| == |DistAggs(cols)|
    ensures forall k :: 0 <= k < |TopList(cols)| ==>
      var d := DistAggs(cols)[k];
      var t := TopList(cols)[k];
      t.outputColumn == d.outputColumn && t.distinct == d.distinct && CoordinatorAgg(d.agg, d.distinct) == Some(t.agg) &&
      d.outputColumn < |cols| && IsAggregateColumn(cols[d.outputColumn]) && t.input == TempColumn(cols[d.outputColumn])
    decreases |cols|
  {
    if cols != [] {
      var j := |cols| - 1;
      var pre := cols[..j];
      assert AllSplittable(pre) by {
        assert forall i :: 0 <= i < j ==> pre[i] == cols[i];
      }
      TopMatchesDist(pre);
      var dist := DistAggs(cols);
      var top := TopList(cols);
      assert dist == DistAggs(pre) + (if IsAggregateColumn(cols[j]) then [DistSpec(cols[j], j)] else []);
      assert top == TopList(pre) + (if IsAggregateColumn(cols[j]) then [TopSpec(cols[j], j)] else []);
      forall k | 0 <= k < |top|
        ensures var d := dist[k];
          var t := top[k];
          t.outputColumn == d.outputColumn && t.distinct == d.distinct && CoordinatorAgg(d.agg, d.distinct) == Some(t.agg) &&
          d.outputColumn < |cols| && IsAggregateColumn(cols[d.outputColumn]) && t.input == TempColumn(cols[d.outputColumn])
      {
        if k < |TopList(pre)| {
          assert top[k] == TopList(pre)[k] && dist[k] == DistAggs(pre)[k];
          assert pre[dist[k].outputColumn] == cols[dist[k].outputColumn];
        } else {
          assert top[k] == TopSpec(cols[j], j) && dist[k] == DistSpec(cols[j], j);
        }
      }
    }
  }

  /** The coordinator aggregate exists exactly when it is wanted and every aggregate splits. */
  lemma TopAggsExist(cols: seq<AggResultColumn>, wanted: bool)
    ensures TopAggs(cols, wanted).Some? <==>
      wanted && forall j :: 0 <= j < |cols| && IsAggregateColumn(cols[j]) ==> CoordinatorAgg(cols[j].expr.agg, cols[j].expr.distinct).Some?
  {
  }

  /** An average (or any aggregate that does not split) anywhere among the columns cancels the
      coordinator aggregate. */
  lemma AverageCancelsSplit(cols: seq<AggResultColumn>, wanted: bool, j: nat)
    requires j < |cols| && cols[j].expr.AggregateExpr? && cols[j].expr.agg == Avg
    ensures TopAggs(cols, wanted).None?
  {
  }

  /** `SELECT COUNT(*)`: each partition counts, the coordinator sums the counts. */
  lemma CountStarSplitsIntoSum(arg: Expr, alias: string, vtype: int, vsize: int)
    ensures var cols := [AggResultColumn(AggregateExpr(CountStar, false, arg, vtype, vsize), alias)];
      DistAggs(cols) == [AggSpec(CountStar, false, 0, arg)] &&
      TopAggs(cols, true) == Some([AggSpec(Sum, false, 0, ColumnValue("VOLT_TEMP_TABLE", alias, vtype, vsize, false))])
  {
    var cols := [AggResultColumn(AggregateExpr(CountStar, false, arg, vtype, vsize), alias)];
    assert cols[..0] == [];
    assert DistAggs(cols) == DistAggs(cols[..0]) + [DistSpec(cols[0], 0)];
    assert AllSplittable(cols);
    assert TopList(cols) == TopList(cols[..0]) + [TopSpec(cols[0], 0)];
    assert TopList(cols[..0]) == [];
    assert TopSpec(cols[0], 0) == AggSpec(Sum, false, 0, ColumnValue("VOLT_TEMP_TABLE", alias, vtype, vsize, false));
    assert TopAggs(cols, true) == Some(TopList(cols));
    assert TopList(cols) == [AggSpec(Sum, false, 0, ColumnValue("VOLT_TEMP_TABLE", alias, vtype, vsize, false))];
    assert TopAggs(cols, true) == Some([AggSpec(Sum, false, 0, ColumnValue("VOLT_TEMP_TABLE", alias, vtype, vsize, false))]);
  }

  // ---------------------------------------------------------------------------------------------
  // Hash or serial aggregation

  /** Whether per-group aggregates need a hash: only for GROUP BY, and not when an index scan
      chosen for the grouping delivers the groups in order, or when an ordered index scan or join
      delivers the ORDER BY order and the GROUP BY columns are a permutation of its prefix. */
  function NeedHashAggregate(root: Plan, stmt: SelectStmt): bool {
    if !stmt.isGrouped then false
    else if root.kind.IndexScan? then
      if root.kind.sortDirection == InvalidDirection then !root.kind.forGroupingOnly
      else !stmt.groupByIsAnOrderByPermutation
    else if IsJoin(root.kind) && root.kind.sortDirection != InvalidDirection then !stmt.groupByIsAnOrderByPermutation
    else true
  }

  /** The hash decision as one condition. */
  lemma NeedHashAggregateIff(root: Plan, stmt: SelectStmt)
    ensures !NeedHashAggregate(root, stmt) <==>
      || !stmt.isGrouped
      || (root.kind.IndexScan? && root.kind.sortDirection == InvalidDirection && root.kind.forGroupingOnly)
      || ((root.kind.IndexScan? || IsJoin(root.kind)) && root.kind.sortDirection != InvalidDirection && stmt.groupByIsAnOrderByPermutation)
  {
  }

  /** Whether the partition-side node hashes, and whether there is a coordinator node and it
      hashes. A materialized-view fix never gets a coordinator node; an index scan pushed below
      the receive for the grouping lets the partitions aggregate serially. */
  function AggregateNodeTypes(needHash: bool, mvFixNeeded: bool, groupingIndexScan: bool): (bool, Option<bool>) {
    if needHash then
      if mvFixNeeded then (true, None) else (!groupingIndexScan, Some(true))
    else (false, if mvFixNeeded then None else Some(false))
  }

  lemma AggregateNodeTypesFacts(needHash: bool, mvFixNeeded: bool, groupingIndexScan: bool)
    ensures AggregateNodeTypes(needHash, mvFixNeeded, groupingIndexScan).1.Some? <==> !mvFixNeeded
    ensures AggregateNodeTypes(needHash, mvFixNeeded, groupingIndexScan).1.Some? ==>
      AggregateNodeTypes(needHash, mvFixNeeded, groupingIndexScan).1.value == needHash
    ensures AggregateNodeTypes(needHash, mvFixNeeded, groupingIndexScan).0 <==>
      needHash && (mvFixNeeded || !groupingIndexScan)
  {
  }

  // ---------------------------------------------------------------------------------------------
  // Push-down

  /** `pushDownAggregate`: with a coordinator node and a distributed plan, the partition-side
      aggregate goes under the send node and the coordinator aggregate (with HAVING) on top,
      unless GROUP BY includes the partition column, in which case the partition-side aggregate
      is final and takes HAVING; otherwise the aggregate goes on top with HAVING. Complex
      aggregation adds the final projection. */
  function PushDownAggregate(root: Plan, distNode: Kind, coordNode: Option<Kind>, stmt: SelectStmt): Plan
    requires distNode.Aggregate? && (coordNode.Some? ==> coordNode.value.Aggregate?)
    requires Paired(root)
  {
    var r := PlaceAggregates(root, distNode, coordNode, stmt);
    if stmt.hasComplexAgg then Over(Projection(stmt.finalSchema), r) else r
  }

  /** The aggregate nodes placed around the fragment boundary, before any final projection. */
  function PlaceAggregates(root: Plan, distNode: Kind, coordNode: Option<Kind>, stmt: SelectStmt): Plan
    requires distNode.Aggregate? && (coordNode.Some? ==> coordNode.value.Aggregate?)
    requires Paired(root)
  {
    var needCoordNode := !stmt.partitionColumnInGroupby;
    if coordNode.Some? && root.kind.Receive? then
      var send := root.children[0];
      var inner := send.children[0];
      if needCoordNode then
        Over(coordNode.value.(coordinating := true, postPredicate := stmt.having),
             WithOnlyChild(root, WithOnlyChild(send, Over(distNode, inner))))
      else
        WithOnlyChild(root, WithOnlyChild(send, Over(distNode.(postPredicate := stmt.having), inner)))
    else Over(distNode.(postPredicate := stmt.having), root)
  }

  /** The push-down keeps the fragment boundary: the same number of receive nodes, each on its
      send node. */
  lemma PushDownAggregateFacts(root: Plan, distNode: Kind, coordNode: Option<Kind>, stmt: SelectStmt)
    requires distNode.Aggregate? && (coordNode.Some? ==> coordNode.value.Aggregate?)
    requires Paired(root)
    ensures Paired(PushDownAggregate(root, distNode, coordNode, stmt))
    ensures CountReceives(PushDownAggregate(root, distNode, coordNode, stmt)) == CountReceives(root)
  {
    var r := PlaceAggregates(root, distNode, coordNode, stmt);
    if coordNode.Some? && root.kind.Receive? {
      var send := root.children[0];
      var inner := send.children[0];
      var dn := if !stmt.partitionColumnInGroupby then distNode else distNode.(postPredicate := stmt.having);
      assert root == WithOnlyChild(root, send) && send == WithOnlyChild(send, inner);
      WithOnlyChildFacts(root, send);
      WithOnlyChildFacts(send, inner);
      OverFacts(dn, inner);
      WithOnlyChildFacts(send, Over(dn, inner));
      var x := WithOnlyChild(root, WithOnlyChild(send, Over(dn, inner)));
      WithOnlyChildFacts(root, WithOnlyChild(send, Over(dn, inner)));
      if !stmt.partitionColumnInGroupby {
        OverFacts(coordNode.value.(coordinating := true, postPredicate := stmt.having), x);
      }
    } else {
      OverFacts(distNode.(postPredicate := stmt.having), root);
    }
    OverFacts(Projection(stmt.finalSchema), r);
  }

  /** `needProjectionNode`: aggregate, distinct and projection roots already produce the output
      columns, as does a complex GROUP BY; so does a receive whose coordinator aggregate was left
      out because GROUP BY includes the partition column. */
  function NeedProjectionNode(root: Plan, stmt: SelectStmt): bool {
    if root.kind.Aggregate? || root.kind.Distinct? || root.kind.Projection? then false
    else if stmt.hasComplexGroupby then false
    else if root.kind.Receive? && stmt.partitionColumnInGroupby then false
    else true
  }

  /** After the aggregate push-down no extra projection is ever needed: the root is an
      aggregate, the final projection, or (GROUP BY on the partition column) the receive node. */
  lemma NoProjectionAfterPushDown(root: Plan, distNode: Kind, coordNode: Option<Kind>, stmt: SelectStmt)
    requires distNode.Aggregate? && (coordNode.Some? ==> coordNode.value.Aggregate?)
    requires Paired(root)
    ensures !NeedProjectionNode(PushDownAggregate(root, distNode, coordNode, stmt), stmt)
  {
  }

  /** DISTINCT adds nothing to a grouped result that displays every GROUP BY column, or to the
      single row of an ungrouped aggregate. */
  predicate DistinctIsRedundant(stmt: SelectStmt) {
    if stmt.isGrouped then stmt.displayColumnsContainAllGroupByColumns else stmt.hasAggregateExpression
  }

  /** The aggregate nodes for the statement, pushed down where possible. */
  function AggregatedPlan(root: Plan, stmt: SelectStmt, groupingIndexScan: bool): (r: Plan)
    requires Paired(root) && NoNestedAggregates(stmt.aggResultColumns)
    ensures Paired(r) && CountReceives(r) == CountReceives(root) && !NeedProjectionNode(r, stmt)
  {
    var types := AggregateNodeTypes(NeedHashAggregate(root, stmt), stmt.mvFixNeeded, groupingIndexScan);
    var cols := stmt.aggResultColumns;
    var top := TopAggs(cols, types.1.Some?);
    var coordNode := if top.Some? then Some(Aggregate(types.1.value, top.value, false, None)) else None;
    var distNode := Aggregate(types.0, DistAggs(cols), false, None);
    PushDownAggregateFacts(root, distNode, coordNode, stmt);
    NoProjectionAfterPushDown(root, distNode, coordNode, stmt);
    PushDownAggregate(root, distNode, coordNode, stmt)
  }

  /** `handleAggregationOperators`, after any index substitution for GROUP BY (which is not part
      of this model: `root` is the plan after it, `groupingIndexScan` tells whether it happened). */
  function HandleAggregationOperators(root: Plan, stmt: SelectStmt, groupingIndexScan: bool): (r: Result<Plan>)
    requires Paired(root) && NoNestedAggregates(stmt.aggResultColumns)
    ensures var aggregated := if stmt.hasAggregateOrGroupby then AggregatedPlan(root, stmt, groupingIndexScan) else root;
      && (DistinctIsRedundant(stmt) ==> r == Ok(aggregated))
      && (!DistinctIsRedundant(stmt) ==> r == HandleDistinct(aggregated, stmt))
  {
    var aggregated := if stmt.hasAggregateOrGroupby then AggregatedPlan(root, stmt, groupingIndexScan) else root;
    if DistinctIsRedundant(stmt) then Ok(aggregated) else HandleDistinct(aggregated, stmt)
  }

  /** The rule keeps the fragment boundary. When DISTINCT is redundant it cannot fail and its
      root is the aggregation's own output (an aggregate, the final projection, or the receive
      of a plan grouped on the partition column), never a distinct node; otherwise a DISTINCT
      over plain columns ends in the final projection over the coordinator's distinct node. */
  lemma HandleAggregationDistinct(root: Plan, stmt: SelectStmt, groupingIndexScan: bool)
    requires Paired(root) && NoNestedAggregates(stmt.aggResultColumns)
    ensures var r := HandleAggregationOperators(root, stmt, groupingIndexScan);
      && (r.Ok? ==> Paired(r.value) && CountReceives(r.value) == CountReceives(root))
      && (DistinctIsRedundant(stmt) && stmt.hasAggregateOrGroupby ==>
            r.Ok? && !r.value.kind.Distinct? && !NeedProjectionNode(r.value, stmt) &&
            (r.value.kind.Aggregate? || r.value.kind.Projection? || r.value.kind.Receive?))
      && (!DistinctIsRedundant(stmt) && stmt.hasDistinct && AllColumnRefs(stmt.displayColumns) ==>
            r.Ok? && r.value.kind == Projection(stmt.finalSchema) && |r.value.children| == 1 &&
            r.value.children[0].kind == Distinct(stmt.displayColumns))
  {
    var aggregated := if stmt.hasAggregateOrGroupby then AggregatedPlan(root, stmt, groupingIndexScan) else root;
    HandleDistinctFacts(aggregated, stmt);
    AddDistinctNodesFacts(aggregated, stmt.displayColumns, stmt);
  }

  /** `SELECT COUNT(*) FROM t` on a partitioned table: the partitions count under the send node
      and the coordinator sums the counts above the receive node. */
  lemma CountStarPlan(root: Plan, stmt: SelectStmt, arg: Expr, alias: string, vtype: int, vsize: int)
    requires root.kind.Receive? && Paired(root)
    requires stmt.aggResultColumns == [AggResultColumn(AggregateExpr(CountStar, false, arg, vtype, vsize), alias)]
    requires stmt.hasAggregateOrGroupby && stmt.hasAggregateExpression && !stmt.isGrouped
    requires !stmt.mvFixNeeded && !stmt.partitionColumnInGroupby && !stmt.hasComplexAgg
    ensures var r := HandleAggregationOperators(root, stmt, false);
      && r.Ok?
      && r.value.kind == Aggregate(false, [AggSpec(Sum, false, 0, ColumnValue("VOLT_TEMP_TABLE", alias, vtype, vsize, false))], true, stmt.having)
      && r.value.children == [WithOnlyChild(root, WithOnlyChild(root.children[0],
           Over(Aggregate(false, [AggSpec(CountStar, false, 0, arg)], false, None), root.children[0].children[0])))]
  {
    CountStarSplitsIntoSum(arg, alias, vtype, vsize);
  }
}
