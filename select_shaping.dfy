/** Shaping of a SELECT plan above the table-access part: ORDER BY, LIMIT and its push-down below
    the fragment boundary, DISTINCT, the final projection, and the re-attachment of sub-query plans.
    Plans are values; each rewrite returns the new root. */
module SelectShaping {
  import opened Common
  import opened PlanNodes

  datatype OrderColumn = OrderColumn(expr: Expr, ascending: bool)

  /** A LIMIT/OFFSET pair, as in a limit plan node. */
  datatype LimitSpec = LimitSpec(limit: int, offset: int)

  function LimitNode(l: LimitSpec): Kind {
    Limit(l.limit, l.offset)
  }

  /** One output column of the aggregation (`m_aggResultColumns`). */
  datatype AggResultColumn = AggResultColumn(expr: Expr, alias: string)

  /** The parts of a parsed SELECT statement that the shaping rules consult. `topLimit` and
      `distLimit` are the statement's coordinator and distributed limit nodes. */
  datatype SelectStmt = SelectStmt(
    orderColumns: seq<OrderColumn>,
    hasDistinct: bool,
    displayColumns: seq<Expr>,
    finalSchema: seq<SchemaColumn>,
    mvFixNeeded: bool,
    limitCanPushdown: bool,
    topLimit: LimitSpec,
    distLimit: LimitSpec,
    hasComplexAgg: bool,
    hasComplexGroupby: bool,
    partitionColumnInGroupby: bool,
    hasAggregateOrGroupby: bool,
    isGrouped: bool,
    groupByIsAnOrderByPermutation: bool,
    hasAggregateExpression: bool,
    displayColumnsContainAllGroupByColumns: bool,
    aggResultColumns: seq<AggResultColumn>,
    having: Option<Expr>)

  // ---------------------------------------------------------------------------------------------
  // ORDER BY

  function SortOf(c: OrderColumn): SortKey {
    SortKey(c.expr, if c.ascending then Ascending else Descending)
  }

  function OrderSorts(cols: seq<OrderColumn>): seq<SortKey> {
    seq(|cols|, i requires 0 <= i < |cols| => SortOf(cols[i]))
  }

  /** The order an access node already delivers: an index scan or a join reports a sort direction
      only when it matches the ORDER BY; a serial aggregate is looked through. */
  function ProvidedOrder(root: Plan): SortDirection {
    var n := if root.kind.Aggregate? && !root.kind.hashed && |root.children| > 0 then root.children[0] else root;
    if n.kind.IndexScan? || IsJoin(n.kind) then n.kind.sortDirection else InvalidDirection
  }

  /** `handleOrderBy`: a sort node is added on top exactly when the statement has an ORDER BY
      that the plan does not already deliver. */
  function HandleOrderBy(root: Plan, stmt: SelectStmt): (r: Plan)
    ensures |stmt.orderColumns| == 0 || ProvidedOrder(root) != InvalidDirection ==> r == root
    ensures |stmt.orderColumns| > 0 && ProvidedOrder(root) == InvalidDirection ==>
      r.kind == OrderBy(OrderSorts(stmt.orderColumns)) && r.children == [root] && r.inlines == []
  {
    if |stmt.orderColumns| == 0 then root
    else if ProvidedOrder(root) != InvalidDirection then root
    else Over(OrderBy(OrderSorts(stmt.orderColumns)), root)
  }

  /** After `handleOrderBy`, a statement with an ORDER BY is sorted: the root is a sort node or
      delivers the requested order itself. The fragment structure is untouched. */
  lemma HandleOrderBySorts(root: Plan, stmt: SelectStmt)
    ensures var r := HandleOrderBy(root, stmt);
      |stmt.orderColumns| > 0 ==> r.kind.OrderBy? || ProvidedOrder(r) != InvalidDirection
    ensures CountReceives(HandleOrderBy(root, stmt)) == CountReceives(root)
    ensures Paired(HandleOrderBy(root, stmt)) <==> Paired(root)
  {
    OverFacts(OrderBy(OrderSorts(stmt.orderColumns)), root);
  }

  // ---------------------------------------------------------------------------------------------
  // LIMIT push-down

  /** A column computed by an aggregate. */
  predicate HasAggregate(e: Expr) {
    e.ColumnValue? && e.hasAggregate
  }

  /** Does an ORDER BY column read an aggregated value (ENG-3487), when GROUP BY does not
      include the partition column? */
  predicate SortsOnAggregate(stmt: SelectStmt) {
    !stmt.partitionColumnInGroupby &&
    exists i, j :: 0 <= i < |stmt.orderColumns| && 0 <= j < |BaseColumns(stmt.orderColumns[i].expr)| &&
      HasAggregate(BaseColumns(stmt.orderColumns[i].expr)[j])
  }

  /** The node types a limit may be pushed past on the way down to the receive node. */
  predicate Passable(p: Plan, stmt: SelectStmt) {
    (p.kind.Aggregate? && p.kind.coordinating) || p.kind.Projection? || (p.kind.OrderBy? && !SortsOnAggregate(stmt))
  }

  /** `checkPushDownViability`: walking first children from the root, the send node under the
      first receive node, if only passable nodes lie on the way. */
  function PushDownSend(p: Plan, stmt: SelectStmt): (r: Option<Plan>)
    requires Paired(p)
    ensures r.Some? ==> r.value.kind.Send? && |r.value.children| == 1 && Paired(r.value)
    decreases p
  {
    if p.kind.Receive? then Some(p.children[0])
    else if !Passable(p, stmt) || |p.children| == 0 then None
    else PushDownSend(p.children[0], stmt)
  }

  /** The nodes on the first-child path from `p` down to a leaf. */
  function Spine(p: Plan): (r: seq<Plan>)
    ensures |r| > 0 && r[0] == p
    decreases p
  {
    [p] + (if |p.children| > 0 then Spine(p.children[0]) else [])
  }

  lemma {:induction false} SpinePaired(p: Plan, d: nat)
    requires Paired(p) && d < |Spine(p)|
    ensures Paired(Spine(p)[d])
    decreases p
  {
    if d > 0 {
      SpinePaired(p.children[0], d - 1);
    }
  }

  /** The push-down target at depth `d` of the first-child path: a receive node with every node
      above it passable, and `s` its child. */
  predicate TargetAt(p: Plan, stmt: SelectStmt, d: nat, s: Plan) {
    d < |Spine(p)| && Spine(p)[d].kind.Receive? && |Spine(p)[d].children| > 0 &&
    s == Spine(p)[d].children[0] && forall k :: 0 <= k < d ==> Passable(Spine(p)[k], stmt)
  }

  lemma TargetAtStep(p: Plan, stmt: SelectStmt, d: nat, s: Plan)
    requires |p.children| > 0 && d > 0
    ensures TargetAt(p, stmt, d, s) <==> Passable(p, stmt) && TargetAt(p.children[0], stmt, d - 1, s)
  {
    var c := p.children[0];
    assert Spine(p) == [p] + Spine(c);
    if TargetAt(p, stmt, d, s) {
      assert Passable(Spine(p)[0], stmt);
      forall k | 0 <= k < d - 1
        ensures Passable(Spine(c)[k], stmt)
      {
        assert Spine(c)[k] == Spine(p)[k + 1];
      }
    }
    if Passable(p, stmt) && TargetAt(c, stmt, d - 1, s) {
      forall k | 0 <= k < d
        ensures Passable(Spine(p)[k], stmt)
      {
        if k > 0 {
          assert Spine(p)[k] == Spine(c)[k - 1];
        }
      }
    }
  }

  /** Soundness of the walk: the send it finds is the child of a receive on the first-child path,
      reached through passable nodes only. */
  lemma {:induction false} PushDownSendDepth(p: Plan, stmt: SelectStmt) returns (d: nat)
    requires Paired(p) && PushDownSend(p, stmt).Some?
    ensures TargetAt(p, stmt, d, PushDownSend(p, stmt).value)
    decreases p
  {
    if p.kind.Receive? {
      d := 0;
    } else {
      var d' := PushDownSendDepth(p.children[0], stmt);
      d := d' + 1;
      TargetAtStep(p, stmt, d, PushDownSend(p, stmt).value);
    }
  }

  /** Completeness of the walk: a receive on the first-child path below passable nodes only is
      found, and its child is returned. */
  lemma {:induction false} PushDownSendFinds(p: Plan, stmt: SelectStmt, d: nat, s: Plan)
    requires Paired(p) && TargetAt(p, stmt, d, s)
    ensures PushDownSend(p, stmt) == Some(s)
    decreases d
  {
    if d > 0 {
      assert !p.kind.Receive? by {
        assert Passable(Spine(p)[0], stmt);
      }
      assert |p.children| > 0 by {
        assert Spine(p) == [p] + (if |p.children| > 0 then Spine(p.children[0]) else []);
      }
      TargetAtStep(p, stmt, d, s);
      PushDownSendFinds(p.children[0], stmt, d - 1, s);
    }
  }

  /** Both directions: the walk returns `s` exactly when `s` is the push-down target at some
      depth of the first-child path. */
  lemma PushDownSendOnSpine(p: Plan, stmt: SelectStmt, s: Plan)
    requires Paired(p)
    ensures PushDownSend(p, stmt) == Some(s) <==> exists d: nat :: TargetAt(p, stmt, d, s)
  {
    if PushDownSend(p, stmt) == Some(s) {
      var d := PushDownSendDepth(p, stmt);
    }
    if exists d: nat :: TargetAt(p, stmt, d, s) {
      var d: nat :| TargetAt(p, stmt, d, s);
      PushDownSendFinds(p, stmt, d, s);
    }
  }

  /** `checkPushDownViability` as written: a loop down the first children, with the ORDER BY
      columns and their base columns scanned for aggregated values at each sort node. */
  method CheckPushDownViability(root: Plan, stmt: SelectStmt) returns (send: Option<Plan>)
    requires Paired(root)
    ensures send == PushDownSend(root, stmt)
  {
    var node := root;
    while !node.kind.Receive?
      invariant Paired(node) && PushDownSend(node, stmt) == PushDownSend(root, stmt)
      decreases node
    {
      if !node.kind.Aggregate? && !node.kind.OrderBy? && !node.kind.Projection? {
        return None;
      }
      if node.kind.Aggregate? && !node.kind.coordinating {
        return None;
      }
      if node.kind.OrderBy? {
        var i := 0;
        while i < |stmt.orderColumns|
          invariant 0 <= i <= |stmt.orderColumns|
          invariant stmt.partitionColumnInGroupby || forall m, j :: 0 <= m < i && 0 <= j < |BaseColumns(stmt.orderColumns[m].expr)| ==>
            !HasAggregate(BaseColumns(stmt.orderColumns[m].expr)[j])
        {
          var tves := BaseColumns(stmt.orderColumns[i].expr);
          for j := 0 to |tves|
            invariant stmt.partitionColumnInGroupby || forall m :: 0 <= m < j ==> !HasAggregate(tves[m])
          {
            if HasAggregate(tves[j]) && !stmt.partitionColumnInGroupby {
              assert SortsOnAggregate(stmt);
              return None;
            }
          }
          i := i + 1;
        }
        assert !SortsOnAggregate(stmt) by {
          if SortsOnAggregate(stmt) {
            var m, j :| 0 <= m < |stmt.orderColumns| && 0 <= j < |BaseColumns(stmt.orderColumns[m].expr)| &&
              HasAggregate(BaseColumns(stmt.orderColumns[m].expr)[j]);
            assert m < i;
            assert !HasAggregate(BaseColumns(stmt.orderColumns[m].expr)[j]);
          }
        }
      }
      if |node.children| == 0 {
        return None;
      }
      node := node.children[0];
    }
    send := Some(node.children[0]);
  }

  /** The plan with the child of its push-down send node replaced by `c` (`sendNode.clearChildren()`
      and `sendNode.addAndLinkChild(c)`). */
  function ReplaceSendChild(p: Plan, stmt: SelectStmt, c: Plan): (r: Plan)
    requires Paired(p) && PushDownSend(p, stmt).Some?
    ensures r.kind == p.kind && r.inlines == p.inlines && |r.children| == |p.children|
    decreases p
  {
    if p.kind.Receive? then WithOnlyChild(p, WithOnlyChild(p.children[0], c))
    else WithFirstChild(p, ReplaceSendChild(p.children[0], stmt, c))
  }

  /** Replacing the child of the push-down send keeps the pairing, and changes the receive count
      only by the difference between the old and the new child. */
  lemma {:induction false} ReplaceSendChildFacts(p: Plan, stmt: SelectStmt, c: Plan)
    requires Paired(p) && PushDownSend(p, stmt).Some? && Paired(c)
    ensures Paired(ReplaceSendChild(p, stmt, c))
    ensures CountReceives(ReplaceSendChild(p, stmt, c)) + CountReceives(PushDownSend(p, stmt).value.children[0])
        == CountReceives(p) + CountReceives(c)
    decreases p
  {
    if p.kind.Receive? {
      var send := p.children[0];
      WithOnlyChildFacts(send, c);
      WithOnlyChildFacts(p, WithOnlyChild(send, c));
      CountReceivesInSingleton(send);
      CountReceivesInSingleton(send.children[0]);
    } else {
      ReplaceSendChildFacts(p.children[0], stmt, c);
      WithFirstChildFacts(p, ReplaceSendChild(p.children[0], stmt, c));
    }
  }

  /** After the replacement the walk finds the same send node with `c` as its only child, and
      putting the old child back gives the original plan: nothing else on the way changed. */
  lemma {:induction false} ReplaceSendChildTarget(p: Plan, stmt: SelectStmt, c: Plan)
    requires Paired(p) && PushDownSend(p, stmt).Some? && Paired(c)
    ensures var r := ReplaceSendChild(p, stmt, c);
      var send := PushDownSend(p, stmt).value;
      && Paired(r)
      && PushDownSend(r, stmt) == Some(WithOnlyChild(send, c))
      && ReplaceSendChild(r, stmt, send.children[0]) == p
    decreases p
  {
    ReplaceSendChildFacts(p, stmt, c);
    var r := ReplaceSendChild(p, stmt, c);
    var send := PushDownSend(p, stmt).value;
    if p.kind.Receive? {
      assert p.children == [send] && send.children == [send.children[0]];
    } else {
      var r0 := ReplaceSendChild(p.children[0], stmt, c);
      ReplaceSendChildTarget(p.children[0], stmt, c);
      assert r.children[0] == r0 && Passable(r, stmt);
      assert ReplaceSendChild(r, stmt, send.children[0]) == WithFirstChild(r, p.children[0]);
      assert WithFirstChild(r, p.children[0]).children == p.children;
    }
  }

  /** The limit kinds among the inline nodes of `p`. */
  predicate OnlyLimitInline(p: Plan, l: LimitSpec) {
    LimitNode(l) in p.inlines && forall j :: j in p.inlines && j.Limit? ==> j == LimitNode(l)
  }

  /** The distributed limit placed under the send: inlined into the partition side's sort node
      when it needs (or already has) one, replacing any limit inlined there before, else a new
      limit node on top of the partition plan. */
  function DistributedLimit(d: Plan, stmt: SelectStmt): (r: Plan)
    ensures var sorted := HandleOrderBy(d, stmt);
      && (sorted.kind.OrderBy? ==>
            && r.kind == sorted.kind && r.children == sorted.children
            && OnlyLimitInline(r, stmt.distLimit)
            && forall j :: j in sorted.inlines && !j.Limit? ==> j in r.inlines)
      && (!sorted.kind.OrderBy? ==> r == Over(LimitNode(stmt.distLimit), d))
  {
    var sorted := HandleOrderBy(d, stmt);
    if sorted.kind.OrderBy? then AddInline(sorted, LimitNode(stmt.distLimit))
    else Over(LimitNode(stmt.distLimit), sorted)
  }

  lemma DistributedLimitFacts(d: Plan, stmt: SelectStmt)
    ensures CountReceives(DistributedLimit(d, stmt)) == CountReceives(d)
    ensures Paired(DistributedLimit(d, stmt)) <==> Paired(d)
  {
    HandleOrderBySorts(d, stmt);
    var sorted := HandleOrderBy(d, stmt);
    OverFacts(LimitNode(stmt.distLimit), sorted);
  }

  /** `n` carries the limit `l`: it is that limit node, or has it inlined. */
  predicate CarriesLimit(n: Plan, l: LimitSpec) {
    n.kind == LimitNode(l) || LimitNode(l) in n.inlines
  }

  /** The coordinator's limit: with complex aggregation it goes right under the root projection
      (inlined into a sort node there, or as a limit node that becomes the projection's only
      child); otherwise it is inlined into a sort node at the root or under a root projection,
      or becomes the new root. */
  function TopLimit(root: Plan, stmt: SelectStmt): (r: Plan)
    requires stmt.hasComplexAgg ==> |root.children| > 0
    ensures var top := stmt.topLimit;
      && (stmt.hasComplexAgg ==>
            var child := root.children[0];
            && r.kind == root.kind && r.inlines == root.inlines
            && (child.kind.OrderBy? ==>
                  |r.children| == |root.children| && r.children[1..] == root.children[1..] &&
                  r.children[0].kind == child.kind && r.children[0].children == child.children && OnlyLimitInline(r.children[0], top) &&
                  forall j :: j in child.inlines && !j.Limit? ==> j in r.children[0].inlines)
            && (!child.kind.OrderBy? ==> r.children == [Over(LimitNode(top), child)]))
      && (!stmt.hasComplexAgg && root.kind.OrderBy? ==>
            && r.kind == root.kind && r.children == root.children && OnlyLimitInline(r, top)
            && forall j :: j in root.inlines && !j.Limit? ==> j in r.inlines)
      && (!stmt.hasComplexAgg && root.kind.Projection? && |root.children| > 0 && root.children[0].kind.OrderBy? ==>
            && r.kind == root.kind && r.inlines == root.inlines && |r.children| == |root.children|
            && r.children[1..] == root.children[1..]
            && r.children[0].kind == root.children[0].kind && r.children[0].children == root.children[0].children
            && OnlyLimitInline(r.children[0], top)
            && forall j :: j in root.children[0].inlines && !j.Limit? ==> j in r.children[0].inlines)
      && (!stmt.hasComplexAgg && !root.kind.OrderBy? && !(root.kind.Projection? && |root.children| > 0 && root.children[0].kind.OrderBy?) ==>
            r == Over(LimitNode(top), root))
      && (CarriesLimit(r, top) || (|r.children| > 0 && CarriesLimit(r.children[0], top)))
  {
    var top := LimitNode(stmt.topLimit);
    if stmt.hasComplexAgg then
      var child := root.children[0];
      if child.kind.OrderBy? then WithFirstChild(root, AddInline(child, top))
      else WithOnlyChild(root, Over(top, child))
    else if root.kind.OrderBy? then AddInline(root, top)
    else if root.kind.Projection? && |root.children| > 0 && root.children[0].kind.OrderBy? then
      WithFirstChild(root, AddInline(root.children[0], top))
    else Over(top, root)
  }

  /** Whether `handleLimitOperator` pushes a copy of the limit below the fragment boundary. */
  predicate PushesLimitDown(root: Plan, stmt: SelectStmt)
    requires Paired(root)
  {
    !stmt.hasDistinct && PushDownSend(root, stmt).Some? && stmt.limitCanPushdown && !stmt.mvFixNeeded
  }

  /** The push-down half of `handleLimitOperator`: when the limit can be pushed down, the send
      node's only child becomes the distributed limit over the partition plan, and nothing else
      changes; otherwise the plan is left as it is. The fragment boundary is kept either way. */
  function PushLimitDown(root: Plan, stmt: SelectStmt): (pushed: Plan)
    requires Paired(root)
    ensures Paired(pushed) && CountReceives(pushed) == CountReceives(root)
    ensures pushed.kind == root.kind && pushed.inlines == root.inlines && |pushed.children| == |root.children|
    ensures !PushesLimitDown(root, stmt) ==> pushed == root
    ensures PushesLimitDown(root, stmt) ==>
      var send := PushDownSend(root, stmt).value;
      var d := send.children[0];
      && PushDownSend(pushed, stmt) == Some(WithOnlyChild(send, DistributedLimit(d, stmt)))
      && ReplaceSendChild(pushed, stmt, d) == root
  {
    if PushesLimitDown(root, stmt) then
      var send := PushDownSend(root, stmt).value;
      var d := send.children[0];
      var dl := DistributedLimit(d, stmt);
      DistributedLimitFacts(d, stmt);
      ReplaceSendChildFacts(root, stmt, dl);
      ReplaceSendChildTarget(root, stmt, dl);
      ReplaceSendChild(root, stmt, dl)
    else root
  }

  /** `handleLimitOperator`: the distributed limit is pushed below the send when possible, then
      the coordinator's limit is placed; the result always carries the coordinator's limit, at
      the root or in the root's first child. */
  function HandleLimitOperator(root: Plan, stmt: SelectStmt): (r: Plan)
    requires Paired(root)
    requires stmt.hasComplexAgg ==> |root.children| > 0
    ensures CarriesLimit(r, stmt.topLimit) || (|r.children| > 0 && CarriesLimit(r.children[0], stmt.topLimit))
  {
    TopLimit(PushLimitDown(root, stmt), stmt)
  }

  /** The coordinator's limit adds no fragment boundary and keeps the pairing; with complex
      aggregation the root is the single-child final projection. */
  lemma TopLimitFacts(root: Plan, stmt: SelectStmt)
    requires stmt.hasComplexAgg ==> |root.children| == 1 && !root.kind.Receive?
    ensures CountReceives(TopLimit(root, stmt)) == CountReceives(root)
    ensures Paired(TopLimit(root, stmt)) <==> Paired(root)
  {
    if stmt.hasComplexAgg {
      TopLimitUnderProjection(root, stmt);
    } else {
      TopLimitAtRoot(root, stmt);
    }
  }

  lemma TopLimitUnderProjection(root: Plan, stmt: SelectStmt)
    requires stmt.hasComplexAgg && |root.children| == 1 && !root.kind.Receive?
    ensures CountReceives(TopLimit(root, stmt)) == CountReceives(root)
    ensures Paired(TopLimit(root, stmt)) <==> Paired(root)
  {
    var top := LimitNode(stmt.topLimit);
    var child := root.children[0];
    assert root == WithOnlyChild(root, child);
    WithOnlyChildFacts(root, child);
    if child.kind.OrderBy? {
      AddInlineFacts(child, top);
      WithFirstChildFacts(root, AddInline(child, top));
    } else {
      OverFacts(top, child);
      WithOnlyChildFacts(root, Over(top, child));
    }
  }

  lemma TopLimitAtRoot(root: Plan, stmt: SelectStmt)
    requires !stmt.hasComplexAgg
    ensures CountReceives(TopLimit(root, stmt)) == CountReceives(root)
    ensures Paired(TopLimit(root, stmt)) <==> Paired(root)
  {
    var top := LimitNode(stmt.topLimit);
    if root.kind.OrderBy? {
      AddInlineFacts(root, top);
    } else if root.kind.Projection? && |root.children| > 0 && root.children[0].kind.OrderBy? {
      AddInlineFacts(root.children[0], top);
      WithFirstChildFacts(root, AddInline(root.children[0], top));
    } else {
      OverFacts(top, root);
    }
  }

  /** `handleLimitOperator` keeps the plan's fragment boundary: as many receive nodes as before,
      each still on its send node. */
  lemma HandleLimitKeepsFragments(root: Plan, stmt: SelectStmt)
    requires Paired(root)
    requires stmt.hasComplexAgg ==> |root.children| == 1 && !root.kind.Receive?
    ensures Paired(HandleLimitOperator(root, stmt))
    ensures CountReceives(HandleLimitOperator(root, stmt)) == CountReceives(root)
  {
    TopLimitFacts(PushLimitDown(root, stmt), stmt);
  }


  // ---------------------------------------------------------------------------------------------
  // DISTINCT and the final projection

  /** `addProjection`: the final projection is inlined into a scan, else put on top. */
  function AddProjection(root: Plan, stmt: SelectStmt): (r: Plan)
    ensures IsScan(root.kind) ==> r.kind == root.kind && r.children == root.children && Projection(stmt.finalSchema) in r.inlines
    ensures !IsScan(root.kind) ==> r.kind == Projection(stmt.finalSchema) && r.children == [root]
  {
    if IsScan(root.kind) then AddInline(root, Projection(stmt.finalSchema))
    else Over(Projection(stmt.finalSchema), root)
  }

  lemma AddProjectionFacts(root: Plan, stmt: SelectStmt)
    ensures CountReceives(AddProjection(root, stmt)) == CountReceives(root)
    ensures Paired(AddProjection(root, stmt)) <==> Paired(root)
  {
    OverFacts(Projection(stmt.finalSchema), root);
  }

  /** `addDistinctNodes`: a distinct node at the coordinator, and, for a distributed plan without
      a materialized-view fix, another one on each partition just under the send node. */
  function AddDistinctNodes(root: Plan, exprs: seq<Expr>, stmt: SelectStmt): Plan
    requires Paired(root)
  {
    var d := Distinct(exprs);
    var below :=
      if root.kind.Receive? && !stmt.mvFixNeeded then
        var send := root.children[0];
        WithOnlyChild(root, WithOnlyChild(send, Over(d, send.children[0])))
      else root;
    Over(d, below)
  }

  /** The coordinator always deduplicates; a distributed plan also deduplicates on each
      partition, unless a materialized-view fix is needed. The fragment boundary is kept. */
  lemma AddDistinctNodesFacts(root: Plan, exprs: seq<Expr>, stmt: SelectStmt)
    requires Paired(root)
    ensures var r := AddDistinctNodes(root, exprs, stmt);
      r.kind == Distinct(exprs) && |r.children| == 1 && Paired(r) && CountReceives(r) == CountReceives(root)
    ensures var r := AddDistinctNodes(root, exprs, stmt);
      root.kind.Receive? && !stmt.mvFixNeeded ==>
        r.children[0].kind.Receive? && r.children[0].children[0].children[0].kind == Distinct(exprs) &&
        r.children[0].children[0].children[0].children == [root.children[0].children[0]]
  {
    var d := Distinct(exprs);
    if root.kind.Receive? && !stmt.mvFixNeeded {
      var send := root.children[0];
      var inner := send.children[0];
      OverFacts(d, inner);
      WithOnlyChildFacts(send, Over(d, inner));
      WithOnlyChildFacts(root, WithOnlyChild(send, Over(d, inner)));
      assert root == WithOnlyChild(root, send) && send == WithOnlyChild(send, inner);
      WithOnlyChildFacts(root, send);
      WithOnlyChildFacts(send, inner);
      OverFacts(d, WithOnlyChild(root, WithOnlyChild(send, Over(d, inner))));
    } else {
      OverFacts(d, root);
    }
  }

  /** The display columns are all plain column references. */
  predicate AllColumnRefs(cols: seq<Expr>) {
    forall i :: 0 <= i < |cols| ==> cols[i].ColumnValue?
  }

  const DISTINCT_EXPRESSION_ERROR: string := "DISTINCT of an expression currently unsupported"

  /** `handleDistinct`: with DISTINCT, the display columns (which must all be column references)
      become the distinct expression, followed by the final projection. */
  function HandleDistinct(root: Plan, stmt: SelectStmt): (r: Result<Plan>)
    requires Paired(root)
    ensures !stmt.hasDistinct ==> r == Ok(root)
    ensures stmt.hasDistinct ==> (r.PlanningError? <==> !AllColumnRefs(stmt.displayColumns))
    ensures r.PlanningError? ==> r.msg == DISTINCT_EXPRESSION_ERROR
  {
    if !stmt.hasDistinct then Ok(root)
    else if !AllColumnRefs(stmt.displayColumns) then PlanningError(DISTINCT_EXPRESSION_ERROR)
    else Ok(AddProjection(AddDistinctNodes(root, stmt.displayColumns, stmt), stmt))
  }

  /** A successful `handleDistinct` keeps the fragment boundary. */
  lemma HandleDistinctFacts(root: Plan, stmt: SelectStmt)
    requires Paired(root)
    ensures HandleDistinct(root, stmt).Ok? ==>
      Paired(HandleDistinct(root, stmt).value) && CountReceives(HandleDistinct(root, stmt).value) == CountReceives(root)
  {
    AddDistinctNodesFacts(root, stmt.displayColumns, stmt);
    AddProjectionFacts(AddDistinctNodes(root, stmt.displayColumns, stmt), stmt);
  }

  // ---------------------------------------------------------------------------------------------
  // Sub-query plans

  /** `connectChildrenBestPlans`: every scan of a sub-query gets the sub-query's best plan as an
      extra (last) child; the walk does not descend below scans. */
  function ConnectChildrenBestPlans(p: Plan): Plan
    decreases p, 1
  {
    if IsScan(p.kind) then
      if p.kind.source.SubqueryScan? then p.(children := p.children + [p.kind.source.best]) else p
    else p.(children := ConnectAll(p.children))
  }

  function ConnectAll(ps: seq<Plan>): (r: seq<Plan>)
    ensures |r| == |ps|
    decreases ps, 0
  {
    if ps == [] then [] else [ConnectChildrenBestPlans(ps[0])] + ConnectAll(ps[1..])
  }

  /** Every sub-query scan reachable without passing another scan has its best plan as its last
      child. */
  predicate Attached(p: Plan)
    decreases p
  {
    if IsScan(p.kind) then
      p.kind.source.SubqueryScan? ==> |p.children| > 0 && p.children[|p.children| - 1] == p.kind.source.best
    else forall i :: 0 <= i < |p.children| ==> Attached(p.children[i])
  }

  /** The inverse rewrite: drop the last child of every such sub-query scan. */
  function Detach(p: Plan): Plan
    decreases p, 1
  {
    if IsScan(p.kind) then
      if p.kind.source.SubqueryScan? && |p.children| > 0 then p.(children := p.children[..|p.children| - 1]) else p
    else p.(children := DetachAll(p.children))
  }

  function DetachAll(ps: seq<Plan>): (r: seq<Plan>)
    ensures |r| == |ps|
    decreases ps, 0
  {
    if ps == [] then [] else [Detach(ps[0])] + DetachAll(ps[1..])
  }

  lemma {:induction false} ConnectAllAt(ps: seq<Plan>, i: nat)
    requires i < |ps|
    ensures ConnectAll(ps)[i] == ConnectChildrenBestPlans(ps[i])
    decreases ps
  {
    if i > 0 {
      ConnectAllAt(ps[1..], i - 1);
    }
  }

  /** After reconnection every sub-query scan carries its best plan, and detaching those plans
      gives back the plan as it was: nothing else is changed. */
  lemma {:induction false} ConnectAttachesAll(p: Plan)
    ensures Attached(ConnectChildrenBestPlans(p))
    ensures Detach(ConnectChildrenBestPlans(p)) == p
    decreases p, 1
  {
    if !IsScan(p.kind) {
      var cs := ConnectAll(p.children);
      forall i | 0 <= i < |cs|
        ensures Attached(cs[i])
      {
        ConnectAllAt(p.children, i);
        ConnectAttachesAll(p.children[i]);
      }
      ConnectAllRoundTrip(p.children);
    } else if p.kind.source.SubqueryScan? {
      var r := ConnectChildrenBestPlans(p);
      assert r.children[..|r.children| - 1] == p.children;
    }
  }

  lemma {:induction false} ConnectAllRoundTrip(ps: seq<Plan>)
    ensures DetachAll(ConnectAll(ps)) == ps
    decreases ps, 0
  {
    if ps != [] {
      ConnectAttachesAll(ps[0]);
      ConnectAllRoundTrip(ps[1..]);
      assert ConnectAll(ps)[1..] == ConnectAll(ps[1..]);
      assert ConnectAll(ps)[0] == ConnectChildrenBestPlans(ps[0]);
    }
  }
}
