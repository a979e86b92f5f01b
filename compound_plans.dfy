/** Statements planned from the best plans of other statements: the children of a set operation
    (UNION, INTERSECT, EXCEPT), whose partitionings must be reconciled into one, and the sub-queries
    of a SELECT, whose determinism feeds the parent's. */
module CompoundPlans {
  import opened Common
  import opened PlanNodes

  const TOO_COMPLEX_MESSAGE: string := "Statements are too complex in set operation using multiple partitioned tables."
  const CONFLICTING_FILTERS_MESSAGE: string := "Statements use conflicting partitioned table filters in set operation or sub-query."

  // ---------------------------------------------------------------------------------------------
  // Partitioning of a set operation

  /** Two child partitionings that cannot run as one statement: both need a coordinator fragment,
      one needs it while the other is pinned to a partition, or both are pinned by different
      partitioning expressions. */
  predicate Clash(a: StatementPartitioning, b: StatementPartitioning) {
    || (a.requiresTwoFragments && b.requiresTwoFragments)
    || (a.requiresTwoFragments && b.partitionExpr.Some?)
    || (b.requiresTwoFragments && a.partitionExpr.Some?)
    || (a.partitionExpr.Some? && b.partitionExpr.Some? && a.partitionExpr != b.partitionExpr)
  }

  /** A child that needs no coordinator fragment and is pinned to no partition (a replicated read). */
  predicate Neutral(p: StatementPartitioning) {
    !p.requiresTwoFragments && p.partitionExpr.None?
  }

  /** One step of the reconciliation: the common partitioning so far (`None` before the first
      child) combined with the next child's. The result is always one of the two partitionings. */
  function Combine(common: Option<StatementPartitioning>, p: StatementPartitioning): (r: Result<StatementPartitioning>)
    ensures r.Ok? ==> r.value == p || (common.Some? && r.value == common.value)
  {
    if common.None? then Ok(p)
    else
      var c := common.value;
      if c.requiresTwoFragments then
        if p.requiresTwoFragments || p.partitionExpr.Some? then PlanningError(TOO_COMPLEX_MESSAGE) else Ok(c)
      else if c.partitionExpr.None? then Ok(p)
      else if p.requiresTwoFragments then PlanningError(TOO_COMPLEX_MESSAGE)
      else if p.partitionExpr.None? then Ok(c)
      else if c.partitionExpr != p.partitionExpr then PlanningError(CONFLICTING_FILTERS_MESSAGE)
      else Ok(c)
  }

  /** The combination fails exactly on a clash, with the "too complex" message when a coordinator
      fragment is involved; otherwise the result needs a coordinator fragment when either does,
      and is pinned by whichever expression pins either. */
  lemma CombineCharacterization(c: StatementPartitioning, p: StatementPartitioning)
    ensures Combine(Some(c), p).PlanningError? <==> Clash(c, p)
    ensures Combine(Some(c), p).PlanningError? ==>
      (Combine(Some(c), p).msg == TOO_COMPLEX_MESSAGE <==> c.requiresTwoFragments || p.requiresTwoFragments)
    ensures Combine(Some(c), p).Ok? ==>
      && Combine(Some(c), p).value.requiresTwoFragments == (c.requiresTwoFragments || p.requiresTwoFragments)
      && Combine(Some(c), p).value.partitionExpr == (if c.partitionExpr.Some? then c.partitionExpr else p.partitionExpr)
  {
  }

  /** Clashing does not depend on the order of the children. */
  lemma ClashSymmetric(a: StatementPartitioning, b: StatementPartitioning)
    ensures Clash(a, b) <==> Clash(b, a)
  {
  }

  /** A replicated read never changes the common partitioning, and is replaced by the first
      child that is not one. */
  lemma NeutralChildChangesNothing(c: StatementPartitioning, p: StatementPartitioning)
    ensures Neutral(p) ==>
      (Combine(Some(c), p).Ok? &&
       Combine(Some(c), p).value.requiresTwoFragments == c.requiresTwoFragments &&
       Combine(Some(c), p).value.partitionExpr == c.partitionExpr)
    ensures Neutral(c) ==> Combine(Some(c), p) == Ok(p)
  {
  }

  /** The partitioning after the first `|ps|` children (`None` before any). */
  function FoldPartitioning(ps: seq<StatementPartitioning>): Result<Option<StatementPartitioning>>
    decreases |ps|
  {
    if ps == [] then Ok(None)
    else
      match FoldPartitioning(ps[..|ps| - 1])
      case PlanningError(m) => PlanningError(m)
      case Ok(common) =>
        match Combine(common, ps[|ps| - 1])
        case PlanningError(m) => PlanningError(m)
        case Ok(c) => Ok(Some(c))
  }

  predicate PairwiseCompatible(ps: seq<StatementPartitioning>) {
    forall i, j :: 0 <= i < j < |ps| ==> !Clash(ps[i], ps[j])
  }

  /** The reconciliation succeeds exactly when no two children clash, whatever their order; the
      result needs a coordinator fragment when some child does, and is pinned when some child is
      (by the one expression they all share). */
  lemma {:induction false} FoldPartitioningFacts(ps: seq<StatementPartitioning>)
    ensures FoldPartitioning(ps).Ok? <==> PairwiseCompatible(ps)
    ensures FoldPartitioning(ps).Ok? ==> (FoldPartitioning(ps).value.Some? <==> ps != [])
    ensures FoldPartitioning(ps).Ok? && ps != [] ==>
      var c := FoldPartitioning(ps).value.value;
      && c in ps
      && (c.requiresTwoFragments <==> exists i :: 0 <= i < |ps| && ps[i].requiresTwoFragments)
      && (forall i :: 0 <= i < |ps| && ps[i].partitionExpr.Some? ==> c.partitionExpr == ps[i].partitionExpr)
      && (c.partitionExpr.Some? ==> exists i :: 0 <= i < |ps| && ps[i].partitionExpr == c.partitionExpr)
    decreases |ps|
  {
    if ps != [] {
      var n := |ps| - 1;
      var pre := ps[..n];
      var p := ps[n];
      FoldPartitioningFacts(pre);
      assert forall i :: 0 <= i < n ==> pre[i] == ps[i];
      if PairwiseCompatible(pre) && pre != [] {
        var c := FoldPartitioning(pre).value.value;
        CombineCharacterization(c, p);
        assert Clash(c, p) <==> exists i :: 0 <= i < n && Clash(pre[i], p) by {
          if Clash(c, p) {
            var i :| 0 <= i < n && pre[i] == c;
            assert Clash(pre[i], p);
          }
          if i :| 0 <= i < n && Clash(pre[i], p) {
            ClashWithFold(pre, c, p, i);
          }
        }
        if !Clash(c, p) {
          assert PairwiseCompatible(ps) by {
            forall i, j | 0 <= i < j < |ps| ensures !Clash(ps[i], ps[j]) {
              if j == n {
                assert !Clash(pre[i], p);
              } else {
                assert !Clash(pre[i], pre[j]);
              }
            }
          }
        }
      }
    }
  }

  /** A clash of the next child with any earlier child is a clash with the common partitioning. */
  lemma ClashWithFold(pre: seq<StatementPartitioning>, c: StatementPartitioning, p: StatementPartitioning, i: nat)
    requires i < |pre| && Clash(pre[i], p)
    requires c.requiresTwoFragments <==> exists k :: 0 <= k < |pre| && pre[k].requiresTwoFragments
    requires forall k :: 0 <= k < |pre| && pre[k].partitionExpr.Some? ==> c.partitionExpr == pre[k].partitionExpr
    ensures Clash(c, p)
  {
    if pre[i].requiresTwoFragments {
      assert c.requiresTwoFragments;
    }
  }

  /** A child statement's best plan, as the child's own planner returns it. */
  datatype ChildPlan = ChildPlan(root: Plan, partitioning: StatementPartitioning, nextPlanId: nat)

  /** Plans child `i` of a set operation starting from plan id `id`; `None` when it cannot be planned. */
  type ChildPlanner = (nat, nat) -> Option<ChildPlan>

  /** Where the children loop stands after some children. */
  datatype UnionProgress =
    | ChildUnplanned
    | PartitionConflict(msg: string)
    | Planned(roots: seq<Plan>, parts: seq<StatementPartitioning>, common: Option<StatementPartitioning>, planId: nat)

  /** The children loop of `getNextUnionPlan` after `i` children: each child is planned from the
      plan id the previous one ended at, and its partitioning is combined with the common one. */
  function UnionPrefix(planner: ChildPlanner, i: nat): UnionProgress
    decreases i
  {
    if i == 0 then Planned([], [], None, 0)
    else
      match UnionPrefix(planner, i - 1)
      case Planned(roots, parts, common, id) =>
        (match planner(i - 1, id)
         case None => ChildUnplanned
         case Some(child) =>
           match Combine(common, child.partitioning)
           case PlanningError(m) => PartitionConflict(m)
           case Ok(c) => Planned(roots + [child.root], parts + [child.partitioning], Some(c), child.nextPlanId))
      case other => other
  }

  /** After `i` planned children: one root and one partitioning per child, and the common
      partitioning is the fold of theirs, so no two of them clash. */
  lemma {:induction false} UnionPrefixShape(planner: ChildPlanner, i: nat)
    ensures UnionPrefix(planner, i).Planned? ==>
      var u := UnionPrefix(planner, i);
      && |u.roots| == i && |u.parts| == i
      && FoldPartitioning(u.parts) == Ok(u.common)
      && PairwiseCompatible(u.parts)
    decreases i
  {
    if i > 0 {
      UnionPrefixShape(planner, i - 1);
      var prev := UnionPrefix(planner, i - 1);
      if prev.Planned? && planner(i - 1, prev.planId).Some? {
        var child := planner(i - 1, prev.planId).value;
        var parts := prev.parts + [child.partitioning];
        assert parts[..|parts| - 1] == prev.parts;
        FoldPartitioningFacts(parts);
      }
    }
  }

  /** Child `i - 1` is planned from the plan id the children before it ended at (0 for the
      first), after them and in order, and its own end id is the loop's. */
  lemma UnionPrefixThreadsPlanIds(planner: ChildPlanner, i: nat)
    requires i > 0 && UnionPrefix(planner, i).Planned?
    ensures UnionPrefix(planner, i - 1).Planned?
    ensures var u := UnionPrefix(planner, i);
      var prev := UnionPrefix(planner, i - 1);
      && u.roots[..|u.roots| - 1] == prev.roots && u.parts[..|u.parts| - 1] == prev.parts
      && planner(i - 1, prev.planId) == Some(ChildPlan(u.roots[|u.roots| - 1], u.parts[|u.parts| - 1], u.planId))
    ensures UnionPrefix(planner, 0).planId == 0
  {
    var prev := UnionPrefix(planner, i - 1);
    var u := UnionPrefix(planner, i);
    var child := planner(i - 1, prev.planId).value;
    assert u.roots == prev.roots + [child.root] && u.parts == prev.parts + [child.partitioning];
  }

  /** A conflict carries one of the two planning-error messages. */
  lemma {:induction false} UnionConflictMessage(planner: ChildPlanner, i: nat)
    ensures UnionPrefix(planner, i).PartitionConflict? ==>
      UnionPrefix(planner, i).msg == TOO_COMPLEX_MESSAGE || UnionPrefix(planner, i).msg == CONFLICTING_FILTERS_MESSAGE
    decreases i
  {
    if i > 0 {
      UnionConflictMessage(planner, i - 1);
    }
  }

  /** Once a child cannot be planned or conflicts, the loop outcome stays that failure. */
  lemma {:induction false} UnionFailureSticks(planner: ChildPlanner, i: nat, n: nat)
    requires i <= n && !UnionPrefix(planner, i).Planned?
    ensures UnionPrefix(planner, n) == UnionPrefix(planner, i)
    decreases n - i
  {
    if i < n {
      UnionFailureSticks(planner, i + 1, n);
    }
  }

  // ---------------------------------------------------------------------------------------------
  // Sub-queries

  /** `ParsedResultAccumulator`: the determinism of a sub-query's best plan and the plan id its
      planning ended at. */
  datatype SubqueryResult = SubqueryResult(orderIsDeterministic: bool, hasLimitOrOffset: bool, planId: nat)

  /** Plans sub-query `i` starting from plan id `id`; `None` when it cannot be planned. */
  type SubqueryPlanner = (nat, nat) -> Option<SubqueryResult>

  function LastPlanId(rs: seq<SubqueryResult>): nat {
    if rs == [] then 0 else rs[|rs| - 1].planId
  }

  /** The results of the first `i` sub-queries, each planned from the plan id the previous one
      ended at; `None` once one cannot be planned. */
  function SubqueryResults(planner: SubqueryPlanner, i: nat): Option<seq<SubqueryResult>>
    decreases i
  {
    if i == 0 then Some([])
    else
      match SubqueryResults(planner, i - 1)
      case None => None
      case Some(rs) =>
        match planner(i - 1, LastPlanId(rs))
        case None => None
        case Some(r) => Some(rs + [r])
  }

  /** The accumulated result: deterministic when all are; a limit or offset is significant when
      it applies to a sub-query whose order is not deterministic. */
  function Summarize(rs: seq<SubqueryResult>): SubqueryResult {
    SubqueryResult(
      forall k :: 0 <= k < |rs| ==> rs[k].orderIsDeterministic,
      exists k :: 0 <= k < |rs| && !rs[k].orderIsDeterministic && rs[k].hasLimitOrOffset,
      LastPlanId(rs))
  }

  /** Sub-query `k` is planned from the plan id sub-query `k - 1` ended at (0 for the first), and
      the results are exactly the planner's answers. */
  lemma {:induction false} SubqueryResultsThreadIds(planner: SubqueryPlanner, n: nat)
    ensures SubqueryResults(planner, n).Some? ==>
      var rs := SubqueryResults(planner, n).value;
      |rs| == n && forall k :: 0 <= k < n ==> planner(k, LastPlanId(rs[..k])) == Some(rs[k])
    decreases n
  {
    if n > 0 && SubqueryResults(planner, n).Some? {
      SubqueryResultsThreadIds(planner, n - 1);
      var prev := SubqueryResults(planner, n - 1).value;
      var rs := SubqueryResults(planner, n).value;
      assert rs == prev + [rs[n - 1]];
      assert rs[..n - 1] == prev;
      forall k | 0 <= k < n
        ensures planner(k, LastPlanId(rs[..k])) == Some(rs[k])
      {
        if k < n - 1 {
          assert rs[k] == prev[k];
          assert rs[..k] == prev[..k];
        }
      }
    }
  }

  /** The accumulation fails exactly when some sub-query, planned after all earlier ones
      succeeded, cannot be planned. */
  lemma {:induction false} SubqueryResultsFail(planner: SubqueryPlanner, n: nat)
    ensures SubqueryResults(planner, n).None? <==>
      exists k :: 0 <= k < n && SubqueryResults(planner, k).Some? &&
        planner(k, LastPlanId(SubqueryResults(planner, k).value)).None?
    decreases n
  {
    if n > 0 {
      SubqueryResultsFail(planner, n - 1);
      if SubqueryResults(planner, n).None? && SubqueryResults(planner, n - 1).Some? {
        assert planner(n - 1, LastPlanId(SubqueryResults(planner, n - 1).value)).None?;
      }
      if SubqueryResults(planner, n).Some? {
        forall k | 0 <= k < n && SubqueryResults(planner, k).Some?
          ensures planner(k, LastPlanId(SubqueryResults(planner, k).value)).Some?
        {
          SubqueryResultsPrefix(planner, k + 1, n);
        }
      }
    }
  }

  lemma {:induction false} SubqueryResultsPrefix(planner: SubqueryPlanner, i: nat, n: nat)
    requires i <= n && SubqueryResults(planner, n).Some?
    ensures SubqueryResults(planner, i).Some?
    decreases n - i
  {
    if i < n {
      SubqueryResultsPrefix(planner, i + 1, n);
    }
  }

  /** One deterministic sub-query with a limit adds no significant limit, and a
      non-deterministic one with a limit makes the whole result non-deterministic with one. */
  lemma SignificantLimit(rs: seq<SubqueryResult>)
    ensures (forall k :: 0 <= k < |rs| ==> rs[k].orderIsDeterministic) ==> !Summarize(rs).hasLimitOrOffset
    ensures Summarize(rs).hasLimitOrOffset ==> !Summarize(rs).orderIsDeterministic
  {
  }

  /** The determinism of the parent's best plan once its sub-queries are accounted for
      (`orderIsDeterministic`, `hasLimitOrOffset`). */
  datatype Determinism = Determinism(orderIsDeterministic: bool, hasLimitOrOffset: bool)

  /** The parent keeps its order determinism when every sub-query is deterministic, and otherwise
      only when the statement orders the result in spite of unordered sub-queries
      (`inSpite`); a significant limit of a sub-query counts as a limit of the parent. */
  function MergeDeterminism(sub: SubqueryResult, best: Determinism, inSpite: bool): (r: Determinism)
    ensures r.orderIsDeterministic ==> best.orderIsDeterministic
    ensures r.orderIsDeterministic <==> best.orderIsDeterministic && (sub.orderIsDeterministic || inSpite)
    ensures r.hasLimitOrOffset <==> sub.hasLimitOrOffset || best.hasLimitOrOffset
  {
    var orderIsDeterministic := if sub.orderIsDeterministic then best.orderIsDeterministic
                                else best.orderIsDeterministic && inSpite;
    Determinism(orderIsDeterministic, sub.hasLimitOrOffset || best.hasLimitOrOffset)
  }

  /** Deterministic sub-queries without significant limits leave the parent's determinism as it is. */
  lemma DeterministicSubqueriesChangeNothing(rs: seq<SubqueryResult>, best: Determinism, inSpite: bool)
    requires forall k :: 0 <= k < |rs| ==> rs[k].orderIsDeterministic
    ensures MergeDeterminism(Summarize(rs), best, inSpite) == best
  {
    SignificantLimit(rs);
  }
}
