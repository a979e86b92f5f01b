/** The plan assembler's own state across calls: which statement it is planning, whether its only
    plan was already produced, the statement's partitioning, the last error message, the next plan
    id, and the candidate access plans still to be tried. */
module Assembly {
  import opened Common
  import opened Catalog
  import opened PlanNodes
  import opened DmlPlans
  import opened CompoundPlans

  /** The parsed statement, reduced to what the assembler reads. `updates` are the SET columns
      of an UPDATE in the order its column map yields them; `given` the listed columns of an
      INSERT. */
  datatype StatementKind =
    | UnionStatement(unionType: int)
    | SelectStatement
    | InsertStatement(given: map<string, Expr>)
    | UpdateStatement(updates: seq<(string, Expr)>)
    | DeleteStatement

  datatype ParsedStatement = ParsedStatement(kind: StatementKind, tables: seq<Table>)

  predicate IsDml(s: ParsedStatement) {
    s.kind.InsertStatement? || s.kind.UpdateStatement? || s.kind.DeleteStatement?
  }

  const READ_EXPORT_MESSAGE: string := "Illegal to read an export table."
  const MODIFY_VIEW_MESSAGE: string := "Illegal to modify a materialized view."
  const UPDATE_EXPORT_MESSAGE: string := "Illegal to update an export table."
  const DELETE_EXPORT_MESSAGE: string := "Illegal to delete from an export table."
  const UNKNOWN_CHILD_ERROR: string := "Unable to plan for statement. Error unknown."
  const UNKNOWN_SUBQUERY_ERROR: string := "Unable to plan for subquery statement. Error unknown."

  function ReplicatedSinglePartitionMessage(t: Table): string {
    "Trying to write to replicated table '" + t.name + "' in a single-partition procedure."
  }

  ghost predicate IncludesExportOnly(tables: seq<Table>, connector: Option<seq<ConnectorTableInfo>>) {
    connector.Some? && exists i :: 0 <= i < |tables| && IsExportOnly(tables[i], connector.value)
  }

  predicate IncludesView(tables: seq<Table>) {
    exists i :: 0 <= i < |tables| && tables[i].isView
  }

  /** The legality checks of `setupForNewPlans`, in the order they are made. */
  ghost function LegalityError(s: ParsedStatement, connector: Option<seq<ConnectorTableInfo>>, specifiedAsSingle: bool): Option<string>
    requires IsDml(s) ==> |s.tables| == 1
  {
    if s.kind.UnionStatement? then None
    else if s.kind.SelectStatement? then
      if IncludesExportOnly(s.tables, connector) then Some(READ_EXPORT_MESSAGE) else None
    else if IncludesView(s.tables) then Some(MODIFY_VIEW_MESSAGE)
    else if s.tables[0].isReplicated && specifiedAsSingle then Some(ReplicatedSinglePartitionMessage(s.tables[0]))
    else if s.kind.InsertStatement? then None
    else if IncludesExportOnly(s.tables, connector) then
      Some(if s.kind.UpdateStatement? then UPDATE_EXPORT_MESSAGE else DELETE_EXPORT_MESSAGE)
    else None
  }

  /** Rows may be appended to an export table: only reading, updating and deleting it is refused. */
  lemma InsertIntoExportTableIsLegal(s: ParsedStatement, connector: Option<seq<ConnectorTableInfo>>, specifiedAsSingle: bool)
    requires s.kind.InsertStatement? && |s.tables| == 1
    requires !s.tables[0].isView && !(s.tables[0].isReplicated && specifiedAsSingle)
    ensures LegalityError(s, connector, specifiedAsSingle).None?
  {
  }

  /** A DML statement is refused exactly when it modifies a view, writes a replicated table from
      a single-partition procedure, or updates or deletes from an export table; a SELECT exactly
      when it reads an export table; a set operation never at this point. */
  lemma LegalityErrorCases(s: ParsedStatement, connector: Option<seq<ConnectorTableInfo>>, specifiedAsSingle: bool)
    requires IsDml(s) ==> |s.tables| == 1
    ensures s.kind.UnionStatement? ==> LegalityError(s, connector, specifiedAsSingle).None?
    ensures s.kind.SelectStatement? ==> (LegalityError(s, connector, specifiedAsSingle).Some? <==> IncludesExportOnly(s.tables, connector))
    ensures IsDml(s) ==> (LegalityError(s, connector, specifiedAsSingle).Some? <==>
      || s.tables[0].isView
      || (s.tables[0].isReplicated && specifiedAsSingle)
      || (!s.kind.InsertStatement? && IncludesExportOnly(s.tables, connector)))
  {
  }

  /** The first candidate that is not a nested-loop index join (such plans are skipped for DML). */
  function FirstNonIndexJoin(cs: seq<Plan>): (k: nat)
    ensures k <= |cs|
    ensures forall i :: 0 <= i < k ==> cs[i].kind.NestLoopIndex?
    ensures k < |cs| ==> !cs[k].kind.NestLoopIndex?
    decreases |cs|
  {
    if cs == [] || !cs[0].kind.NestLoopIndex? then 0 else 1 + FirstNonIndexJoin(cs[1..])
  }

  /** The candidates left after the next DML plan is taken. */
  function RemainingAfter(cs: seq<Plan>): seq<Plan> {
    var k := FirstNonIndexJoin(cs);
    if k < |cs| then cs[k + 1..] else []
  }

  /** Candidate access plans of a DML statement are scans (or index joins, which are skipped). */
  predicate DmlCandidates(cs: seq<Plan>) {
    forall i :: 0 <= i < |cs| ==> IsScan(cs[i].kind) || cs[i].kind.NestLoopIndex?
  }

  /** The outcome of `getNextUnionPlan` once the children loop has run. */
  function UnionOutcome(planner: ChildPlanner, n: nat, unionType: int): Option<Result<Plan>> {
    match UnionPrefix(planner, n)
    case ChildUnplanned => None
    case PartitionConflict(m) => Some(PlanningError(m))
    case Planned(roots, _, _, _) => Some(Ok(Node(Union(unionType), roots, [])))
  }

  class PlanAssembler {
    var bestAndOnlyPlanWasGenerated: bool
    var partitioning: StatementPartitioning
    var recentErrorMsg: Option<string>
    /** the plan selector's next plan id */
    var planId: nat
    var statement: Option<ParsedStatement>
    /** the access plans the sub-plan assembler has still to offer */
    var candidates: seq<Plan>

    constructor(partitioning: StatementPartitioning, planId: nat)
      ensures this.partitioning == partitioning && this.planId == planId
      ensures !bestAndOnlyPlanWasGenerated && recentErrorMsg.None? && statement.None? && candidates == []
    {
      bestAndOnlyPlanWasGenerated := false;
      this.partitioning := partitioning;
      recentErrorMsg := None;
      this.planId := planId;
      statement := None;
      candidates := [];
    }

    /** `setupForNewPlans`: the legality checks, the DML partitioning flags, and the candidate
        plans of the sub-plan assembler (`access`). `connector` is the export connector, if any. */
    method SetupForNewPlans(s: ParsedStatement, connector: Option<seq<ConnectorTableInfo>>, access: seq<Plan>)
      returns (err: Option<string>)
      requires IsDml(s) ==> |s.tables| == 1
      modifies this
      ensures err == LegalityError(s, connector, old(partitioning).specifiedAsSingle)
      ensures !bestAndOnlyPlanWasGenerated
      ensures err.None? ==> statement == Some(s)
      ensures err.Some? ==> statement == old(statement)
      ensures err.None? && !s.kind.UnionStatement? && !s.kind.InsertStatement? ==> candidates == access
      ensures err.None? && (s.kind.UnionStatement? || s.kind.InsertStatement?) ==> candidates == old(candidates)
      ensures err.Some? ==> candidates == old(candidates)
      ensures partitioning.specifiedAsSingle == old(partitioning).specifiedAsSingle
      ensures partitioning.inferredSingle == old(partitioning).inferredSingle
      ensures partitioning.requiresTwoFragments == old(partitioning).requiresTwoFragments
      ensures partitioning.partitionExpr == old(partitioning).partitionExpr
      ensures partitioning.isDML == (old(partitioning).isDML || (IsDml(s) && !IncludesView(s.tables)))
      ensures partitioning.dmlPartitionColumn ==
        if IsDml(s) && !IncludesView(s.tables) && !s.tables[0].isReplicated && !old(partitioning).specifiedAsSingle
        then s.tables[0].partitionColumn else old(partitioning).dmlPartitionColumn
      ensures recentErrorMsg == old(recentErrorMsg) && planId == old(planId)
    {
      bestAndOnlyPlanWasGenerated := false;
      if s.kind.UnionStatement? {
        statement := Some(s);
        return None;
      }
      if s.kind.SelectStatement? {
        var readsExport := TableListIncludesExportOnly(s.tables, connector);
        if readsExport {
          return Some(READ_EXPORT_MESSAGE);
        }
        statement := Some(s);
        candidates := access;
        return None;
      }
      var modifiesView := TableListIncludesView(s.tables);
      if modifiesView {
        return Some(MODIFY_VIEW_MESSAGE);
      }
      partitioning := partitioning.(isDML := true);
      var targetTable := s.tables[0];
      if targetTable.isReplicated {
        if partitioning.specifiedAsSingle {
          return Some(ReplicatedSinglePartitionMessage(targetTable));
        }
      } else if !partitioning.specifiedAsSingle {
        partitioning := partitioning.(dmlPartitionColumn := targetTable.partitionColumn);
      }
      if s.kind.InsertStatement? {
        statement := Some(s);
        return None;
      }
      var touchesExport := TableListIncludesExportOnly(s.tables, connector);
      if touchesExport {
        return Some(if s.kind.UpdateStatement? then UPDATE_EXPORT_MESSAGE else DELETE_EXPORT_MESSAGE);
      }
      statement := Some(s);
      candidates := access;
      return None;
    }

    /** `getNextInsertPlan`: the one insert plan, then no more (`None`); a column without a
        value is a planning error. */
    method GetNextInsertPlan() returns (r: Option<Result<Plan>>)
      requires statement.Some? && statement.value.kind.InsertStatement? && |statement.value.tables| == 1
      modifies this
      ensures partitioning == old(partitioning) && statement == old(statement) && candidates == old(candidates)
      ensures bestAndOnlyPlanWasGenerated
      ensures old(bestAndOnlyPlanWasGenerated) ==> r.None?
      ensures !old(bestAndOnlyPlanWasGenerated) ==>
        r == Some(InsertPlan(statement.value.tables[0], statement.value.kind.given, partitioning))
      ensures recentErrorMsg == old(recentErrorMsg) && planId == old(planId)
    {
      if bestAndOnlyPlanWasGenerated {
        return None;
      }
      bestAndOnlyPlanWasGenerated := true;
      var plan := BuildInsertPlan(statement.value.tables[0], statement.value.kind.given, partitioning);
      return Some(plan);
    }

    /** `getNextDeletePlan`: the next candidate that is not a nested-loop index join, as a delete
        plan; `None` when the candidates run out. */
    method GetNextDeletePlan() returns (r: Option<Plan>)
      requires statement.Some? && statement.value.kind.DeleteStatement? && |statement.value.tables| == 1
      requires DmlCandidates(candidates)
      modifies this
      ensures partitioning == old(partitioning) && statement == old(statement)
      ensures var k := FirstNonIndexJoin(old(candidates));
        r == if k < |old(candidates)| then Some(DeletePlan(statement.value.tables[0], old(candidates)[k], partitioning)) else None
      ensures candidates == RemainingAfter(old(candidates)) && DmlCandidates(candidates)
      ensures bestAndOnlyPlanWasGenerated == old(bestAndOnlyPlanWasGenerated)
      ensures recentErrorMsg == old(recentErrorMsg) && planId == old(planId)
    {
      var scan := NextCandidate();
      if scan.None? {
        return None;
      }
      return Some(DeletePlan(statement.value.tables[0], scan.value, partitioning));
    }

    /** `getNextUpdatePlan`: the next candidate that is not a nested-loop index join, as an update
        plan; `None` when the candidates run out. */
    method GetNextUpdatePlan() returns (r: Option<Plan>)
      requires statement.Some? && statement.value.kind.UpdateStatement? && |statement.value.tables| == 1
      requires DmlCandidates(candidates)
      modifies this
      ensures partitioning == old(partitioning) && statement == old(statement)
      ensures var k := FirstNonIndexJoin(old(candidates));
        r == if k < |old(candidates)| then
               Some(UpdatePlan(statement.value.tables[0], old(candidates)[k], statement.value.kind.updates, partitioning))
             else None
      ensures candidates == RemainingAfter(old(candidates)) && DmlCandidates(candidates)
      ensures bestAndOnlyPlanWasGenerated == old(bestAndOnlyPlanWasGenerated)
      ensures recentErrorMsg == old(recentErrorMsg) && planId == old(planId)
    {
      var scan := NextCandidate();
      if scan.None? {
        return None;
      }
      var plan := BuildUpdatePlan(statement.value.tables[0], scan.value, statement.value.kind.updates, partitioning);
      return Some(plan);
    }

    /** Takes candidates until one is not a nested-loop index join (the recursion of the DML
        planners, which skips such plans). */
    method NextCandidate() returns (scan: Option<Plan>)
      requires DmlCandidates(candidates)
      modifies this`candidates
      ensures var k := FirstNonIndexJoin(old(candidates));
        scan == if k < |old(candidates)| then Some(old(candidates)[k]) else None
      ensures scan.Some? ==> IsScan(scan.value.kind)
      ensures candidates == RemainingAfter(old(candidates)) && DmlCandidates(candidates)
    {
      ghost var all := candidates;
      ghost var skipped := 0;
      while candidates != []
        invariant 0 <= skipped <= |all| && candidates == all[skipped..]
        invariant forall i :: 0 <= i < skipped ==> all[i].kind.NestLoopIndex?
        invariant DmlCandidates(candidates)
        decreases |candidates|
      {
        var next := candidates[0];
        candidates := candidates[1..];
        skipped := skipped + 1;
        if !next.kind.NestLoopIndex? {
          FirstNonIndexJoinIs(all, skipped - 1);
          return Some(next);
        }
      }
      FirstNonIndexJoinIs(all, |all|);
      return None;
    }

    /** `getNextUnionPlan`: plans every child in turn from the plan id the previous one ended at,
        reconciles their partitionings, and puts a union node over the children's plans. */
    method GetNextUnionPlan(planner: ChildPlanner, n: nat) returns (r: Option<Result<Plan>>)
      requires statement.Some? && statement.value.kind.UnionStatement?
      modifies this
      ensures statement == old(statement) && candidates == old(candidates)
      ensures bestAndOnlyPlanWasGenerated
      ensures old(bestAndOnlyPlanWasGenerated) ==>
        (r.None? && partitioning == old(partitioning) && planId == old(planId) && recentErrorMsg == old(recentErrorMsg))
      ensures !old(bestAndOnlyPlanWasGenerated) ==>
        && r == UnionOutcome(planner, n, statement.value.kind.unionType)
        && (UnionPrefix(planner, n).ChildUnplanned? <==> recentErrorMsg == Some(UNKNOWN_CHILD_ERROR))
        && (UnionPrefix(planner, n).ChildUnplanned? || recentErrorMsg.None?)
        && (UnionPrefix(planner, n).Planned? ==>
              && planId == UnionPrefix(planner, n).planId
              && partitioning == (if UnionPrefix(planner, n).common.Some? then UnionPrefix(planner, n).common.value else old(partitioning)))
        && (!UnionPrefix(planner, n).Planned? ==> partitioning == old(partitioning) && planId == old(planId))
    {
      if bestAndOnlyPlanWasGenerated {
        return None;
      }
      bestAndOnlyPlanWasGenerated := true;
      recentErrorMsg := None;
      var roots: seq<Plan> := [];
      ghost var parts: seq<StatementPartitioning> := [];
      var commonPartitioning: Option<StatementPartitioning> := None;
      var childPlanId := 0;
      var i := 0;
      while i < n
        invariant 0 <= i <= n
        invariant UnionPrefix(planner, i) == Planned(roots, parts, commonPartitioning, childPlanId)
        invariant recentErrorMsg.None? && partitioning == old(partitioning) && planId == old(planId)
        invariant statement == old(statement) && candidates == old(candidates) && bestAndOnlyPlanWasGenerated
      {
        var bestChildPlan := planner(i, childPlanId);
        if bestChildPlan.None? {
          recentErrorMsg := Some(UNKNOWN_CHILD_ERROR);
          UnionFailureSticks(planner, i + 1, n);
          return None;
        }
        var child := bestChildPlan.value;
        var combined := Combine(commonPartitioning, child.partitioning);
        if combined.PlanningError? {
          UnionFailureSticks(planner, i + 1, n);
          return Some(PlanningError(combined.msg));
        }
        roots := roots + [child.root];
        parts := parts + [child.partitioning];
        commonPartitioning := Some(combined.value);
        childPlanId := child.nextPlanId;
        i := i + 1;
      }
      if commonPartitioning.Some? {
        partitioning := commonPartitioning.value;
      }
      planId := childPlanId;
      return Some(Ok(Node(Union(statement.value.kind.unionType), roots, [])));
    }

    /** `getBestCostPlanForSubQueries`: plans every sub-query in turn from the plan id the previous
        one ended at and accumulates their determinism; `None` as soon as one cannot be planned. */
    method GetBestCostPlanForSubQueries(planner: SubqueryPlanner, n: nat) returns (r: Option<SubqueryResult>)
      modifies this
      ensures r == if SubqueryResults(planner, n).Some? then Some(Summarize(SubqueryResults(planner, n).value)) else None
      ensures r.Some? ==> planId == r.value.planId && recentErrorMsg == old(recentErrorMsg)
      ensures r.None? ==>
        (planId == old(planId) &&
         recentErrorMsg == (if old(recentErrorMsg).None? then Some(UNKNOWN_SUBQUERY_ERROR) else old(recentErrorMsg)))
      ensures partitioning == old(partitioning) && statement == old(statement) && candidates == old(candidates)
      ensures bestAndOnlyPlanWasGenerated == old(bestAndOnlyPlanWasGenerated)
    {
      var nextPlanId := 0;
      var orderIsDeterministic := true;
      var hasSignificantOffsetOrLimit := false;
      ghost var rs: seq<SubqueryResult> := [];
      for i := 0 to n
        invariant SubqueryResults(planner, i) == Some(rs) && |rs| == i
        invariant nextPlanId == LastPlanId(rs)
        invariant orderIsDeterministic <==> forall k :: 0 <= k < i ==> rs[k].orderIsDeterministic
        invariant hasSignificantOffsetOrLimit <==> exists k :: 0 <= k < i && !rs[k].orderIsDeterministic && rs[k].hasLimitOrOffset
        invariant recentErrorMsg == old(recentErrorMsg) && planId == old(planId)
      {
        var parsedResult := planner(i, nextPlanId);
        if parsedResult.None? {
          if recentErrorMsg.None? {
            recentErrorMsg := Some(UNKNOWN_SUBQUERY_ERROR);
          }
          SubqueryFailureSticks(planner, i + 1, n);
          return None;
        }
        var res := parsedResult.value;
        nextPlanId := res.planId;
        orderIsDeterministic := orderIsDeterministic && res.orderIsDeterministic;
        hasSignificantOffsetOrLimit := hasSignificantOffsetOrLimit || (!res.orderIsDeterministic && res.hasLimitOrOffset);
        assert forall k :: 0 <= k < i ==> (rs + [res])[k] == rs[k];
        rs := rs + [res];
      }
      planId := nextPlanId;
      return Some(SubqueryResult(orderIsDeterministic, hasSignificantOffsetOrLimit, nextPlanId));
    }
  }

  lemma {:induction false} FirstNonIndexJoinIs(cs: seq<Plan>, k: nat)
    requires k <= |cs| && (forall i :: 0 <= i < k ==> cs[i].kind.NestLoopIndex?) && (k < |cs| ==> !cs[k].kind.NestLoopIndex?)
    ensures FirstNonIndexJoin(cs) == k
    decreases k
  {
    if k > 0 {
      FirstNonIndexJoinIs(cs[1..], k - 1);
    }
  }

  lemma {:induction false} SubqueryFailureSticks(planner: SubqueryPlanner, i: nat, n: nat)
    requires i <= n && SubqueryResults(planner, i).None?
    ensures SubqueryResults(planner, n).None?
    decreases n - i
  {
    if i < n {
      SubqueryFailureSticks(planner, i + 1, n);
    }
  }
}
