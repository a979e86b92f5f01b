# VoltDB plan assembly and four executors, modelled in Dafny

This project models two parts of VoltDB.

**The planner's plan assembler (`PlanAssembler`).** It turns a parsed SQL statement into a tree of plan nodes. The model covers:
- the legality checks of `setupForNewPlans`;
- outer-join simplification by null rejection;
- the DML plans (INSERT over a MATERIALIZE node, DELETE with its TRUNCATE shortcut, UPDATE with its index-maintenance flag), each distributed under a send/receive fragment boundary and a coordinator SUM or LIMIT 1;
- the SELECT shaping rules: ORDER BY, LIMIT push-down below the fragment boundary, DISTINCT, the final projection, and aggregation split into a partition-side and a coordinator aggregate;
- the partitioning reconciliation of UNION children;
- the sub-query loop with its plan-id threading and determinism merge;
- the re-attachment of sub-query plans.

**Execution-engine and network pieces:**
- the index-count executor, which counts index entries between two keys from rank lookups;
- the sequential-scan executor, with its predicate, inline projection and inline LIMIT/OFFSET;
- the projection executor;
- the TLS cipher service's arithmetic: `framesFor`, the page constants, the wished thread count, and the two debugging `digest` helpers.

## How the model is built

**Plans.** Plans are immutable values (`PlanNodes.Plan = Node(kind, children, inlines)`). Each rewrite returns the new root. Two facts are proved preserved through every shaping rule:
- every receive node sits on a send node with one child (`Paired`);
- the number of receive nodes (`CountReceives`) is unchanged.

**Collaborators are parameters:**
- the null-rejection test;
- expression evaluation;
- the child and sub-query planners (functions of the child index and the starting plan id);
- the index's rank primitives;
- MD5.

**Mutable state.** Classes hold state the source updates in place:
- `Assembly.PlanAssembler` holds the assembler's flags, partitioning, error message, plan id and remaining candidate plans;
- `JoinSimplifier.ExprList` is the expression list shared by the recursive calls;
- `Tables.Table` is a table with rows, an optional row bound and a temp tuple;
- there is one class per executor.

**Loops.** Each loop of the source is a method proved equal to a specification function. Lemmas state what the source promises about that function.

**Seq-scan output.** The scan loop is proved against a loop-shaped function, `SeqScan.ScanFrom`. `SeqScan.ScanFromIsWindow` proves it equal to the declarative window: the accepted tuples, past the offset, up to the limit, projected.

**Java integer operators.** Java's `>>` and `&` on `int` are written out as in section 15.19 of the Java Language Specification:
- an arithmetic shift is a floor division by a power of two;
- a mask with `2^k - 1` is the remainder of that division.

`Cipher.ShiftRight` writes out `>>` and `Cipher.LowBits` writes out `&`; `Cipher.PageShiftAndMaskAreDivMod` proves both equal to Dafny's `/` and `%` for the page shift.

**The UUID mask.** The `LSB_MASK` of `CipherExecutor.java` is built from eight `0xFF` bytes. `BigInteger` reads that array as two's complement, so the mask is -1 and the `and` leaves the digest unchanged. `longValue()` then keeps the low 64 bits, so the UUID is the same as with a 64-bit mask. `Cipher.UuidOf` models that result.

**Determinism after sub-query planning.** The determinism merge follows `getBestCostPlan` (PlanAssembler.java:363-385): `CompoundPlans.MergeDeterminism` models it. A parent keeps order determinism only when every sub-query is deterministic, or when the statement is deterministic in spite of unordered sub-queries. The sub-queries' significant-limit flag is OR-ed into the parent's.

## Model

| member | source | states |
|---|---|---|
| Catalog.TableListIncludesView | src/frontend/org/voltdb/planner/PlanAssembler.java:181-188 | true exactly when some listed table is a materialized view |
| Catalog.TableListIncludesExportOnly | src/frontend/org/voltdb/planner/PlanAssembler.java:193-218 | false without connector "0"; otherwise true exactly when a listed table's name equals an append-only table of the connector, ignoring the case of ASCII letters (`EqualsIgnoreCase`) |
| Catalog.IndexedColumnSetForTable | src/frontend/org/voltdb/planner/PlanAssembler.java:2026-2036 | the set holds exactly the column names covered by some index of the table |
| JoinSimplifier.SimplifyOuterJoinRecursively | src/frontend/org/voltdb/planner/PlanAssembler.java:2071-2132 | the in-place recursion over the shared list yields the tree and leaves the caller's list as the value-level `JoinSimplifier.Simplify` describes, aliasing included |
| JoinSimplifier.SimplifyOuterJoinMethod | src/frontend/org/voltdb/planner/PlanAssembler.java:2056-2069 | the walk starts from the WHERE expressions of the root's two children and gives the value-level `JoinSimplifier.SimplifyOuterJoin` |
| JoinSimplifier.SubKeepsShape | src/frontend/org/voltdb/planner/PlanAssembler.java:2071-2132 | only join types change (tables, expressions and shape are kept), and no INNER join becomes LEFT |
| JoinSimplifier.SimplifyOuterJoinKeepsShape | src/frontend/org/voltdb/planner/PlanAssembler.java:2056-2069 | the same two facts for the whole join tree |
| JoinSimplifier.SimplifyDecidesRoot | src/frontend/org/voltdb/planner/PlanAssembler.java:2075-2095 | a node ends INNER exactly when it was INNER or an accumulated expression rejects nulls for some table of its inner (right) side |
| JoinSimplifier.SubExtendsList | src/frontend/org/voltdb/planner/PlanAssembler.java:2100-2131 | the caller's list is only appended to, and below a branch the WHERE expressions of its children come first |
| JoinSimplifier.SubMonotone | src/frontend/org/voltdb/planner/PlanAssembler.java:2071-2132 | more expressions on entry never turn an INNER join back to LEFT, and the final list still contains the smaller run's |
| JoinSimplifier.TwoTableLeftJoin | src/frontend/org/voltdb/planner/PlanAssembler.java:2058-2095 | `A LEFT JOIN B` becomes INNER exactly when the WHERE expression of A or of B rejects nulls for B |
| JoinSimplifier.LeftSideWhereReachesRightSide | src/frontend/org/voltdb/planner/PlanAssembler.java:2108-2122 | below an INNER join, a WHERE expression met in the left subtree reaches the right subtree through the shared list and turns a LEFT join there INNER |
| SelectShaping.HandleOrderBy | src/frontend/org/voltdb/planner/PlanAssembler.java:1210-1250 | the plan is unchanged without ORDER BY or when an index scan or join (looked through a serial aggregate) delivers the order; otherwise a sort node with one key per ORDER BY column goes on top |
| SelectShaping.HandleOrderBySorts | src/frontend/org/voltdb/planner/PlanAssembler.java:1210-1250 | with ORDER BY the result is a sort node or delivers the order itself; the fragment structure is untouched |
| SelectShaping.PushDownSend | src/frontend/org/voltdb/planner/PlanAssembler.java:1865-1923 | a send node it finds has one child and is itself paired |
| SelectShaping.PushDownSendDepth | src/frontend/org/voltdb/planner/PlanAssembler.java:1883-1922 | soundness: a send found is the child of a receive on the first-child path, reached only through coordinating aggregates, projections and sorts not ordered by an aggregated value |
| SelectShaping.PushDownSendFinds | src/frontend/org/voltdb/planner/PlanAssembler.java:1883-1922 | completeness: such a receive on the first-child path is found and its child returned |
| SelectShaping.PushDownSendOnSpine | src/frontend/org/voltdb/planner/PlanAssembler.java:1865-1923 | both directions: the walk returns `s` exactly when `s` is the push-down target at some depth |
| SelectShaping.CheckPushDownViability | src/frontend/org/voltdb/planner/PlanAssembler.java:1865-1923 | the loop, with its per-sort scan of ORDER BY base columns for aggregated values (ENG-3487), returns what `PushDownSend` specifies |
| SelectShaping.ReplaceSendChild | src/frontend/org/voltdb/planner/PlanAssembler.java:1299-1318 | replacing the push-down send's child keeps the root's kind, inline nodes and number of children |
| SelectShaping.ReplaceSendChildTarget | src/frontend/org/voltdb/planner/PlanAssembler.java:1299-1318 | after the replacement the walk finds the same send node with the new child as its only child, and putting the old child back gives the original plan, so nothing else changed |
| SelectShaping.ReplaceSendChildFacts | src/frontend/org/voltdb/planner/PlanAssembler.java:1301-1318 | the rewritten plan stays paired, and its receive count changes only by the difference between the old and the new child |
| SelectShaping.DistributedLimit | src/frontend/org/voltdb/planner/PlanAssembler.java:1306-1318 | when the partition plan after `handleOrderBy` is a sort node, the result is that node (same children) with the distributed limit as its only inline limit and its other inline nodes kept; otherwise a limit node over the unsorted partition plan |
| SelectShaping.DistributedLimitFacts | src/frontend/org/voltdb/planner/PlanAssembler.java:1306-1318 | the distributed limit adds no receive and keeps the pairing |
| SelectShaping.PushLimitDown | src/frontend/org/voltdb/planner/PlanAssembler.java:1269-1319 | without push-down (DISTINCT, no reachable send, a limit that cannot be pushed, a materialized-view fix) the plan is unchanged; with it, the walk's send has the distributed limit over its old child as only child, restoring that child gives the original plan, and pairing and receive count are kept (`PushesLimitDown` decides) |
| SelectShaping.TopLimit | src/frontend/org/voltdb/planner/PlanAssembler.java:1324-1346 | placement of the coordinator's limit: with complex aggregation, inlined as the only limit of a sort under the root projection or as a limit node that becomes the projection's only child; else the only inline limit of a root sort, or of a sort under a root projection, or a new limit node over the root; wherever the limit is inlined, the sort's other inline nodes are kept; the limit is always at the root or its first child |
| SelectShaping.HandleLimitOperator | src/frontend/org/voltdb/planner/PlanAssembler.java:1257-1348 | the push-down then the coordinator's limit; the result carries the coordinator's limit at the root or in the root's first child |
| SelectShaping.TopLimitFacts | src/frontend/org/voltdb/planner/PlanAssembler.java:1324-1346 | the coordinator's limit adds no receive and keeps the pairing |
| SelectShaping.TopLimitUnderProjection | src/frontend/org/voltdb/planner/PlanAssembler.java:1325-1335 | with complex aggregation, placing the coordinator's limit under the root projection keeps the pairing and the receive count |
| SelectShaping.TopLimitAtRoot | src/frontend/org/voltdb/planner/PlanAssembler.java:1336-1346 | without complex aggregation, placing the coordinator's limit keeps the pairing and the receive count |
| SelectShaping.HandleLimitKeepsFragments | src/frontend/org/voltdb/planner/PlanAssembler.java:1257-1348 | `SelectShaping.HandleLimitOperator` keeps exactly as many receive nodes, each on its send node |
| SelectShaping.AddProjection | src/frontend/org/voltdb/planner/PlanAssembler.java:1184-1203 | the final projection is inlined into a scan root, or else placed on top of the root |
| SelectShaping.AddProjectionFacts | src/frontend/org/voltdb/planner/PlanAssembler.java:1184-1203 | adding the projection keeps the pairing and the receive count |
| SelectShaping.AddDistinctNodesFacts | src/frontend/org/voltdb/planner/PlanAssembler.java:1981-2015 | for `SelectShaping.AddDistinctNodes`: the coordinator always gets a distinct node; a distributed plan without a materialized-view fix also gets one on each partition right under the send; the fragment boundary is kept |
| SelectShaping.HandleDistinct | src/frontend/org/voltdb/planner/PlanAssembler.java:1931-1971 | without DISTINCT the plan is unchanged; with it, planning fails with the "DISTINCT of an expression" message exactly when a display column is not a column reference |
| SelectShaping.HandleDistinctFacts | src/frontend/org/voltdb/planner/PlanAssembler.java:1931-1971 | a successful `handleDistinct` keeps the pairing and the receive count |
| SelectShaping.ConnectAttachesAll | src/frontend/org/voltdb/planner/PlanAssembler.java:637-654 | after `SelectShaping.ConnectChildrenBestPlans` every sub-query scan reachable without crossing a scan has its best plan as last child, and detaching those plans gives back the original plan |
| SelectShaping.ConnectAllRoundTrip | src/frontend/org/voltdb/planner/PlanAssembler.java:649-651 | the same round trip for a list of children |
| AggregatePlanning.BuildAggregates | src/frontend/org/voltdb/planner/PlanAssembler.java:1518-1634 | the output-column loop yields the partition-side aggregates and the coordinator aggregates as specified by `DistAggs` and `TopAggs` |
| AggregatePlanning.DistAggsCharacterization | src/frontend/org/voltdb/planner/PlanAssembler.java:1522-1545 | the partition-side node holds exactly one aggregate per aggregate column, with that column's position as output column, in column order |
| AggregatePlanning.TopMatchesDist | src/frontend/org/voltdb/planner/PlanAssembler.java:1557-1603 | when split, each coordinator aggregate matches a pushed-down one on output column and DISTINCT flag, applies its split function (`AggregatePlanning.CoordinatorAgg`), and reads that column of the partition results |
| AggregatePlanning.TopAggsExist | src/frontend/org/voltdb/planner/PlanAssembler.java:1557-1604 | a coordinator node exists exactly when it is wanted and every aggregate column can be split |
| AggregatePlanning.AverageCancelsSplit | src/frontend/org/voltdb/planner/PlanAssembler.java:1590-1596 | an AVG anywhere among the columns cancels the coordinator node |
| AggregatePlanning.CountStarSplitsIntoSum | src/frontend/org/voltdb/planner/PlanAssembler.java:1571-1580 | COUNT(*) on the partitions is summed by the coordinator over the temp-table column |
| AggregatePlanning.NeedHashAggregateIff | src/frontend/org/voltdb/planner/PlanAssembler.java:1468-1497 | `AggregatePlanning.NeedHashAggregate` is false exactly when the statement is ungrouped, the index scan serves the grouping only, or an ordered index scan or join delivers the ORDER BY and GROUP BY is a permutation of its prefix |
| AggregatePlanning.AggregateNodeTypesFacts | src/frontend/org/voltdb/planner/PlanAssembler.java:1498-1516 | for `AggregatePlanning.AggregateNodeTypes`: a coordinator node exists exactly without a materialized-view fix and hashes exactly when hashing is needed; the partition node hashes exactly when hashing is needed and no grouping index scan was pushed down (or the fix is needed) |
| AggregatePlanning.PushDownAggregateFacts | src/frontend/org/voltdb/planner/PlanAssembler.java:1802-1856 | `AggregatePlanning.PushDownAggregate` (with `PlaceAggregates`) keeps every receive on its send, and keeps their number |
| AggregatePlanning.NoProjectionAfterPushDown | src/frontend/org/voltdb/planner/PlanAssembler.java:779-809 | after the push-down `AggregatePlanning.NeedProjectionNode` is false: the root is an aggregate, the final projection, or a receive whose coordinator aggregate was dropped for a GROUP BY on the partition column |
| AggregatePlanning.AggregatedPlan | src/frontend/org/voltdb/planner/PlanAssembler.java:1468-1655 | the aggregate nodes built and pushed down keep the pairing and the receive count, and need no further projection |
| AggregatePlanning.HandleAggregationOperators | src/frontend/org/voltdb/planner/PlanAssembler.java:1657-1669 | when DISTINCT is redundant (grouped with every GROUP BY column displayed, or an ungrouped aggregate) the aggregated plan is returned as is; otherwise `handleDistinct` is applied to it |
| AggregatePlanning.HandleAggregationDistinct | src/frontend/org/voltdb/planner/PlanAssembler.java:1415-1669 | a successful result keeps the pairing and the receive count; with redundant DISTINCT and aggregation it cannot fail and its root is an aggregate, the final projection or a receive, never a distinct node; with non-redundant DISTINCT over plain columns the root is the final projection over the coordinator's distinct node |
| AggregatePlanning.CountStarPlan | src/frontend/org/voltdb/planner/PlanAssembler.java:1415-1670 | `SELECT COUNT(*)` on a partitioned table: the partitions count under the send, and the coordinating SUM with HAVING sits above the receive |
| DmlPlans.Reducer | src/frontend/org/voltdb/planner/PlanAssembler.java:1122-1172 | a replicated target is reduced by LIMIT 1 OFFSET 0; any other by a serial SUM of `modified_tuples` on output column 0 |
| DmlPlans.DistributeFacts | src/frontend/org/voltdb/planner/PlanAssembler.java:1101-1110 | a single-partition statement is the bare DML node; otherwise (`DmlPlans.SumOrLimitAndSend` over a fragment boundary) send over reducer over receive over send over the DML node, with exactly one more receive |
| DmlPlans.FitToColumn | src/frontend/org/voltdb/planner/PlanAssembler.java:1070-1087 | the result has the column's type and size, and is the expression itself exactly when that already holds, else a cast of it |
| DmlPlans.ColumnExpr | src/frontend/org/voltdb/planner/PlanAssembler.java:1005-1087 | fails, with the "has no default and is not nullable" message, exactly when the column is omitted, not nullable and has no default; otherwise it has the column's type and size |
| DmlPlans.OmittedNullableIsNull | src/frontend/org/voltdb/planner/PlanAssembler.java:1050-1053 | an omitted nullable column without a default is a NULL constant of the column's type and size |
| DmlPlans.FunctionDefaultIsCall | src/frontend/org/voltdb/planner/PlanAssembler.java:1013-1040 | a timestamp default naming a SQL function is a TIMESTAMP call of it, cast unless the column is a full-width timestamp |
| DmlPlans.BuildInsertPlan | src/frontend/org/voltdb/planner/PlanAssembler.java:973-1111 | the column loop gives `InsertPlan` |
| DmlPlans.MaterializeSchemaStopsAtError | src/frontend/org/voltdb/planner/PlanAssembler.java:999-1010 | the first column lacking a value stops the planning with its message |
| DmlPlans.MaterializeSchemaFacts | src/frontend/org/voltdb/planner/PlanAssembler.java:995-1095 | fails exactly when some column lacks a value, with the first such column's message; otherwise one column per table column, in order, named after it, with its type and size |
| DmlPlans.InsertPlanFacts | src/frontend/org/voltdb/planner/PlanAssembler.java:985-1110 | `DmlPlans.InsertPlan` fails exactly when a column lacks a value; otherwise an insert over a materialize of the table's width, multi-partition exactly when distributed, with one receive then and paired |
| DmlPlans.DeletePlanFacts | src/frontend/org/voltdb/planner/PlanAssembler.java:841-887 | `DmlPlans.DeletePlan` truncates exactly when the scan is a sequential scan without predicate, and then has no child; otherwise it has the scan with the tuple-address projection inlined; a single-partition statement is the bare delete |
| DmlPlans.BuildUpdatePlan | src/frontend/org/voltdb/planner/PlanAssembler.java:903-964 | the SET-column loop gives `UpdatePlan` |
| DmlPlans.UpdatePlanFacts | src/frontend/org/voltdb/planner/PlanAssembler.java:903-964 | in `DmlPlans.UpdatePlan` indexes are updated exactly when a SET column is indexed; the scan carries the tuple address, then each SET column with its value; the pairing is kept |
| CompoundPlans.Combine | src/frontend/org/voltdb/planner/PlanAssembler.java:529-571 | a successful combination is one of the two partitionings |
| CompoundPlans.CombineCharacterization | src/frontend/org/voltdb/planner/PlanAssembler.java:535-571 | fails exactly on a clash, with the "too complex" message exactly when a coordinator fragment is involved; otherwise it needs two fragments when either does and is pinned by whichever expression pins either |
| CompoundPlans.ClashSymmetric | src/frontend/org/voltdb/planner/PlanAssembler.java:535-571 | whether two children clash does not depend on their order |
| CompoundPlans.NeutralChildChangesNothing | src/frontend/org/voltdb/planner/PlanAssembler.java:547-566 | a replicated read never changes the common partitioning, and is replaced by the next child that is not one |
| CompoundPlans.FoldPartitioningFacts | src/frontend/org/voltdb/planner/PlanAssembler.java:529-575 | reconciliation succeeds exactly when no two children clash, whatever their order; the result is one of the children's, needs two fragments when some child does, and carries the one shared partitioning expression |
| CompoundPlans.UnionPrefixShape | src/frontend/org/voltdb/planner/PlanAssembler.java:508-572 | after `i` planned children there are `i` roots and partitionings, the common one is their fold, and no two clash |
| CompoundPlans.UnionPrefixThreadsPlanIds | src/frontend/org/voltdb/planner/PlanAssembler.java:507-527 | each child is planned from the plan id the previous one ended at (0 for the first), in order |
| CompoundPlans.UnionConflictMessage | src/frontend/org/voltdb/planner/PlanAssembler.java:544-570 | a conflict carries one of the two set-operation error messages |
| CompoundPlans.UnionFailureSticks | src/frontend/org/voltdb/planner/PlanAssembler.java:517-523 | once a child cannot be planned or conflicts, no later child changes the outcome |
| CompoundPlans.SubqueryResultsThreadIds | src/frontend/org/voltdb/planner/PlanAssembler.java:410-418 | sub-query `k` is planned from the plan id sub-query `k - 1` ended at, and the results are the planner's answers |
| CompoundPlans.SubqueryResultsFail | src/frontend/org/voltdb/planner/PlanAssembler.java:413-417 | the accumulation fails exactly when some sub-query, planned after all earlier ones succeeded, cannot be planned |
| CompoundPlans.SignificantLimit | src/frontend/org/voltdb/planner/PlanAssembler.java:419-423 | a limit is significant only on a non-deterministic sub-query, so deterministic sub-queries contribute none |
| CompoundPlans.MergeDeterminism | src/frontend/org/voltdb/planner/PlanAssembler.java:363-385 | the parent is order-deterministic exactly when its best plan is and every sub-query is, or it is deterministic in spite of them; it has a limit when either has one |
| CompoundPlans.DeterministicSubqueriesChangeNothing | src/frontend/org/voltdb/planner/PlanAssembler.java:363-385 | deterministic sub-queries leave the parent's determinism unchanged |
| Assembly.InsertIntoExportTableIsLegal | src/frontend/org/voltdb/planner/PlanAssembler.java:266-293 | appending rows to an export table passes the legality checks |
| Assembly.LegalityErrorCases | src/frontend/org/voltdb/planner/PlanAssembler.java:225-307 | `Assembly.LegalityError` refuses DML exactly when it modifies a view, writes a replicated table in a single-partition procedure, or updates or deletes from an export table; a SELECT exactly when it reads an export table; a set operation never |
| Assembly.FirstNonIndexJoin | src/frontend/org/voltdb/planner/PlanAssembler.java:834-838 | the position of the first candidate that is not a nested-loop index join |
| Assembly.PlanAssembler.SetupForNewPlans | src/frontend/org/voltdb/planner/PlanAssembler.java:225-321 | returns the first legality error in source order; on success records the statement and, for SELECT, UPDATE and DELETE, the candidate plans; sets the DML flag and the DML partition column of a partitioned target unless single-partition |
| Assembly.PlanAssembler.GetNextInsertPlan | src/frontend/org/voltdb/planner/PlanAssembler.java:973-1111 | the first call returns the insert plan and sets the only-plan flag; every later call returns nothing |
| Assembly.PlanAssembler.GetNextDeletePlan | src/frontend/org/voltdb/planner/PlanAssembler.java:821-888 | the delete plan of the first candidate that is not a nested-loop index join, consuming the candidates up to it; nothing once they run out |
| Assembly.PlanAssembler.GetNextUpdatePlan | src/frontend/org/voltdb/planner/PlanAssembler.java:890-965 | the same for the update plan |
| Assembly.PlanAssembler.NextCandidate | src/frontend/org/voltdb/planner/PlanAssembler.java:828-838 | takes candidates until one is not a nested-loop index join and returns that scan |
| Assembly.PlanAssembler.GetNextUnionPlan | src/frontend/org/voltdb/planner/PlanAssembler.java:492-600 | runs once; the union node over the children's best plans, or the conflict error, or nothing with the "unknown" message when a child cannot be planned; on success it adopts the common partitioning and the last plan id |
| Assembly.PlanAssembler.GetBestCostPlanForSubQueries | src/frontend/org/voltdb/planner/PlanAssembler.java:409-430 | the summary of all sub-query results with the last plan id adopted, or nothing with the "unknown subquery" message unless one was already set |
| IndexCount.EffectiveLookup | src/ee/executors/indexcountexecutor.cpp:101-106 | an EQ lookup on fewer keys than the index has becomes GTE; every other lookup is kept |
| IndexCount.SearchRangeErrorCountsZero | src/ee/executors/indexcountexecutor.cpp:152-186 | a range error on an EQ lookup, on a search key before the last, or an overflow of the last, counts 0 |
| IndexCount.SearchUnderflowStartsAtZero | src/ee/executors/indexcountexecutor.cpp:167-176 | an underflowing last search key of a range lookup starts at rank 0 with the left end excluded |
| IndexCount.EndRangeErrorCountsZero | src/ee/executors/indexcountexecutor.cpp:204-237 | a range error on an end key before the last, or an underflow of the last, counts 0 |
| IndexCount.EndOverflowClamps | src/ee/executors/indexcountexecutor.cpp:215-227 | an overflowing last end key is clamped to its type's maximum, keeps the earlier keys, and ends at the inclusive GET rank without the right end |
| IndexCount.InRangeCount | src/ee/executors/indexcountexecutor.cpp:244-300 | with all keys in range the count is `rkEnd - rkStart - 1 + leftIncluded + rightIncluded`; a lookup type other than GT/GTE, or an end type other than LT/LTE, returns false |
| IndexCount.IndexCountExecutor.Init | src/ee/executors/indexcountexecutor.cpp:33-109 | succeeds exactly when no search or end key expression is missing, then takes the keys and the promoted lookup type, and the end type only when there are end keys |
| IndexCount.IndexCountExecutor.Execute | src/ee/executors/indexcountexecutor.cpp:111-301 | appends exactly one count row, `IndexCount.CountOutcome` (whose stages the lemmas above characterize), when it returns true, and nothing when it returns false |
| IndexCount.StartRankOf | src/ee/executors/indexcountexecutor.cpp:250-272 | computes `StartRank` (GT, GTE with the partial-key step, underflow), and false for other lookup types |
| IndexCount.EndRankOf | src/ee/executors/indexcountexecutor.cpp:273-293 | computes `EndRank` (index size without end keys, clamped key, LT, LTE), and false for other end types |
| IndexCount.FillSearchKey | src/ee/executors/indexcountexecutor.cpp:144-188 | the key array holds the stored prefix followed by NULLs, as `SearchStage` says |
| IndexCount.ClearKey | src/ee/executors/indexcountexecutor.cpp:143 | every column of the key tuple is NULL, as `setAllNulls` leaves it before the keys are stored |
| IndexCount.FillEndKey | src/ee/executors/indexcountexecutor.cpp:196-239 | the same for the end key, as `EndStage` says, with the clamped maximum |
| Tables.Kept | src/ee/executors/seqscanexecutor.cpp:188-208 | all appended rows are kept exactly when the bound allows them all; otherwise the table fills up to its bound and keeps nothing more |
| Tables.Table.InsertTempTuple | src/ee/executors/seqscanexecutor.cpp:202-208 | appends the row exactly when the table has room, and reports whether it did |
| SeqScan.Qualifying | src/ee/executors/seqscanexecutor.cpp:157-166 | the accepted tuples are table rows satisfying the predicate, and all rows when there is none |
| SeqScan.Emit | src/ee/executors/seqscanexecutor.cpp:178-202 | an accepted tuple is emitted as is, or with each column computed by the inline projection's expression |
| SeqScan.Window | src/ee/executors/seqscanexecutor.cpp:147-172 | the skipped and emitted positions lie within the accepted tuples |
| SeqScan.ScanOutputFromAcceptedTuples | src/ee/executors/seqscanexecutor.cpp:157-209 | every emitted row comes from an accepted table row; without projection the emitted rows are accepted table rows |
| SeqScan.ScanOutputWindow | src/ee/executors/seqscanexecutor.cpp:147-172 | without limit the output is the accepted tuples past the offset; a limit bounds the rows emitted, and LIMIT 0 emits none |
| SeqScan.LimitOffsetSlicesTable | src/ee/executors/seqscanexecutor.cpp:147-172 | with neither predicate nor projection, LIMIT `l` OFFSET `k` emits the table's rows `k` to `k + l` |
| SeqScan.ScanFromIsWindow | src/ee/executors/seqscanexecutor.cpp:157-211 | the loop's output (stop at the limit, skip the offset, emit) is the declarative window of accepted tuples |
| SeqScan.SeqScanExecutor.SetOutputTable | src/ee/executors/seqscanexecutor.cpp:61-84 | with neither predicate nor inline node the output is the target table itself; otherwise a fresh empty temp table |
| SeqScan.SeqScanExecutor.Execute | src/ee/executors/seqscanexecutor.cpp:92-216 | a copying scan appends `ScanOutput` as far as the output table accepts it and fails exactly when a row is refused; the target is unchanged; LIMIT 0 reads no tuple |
| SeqScan.SeqScanExecutor.CopyTuples | src/ee/executors/seqscanexecutor.cpp:147-211 | the loop appends `ScanFrom` from the start up to the table's bound and reports a refusal |
| SeqScan.SeqScanExecutor.EmitTuple | src/ee/executors/seqscanexecutor.cpp:178-209 | one accepted tuple, projected when required, is inserted if the table has room |
| SeqScan.ProjectTuple | src/ee/executors/seqscanexecutor.cpp:180-187 | the temp tuple's column `k` is the `k`-th projection expression on the tuple |
| Projection.ModeOf | src/ee/executors/projectionexecutor.cpp:85-93 | column indexes take priority over parameters, and parameters over expressions, as three iffs |
| Projection.ProjectRow | src/ee/executors/projectionexecutor.cpp:109-131 | the output row has the chosen mode's width |
| Projection.ProjectRowColumns | src/ee/executors/projectionexecutor.cpp:109-131 | each output column is the input column named by its index, the parameter vector, or its expression on the input row |
| Projection.ParamsIgnoreInput | src/ee/executors/projectionexecutor.cpp:117-124 | in parameter mode the output row does not depend on the input row |
| Projection.ProjectAll | src/ee/executors/projectionexecutor.cpp:111-131 | one output row per input row, in input order |
| Projection.ProjectionExecutor.Init | src/ee/executors/projectionexecutor.cpp:60-70 | always succeeds; a projection that is not inline prepares its scratch tuple |
| Projection.ProjectionExecutor.Execute | src/ee/executors/projectionexecutor.cpp:72-136 | appends the projection of every input row, as far as the output table's bound allows, and returns true regardless of refused rows |
| Projection.ProjectionExecutor.FillTempTuple | src/ee/executors/projectionexecutor.cpp:112-128 | the column loop, running from the last column down, fills the temp tuple with `ProjectRow` |
| Projection.UnboundedOutputGetsEveryRow | src/ee/executors/projectionexecutor.cpp:111-131 | a table without bound receives every projected row |
| Cipher.PageSizeIs16K | src/frontend/org/voltcore/network/CipherExecutor.java:45-46 | `1 << 14` is 16384, the largest TLS fragment |
| Cipher.PageShiftAndMaskAreDivMod | src/frontend/org/voltcore/network/CipherExecutor.java:134-135 | `size >> 14` is the floor quotient by 16384, and `size & 16383` the non-negative remainder, for negative sizes too |
| Cipher.FramesForIsCeiling | src/frontend/org/voltcore/network/CipherExecutor.java:133-137 | the frames hold the message and one fewer would not; for a non-negative size they are `(size + 16383) / 16384`, always a Java `int` |
| Cipher.FramesForWholePages | src/frontend/org/voltcore/network/CipherExecutor.java:133-137 | an empty message needs no frame, and `k` whole pages need exactly `k` |
| Cipher.FramesForMonotone | src/frontend/org/voltcore/network/CipherExecutor.java:133-137 | a larger message never needs fewer frames |
| Cipher.WishedThreadCount | src/frontend/org/voltcore/network/CipherExecutor.java:67-76 | at least 2; 2 without a runtime; otherwise the larger of 2 and half the processors |
| Cipher.ThreadCount | src/frontend/org/voltcore/network/CipherExecutor.java:42-43 | the server uses the wished count, the client 2, and both at least 2 |
| Cipher.LongValue | src/frontend/org/voltcore/network/CipherExecutor.java:190-191 | a signed 64-bit value congruent to the number modulo 2^64 |
| Cipher.UuidOfRoundTrip | src/frontend/org/voltcore/network/CipherExecutor.java:190-191 | the digest is recovered from the two halves of its UUID |
| Cipher.UuidOfInjective | src/frontend/org/voltcore/network/CipherExecutor.java:190-191 | different digests give different UUIDs |
| Cipher.DigestedRegion | src/frontend/org/voltcore/network/CipherExecutor.java:206-211 | a buffer with nothing remaining and a positive limit is read from its start up to the limit (flipped); any other buffer from its position up to its limit |
| Cipher.DigestOf | src/frontend/org/voltcore/network/CipherExecutor.java:172-192 | no UUID exactly when the offset is negative or at or past the end of the bytes |
| Cipher.FeedFrom | src/frontend/org/voltcore/network/CipherExecutor.java:186-189 | the read loop feeds the digester exactly the bytes from the offset on |
| Cipher.DigestByteBuf | src/frontend/org/voltcore/network/CipherExecutor.java:172-192 | the result is `DigestOf` on the buffer's readable bytes |
| Cipher.DigestByteBuffer | src/frontend/org/voltcore/network/CipherExecutor.java:197-221 | the result is `DigestOf` on `DigestedRegion` of the buffer |

## Left out

- `getNextSelectPlan` (the driver that chains the SELECT shaping rules), `getNextPlan` (the dispatcher) and plan cost: the rules they chain are modelled one by one; the driver only sequences them and calls the sub-plan assembler.
- `handleMVBasedMultiPartQuery` and `indexAccessForGroupByExprs`: they depend on materialized-view fix information and index selection, which are not part of this model. `AggregatePlanning.HandleAggregationOperators` takes the plan after any index substitution and a flag saying whether it happened.
- `StatementPartitioning`'s analyses (`analyzeTablePartitioning`, `analyzeForMultiPartitionAccess`, `addPartitioningExpression`), the GROUP BY partition-column detection of `setupForNewPlans`, and `setInBytes`: only the fields the rules read are kept.
- The schemas of the aggregate nodes, their GROUP BY expressions and `refineValueType`: aggregates are modelled by function, DISTINCT flag, output column and input; column types by `vtype` and `vsize`.
- `toLeftJoin` (RIGHT joins rewritten as LEFT) is not part of this model; the join tree given to the simplifier has only INNER and LEFT joins.
- `Catalog.TableListIncludesExportOnly`: table names are compared with case folding of the ASCII letters only; Java's `equalsIgnoreCase` also folds other letters (such as `é` and `É`), which Unicode case tables would be needed to model.
- `DmlPlans.Reducer`: the LIMIT 1 node's offset of 0 is the plan node's default, which is not part of this model.
- Java runtime failures (a missing child, `IndexOutOfBoundsException`) and the planner's `assert`s: the model's preconditions assume the shapes the planner produces.
- Plan-node parent pointers and in-place relinking: plans are values, so aliasing between plan nodes is not captured.
- CipherExecutor's thread-pool lifecycle (`getES`, `startup`, `shutdown`, its synchronization) and the pooled allocators: concurrency and third-party pools. MD5 itself is a parameter.
- Executor I/O and collaborators: expression evaluation is a parameter, and key conversion (`setNValue` with its range errors) is a parameter returning the stored value or the range error. The rethrow of non-range `SQLException`s is left out.
- C++ debug `assert`s: release behaviour is modelled.
- `IndexCount.IndexCountExecutor.Execute`: the 64-bit `int64_t` arithmetic of `rkRes` is modelled with unbounded integers; ranks of a real index are far inside that range.
- `Tables.Kept`: a temp table's memory limit is abstracted as an optional bound on its number of rows; tuple schemas, widths and copying into table storage are not modelled.
- `Projection.ProjectionExecutor.Execute` requires a projection that is not inline, where the C++ only asserts it.
