/** Types shared by the planner and the execution-engine models. */
module Common {

  datatype Option<+T> = None | Some(value: T)

  /** The outcome of a planning step: a value, or a user-facing planning error
      (a `PlanningErrorException` in the planner). */
  datatype Result<+T> = Ok(value: T) | PlanningError(msg: string)

  /** VoltType codes the planner compares with catalog column types.
      VoltType itself is not part of this model; these are its codes. */
  const TIMESTAMP_TYPE: int := 11
  const TIMESTAMP_MAX_BYTES: int := 8
  const BIGINT_TYPE: int := 6
  const BIGINT_BYTES: int := 8

  /** Aggregate functions the aggregate builder distinguishes; every other one is `OtherAgg`. */
  datatype AggKind = CountStar | Count | Sum | Min | Max | Avg | OtherAgg(code: int)

  /** A planner expression. Expressions are opaque to most of the planner; the variants below are
      the ones whose shape some rule inspects or builds. Every expression has a value type (a
      VoltType code) and a value size. */
  datatype Expr =
    | Opaque(id: nat, vtype: int, vsize: int)
      /** a TupleValueExpression; `hasAggregate` marks a column computed by an aggregate */
    | ColumnValue(tableAlias: string, column: string, vtype: int, vsize: int, hasAggregate: bool)
    | AggregateExpr(agg: AggKind, distinct: bool, arg: Expr, vtype: int, vsize: int)
      /** a constant; `None` is SQL NULL */
    | Constant(text: Option<string>, vtype: int, vsize: int)
      /** a SQL function call, e.g. a timestamp default such as NOW */
    | Call(name: string, fid: int, vtype: int, vsize: int)
    | Cast(arg: Expr, vtype: int, vsize: int)
    | TupleAddress

  function ValueType(e: Expr): int {
    if e.TupleAddress? then BIGINT_TYPE else e.vtype
  }

  function ValueSize(e: Expr): int {
    if e.TupleAddress? then BIGINT_BYTES else e.vsize
  }

  /** The TupleValueExpressions an expression is built from (`findBaseTVEs`). */
  function BaseColumns(e: Expr): seq<Expr>
    decreases e
  {
    match e
    case ColumnValue(_, _, _, _, _) => [e]
    case AggregateExpr(_, _, arg, _, _) => BaseColumns(arg)
    case Cast(arg, _, _) => BaseColumns(arg)
    case _ => []
  }

  /** What the planner knows about where a statement runs (`StatementPartitioning`): whether the
      procedure was declared single-partition, whether the analysis inferred one partition, whether
      the plan needs a second (coordinator) fragment, the single partitioning expression if any,
      and, for DML, the flag and the target's partition column. The analyses that compute the
      inferred parts are not part of this model; their results are inputs. */
  datatype StatementPartitioning = StatementPartitioning(
    specifiedAsSingle: bool,
    inferredSingle: bool,
    requiresTwoFragments: bool,
    partitionExpr: Option<Expr>,
    isDML: bool,
    dmlPartitionColumn: Option<string>)

  predicate RunsSingle(p: StatementPartitioning) {
    p.specifiedAsSingle || p.inferredSingle
  }

  /** A run-time value of the execution engine (NValue). */
  datatype NValue = NullValue | BoolValue(b: bool) | IntValue(i: int) | StringValue(s: string)

  /** `NValue::isTrue()` */
  predicate IsTrue(v: NValue) {
    v == BoolValue(true)
  }

  type Row = seq<NValue>
}
