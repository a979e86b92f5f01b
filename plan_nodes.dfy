/** Plan nodes as a closed sum type, and the structural facts the plan-shaping rules preserve. */
module PlanNodes {
  import opened Common

  datatype SortDirection = Ascending | Descending | InvalidDirection

  datatype SortKey = SortKey(expr: Expr, direction: SortDirection)

  /** One aggregate of an aggregate node: function, DISTINCT flag, output column, input. */
  datatype AggSpec = AggSpec(agg: AggKind, distinct: bool, outputColumn: nat, input: Expr)

  datatype SchemaColumn = SchemaColumn(table: string, alias: string, column: string, expr: Expr)

  /** What a scan reads: a catalog table, or a sub-query whose best plan has been cached on it. */
  datatype ScanSource = BaseTable(name: string) | SubqueryScan(id: nat, best: Plan)

  datatype Kind =
    | SeqScan(source: ScanSource, filter: Option<Expr>)
    | IndexScan(source: ScanSource, sortDirection: SortDirection, forGroupingOnly: bool)
    | NestLoop(sortDirection: SortDirection)
    | NestLoopIndex(sortDirection: SortDirection)
      /** `hashed` distinguishes HASHAGGREGATE from (serial) AGGREGATE */
    | Aggregate(hashed: bool, aggs: seq<AggSpec>, coordinating: bool, postPredicate: Option<Expr>)
    | Distinct(exprs: seq<Expr>)
    | OrderBy(sorts: seq<SortKey>)
    | Limit(limit: int, offset: int)
    | Projection(schema: seq<SchemaColumn>)
    | Materialize(schema: seq<SchemaColumn>)
    | Insert(target: string, multiPartition: bool)
    | Update(target: string, updateIndexes: bool)
    | Delete(target: string, truncate: bool)
    | Send
    | Receive
    | Union(unionType: int)

  /** A plan node: its kind, its ordered children, and the nodes inlined into it. */
  datatype Plan = Node(kind: Kind, children: seq<Plan>, inlines: seq<Kind>)

  function Leaf(k: Kind): Plan {
    Node(k, [], [])
  }

  function Over(k: Kind, child: Plan): Plan {
    Node(k, [child], [])
  }

  predicate IsScan(k: Kind) {
    k.SeqScan? || k.IndexScan?
  }

  predicate IsJoin(k: Kind) {
    k.NestLoop? || k.NestLoopIndex?
  }

  /** The plan-node type of a kind, as a number (one per constructor). */
  function TypeTag(k: Kind): nat {
    match k
    case SeqScan(_, _) => 0
    case IndexScan(_, _, _) => 1
    case NestLoop(_) => 2
    case NestLoopIndex(_) => 3
    case Aggregate(hashed, _, _, _) => if hashed then 5 else 4
    case Distinct(_) => 6
    case OrderBy(_) => 7
    case Limit(_, _) => 8
    case Projection(_) => 9
    case Materialize(_) => 10
    case Insert(_, _) => 11
    case Update(_, _) => 12
    case Delete(_, _) => 13
    case Send => 14
    case Receive => 15
    case Union(_) => 16
  }

  function WithoutType(ks: seq<Kind>, tag: nat): (r: seq<Kind>)
    ensures forall i :: 0 <= i < |r| ==> TypeTag(r[i]) != tag && r[i] in ks
    ensures forall k :: k in ks && TypeTag(k) != tag ==> k in r
  {
    if ks == [] then []
    else if TypeTag(ks[0]) == tag then WithoutType(ks[1..], tag)
    else [ks[0]] + WithoutType(ks[1..], tag)
  }

  /** `addInlinePlanNode`: inline nodes are keyed by type, so a new one replaces an old one of its type. */
  function AddInline(p: Plan, k: Kind): (r: Plan)
    ensures r.kind == p.kind && r.children == p.children
    ensures k in r.inlines
    ensures forall j :: j in r.inlines && TypeTag(j) == TypeTag(k) ==> j == k
    ensures forall j :: j in p.inlines && TypeTag(j) != TypeTag(k) ==> j in r.inlines
  {
    Node(p.kind, p.children, WithoutType(p.inlines, TypeTag(k)) + [k])
  }

  /** `addSendReceivePair`: a fragment boundary on top of `p`. */
  function FragmentPair(p: Plan): Plan {
    Over(Receive, Over(Send, p))
  }

  /** Every receive node sits on exactly one send node, which has exactly one child. */
  predicate Paired(p: Plan)
    decreases p
  {
    && (p.kind.Receive? ==> |p.children| == 1 && p.children[0].kind.Send? && |p.children[0].children| == 1)
    && forall i :: 0 <= i < |p.children| ==> Paired(p.children[i])
  }

  function CountReceives(p: Plan): nat
    decreases p
  {
    (if p.kind.Receive? then 1 else 0) + CountReceivesIn(p.children)
  }

  function CountReceivesIn(ps: seq<Plan>): nat
    decreases ps
  {
    if ps == [] then 0 else CountReceives(ps[0]) + CountReceivesIn(ps[1..])
  }

  lemma CountReceivesInSingleton(p: Plan)
    ensures CountReceivesIn([p]) == CountReceives(p)
  {
    assert [p][1..] == [];
  }

  /** A fragment boundary adds exactly one receive and keeps the pairing. */
  lemma FragmentPairFacts(p: Plan)
    ensures CountReceives(FragmentPair(p)) == 1 + CountReceives(p)
    ensures Paired(FragmentPair(p)) <==> Paired(p)
  {
    CountReceivesInSingleton(p);
    CountReceivesInSingleton(Over(Send, p));
  }

  /** A node with one child adds no receive unless it is a receive. */
  lemma OverFacts(k: Kind, p: Plan)
    ensures CountReceives(Over(k, p)) == (if k.Receive? then 1 else 0) + CountReceives(p)
    ensures !k.Receive? ==> (Paired(Over(k, p)) <==> Paired(p))
  {
    CountReceivesInSingleton(p);
  }

  /** `p` with its children replaced by the single child `c` (`clearChildren` + `addAndLinkChild`). */
  function WithOnlyChild(p: Plan, c: Plan): (r: Plan)
    ensures r.kind == p.kind && r.inlines == p.inlines && r.children == [c]
  {
    p.(children := [c])
  }

  /** Replacing the children of a node by one child adds no receive unless the node is one, and
      keeps the pairing when a receive keeps a send with one child. */
  lemma WithOnlyChildFacts(p: Plan, c: Plan)
    ensures CountReceives(WithOnlyChild(p, c)) == (if p.kind.Receive? then 1 else 0) + CountReceives(c)
    ensures Paired(WithOnlyChild(p, c)) <==>
      Paired(c) && (p.kind.Receive? ==> c.kind.Send? && |c.children| == 1)
  {
    CountReceivesInSingleton(c);
  }

  /** A plan keeps its pairing and receive count when an inline node is added. */
  lemma AddInlineFacts(p: Plan, k: Kind)
    ensures CountReceives(AddInline(p, k)) == CountReceives(p)
    ensures Paired(AddInline(p, k)) <==> Paired(p)
  {
  }

  /** `p` with its first child replaced by `x`. */
  function WithFirstChild(p: Plan, x: Plan): (r: Plan)
    requires |p.children| > 0
    ensures r.kind == p.kind && r.inlines == p.inlines && |r.children| == |p.children|
    ensures r.children[0] == x && forall i :: 1 <= i < |r.children| ==> r.children[i] == p.children[i]
  {
    p.(children := [x] + p.children[1..])
  }

  lemma WithFirstChildFacts(p: Plan, x: Plan)
    requires |p.children| > 0 && !p.kind.Receive?
    ensures CountReceives(WithFirstChild(p, x)) + CountReceives(p.children[0]) == CountReceives(p) + CountReceives(x)
    ensures Paired(WithFirstChild(p, x)) <==> Paired(x) && forall i :: 1 <= i < |p.children| ==> Paired(p.children[i])
    ensures Paired(p) <==> Paired(p.children[0]) && forall i :: 1 <= i < |p.children| ==> Paired(p.children[i])
  {
    var rest := p.children[1..];
    assert ([x] + rest)[1..] == rest;
    assert p.children[1..] == rest;
    var r := WithFirstChild(p, x);
    assert forall i :: 1 <= i < |p.children| ==> r.children[i] == p.children[i];
  }
}
