/** Outer-join simplification by null rejection (`simplifyOuterJoin`). The join tree is walked top
    down; a LEFT join whose inner side has a table for which an accumulated predicate rejects nulls
    becomes an INNER join. The accumulated predicate list is a single mutable list shared by the
    caller and the callee, so what one recursive call appends is seen by the calls after it. */
module JoinSimplifier {
  import opened Common

  datatype JoinType = Inner | LeftOuter

  /** A join tree node carries the WHERE and JOIN (ON) expressions attached to it. */
  datatype JoinTree =
    | TableLeaf(alias: string, whereExpr: Option<Expr>, joinExpr: Option<Expr>)
    | Branch(joinType: JoinType, left: JoinTree, right: JoinTree, whereExpr: Option<Expr>, joinExpr: Option<Expr>)

  /** The null-rejection test `isNullRejectingExpression(expr, tableAlias)`, supplied by the caller. */
  type NullRejection = (Expr, string) -> bool

  function Opt(e: Option<Expr>): seq<Expr> {
    if e.Some? then [e.value] else []
  }

  /** `generateTableJoinOrder`: the table aliases of a subtree, left to right. */
  function Aliases(t: JoinTree): seq<string> {
    match t
    case TableLeaf(a, _, _) => [a]
    case Branch(_, l, r, _, _) => Aliases(l) + Aliases(r)
  }

  /** The WHERE expressions of a branch's two children. */
  function Wheres(t: JoinTree): seq<Expr>
    requires t.Branch?
  {
    Opt(t.left.whereExpr) + Opt(t.right.whereExpr)
  }

  /** The JOIN expressions of a branch's two children. */
  function Joins(t: JoinTree): seq<Expr>
    requires t.Branch?
  {
    Opt(t.left.joinExpr) + Opt(t.right.joinExpr)
  }

  /** Some expression of `exprs` rejects nulls for some table of `aliases`. */
  predicate RejectsNulls(exprs: seq<Expr>, aliases: seq<string>, nr: NullRejection) {
    exists i, j :: 0 <= i < |exprs| && 0 <= j < |aliases| && nr(exprs[i], aliases[j])
  }

  /** The join type a node gets: a LEFT join becomes INNER when some expression of `exprs`
      rejects nulls for a table of its inner (right) side. */
  function Decide(t: JoinTree, exprs: seq<Expr>, nr: NullRejection): JoinType
    requires t.Branch?
  {
    if t.joinType == LeftOuter && RejectsNulls(exprs, Aliases(t.right), nr) then Inner else t.joinType
  }

  /** `simplifyOuterJoinRecursively` with the shared list threaded through: given the list on
      entry, the rewritten subtree and the caller's list on exit. */
  function Simplify(t: JoinTree, exprs: seq<Expr>, nr: NullRejection): (JoinTree, seq<Expr>)
    requires t.Branch?
    decreases t, 0
  {
    var newExprs := exprs + Joins(t);
    var shared := exprs + Wheres(t);
    if Decide(t, exprs, nr) == Inner then
      var l := Sub(t.left, shared + newExprs, nr);
      var r := Sub(t.right, l.1, nr);
      (Branch(Inner, l.0, r.0, t.whereExpr, t.joinExpr), r.1)
    else
      var r := Sub(t.right, newExprs + shared, nr);
      var l := Sub(t.left, shared, nr);
      (Branch(LeftOuter, l.0, r.0, t.whereExpr, t.joinExpr), l.1)
  }

  /** A child is descended into only when it is a branch; a table leaf is left as it is. */
  function Sub(c: JoinTree, exprs: seq<Expr>, nr: NullRejection): (JoinTree, seq<Expr>)
    decreases c, 1
  {
    if c.Branch? then Simplify(c, exprs, nr) else (c, exprs)
  }

  /** `simplifyOuterJoin`: only the WHERE expressions of the root's children start the list. */
  function SimplifyOuterJoin(root: JoinTree, nr: NullRejection): JoinTree
    requires root.Branch?
  {
    Simplify(root, Wheres(root), nr).0
  }

  /** A mutable expression list (`List<AbstractExpression>`), shared by reference. */
  class ExprList {
    var items: seq<Expr>

    constructor (s: seq<Expr>)
      ensures items == s
    {
      items := s;
    }

    method Add(e: Expr)
      modifies this
      ensures items == old(items) + [e]
    {
      items := items + [e];
    }

    method AddAll(s: seq<Expr>)
      modifies this
      ensures items == old(items) + s
    {
      items := items + s;
    }
  }

  /** The recursion as written: the join type is decided by scanning the list, `exprs` is changed
      in place and `newExprs` is a fresh copy. */
  method SimplifyOuterJoinRecursively(t: JoinTree, exprs: ExprList, nr: NullRejection) returns (r: JoinTree)
    requires t.Branch?
    modifies exprs
    ensures (r, exprs.items) == Simplify(t, old(exprs.items), nr)
    decreases t
  {
    ghost var entry := exprs.items;
    var jt := t.joinType;
    if jt == LeftOuter {
      var aliases := Aliases(t.right);
      var i := 0;
      while i < |exprs.items|
        invariant 0 <= i <= |exprs.items| && exprs.items == entry
        invariant jt == LeftOuter
        invariant forall k, j :: 0 <= k < i && 0 <= j < |aliases| ==> !nr(exprs.items[k], aliases[j])
      {
        var rejectNull := false;
        for j := 0 to |aliases|
          invariant !rejectNull
          invariant forall m :: 0 <= m < j ==> !nr(exprs.items[i], aliases[m])
        {
          if nr(exprs.items[i], aliases[j]) {
            jt := Inner;
            rejectNull := true;
            break;
          }
        }
        if rejectNull {
          assert RejectsNulls(entry, aliases, nr);
          break;
        }
        i := i + 1;
      }
    }
    assert jt == Decide(t, entry, nr);
    var newExprs := new ExprList(exprs.items);
    newExprs.AddAll(Opt(t.left.joinExpr));
    newExprs.AddAll(Opt(t.right.joinExpr));
    exprs.AddAll(Opt(t.left.whereExpr));
    exprs.AddAll(Opt(t.right.whereExpr));
    assert newExprs.items == entry + Joins(t);
    assert exprs.items == entry + Wheres(t);
    var l, rt := t.left, t.right;
    if jt == Inner {
      exprs.AddAll(newExprs.items);
      if t.left.Branch? {
        l := SimplifyOuterJoinRecursively(t.left, exprs, nr);
      }
      if t.right.Branch? {
        rt := SimplifyOuterJoinRecursively(t.right, exprs, nr);
      }
    } else {
      if t.right.Branch? {
        newExprs.AddAll(exprs.items);
        rt := SimplifyOuterJoinRecursively(t.right, newExprs, nr);
      }
      if t.left.Branch? {
        l := SimplifyOuterJoinRecursively(t.left, exprs, nr);
      }
    }
    r := Branch(jt, l, rt, t.whereExpr, t.joinExpr);
  }

  /** `simplifyOuterJoin` as written. */
  method SimplifyOuterJoinMethod(root: JoinTree, nr: NullRejection) returns (r: JoinTree)
    requires root.Branch?
    ensures r == SimplifyOuterJoin(root, nr)
  {
    var exprs := new ExprList([]);
    exprs.AddAll(Opt(root.left.whereExpr));
    exprs.AddAll(Opt(root.right.whereExpr));
    assert exprs.items == Wheres(root);
    r := SimplifyOuterJoinRecursively(root, exprs, nr);
  }

  // ---------------------------------------------------------------------------------------------
  // Properties

  /** Same tree except, possibly, for join types. */
  predicate SameShape(a: JoinTree, b: JoinTree) {
    match a
    case TableLeaf(_, _, _) => a == b
    case Branch(_, l, r, w, j) =>
      b.Branch? && b.whereExpr == w && b.joinExpr == j && SameShape(l, b.left) && SameShape(r, b.right)
  }

  /** Every INNER join of `a` is an INNER join of `b` (same shape assumed). */
  predicate InnerKept(a: JoinTree, b: JoinTree) {
    match a
    case TableLeaf(_, _, _) => true
    case Branch(jt, l, r, _, _) =>
      b.Branch? && (jt == Inner ==> b.joinType == Inner) && InnerKept(l, b.left) && InnerKept(r, b.right)
  }

  /** The simplifier changes join types only: tables, expressions and tree shape are untouched,
      and no INNER join ever becomes LEFT. */
  lemma {:induction false} SubKeepsShape(c: JoinTree, exprs: seq<Expr>, nr: NullRejection)
    ensures SameShape(c, Sub(c, exprs, nr).0)
    ensures InnerKept(c, Sub(c, exprs, nr).0)
    decreases c
  {
    if c.Branch? {
      var newExprs := exprs + Joins(c);
      var shared := exprs + Wheres(c);
      if Decide(c, exprs, nr) == Inner {
        SubKeepsShape(c.left, shared + newExprs, nr);
        SubKeepsShape(c.right, Sub(c.left, shared + newExprs, nr).1, nr);
      } else {
        SubKeepsShape(c.right, newExprs + shared, nr);
        SubKeepsShape(c.left, shared, nr);
      }
    }
  }

  lemma SimplifyOuterJoinKeepsShape(root: JoinTree, nr: NullRejection)
    requires root.Branch?
    ensures SameShape(root, SimplifyOuterJoin(root, nr))
    ensures InnerKept(root, SimplifyOuterJoin(root, nr))
  {
    SubKeepsShape(root, Wheres(root), nr);
  }

  /** At the node itself: a LEFT join becomes INNER exactly when an accumulated expression rejects
      nulls for a table on its inner (right) side; an INNER join stays INNER. */
  lemma SimplifyDecidesRoot(t: JoinTree, exprs: seq<Expr>, nr: NullRejection)
    requires t.Branch?
    ensures Simplify(t, exprs, nr).0.joinType == Inner
        <==> t.joinType == Inner || RejectsNulls(exprs, Aliases(t.right), nr)
  {
  }

  /** `a` is a prefix of `b`. */
  predicate Prefix(a: seq<Expr>, b: seq<Expr>) {
    |a| <= |b| && b[..|a|] == a
  }

  lemma PrefixTrans(a: seq<Expr>, b: seq<Expr>, c: seq<Expr>)
    requires Prefix(a, b) && Prefix(b, c)
    ensures Prefix(a, c)
  {
    assert c[..|b|][..|a|] == c[..|a|];
  }

  /** The caller's list is only appended to; below a branch the first additions are the WHERE
      expressions of the branch's children. */
  lemma {:induction false} SubExtendsList(c: JoinTree, exprs: seq<Expr>, nr: NullRejection)
    ensures Prefix(exprs, Sub(c, exprs, nr).1)
    ensures c.Branch? ==> Prefix(exprs + Wheres(c), Sub(c, exprs, nr).1)
    decreases c
  {
    if c.Branch? {
      var newExprs := exprs + Joins(c);
      var shared := exprs + Wheres(c);
      assert Prefix(exprs, shared);
      if Decide(c, exprs, nr) == Inner {
        var l := Sub(c.left, shared + newExprs, nr);
        SubExtendsList(c.left, shared + newExprs, nr);
        SubExtendsList(c.right, l.1, nr);
        assert Prefix(shared, shared + newExprs);
        PrefixTrans(shared, shared + newExprs, l.1);
        PrefixTrans(shared, l.1, Sub(c.right, l.1, nr).1);
      } else {
        SubExtendsList(c.left, shared, nr);
      }
      PrefixTrans(exprs, shared, Sub(c, exprs, nr).1);
    }
  }

  /** Every element of `a` occurs in `b`. */
  predicate Within(a: seq<Expr>, b: seq<Expr>) {
    forall i :: 0 <= i < |a| ==> a[i] in b
  }

  lemma PrefixWithin(a: seq<Expr>, b: seq<Expr>)
    requires Prefix(a, b)
    ensures Within(a, b)
  {
    forall i | 0 <= i < |a|
      ensures a[i] in b
    {
      assert b[i] == a[i];
    }
  }

  lemma WithinTrans(a: seq<Expr>, b: seq<Expr>, c: seq<Expr>)
    requires Within(a, b) && Within(b, c)
    ensures Within(a, c)
  {
  }

  lemma WithinRejects(x: seq<Expr>, y: seq<Expr>, aliases: seq<string>, nr: NullRejection)
    requires Within(x, y) && RejectsNulls(x, aliases, nr)
    ensures RejectsNulls(y, aliases, nr)
  {
    var i, j :| 0 <= i < |x| && 0 <= j < |aliases| && nr(x[i], aliases[j]);
    var k :| 0 <= k < |y| && y[k] == x[i];
  }

  /** More predicates can only produce more INNER joins: if every expression on entry to one run
      also occurs on entry to another, the other run keeps every INNER join of the first, and
      every expression of the first run's final list is in its own. */
  lemma {:induction false} SubMonotone(c: JoinTree, x: seq<Expr>, y: seq<Expr>, nr: NullRejection)
    requires Within(x, y)
    ensures InnerKept(Sub(c, x, nr).0, Sub(c, y, nr).0)
    ensures Within(Sub(c, x, nr).1, Sub(c, y, nr).1)
    decreases c
  {
    if c.Branch? {
      if Decide(c, x, nr) == Inner && c.joinType == LeftOuter {
        WithinRejects(x, y, Aliases(c.right), nr);
      }
      var nx, ny := x + Joins(c), y + Joins(c);
      var sx, sy := x + Wheres(c), y + Wheres(c);
      if Decide(c, y, nr) == Inner {
        var ly := Sub(c.left, sy + ny, nr);
        SubExtendsList(c.left, sy + ny, nr);
        SubExtendsList(c.right, ly.1, nr);
        PrefixWithin(sy + ny, ly.1);
        PrefixWithin(ly.1, Sub(c.right, ly.1, nr).1);
        if Decide(c, x, nr) == Inner {
          var lx := Sub(c.left, sx + nx, nr);
          SubMonotone(c.left, sx + nx, sy + ny, nr);
          SubMonotone(c.right, lx.1, ly.1, nr);
        } else {
          // x keeps the LEFT join; y turns it INNER and so feeds both sides more.
          var lx := Sub(c.left, sx, nr);
          SubMonotone(c.left, sx, sy + ny, nr);
          WithinTrans(lx.1, ly.1, Sub(c.right, ly.1, nr).1);
          WithinTrans(nx + sx, sy + ny, ly.1);
          SubMonotone(c.right, nx + sx, ly.1, nr);
        }
      } else {
        SubMonotone(c.right, nx + sx, ny + sy, nr);
        SubMonotone(c.left, sx, sy, nr);
      }
    }
  }

  /** `A LEFT JOIN B`: the join becomes INNER exactly when a WHERE expression of one of the two
      tables rejects nulls for `B`. */
  lemma TwoTableLeftJoin(a: JoinTree, b: JoinTree, w: Option<Expr>, j: Option<Expr>, nr: NullRejection)
    requires a.TableLeaf? && b.TableLeaf?
    ensures SimplifyOuterJoin(Branch(LeftOuter, a, b, w, j), nr).joinType == Inner
        <==> (a.whereExpr.Some? && nr(a.whereExpr.value, b.alias)) || (b.whereExpr.Some? && nr(b.whereExpr.value, b.alias))
  {
    var t := Branch(LeftOuter, a, b, w, j);
    var ws := Wheres(t);
    SimplifyDecidesRoot(t, ws, nr);
    assert Aliases(b) == [b.alias];
    var inA := a.whereExpr.Some? && nr(a.whereExpr.value, b.alias);
    var inB := b.whereExpr.Some? && nr(b.whereExpr.value, b.alias);
    assert RejectsNulls(ws, [b.alias], nr) <==> inA || inB by {
      if inA {
        assert ws[0] == a.whereExpr.value && nr(ws[0], [b.alias][0]);
      }
      if inB {
        assert ws[|ws| - 1] == b.whereExpr.value && nr(ws[|ws| - 1], [b.alias][0]);
      }
      if RejectsNulls(ws, [b.alias], nr) {
        var i, k :| 0 <= i < |ws| && 0 <= k < 1 && nr(ws[i], [b.alias][k]);
        if a.whereExpr.Some? && i == 0 {
          assert ws[i] == a.whereExpr.value;
        } else {
          assert b.whereExpr.Some? && ws[i] == b.whereExpr.value;
        }
      }
    }
  }

  /** The list is shared: below an INNER join, a WHERE expression met while simplifying the left
      subtree reaches the right subtree, and turns a LEFT join there INNER when it rejects nulls
      for a table on that join's inner side. */
  lemma LeftSideWhereReachesRightSide(t: JoinTree, exprs: seq<Expr>, nr: NullRejection, q: Expr, alias: string)
    requires t.Branch? && t.joinType == Inner
    requires t.left.Branch? && t.left.left.whereExpr == Some(q)
    requires t.right.Branch? && t.right.joinType == LeftOuter
    requires alias in Aliases(t.right.right) && nr(q, alias)
    ensures Simplify(t, exprs, nr).0.right.Branch? && Simplify(t, exprs, nr).0.right.joinType == Inner
  {
    var start := (exprs + Wheres(t)) + (exprs + Joins(t));
    var l := Sub(t.left, start, nr);
    SubExtendsList(t.left, start, nr);
    assert l.1[..|start + Wheres(t.left)|] == start + Wheres(t.left);
    assert l.1[|start|] == q;
    var j :| 0 <= j < |Aliases(t.right.right)| && Aliases(t.right.right)[j] == alias;
    assert RejectsNulls(l.1, Aliases(t.right.right), nr);
    SimplifyDecidesRoot(t.right, l.1, nr);
  }
}
