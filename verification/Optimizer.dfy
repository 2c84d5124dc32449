/** The optimizer's rewrite rules, and that the pipeline of them keeps the bag of rows a plan produces. */
module Optimizer {
  import opened Sql
  import opened Bags
  import opened Joins
  import opened Plans

  // ----- the shape all rules share ------------------------------------------------------------------------

  /** What a rule does to a node whose children are already optimized; `None` is an exception. */
  type Rule = Plan -> Option<Plan>

  function WithChild(p: Plan, c: Plan): Plan {
    match p
    case Filter(schema, condition, _) => Filter(schema, condition, c)
    case Projection(schema, exprs, _) => Projection(schema, exprs, c)
    case _ => p
  }

  function WithSides(p: Plan, l: Plan, r: Plan): Plan {
    match p
    case NestedLoopJoin(schema, kind, condition, _, _) => NestedLoopJoin(schema, kind, condition, l, r)
    case HashJoin(schema, kind, leftKeys, rightKeys, _, _) => HashJoin(schema, kind, leftKeys, rightKeys, l, r)
    case _ => p
  }

  /** Optimize the children, then the node itself. */
  function BottomUp(rule: Rule, p: Plan): Option<Plan> {
    match p
    case SeqScan(_, _, _) => rule(p)
    case IndexScan(_, _, _, _, _) => rule(p)
    case Filter(_, _, child) =>
      var c := BottomUp(rule, child);
      if c.None? then None else rule(WithChild(p, c.value))
    case Projection(_, _, child) =>
      var c := BottomUp(rule, child);
      if c.None? then None else rule(WithChild(p, c.value))
    case NestedLoopJoin(_, _, _, left, right) =>
      var l, r := BottomUp(rule, left), BottomUp(rule, right);
      if l.None? || r.None? then None else rule(WithSides(p, l.value, r.value))
    case HashJoin(_, _, _, _, left, right) =>
      var l, r := BottomUp(rule, left), BottomUp(rule, right);
      if l.None? || r.None? then None else rule(WithSides(p, l.value, r.value))
  }

  // ----- the rules ---------------------------------------------------------------------------------------

  /** The projection copies its input column by column, types included. */
  predicate Copies(p: Plan) {
    p.Projection? && p.child.schema == p.schema && forall i :: 0 <= i < |p.exprs| ==> p.exprs[i] == Column(0, i)
  }

  function MergeProjection(p: Plan): Option<Plan> {
    if Copies(p) then Some(p.child) else Some(p)
  }

  /** Turn columns of the joined row into columns of the left or the right row. */
  function RewriteExpressionForJoin(e: Expr, leftWidth: nat, rightWidth: nat): Option<Expr> {
    match e
    case Column(t, i) =>
      if t != 0 then None
      else if i < leftWidth then Some(Column(0, i))
      else if i < leftWidth + rightWidth then Some(Column(1, i - leftWidth))
      else None
    case Const(_) => Some(e)
    case Compare(op, a, b) =>
      var l, r := RewriteExpressionForJoin(a, leftWidth, rightWidth),
        RewriteExpressionForJoin(b, leftWidth, rightWidth);
      if l.None? || r.None? then None else Some(Compare(op, l.value, r.value))
    case Logic(op, a, b) =>
      var l, r := RewriteExpressionForJoin(a, leftWidth, rightWidth),
        RewriteExpressionForJoin(b, leftWidth, rightWidth);
      if l.None? || r.None? then None else Some(Logic(op, l.value, r.value))
    case Arith(op, a, b) =>
      var l, r := RewriteExpressionForJoin(a, leftWidth, rightWidth),
        RewriteExpressionForJoin(b, leftWidth, rightWidth);
      if l.None? || r.None? then None else Some(Arith(op, l.value, r.value))
  }

  function Lower(s: string): (r: string)
    ensures |r| == |s|
  {
    seq(|s|, i requires 0 <= i < |s| => if 'A' <= s[i] <= 'Z' then (s[i] as int + 32) as char else s[i])
  }

  /** A constant cast to a boolean; `None` is the cast error. Integers, NULL among them, cannot be cast. */
  function CastAsBoolean(v: Value): Option<bool> {
    match v
    case Bool(b) => Some(b)
    case Text(t) =>
      if Lower(t) in ["true", "1", "t"] then Some(true)
      else if Lower(t) in ["false", "0", "f"] then Some(false)
      else None
    case _ => None
  }

  function IsPredicateTrue(e: Expr): Option<bool> {
    if e.Const? then CastAsBoolean(e.value) else Some(false)
  }

  /** Move a filter into the join below it when that join has a constant true predicate. */
  function MergeFilterNLJ(p: Plan): Option<Plan> {
    if p.Filter? && p.child.NestedLoopJoin? then
      var join := p.child;
      var constant := IsPredicateTrue(join.condition);
      if constant.None? then None
      else if !constant.value then Some(p)
      else
        var condition := RewriteExpressionForJoin(p.condition, |join.left.schema|, |join.right.schema|);
        if condition.None? then None
        else Some(NestedLoopJoin(p.schema, join.kind, condition.value, join.left, join.right))
    else Some(p)
  }

  function NLJAsHashJoin(p: Plan): Option<Plan> {
    if p.NestedLoopJoin? then
      var keys := ExtractEquiConditions(p.condition, Keys([], []));
      if keys.Some? then Some(HashJoin(p.schema, p.kind, keys.value.left, keys.value.right, p.left, p.right))
      else Some(p)
    else Some(p)
  }

  function MergeFilterScan(p: Plan): Option<Plan> {
    if p.Filter? && p.child.SeqScan? && p.child.filter.None? then
      Some(SeqScan(p.schema, p.child.table, Some(p.condition)))
    else Some(p)
  }

  /** The constants one column is compared with, and that column. */
  datatype Lookup = Lookup(keys: seq<Expr>, col: nat)

  /** Equalities of one column with constants, combined by OR; `col` is the column met so far. */
  function CollectEqualityKeys(e: Expr, col: Option<nat>): Option<Lookup> {
    match e
    case Logic(op, a, b) =>
      if op != Or then None
      else
        var left := CollectEqualityKeys(a, col);
        if left.None? then None
        else
          var right := CollectEqualityKeys(b, Some(left.value.col));
          if right.None? then None
          else Some(Lookup(left.value.keys + right.value.keys, right.value.col))
    case Compare(op, a, b) =>
      if op != Equal then None
      else if a.Column? then CollectOne(a, b, col)
      else if b.Column? then CollectOne(b, a, col)
      else None
    case _ => None
  }

  function CollectOne(column: Expr, constant: Expr, col: Option<nat>): Option<Lookup>
    requires column.Column?
  {
    if constant.Const? && (col == None || col.value == column.colIdx) then Some(Lookup([constant], column.colIdx))
      else None
  }

  /** The first index whose only key column is `col`. */
  function FindIndex(indexes: seq<Index>, col: nat): Option<nat> {
    if indexes == [] then None
    else if indexes[0].keyAttrs == [col] then Some(0)
    else
      var later := FindIndex(indexes[1..], col);
      if later.None? then None else Some(later.value + 1)
  }

  /** Look keys up in an index instead of scanning. */
  function SeqScanAsIndexScan(db: Database, p: Plan): Option<Plan> {
    if p.SeqScan? && p.filter.Some? && p.table in db then
      var found := CollectEqualityKeys(p.filter.value, None);
      if found.None? then Some(p)
      else
        var index := FindIndex(db[p.table].indexes, found.value.col);
        if index.None? then Some(p) else Some(IndexScan(p.schema, p.table, index.value, p.filter, found.value.keys))
    else Some(p)
  }

  function WithCatalog(db: Database): Rule {
    (p: Plan) => SeqScanAsIndexScan(db, p)
  }

  function Then(p: Option<Plan>, rule: Rule): Option<Plan> {
    if p.None? then None else BottomUp(rule, p.value)
  }

  /** The pipeline; the two rules for sorted and limited plans leave these plans alone. */
  function OptimizeCustom(db: Database, p: Plan): Option<Plan> {
    var p1 := BottomUp(MergeProjection, p);
    var p2 := Then(p1, MergeFilterNLJ);
    var p3 := Then(p2, NLJAsHashJoin);
    var p4 := Then(p3, MergeFilterScan);
    Then(p4, WithCatalog(db))
  }

  // ----- what a rule must keep ----------------------------------------------------------------------------

  /** The constant predicate of a join, and the kind of the join. */
  datatype JoinConstant = JoinConstant(value: Value, kind: JoinType)

  /** The constant that the next filter up meets, once filters and copying projections below have been merged. */
  function Exposed(p: Plan): Option<JoinConstant> {
    match p
    case NestedLoopJoin(_, kind, condition, _, _) =>
      if condition.Const? then Some(JoinConstant(condition.value, kind)) else None
    case Projection(_, _, child) => if Copies(p) then Exposed(child) else None
    case Filter(_, condition, child) =>
      var below := Exposed(child);
      if condition.Const? && below.Some? && below.value.value == Bool(true)
      then Some(JoinConstant(condition.value, below.value.kind))
      else None
    case _ => None
  }

  /** A constant join predicate that a filter meets is true or false, and the join is inner if it is true. */
  predicate MergesSafely(p: Plan) {
    match p
    case SeqScan(_, _, _) => true
    case IndexScan(_, _, _, _, _) => true
    case Filter(_, _, child) =>
      var below := Exposed(child);
      && (below.Some? ==> below.value.value.Bool? && (below.value.value.b ==> below.value.kind == Inner))
      && MergesSafely(child)
    case Projection(_, _, child) => MergesSafely(child)
    case NestedLoopJoin(_, _, _, left, right) => MergesSafely(left) && MergesSafely(right)
    case HashJoin(_, _, _, _, left, right) => MergesSafely(left) && MergesSafely(right)
  }

  ghost predicate Good(db: Database, p: Plan) {
    WellFormed(db, p) && Resolved(db, p) && MergesSafely(p)
  }

  /** The same rows, counted with repetitions, under the same schema, and the same to the filters above. */
  ghost predicate Equivalent(db: Database, p: Plan, q: Plan)
    requires Resolved(db, p) && Resolved(db, q)
  {
    p.schema == q.schema && multiset(Eval(db, p)) == multiset(Eval(db, q)) && Exposed(p) == Exposed(q)
  }

  /** The rule succeeds and gives an equivalent plan that later rules can take. */
  ghost predicate SoundAt(db: Database, rule: Rule, p: Plan) {
    Good(db, p) ==> rule(p).Some? && Good(db, rule(p).value) && Equivalent(db, p, rule(p).value)
  }

  ghost predicate Sound(db: Database, rule: Rule) {
    forall p :: SoundAt(db, rule, p)
  }

  lemma FilterCongruence(db: Database, p: Plan, q: Plan)
    requires p.Filter? && Good(db, p) && Good(db, q) && Equivalent(db, p.child, q)
    ensures Good(db, WithChild(p, q)) && Equivalent(db, p, WithChild(p, q))
  {
    FlatMapBag(Passing(p.condition), Passing(p.condition), Eval(db, p.child), Eval(db, q));
  }

  lemma ProjectionCongruence(db: Database, p: Plan, q: Plan)
    requires p.Projection? && Good(db, p) && Good(db, q) && Equivalent(db, p.child, q)
    ensures Good(db, WithChild(p, q)) && Equivalent(db, p, WithChild(p, q))
  {
    FlatMapBag(Projecting(p.exprs), Projecting(p.exprs), Eval(db, p.child), Eval(db, q));
  }

  lemma JoinCongruence(db: Database, p: Plan, l: Plan, r: Plan)
    requires (p.NestedLoopJoin? || p.HashJoin?) && Good(db, p) && Good(db, l) && Good(db, r)
    requires Equivalent(db, p.left, l) && Equivalent(db, p.right, r)
    ensures Good(db, WithSides(p, l, r)) && Equivalent(db, p, WithSides(p, l, r))
  {
    var m := if p.NestedLoopJoin? then PredicateMatch(Some(p.condition)) else KeyMatch(p.leftKeys, p.rightKeys);
    JoinedBag(p.kind, m, |p.right.schema|, Eval(db, p.left), Eval(db, l), Eval(db, p.right), Eval(db, r));
  }

  /** A rule that is sound at every node is sound when applied from the leaves up. */
  lemma {:induction false} BottomUpSound(db: Database, rule: Rule, p: Plan)
    requires Sound(db, rule) && Good(db, p)
    ensures BottomUp(rule, p).Some? && Good(db, BottomUp(rule, p).value) && Equivalent(db, p, BottomUp(rule, p).value)
  {
    match p
    case SeqScan(_, _, _) =>
      assert SoundAt(db, rule, p);
    case IndexScan(_, _, _, _, _) =>
      assert SoundAt(db, rule, p);
    case Filter(_, _, child) =>
      BottomUpSound(db, rule, child);
      FilterCongruence(db, p, BottomUp(rule, child).value);
      assert SoundAt(db, rule, WithChild(p, BottomUp(rule, child).value));
    case Projection(_, _, child) =>
      BottomUpSound(db, rule, child);
      ProjectionCongruence(db, p, BottomUp(rule, child).value);
      assert SoundAt(db, rule, WithChild(p, BottomUp(rule, child).value));
    case NestedLoopJoin(_, _, _, left, right) =>
      BottomUpSound(db, rule, left);
      BottomUpSound(db, rule, right);
      JoinCongruence(db, p, BottomUp(rule, left).value, BottomUp(rule, right).value);
      assert SoundAt(db, rule, WithSides(p, BottomUp(rule, left).value, BottomUp(rule, right).value));
    case HashJoin(_, _, _, _, left, right) =>
      BottomUpSound(db, rule, left);
      BottomUpSound(db, rule, right);
      JoinCongruence(db, p, BottomUp(rule, left).value, BottomUp(rule, right).value);
      assert SoundAt(db, rule, WithSides(p, BottomUp(rule, left).value, BottomUp(rule, right).value));
  }

  // ----- projections and scans ------------------------------------------------------------------------------

  lemma MergeProjectionSound(db: Database, p: Plan)
    requires Consistent(db)
    ensures SoundAt(db, MergeProjection, p)
  {
    if Good(db, p) && Copies(p) {
      RowWidth(db, p.child);
      CopyAll(p.exprs, Eval(db, p.child));
    }
  }

  lemma {:induction false} CopyAll(exprs: seq<Expr>, rows: seq<Row>)
    requires AllWide(rows, |exprs|) && forall i :: 0 <= i < |exprs| ==> exprs[i] == Column(0, i)
    ensures FlatMap(Projecting(exprs), rows) == rows
    decreases |rows|
  {
    if rows != [] {
      CopyAll(exprs, rows[1..]);
      assert rows[0] in rows;
      assert MakeKey(exprs, rows[0]) == rows[0];
      assert rows == [rows[0]] + rows[1..];
    }
  }

  lemma MergeFilterScanSound(db: Database, p: Plan)
    ensures SoundAt(db, MergeFilterScan, p)
  {
    if Good(db, p) && p.Filter? && p.child.SeqScan? && p.child.filter.None? {
      assert Good(db, p.child);
      var slots := db[p.child.table].slots;
      var f, g, h := Scanning(slots, None), Passing(p.condition), Scanning(slots, Some(p.condition));
      forall i: nat
        ensures h(i) == FlatMap(g, f(i))
      {
      }
      FlatMapCompose(f, g, h, UpTo(|slots|));
    }
  }

  // ----- joins ----------------------------------------------------------------------------------------------

  lemma NLJAsHashJoinSound(db: Database, p: Plan)
    ensures SoundAt(db, NLJAsHashJoin, p)
  {
    if Good(db, p) && p.NestedLoopJoin? && ExtractEquiConditions(p.condition, Keys([], [])).Some? {
      HashJoinIsNestedLoopJoin(p.kind, p.condition, |p.right.schema|, Eval(db, p.left), Eval(db, p.right));
    }
  }

  /** The rewrite goes through exactly on expressions over the columns of the joined row. */
  lemma {:induction false} RewriteDefined(e: Expr, leftWidth: nat, rightWidth: nat)
    ensures RewriteExpressionForJoin(e, leftWidth, rightWidth).Some? <==> OneSided(e, leftWidth + rightWidth)
  {
    match e
    case Column(_, _) =>
    case Const(_) =>
    case Compare(_, a, b) => RewriteDefined(a, leftWidth, rightWidth); RewriteDefined(b, leftWidth, rightWidth);
    case Logic(_, a, b) => RewriteDefined(a, leftWidth, rightWidth); RewriteDefined(b, leftWidth, rightWidth);
    case Arith(_, a, b) => RewriteDefined(a, leftWidth, rightWidth); RewriteDefined(b, leftWidth, rightWidth);
  }

  /** Over a pair of rows the rewritten expression has the value the original has over their concatenation. */
  lemma {:induction false} RewriteMeaning(e: Expr, l: Row, r: Row)
    requires RewriteExpressionForJoin(e, |l|, |r|).Some?
    ensures var e' := RewriteExpressionForJoin(e, |l|, |r|).value;
      TwoSided(e') && EvaluateJoin(e', l, r) == Evaluate(e, l + r)
  {
    match e
    case Column(_, _) =>
    case Const(_) =>
    case Compare(_, a, b) => RewriteMeaning(a, l, r); RewriteMeaning(b, l, r);
    case Logic(_, a, b) => RewriteMeaning(a, l, r); RewriteMeaning(b, l, r);
    case Arith(_, a, b) => RewriteMeaning(a, l, r); RewriteMeaning(b, l, r);
  }

  const ALWAYS := Const(Bool(true))

  /** Filtering all pairs is joining on the filter. */
  lemma {:induction false} FilterPairs(f: Expr, g: Expr, l: Row, right: seq<Row>, rightWidth: nat)
    requires AllWide(right, rightWidth) && RewriteExpressionForJoin(f, |l|, rightWidth) == Some(g)
    ensures Filtered(f, Pairs(PredicateMatch(Some(ALWAYS)), l, right)) == Pairs(PredicateMatch(Some(g)), l, right)
    decreases |right|
  {
    if right != [] {
      var r := right[0];
      assert r in right;
      RewriteMeaning(f, l, r);
      FilterPairs(f, g, l, right[1..], rightWidth);
      var rest := Pairs(PredicateMatch(Some(ALWAYS)), l, right[1..]);
      FlatMapAppend(Passing(f), [l + r], rest);
      FlatMapSingle(Passing(f), l + r);
    }
  }

  /** With the filter inside the join, `l` is emitted with NULLs although the filter over the join drops it. */
  ghost predicate Resurrected(kind: JoinType, f: Expr, l: Row, right: seq<Row>, rightWidth: nat) {
    && kind == LeftOuter
    && (if right == [] then !IsTrue(Evaluate(f, l + NullRow(rightWidth)))
        else forall r :: r in right ==> !IsTrue(Evaluate(f, l + r)))
  }

  lemma MergedRow(kind: JoinType, f: Expr, g: Expr, l: Row, right: seq<Row>, rightWidth: nat)
    requires AllWide(right, rightWidth) && RewriteExpressionForJoin(f, |l|, rightWidth) == Some(g)
    ensures var outside := Filtered(f, JoinRow(kind, PredicateMatch(Some(ALWAYS)), rightWidth, right)(l));
      var inside := JoinRow(kind, PredicateMatch(Some(g)), rightWidth, right)(l);
      if Resurrected(kind, f, l, right, rightWidth) then |outside| < |inside| else outside == inside
  {
    FilterPairs(f, g, l, right, rightWidth);
    PairsEmpty(PredicateMatch(Some(ALWAYS)), l, right);
    PairsEmpty(PredicateMatch(Some(g)), l, right);
    forall r | r in right
      ensures PredicateMatch(Some(g))(l, r) <==> IsTrue(Evaluate(f, l + r))
    {
      RewriteMeaning(f, l, r);
    }
    if right != [] {
      assert right[0] in right;
    }
    FlatMapSingle(Passing(f), l + NullRow(rightWidth));
  }

  function FilteredJoinRow(kind: JoinType, f: Expr, rightWidth: nat, right: seq<Row>): Row -> seq<Row> {
    l => Filtered(f, JoinRow(kind, PredicateMatch(Some(ALWAYS)), rightWidth, right)(l))
  }

  /**
   * When moving a filter `f` into a join on constant true is right: exactly when no left row is resurrected.
   * That is always so for inner joins. Then the rows are the same in the same order; otherwise not even their
   * number is.
   */
  lemma MergeFilterExact(
      kind: JoinType, f: Expr, g: Expr, leftWidth: nat, rightWidth: nat, left: seq<Row>, right: seq<Row>)
    requires AllWide(left, leftWidth) && AllWide(right, rightWidth)
    requires RewriteExpressionForJoin(f, leftWidth, rightWidth) == Some(g)
    ensures var outside := Filtered(f, Joined(kind, PredicateMatch(Some(ALWAYS)), rightWidth, left, right));
      var inside := Joined(kind, PredicateMatch(Some(g)), rightWidth, left, right);
      && ((forall l :: l in left ==> !Resurrected(kind, f, l, right, rightWidth)) <==> inside == outside)
      && (inside == outside <==> multiset(inside) == multiset(outside))
  {
    var outer, inner := FilteredJoinRow(kind, f, rightWidth, right),
      JoinRow(kind, PredicateMatch(Some(g)), rightWidth, right);
    forall l | l in left
      ensures if Resurrected(kind, f, l, right, rightWidth) then |outer(l)| < |inner(l)| else outer(l) == inner(l)
    {
      MergedRow(kind, f, g, l, right, rightWidth);
    }
    FlatMapCompose(JoinRow(kind, PredicateMatch(Some(ALWAYS)), rightWidth, right), Passing(f), outer, left);
    FlatMapLonger(outer, inner, left);
    if forall l :: l in left ==> !Resurrected(kind, f, l, right, rightWidth) {
      FlatMapSame(outer, inner, left);
    } else {
      var outside, inside := FlatMap(outer, left), FlatMap(inner, left);
      assert |multiset(outside)| == |outside| && |multiset(inside)| == |inside|;
    }
  }

  lemma MergeFilterNLJSound(db: Database, p: Plan)
    requires Consistent(db)
    ensures SoundAt(db, MergeFilterNLJ, p)
  {
    if Good(db, p) && p.Filter? && p.child.NestedLoopJoin? {
      assert Good(db, p.child);
      if p.child.condition == ALWAYS {
        MergedPlan(db, p.schema, p.condition, p.child);
      }
    }
  }

  /** The join that a filter over an inner join on true becomes. */
  lemma MergedPlan(db: Database, schema: Schema, f: Expr, join: Plan)
    requires Consistent(db) && join.NestedLoopJoin? && join.condition == ALWAYS && join.kind == Inner && Good(db, join)
    requires schema == join.schema && OneSided(f, |schema|)
    ensures var g := RewriteExpressionForJoin(f, |join.left.schema|, |join.right.schema|);
      && g.Some? && (f.Const? ==> g.value == f) && (g.value.Const? ==> f.Const?)
      && var merged := NestedLoopJoin(schema, Inner, g.value, join.left, join.right);
         Good(db, merged) && Eval(db, merged) == Filtered(f, Eval(db, join))
  {
    RewriteDefined(f, |join.left.schema|, |join.right.schema|);
    var g := RewriteExpressionForJoin(f, |join.left.schema|, |join.right.schema|).value;
    RewriteMeaning(f, NullRow(|join.left.schema|), NullRow(|join.right.schema|));
    RowWidth(db, join.left);
    RowWidth(db, join.right);
    MergeFilterExact(Inner, f, g, |join.left.schema|, |join.right.schema|, Eval(db, join.left), Eval(db, join.right));
  }

  /**
   * In advance of any rows: moving `f` into a join on constant true is right for all inputs if and only if
   * the join is inner or `f` is true of every joined row, padded ones among them.
   */
  lemma MergeFilterAlways(kind: JoinType, f: Expr, g: Expr, leftWidth: nat, rightWidth: nat)
    requires RewriteExpressionForJoin(f, leftWidth, rightWidth) == Some(g)
    ensures (forall left, right :: AllWide(left, leftWidth) && AllWide(right, rightWidth) ==>
               Joined(kind, PredicateMatch(Some(g)), rightWidth, left, right) ==
               Filtered(f, Joined(kind, PredicateMatch(Some(ALWAYS)), rightWidth, left, right)))
      <==> kind == Inner || forall l: Row, r: Row ::
               |l| == leftWidth && |r| == rightWidth ==> IsTrue(Evaluate(f, l + r))
  {
    if kind == Inner || forall l: Row, r: Row :: |l| == leftWidth && |r| == rightWidth ==> IsTrue(Evaluate(f, l + r)) {
      forall left, right | AllWide(left, leftWidth) && AllWide(right, rightWidth)
        ensures Joined(kind, PredicateMatch(Some(g)), rightWidth, left, right) ==
                Filtered(f, Joined(kind, PredicateMatch(Some(ALWAYS)), rightWidth, left, right))
      {
        NobodyResurrected(kind, f, leftWidth, rightWidth, left, right);
        MergeFilterExact(kind, f, g, leftWidth, rightWidth, left, right);
      }
    } else {
      var l: Row, r: Row :| |l| == leftWidth && |r| == rightWidth && !IsTrue(Evaluate(f, l + r));
      assert l in [l] && Resurrected(kind, f, l, [r], rightWidth);
      MergeFilterExact(kind, f, g, leftWidth, rightWidth, [l], [r]);
      assert AllWide([l], leftWidth) && AllWide([r], rightWidth);
    }
  }

  lemma NobodyResurrected(kind: JoinType, f: Expr, leftWidth: nat, rightWidth: nat, left: seq<Row>, right: seq<Row>)
    requires kind == Inner || forall l: Row, r: Row ::
               |l| == leftWidth && |r| == rightWidth ==> IsTrue(Evaluate(f, l + r))
    requires AllWide(left, leftWidth) && AllWide(right, rightWidth)
    ensures forall l :: l in left ==> !Resurrected(kind, f, l, right, rightWidth)
  {
    if kind == LeftOuter && right != [] {
      assert right[0] in right;
    }
  }

  /** The rule throws exactly on a constant that cannot be cast, or a filter over columns that are not there. */
  lemma MergeFilterThrows(p: Plan)
    ensures MergeFilterNLJ(p).None? <==>
      && p.Filter? && p.child.NestedLoopJoin?
      && var constant := IsPredicateTrue(p.child.condition);
         || constant.None?
         || (constant.value && !OneSided(p.condition, |p.child.left.schema| + |p.child.right.schema|))
  {
    if p.Filter? && p.child.NestedLoopJoin? {
      RewriteDefined(p.condition, |p.child.left.schema|, |p.child.right.schema|);
    }
  }

  // ----- index lookups ------------------------------------------------------------------------------------------

  /** The filter is true exactly of the rows whose column equals one of the collected constants. */
  lemma {:induction false} KeysMeaning(e: Expr, col: Option<nat>, row: Row)
    requires CollectEqualityKeys(e, col).Some?
    ensures var found := CollectEqualityKeys(e, col).value;
      && (col.Some? ==> found.col == col.value)
      && (IsTrue(Evaluate(e, row)) <==>
            exists k :: k in found.keys && CompareValues(Equal, GetColumn(row, found.col), Evaluate(k, [])) == CmpTrue)
  {
    match e
    case Logic(_, a, b) =>
      var left := CollectEqualityKeys(a, col).value;
      KeysMeaning(a, col, row);
      KeysMeaning(b, Some(left.col), row);
      var right := CollectEqualityKeys(b, Some(left.col)).value;
      assert forall k :: k in left.keys + right.keys <==> k in left.keys || k in right.keys;
    case Compare(_, a, b) =>
      CompareSymmetric(Evaluate(a, row), Evaluate(b, row));
      var constant := if a.Column? then b else a;
      assert CollectEqualityKeys(e, col).value.keys == [constant];
      assert constant in [constant];
    case _ =>
  }

  lemma {:induction false} UniqueFacts(s: seq<nat>)
    ensures Distinct(Unique(s))
    ensures forall x :: x in Unique(s) <==> x in s
    decreases |s|
  {
    if s != [] {
      UniqueFacts(s[..|s| - 1]);
      assert s == s[..|s| - 1] + [s[|s| - 1]];
    }
  }

  lemma {:induction false} FindIndexFacts(indexes: seq<Index>, col: nat)
    ensures var k := FindIndex(indexes, col);
      k.Some? ==> k.value < |indexes| && indexes[k.value].keyAttrs == [col]
    decreases |indexes|
  {
    if indexes != [] {
      FindIndexFacts(indexes[1..], col);
    }
  }

  /** Looking the keys up finds the slot of every row that the filter selects, each once. */
  lemma LookupComplete(slots: seq<Option<Row>>, entries: map<Value, nat>, filter: Expr)
    requires CollectEqualityKeys(filter, None).Some?
    requires Agrees(slots, CollectEqualityKeys(filter, None).value.col, entries)
    ensures Complete(slots, Some(filter), LookupSlots(entries, CollectEqualityKeys(filter, None).value.keys))
  {
    var found := CollectEqualityKeys(filter, None).value;
    var looked := FlatMap(LookingUp(entries), found.keys);
    UniqueFacts(looked);
    forall i: nat | i < |slots| && slots[i].Some? && Passes(Some(filter), slots[i].value)
      ensures i in Unique(looked)
    {
      var v := GetColumn(slots[i].value, found.col);
      KeysMeaning(filter, None, slots[i].value);
      var k :| k in found.keys && CompareValues(Equal, v, Evaluate(k, [])) == CmpTrue;
      assert Evaluate(k, []) == v && i in LookingUp(entries)(k);
      FlatMapIn(LookingUp(entries), found.keys, i);
    }
  }

  /** So it finds the same rows as scanning everything, each once. */
  lemma IndexScanIsSeqScan(slots: seq<Option<Row>>, entries: map<Value, nat>, filter: Expr)
    requires CollectEqualityKeys(filter, None).Some?
    requires Agrees(slots, CollectEqualityKeys(filter, None).value.col, entries)
    ensures multiset(IndexScanRows(slots, entries, Some(filter), CollectEqualityKeys(filter, None).value.keys)) ==
            multiset(SeqScanRows(slots, Some(filter)))
  {
    LookupComplete(slots, entries, filter);
    CompleteBag(slots, Some(filter), LookupSlots(entries, CollectEqualityKeys(filter, None).value.keys));
  }

  lemma {:induction false} KeysFound(e: Expr, col: Option<nat>)
    requires CollectEqualityKeys(e, col).Some?
    ensures CollectEqualityKeys(e, col).value.keys != []
  {
    if e.Logic? {
      KeysFound(e.left, col);
    }
  }

  lemma SeqScanAsIndexScanSound(db: Database, p: Plan)
    requires Consistent(db)
    ensures SoundAt(db, WithCatalog(db), p)
  {
    if Good(db, p) && p.SeqScan? && p.filter.Some? {
      var found := CollectEqualityKeys(p.filter.value, None);
      if found.Some? {
        FindIndexFacts(db[p.table].indexes, found.value.col);
        var k := FindIndex(db[p.table].indexes, found.value.col);
        if k.Some? {
          KeysFound(p.filter.value, None);
          IndexScanIsSeqScan(db[p.table].slots, db[p.table].indexes[k.value].entries, p.filter.value);
        }
      }
    }
  }

  // ----- the pipeline -----------------------------------------------------------------------------------------------

  lemma RulesSound(db: Database)
    requires Consistent(db)
    ensures Sound(db, MergeProjection) && Sound(db, MergeFilterNLJ) && Sound(db, NLJAsHashJoin)
    ensures Sound(db, MergeFilterScan) && Sound(db, WithCatalog(db))
  {
    forall p
      ensures SoundAt(db, MergeProjection, p) && SoundAt(db, MergeFilterNLJ, p) && SoundAt(db, NLJAsHashJoin, p)
      ensures SoundAt(db, MergeFilterScan, p) && SoundAt(db, WithCatalog(db), p)
    {
      MergeProjectionSound(db, p);
      MergeFilterNLJSound(db, p);
      NLJAsHashJoinSound(db, p);
      MergeFilterScanSound(db, p);
      SeqScanAsIndexScanSound(db, p);
    }
  }

  /** So far the pipeline has gone well. */
  ghost predicate Kept(db: Database, p: Plan, q: Option<Plan>)
    requires Resolved(db, p)
  {
    q.Some? && Good(db, q.value) && Equivalent(db, p, q.value)
  }

  lemma ThenSound(db: Database, p: Plan, q: Option<Plan>, rule: Rule)
    requires Sound(db, rule) && Resolved(db, p) && Kept(db, p, q)
    ensures Kept(db, p, Then(q, rule))
  {
    BottomUpSound(db, rule, q.value);
  }

  /** The whole pipeline succeeds and keeps the bag of rows. */
  lemma OptimizeCustomSound(db: Database, p: Plan)
    requires Consistent(db) && WellFormed(db, p) && Resolved(db, p) && MergesSafely(p)
    ensures OptimizeCustom(db, p).Some? && Resolved(db, OptimizeCustom(db, p).value)
    ensures WellFormed(db, OptimizeCustom(db, p).value)
    ensures OptimizeCustom(db, p).value.schema == p.schema
    ensures multiset(Eval(db, OptimizeCustom(db, p).value)) == multiset(Eval(db, p))
  {
    RulesSound(db);
    var p1 := BottomUp(MergeProjection, p);
    BottomUpSound(db, MergeProjection, p);
    var p2 := Then(p1, MergeFilterNLJ);
    ThenSound(db, p, p1, MergeFilterNLJ);
    var p3 := Then(p2, NLJAsHashJoin);
    ThenSound(db, p, p2, NLJAsHashJoin);
    var p4 := Then(p3, MergeFilterScan);
    ThenSound(db, p, p3, MergeFilterScan);
    ThenSound(db, p, p4, WithCatalog(db));
  }

  // ----- where the pipeline changes the result -----------------------------------------------------------------------

  const ONE_COLUMN: Schema := [IntegerColumn]

  /**
   * A filter on `a.x = b.y` over a left join on a constant, with one row in each table. The plan is built by hand:
   * a query cannot spell a boolean constant, and the planner joins on true with inner joins only.
   */
  function FilteredLeftJoin(): Plan {
    Filter(ONE_COLUMN + ONE_COLUMN, Compare(Equal, Column(0, 0), Column(0, 1)),
           NestedLoopJoin(ONE_COLUMN + ONE_COLUMN, LeftOuter, ALWAYS,
                          SeqScan(ONE_COLUMN, 0, None), SeqScan(ONE_COLUMN, 1, None)))
  }

  function OneRowEach(a: int, b: int): Database {
    map[0 := Table(ONE_COLUMN, [Some([Int(a)])], []), 1 := Table(ONE_COLUMN, [Some([Int(b)])], [])]
  }

  /** The filter drops the only row, yet the optimized left join brings it back padded with NULL. */
  lemma LeftJoinFilterMergedWrongly()
    ensures var db, p := OneRowEach(1, 2), FilteredLeftJoin();
      && MergeFilterNLJ(p).Some?
      && Eval(db, p) == []
      && Eval(db, MergeFilterNLJ(p).value) == [[Int(1), Null]]
  {
    var db, p := OneRowEach(1, 2), FilteredLeftJoin();
    var left, right := Eval(db, p.child.left), Eval(db, p.child.right);
    assert left == [[Int(1)]] && right == [[Int(2)]] by { OneRow(1); OneRow(2); }
    var f, g := p.condition, Compare(Equal, Column(0, 0), Column(1, 0));
    assert MergeFilterNLJ(p) == Some(NestedLoopJoin(p.schema, LeftOuter, g, p.child.left, p.child.right));
    var l: Row, r: Row := [Int(1)], [Int(2)];
    assert Joined(LeftOuter, PredicateMatch(Some(ALWAYS)), 1, [l], [r]) == [l + r] by {
      FlatMapSingle(JoinRow(LeftOuter, PredicateMatch(Some(ALWAYS)), 1, [r]), l);
      FlatMapSingle(Pair(PredicateMatch(Some(ALWAYS)), l), r);
    }
    FlatMapSingle(Passing(f), l + r);
    assert Eval(db, p.child) == [l + r];
    assert Evaluate(f, l + r) == Bool(false);
    assert Joined(LeftOuter, PredicateMatch(Some(g)), 1, [l], [r]) == [l + NullRow(1)] by {
      FlatMapSingle(JoinRow(LeftOuter, PredicateMatch(Some(g)), 1, [r]), l);
      FlatMapSingle(Pair(PredicateMatch(Some(g)), l), r);
    }
    assert l + NullRow(1) == [Int(1), Null];
  }

  lemma OneRow(a: int)
    ensures SeqScanRows([Some([Int(a)])], None) == [[Int(a)]]
  {
    var slots: seq<Option<Row>> := [Some([Int(a)])];
    assert UpTo(1) == [0];
    FlatMapSingle(Scanning(slots, None), 0);
  }
}
