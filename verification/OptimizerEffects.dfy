/** When the rules fire, and what the pipeline leaves behind. */
module OptimizerEffects {
  import opened Sql
  import opened Joins
  import opened Plans
  import opened Optimizer

  // ----- what the rules look for -------------------------------------------------------------------------------

  /** An equality of a column of one side with a column of the other, or a conjunction of such. */
  predicate EquiConjunction(e: Expr) {
    match e
    case Logic(And, a, b) => EquiConjunction(a) && EquiConjunction(b)
    case Compare(Equal, Column(s, _), Column(t, _)) => s != t
    case _ => false
  }

  lemma {:induction false} ExtractsExactly(e: Expr, keys: Keys)
    ensures ExtractEquiConditions(e, keys).Some? <==> EquiConjunction(e)
  {
    if e.Logic? {
      ExtractsExactly(e.left, keys);
      if ExtractEquiConditions(e.left, keys).Some? {
        ExtractsExactly(e.right, ExtractEquiConditions(e.left, keys).value);
      }
    }
  }

  /** An equality of the column with a constant, either way round, or a disjunction of such. */
  predicate ColumnEqualities(e: Expr, col: nat) {
    match e
    case Logic(Or, a, b) => ColumnEqualities(a, col) && ColumnEqualities(b, col)
    case Compare(Equal, Column(_, i), Const(_)) => i == col
    case Compare(Equal, Const(_), Column(_, i)) => i == col
    case _ => false
  }

  lemma {:induction false} CollectsKeysExactly(e: Expr, known: Option<nat>, col: nat)
    ensures CollectEqualityKeys(e, known).Some? && CollectEqualityKeys(e, known).value.col == col <==>
      ColumnEqualities(e, col) && (known.Some? ==> known.value == col)
  {
    if e.Logic? {
      CollectsKeysExactly(e.left, known, col);
      if CollectEqualityKeys(e.left, known).Some? {
        var c := CollectEqualityKeys(e.left, known).value.col;
        CollectsKeysExactly(e.left, known, c);
        CollectsKeysExactly(e.right, Some(c), col);
        if ColumnEqualities(e, col) { OneColumn(e.left, c, col); }
      }
    }
  }

  lemma {:induction false} OneColumn(e: Expr, a: nat, b: nat)
    requires ColumnEqualities(e, a) && ColumnEqualities(e, b)
    ensures a == b
  {
    if e.Logic? { OneColumn(e.left, a, b); }
  }

  lemma {:induction false} FindsIndexExactly(indexes: seq<Index>, col: nat)
    ensures FindIndex(indexes, col).Some? <==> exists k :: 0 <= k < |indexes| && indexes[k].keyAttrs == [col]
  {
    if indexes != [] && indexes[0].keyAttrs != [col] {
      FindsIndexExactly(indexes[1..], col);
      if k :| 0 <= k < |indexes| && indexes[k].keyAttrs == [col] {
        assert indexes[1..][k - 1].keyAttrs == [col];
      }
      if k :| 0 <= k < |indexes[1..]| && indexes[1..][k].keyAttrs == [col] {
        assert indexes[k + 1].keyAttrs == [col];
      }
    }
  }

  /** The filter is a disjunction of equalities of one column that has an index of its own. */
  ghost predicate Indexable(db: Database, table: nat, filter: Option<Expr>) {
    filter.Some? && table in db
    && exists col, k :: IndexedBy(db[table].indexes, filter.value, col, k)
  }

  ghost predicate IndexedBy(indexes: seq<Index>, filter: Expr, col: nat, k: nat) {
    ColumnEqualities(filter, col) && k < |indexes| && indexes[k].keyAttrs == [col]
  }

  // ----- each rule fires exactly there ----------------------------------------------------------------------------

  lemma HashJoinFires(p: Plan)
    requires p.NestedLoopJoin?
    ensures NLJAsHashJoin(p).Some?
    ensures var q := NLJAsHashJoin(p).value;
      if EquiConjunction(p.condition) then q.HashJoin? && q.kind == p.kind && q.left == p.left && q.right == p.right
      else q == p
  {
    ExtractsExactly(p.condition, Keys([], []));
  }

  lemma IndexScanFires(db: Database, p: Plan)
    requires p.SeqScan?
    ensures SeqScanAsIndexScan(db, p).Some?
    ensures var q := SeqScanAsIndexScan(db, p).value;
      if Indexable(db, p.table, p.filter) then q.IndexScan? && q.table == p.table && q.filter == p.filter
      else q == p
  {
    if p.filter.Some? && p.table in db {
      var found, indexes := CollectEqualityKeys(p.filter.value, None), db[p.table].indexes;
      if found.Some? {
        CollectsKeysExactly(p.filter.value, None, found.value.col);
        FindsIndexExactly(indexes, found.value.col);
        if FindIndex(indexes, found.value.col).Some? {
          var k :| 0 <= k < |indexes| && indexes[k].keyAttrs == [found.value.col];
          assert IndexedBy(indexes, p.filter.value, found.value.col, k);
        }
      }
      if Indexable(db, p.table, p.filter) {
        var col, k :| IndexedBy(indexes, p.filter.value, col, k);
        CollectsKeysExactly(p.filter.value, None, col);
      }
    }
  }

  /** Dropping a copying projection and moving a filter into a scan, exactly where they are found. */
  lemma MergesFire(p: Plan)
    ensures MergeProjection(p) == Some(if Copies(p) then p.child else p)
    ensures MergeFilterScan(p).Some?
    ensures MergeFilterScan(p).value ==
            if p.Filter? && p.child.SeqScan? && p.child.filter.None?
            then SeqScan(p.schema, p.child.table, Some(p.condition)) else p
  {
  }

  /** A filter is moved into a join exactly if the join's predicate is a constant that casts to true. */
  lemma JoinFilterFires(p: Plan)
    requires MergeFilterNLJ(p).Some?
    ensures MergeFilterNLJ(p).value ==
            if p.Filter? && p.child.NestedLoopJoin? && p.child.condition.Const?
               && CastAsBoolean(p.child.condition.value) == Some(true)
               && RewriteExpressionForJoin(p.condition, |p.child.left.schema|, |p.child.right.schema|).Some?
            then
              var j := p.child;
              var condition := RewriteExpressionForJoin(p.condition, |j.left.schema|, |j.right.schema|).value;
              NestedLoopJoin(p.schema, j.kind, condition, j.left, j.right)
            else p
  {
  }

  // ----- what is left after the pipeline ---------------------------------------------------------------------------

  /** No nested-loop join could be a hash join. */
  predicate NoEquiJoin(p: Plan) {
    match p
    case SeqScan(_, _, _) => true
    case IndexScan(_, _, _, _, _) => true
    case Filter(_, _, child) => NoEquiJoin(child)
    case Projection(_, _, child) => NoEquiJoin(child)
    case NestedLoopJoin(_, _, condition, left, right) =>
      !EquiConjunction(condition) && NoEquiJoin(left) && NoEquiJoin(right)
    case HashJoin(_, _, _, _, left, right) => NoEquiJoin(left) && NoEquiJoin(right)
  }

  /** No filter lies directly over a scan without one. */
  predicate NoFilterOverScan(p: Plan) {
    match p
    case SeqScan(_, _, _) => true
    case IndexScan(_, _, _, _, _) => true
    case Filter(_, _, child) => !(child.SeqScan? && child.filter.None?) && NoFilterOverScan(child)
    case Projection(_, _, child) => NoFilterOverScan(child)
    case NestedLoopJoin(_, _, _, left, right) => NoFilterOverScan(left) && NoFilterOverScan(right)
    case HashJoin(_, _, _, _, left, right) => NoFilterOverScan(left) && NoFilterOverScan(right)
  }

  /** No sequential scan could be an index scan. */
  ghost predicate NoIndexableScan(db: Database, p: Plan) {
    match p
    case SeqScan(_, table, filter) => !Indexable(db, table, filter)
    case IndexScan(_, _, _, _, _) => true
    case Filter(_, _, child) => NoIndexableScan(db, child)
    case Projection(_, _, child) => NoIndexableScan(db, child)
    case NestedLoopJoin(_, _, _, left, right) => NoIndexableScan(db, left) && NoIndexableScan(db, right)
    case HashJoin(_, _, _, _, left, right) => NoIndexableScan(db, left) && NoIndexableScan(db, right)
  }

  lemma {:induction false} HashJoinsLeave(p: Plan)
    requires BottomUp(NLJAsHashJoin, p).Some?
    ensures NoEquiJoin(BottomUp(NLJAsHashJoin, p).value)
  {
    match p
    case SeqScan(_, _, _) =>
    case IndexScan(_, _, _, _, _) =>
    case Filter(_, _, child) => HashJoinsLeave(child);
    case Projection(_, _, child) => HashJoinsLeave(child);
    case NestedLoopJoin(_, _, condition, left, right) =>
      HashJoinsLeave(left);
      HashJoinsLeave(right);
      ExtractsExactly(condition, Keys([], []));
    case HashJoin(_, _, _, _, left, right) =>
      HashJoinsLeave(left);
      HashJoinsLeave(right);
  }

  lemma {:induction false} FilterScansLeave(p: Plan)
    requires NoEquiJoin(p) && BottomUp(MergeFilterScan, p).Some?
    ensures NoEquiJoin(BottomUp(MergeFilterScan, p).value) && NoFilterOverScan(BottomUp(MergeFilterScan, p).value)
  {
    match p
    case SeqScan(_, _, _) =>
    case IndexScan(_, _, _, _, _) =>
    case Filter(_, _, child) => FilterScansLeave(child);
    case Projection(_, _, child) => FilterScansLeave(child);
    case NestedLoopJoin(_, _, _, left, right) =>
      FilterScansLeave(left);
      FilterScansLeave(right);
    case HashJoin(_, _, _, _, left, right) =>
      FilterScansLeave(left);
      FilterScansLeave(right);
  }

  lemma {:induction false} IndexScansLeave(db: Database, p: Plan)
    requires NoEquiJoin(p) && NoFilterOverScan(p) && BottomUp(WithCatalog(db), p).Some?
    ensures var q := BottomUp(WithCatalog(db), p).value;
      && NoEquiJoin(q) && NoFilterOverScan(q) && NoIndexableScan(db, q)
      && (q.SeqScan? && q.filter.None? ==> p.SeqScan? && p.filter.None?)
  {
    match p
    case SeqScan(_, _, _) => IndexScanFires(db, p);
    case IndexScan(_, _, _, _, _) =>
    case Filter(_, _, child) => IndexScansLeave(db, child);
    case Projection(_, _, child) => IndexScansLeave(db, child);
    case NestedLoopJoin(_, _, _, left, right) =>
      IndexScansLeave(db, left);
      IndexScansLeave(db, right);
    case HashJoin(_, _, _, _, left, right) =>
      IndexScansLeave(db, left);
      IndexScansLeave(db, right);
  }

  /**
   * In every plan that the pipeline returns, no nested-loop join is left whose predicate is a conjunction of column
   * equalities, no filter over a scan without one, and no scan whose filter an index could answer.
   */
  lemma PipelineLeaves(db: Database, p: Plan)
    requires OptimizeCustom(db, p).Some?
    ensures var q := OptimizeCustom(db, p).value;
      NoEquiJoin(q) && NoFilterOverScan(q) && NoIndexableScan(db, q)
  {
    var p2 := Then(BottomUp(MergeProjection, p), MergeFilterNLJ);
    HashJoinsLeave(p2.value);
    var p3 := Then(p2, NLJAsHashJoin);
    FilterScansLeave(p3.value);
    var p4 := Then(p3, MergeFilterScan);
    IndexScansLeave(db, p4.value);
  }
}
