/** Query plans over one transaction's view of the tables, and the rows each plan produces. */
module Plans {
  import opened Sql
  import opened Bags
  import opened Joins

  datatype ColumnType = BooleanColumn | IntegerColumn | VarcharColumn

  type Schema = seq<ColumnType>

  /** An index with the slot stored under each key; entries are for single-column keys. */
  datatype Index = Index(keyAttrs: seq<nat>, entries: map<Value, nat>)

  /** What the transaction sees of a table: for each heap slot in order, its row or nothing. */
  datatype Table = Table(schema: Schema, slots: seq<Option<Row>>, indexes: seq<Index>)

  type Database = map<nat, Table>

  datatype Plan =
    | SeqScan(schema: Schema, table: nat, filter: Option<Expr>)
    | IndexScan(schema: Schema, table: nat, index: nat, filter: Option<Expr>, keys: seq<Expr>)
    | Filter(schema: Schema, condition: Expr, child: Plan)
    | Projection(schema: Schema, exprs: seq<Expr>, child: Plan)
    | NestedLoopJoin(schema: Schema, kind: JoinType, condition: Expr, left: Plan, right: Plan)
    | HashJoin(schema: Schema, kind: JoinType, leftKeys: seq<Expr>, rightKeys: seq<Expr>, left: Plan, right: Plan)

  // ----- evaluation -----------------------------------------------------------------------------------

  function Passing(condition: Expr): Row -> seq<Row> {
    r => if IsTrue(Evaluate(condition, r)) then [r] else []
  }

  function Filtered(condition: Expr, rows: seq<Row>): seq<Row> {
    FlatMap(Passing(condition), rows)
  }

  function Projecting(exprs: seq<Expr>): Row -> seq<Row> {
    r => [MakeKey(exprs, r)]
  }

  /** The visible row of a slot, if it passes the scan's filter. */
  function Scanning(slots: seq<Option<Row>>, filter: Option<Expr>): nat -> seq<Row> {
    (i: nat) => if i < |slots| && slots[i].Some? && Passes(filter, slots[i].value) then [slots[i].value] else []
  }

  function UpTo(n: nat): (r: seq<nat>)
    ensures |r| == n && forall i :: 0 <= i < n ==> r[i] == i
  {
    seq(n, i => i)
  }

  /** All slots in heap order. */
  function SeqScanRows(slots: seq<Option<Row>>, filter: Option<Expr>): seq<Row> {
    FlatMap(Scanning(slots, filter), UpTo(|slots|))
  }

  /** Each slot once, and among them every slot whose row passes the filter. */
  ghost predicate Complete(view: seq<Option<Row>>, filter: Option<Expr>, slots: seq<nat>) {
    Distinct(slots) && forall i :: 0 <= i < |view| && view[i].Some? && Passes(filter, view[i].value) ==> i in slots
  }

  lemma AllComplete(view: seq<Option<Row>>, filter: Option<Expr>)
    ensures Complete(view, filter, UpTo(|view|))
  {
    forall i | 0 <= i < |view|
      ensures i in UpTo(|view|)
    {
      assert UpTo(|view|)[i] == i;
    }
  }

  /** Any such list of slots finds the rows of a sequential scan. */
  lemma CompleteBag(view: seq<Option<Row>>, filter: Option<Expr>, slots: seq<nat>)
    requires Complete(view, filter, slots)
    ensures multiset(FlatMap(Scanning(view, filter), slots)) == multiset(SeqScanRows(view, filter))
  {
    forall i: nat | Scanning(view, filter)(i) != []
      ensures i in UpTo(|view|)
    {
      assert UpTo(|view|)[i] == i;
    }
    DistinctFlatMapBag(Scanning(view, filter), slots, UpTo(|view|));
  }

  function LookingUp(entries: map<Value, nat>): Expr -> seq<nat> {
    key => var v := Evaluate(key, []); if v in entries then [entries[v]] else []
  }

  /** First occurrences only. */
  function Unique(s: seq<nat>): seq<nat> {
    if s == [] then []
    else
      var before, last := Unique(s[..|s| - 1]), s[|s| - 1];
      if last in before then before else before + [last]
  }

  /** The slots found under the keys, each once. */
  function LookupSlots(entries: map<Value, nat>, keys: seq<Expr>): seq<nat> {
    Unique(FlatMap(LookingUp(entries), keys))
  }

  function IndexScanRows(slots: seq<Option<Row>>, entries: map<Value, nat>, filter: Option<Expr>,
    keys: seq<Expr>): seq<Row> {
    FlatMap(Scanning(slots, filter), LookupSlots(entries, keys))
  }

  function Eval(db: Database, p: Plan): seq<Row>
    requires Resolved(db, p)
  {
    match p
    case SeqScan(_, t, filter) => SeqScanRows(db[t].slots, filter)
    case IndexScan(_, t, i, filter, keys) => IndexScanRows(db[t].slots, db[t].indexes[i].entries, filter, keys)
    case Filter(_, condition, child) => Filtered(condition, Eval(db, child))
    case Projection(_, exprs, child) => FlatMap(Projecting(exprs), Eval(db, child))
    case NestedLoopJoin(_, kind, condition, left, right) =>
      Joined(kind, PredicateMatch(Some(condition)), |right.schema|, Eval(db, left), Eval(db, right))
    case HashJoin(_, kind, leftKeys, rightKeys, left, right) =>
      Joined(kind, KeyMatch(leftKeys, rightKeys), |right.schema|, Eval(db, left), Eval(db, right))
  }

  // ----- plans as the planner builds them -----------------------------------------------------------------

  /** Tables and indexes exist. */
  predicate Resolved(db: Database, p: Plan) {
    match p
    case SeqScan(_, t, _) => t in db
    case IndexScan(_, t, i, _, _) => t in db && i < |db[t].indexes|
    case Filter(_, _, child) => Resolved(db, child)
    case Projection(_, _, child) => Resolved(db, child)
    case NestedLoopJoin(_, _, _, left, right) => Resolved(db, left) && Resolved(db, right)
    case HashJoin(_, _, _, _, left, right) => Resolved(db, left) && Resolved(db, right)
  }

  /** Every column names the one input row and exists in it. */
  predicate OneSided(e: Expr, width: nat) {
    match e
    case Column(t, i) => t == 0 && i < width
    case Const(_) => true
    case Compare(_, a, b) => OneSided(a, width) && OneSided(b, width)
    case Logic(_, a, b) => OneSided(a, width) && OneSided(b, width)
    case Arith(_, a, b) => OneSided(a, width) && OneSided(b, width)
  }

  /** Schemas fit together and expressions name columns that exist. */
  predicate WellFormed(db: Database, p: Plan) {
    match p
    case SeqScan(schema, t, _) => t in db && schema == db[t].schema
    case IndexScan(schema, t, i, _, keys) => t in db && i < |db[t].indexes| && schema == db[t].schema && keys != []
    case Filter(schema, condition, child) =>
      WellFormed(db, child) && schema == child.schema && OneSided(condition, |child.schema|)
    case Projection(schema, exprs, child) => WellFormed(db, child) && |schema| == |exprs|
    case NestedLoopJoin(schema, _, condition, left, right) =>
      WellFormed(db, left) && WellFormed(db, right) && schema == left.schema + right.schema && TwoSided(condition)
    case HashJoin(schema, _, _, _, left, right) =>
      WellFormed(db, left) && WellFormed(db, right) && schema == left.schema + right.schema
  }

  /** A single-column index leads to every visible row. */
  ghost predicate Agrees(slots: seq<Option<Row>>, col: nat, entries: map<Value, nat>) {
    forall i :: 0 <= i < |slots| && slots[i].Some? ==>
      GetColumn(slots[i].value, col) in entries && entries[GetColumn(slots[i].value, col)] == i
  }

  /** Rows have their schema's width, and single-column indexes agree with what is visible. */
  ghost predicate Consistent(db: Database) {
    forall t :: t in db ==>
      && (forall i :: 0 <= i < |db[t].slots| && db[t].slots[i].Some? ==> |db[t].slots[i].value| == |db[t].schema|)
      && (forall k :: 0 <= k < |db[t].indexes| && |db[t].indexes[k].keyAttrs| == 1 ==>
            Agrees(db[t].slots, db[t].indexes[k].keyAttrs[0], db[t].indexes[k].entries))
  }

  lemma JoinWidth(kind: JoinType, m: Matcher, leftWidth: nat, rightWidth: nat, left: seq<Row>, right: seq<Row>)
    requires AllWide(left, leftWidth) && AllWide(right, rightWidth)
    ensures AllWide(Joined(kind, m, rightWidth, left, right), leftWidth + rightWidth)
  {
    forall row | row in Joined(kind, m, rightWidth, left, right)
      ensures |row| == leftWidth + rightWidth
    {
      JoinedRows(kind, m, rightWidth, left, right, row);
    }
  }

  lemma MappedWidth<A>(f: A -> seq<Row>, s: seq<A>, width: nat)
    requires forall x :: x in s ==> AllWide(f(x), width)
    ensures AllWide(FlatMap(f, s), width)
  {
    forall row | row in FlatMap(f, s)
      ensures |row| == width
    {
      FlatMapIn(f, s, row);
    }
  }

  /** Every plan produces rows as wide as its schema. */
  lemma {:induction false} RowWidth(db: Database, p: Plan)
    requires Consistent(db) && WellFormed(db, p) && Resolved(db, p)
    ensures AllWide(Eval(db, p), |p.schema|)
  {
    match p
    case SeqScan(_, t, filter) =>
      MappedWidth(Scanning(db[t].slots, filter), UpTo(|db[t].slots|), |p.schema|);
    case IndexScan(_, t, i, filter, keys) =>
      MappedWidth(Scanning(db[t].slots, filter), LookupSlots(db[t].indexes[i].entries, keys), |p.schema|);
    case Filter(_, condition, child) =>
      RowWidth(db, child);
      MappedWidth(Passing(condition), Eval(db, child), |p.schema|);
    case Projection(_, exprs, child) =>
      MappedWidth(Projecting(exprs), Eval(db, child), |p.schema|);
    case NestedLoopJoin(_, kind, condition, left, right) =>
      RowWidth(db, left);
      RowWidth(db, right);
      JoinWidth(kind, PredicateMatch(Some(condition)), |left.schema|, |right.schema|, Eval(db, left), Eval(db, right));
    case HashJoin(_, kind, leftKeys, rightKeys, left, right) =>
      RowWidth(db, left);
      RowWidth(db, right);
      JoinWidth(kind, KeyMatch(leftKeys, rightKeys), |left.schema|, |right.schema|, Eval(db, left), Eval(db, right));
  }
}
