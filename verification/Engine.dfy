/** The execution engine: the executors of a whole plan, over the tables of a catalog and between other transactions. */
module Engines {
  import opened Sql
  import opened Chain
  import opened Mvcc
  import opened TransactionManagers
  import opened PkIndex
  import opened PkTheorems
  import opened PkViews
  import opened IndexedTables
  import opened ScanExecutors
  import opened RowExecutors
  import opened JoinExecutors
  import opened Bags
  import opened Joins
  import opened Plans
  import opened Optimizer

  // ----- views with more slots ----------------------------------------------------------------------------------

  lemma PadScanning(view: seq<Option<Row>>, n: nat, filter: Option<Expr>)
    requires |view| <= n
    ensures forall i: nat :: Scanning(Pad(view, n), filter)(i) == Scanning(view, filter)(i)
  {
    forall i: nat | i < |view|
      ensures Pad(view, n)[i] == view[i]
    {
      assert Pad(view, n)[..|view|][i] == view[i];
    }
  }

  /** Slot lists that agree on the rows in sight find the same rows. */
  lemma PadBag(view: seq<Option<Row>>, n: nat, filter: Option<Expr>, a: seq<nat>, b: seq<nat>)
    requires |view| <= n && Distinct(a) && Distinct(b)
    requires forall i :: 0 <= i < |view| && view[i].Some? ==> (i in a <==> i in b)
    ensures multiset(FlatMap(Scanning(Pad(view, n), filter), a)) == multiset(FlatMap(Scanning(view, filter), b))
  {
    PadScanning(view, n, filter);
    FlatMapSame<nat, Row>(Scanning(Pad(view, n), filter), Scanning(view, filter), a);
    DistinctFlatMapBag(Scanning(view, filter), a, b);
  }

  lemma PadSeqScan(view: seq<Option<Row>>, n: nat, filter: Option<Expr>)
    requires |view| <= n
    ensures multiset(SeqScanRows(Pad(view, n), filter)) == multiset(SeqScanRows(view, filter))
  {
    forall i | 0 <= i < |view|
      ensures i in UpTo(n) && i in UpTo(|view|)
    {
      assert UpTo(n)[i] == i && UpTo(|view|)[i] == i;
    }
    PadBag(view, n, filter, UpTo(n), UpTo(|view|));
  }

  /** The entries of an earlier moment are still there. */
  ghost predicate EntriesKept(entries: map<Value, nat>, index: map<Value, Rid>) {
    forall key :: key in entries ==> key in index && index[key].slot == entries[key]
  }

  lemma InLookup(entries: map<Value, nat>, keys: seq<Expr>, i: nat)
    ensures Distinct(LookupSlots(entries, keys))
    ensures i in LookupSlots(entries, keys) <==>
      exists k :: k in keys && Evaluate(k, []) in entries && entries[Evaluate(k, [])] == i
  {
    var looked := FlatMap(LookingUp(entries), keys);
    UniqueFacts(looked);
    FlatMapIn(LookingUp(entries), keys, i);
    if i in looked {
      var k :| k in keys && i in LookingUp(entries)(k);
      assert Evaluate(k, []) in entries && entries[Evaluate(k, [])] == i;
    }
    if k :| k in keys && Evaluate(k, []) in entries && entries[Evaluate(k, [])] == i {
      assert i in LookingUp(entries)(k);
    }
  }

  /** Entries added since lead to nothing in sight. */
  lemma LateEntries(view: seq<Option<Row>>, col: nat, entries: map<Value, nat>, index: map<Value, Rid>, keys: seq<Expr>)
    requires Agrees(view, col, entries) && EntriesKept(entries, index) && Apart(index)
    ensures forall i :: 0 <= i < |view| && view[i].Some? ==>
      (i in LookupSlots(Entries(index), keys) <==> i in LookupSlots(entries, keys))
  {
    forall i | 0 <= i < |view| && view[i].Some?
      ensures i in LookupSlots(Entries(index), keys) <==> i in LookupSlots(entries, keys)
    {
      InLookup(entries, keys, i);
      InLookup(Entries(index), keys, i);
      var own := GetColumn(view[i].value, col);
      assert own in index && index[own].slot == i;
    }
  }

  lemma PadIndexScan(
      view: seq<Option<Row>>, n: nat, filter: Option<Expr>, col: nat, entries: map<Value, nat>,
      index: map<Value, Rid>, keys: seq<Expr>)
    requires |view| <= n && Agrees(view, col, entries) && EntriesKept(entries, index) && Apart(index)
    ensures multiset(IndexScanRows(Pad(view, n), Entries(index), filter, keys)) ==
            multiset(IndexScanRows(view, entries, filter, keys))
  {
    LateEntries(view, col, entries, index, keys);
    InLookup(entries, keys, 0);
    InLookup(Entries(index), keys, 0);
    PadBag(view, n, filter, LookupSlots(Entries(index), keys), LookupSlots(entries, keys));
  }

  // ----- one table among others -----------------------------------------------------------------------------------

  /** The table `d` is what `t` sees of it, or saw before others ran. */
  ghost predicate Showing(p: Pk, n: nat, t: TxnId, d: Table) {
    && ReadyIn(p, t) && |d.slots| <= n && View(p, t, n) == Pad(d.slots, n)
    && |d.schema| == p.info.width && |d.indexes| == 1 && d.indexes[0].keyAttrs == [p.info.col]
    && EntriesKept(d.indexes[0].entries, p.index)
  }

  lemma OthersShow(p: Pk, p': Pk, t: TxnId, n: nat, n': nat, d: Table)
    requires PkReachable(p) && OthersRan(p, p', t) && p'.info == p.info
    requires Covers(p.w.heap, p.info.table, n) && n <= n' && Showing(p, n, t, d)
    ensures Showing(p', n', t, d)
  {
    AfterOthers(p, p', t, n, n');
    PadTwice(d.slots, n, n');
  }

  /** A scan noted for validation changes nothing of it, whichever table is scanned. */
  lemma RecordShows(p: Pk, p': Pk, t: TxnId, scan: Scan, n: nat, d: Table)
    requires PkReachable(p) && Showing(p, n, t, d) && Covers(p.w.heap, p.info.table, n)
    requires p.w.undo.Keys == p.w.txns.Keys && Enabled(p.w, RecordScan(t, scan))
    requires p' == p.(w := Next(p.w, RecordScan(t, scan)))
    ensures PkReachable(p') && Showing(p', n, t, d) && Covers(p'.w.heap, p.info.table, n)
  {
    PkReachableInv(p);
    RecordOutcome(p, t, scan, n);
    PkStepReachable(p, Plain(RecordScan(t, scan)));
  }

  lemma NobodyRan(p: Pk, t: TxnId)
    ensures OthersRan(p, p, t)
  {
    assert IsPkRun(p, []) && OnlyOthers([], t) && PkAfter(p, []) == p;
  }

  // ----- the catalog ------------------------------------------------------------------------------------------------

  class Catalog {
    const tm: TransactionManager
    const tables: map<nat, IndexedTable>

    constructor (tm: TransactionManager, tables: map<nat, IndexedTable>)
      ensures this.tm == tm && this.tables == tables
    {
      this.tm, this.tables := tm, tables;
    }

    ghost predicate Valid()
      reads this, tables.Values, tm, tm.runningTxns
    {
      forall n :: n in tables ==> tables[n].tm == tm && tables[n].info.table == n && tables[n].Valid()
    }

    /** `db` is what `t` sees of the tables, or saw before others ran. */
    ghost predicate Shows(db: Database, t: TxnId)
      reads this, tables.Values, tm, tm.runningTxns
    {
      && Valid() && db.Keys == tables.Keys
      && forall n :: n in tables ==> Showing(tables[n].Value(), tables[n].slots, t, db[n])
    }

    /** What `t` sees of all tables now. */
    ghost function Seen(t: TxnId, schemas: map<nat, Schema>): Database
      requires ReadyFor(t, schemas)
      reads this, tables.Values, tm, tm.runningTxns
    {
      map n | n in tables :: SnapshotTable(tables[n].Value(), t, tables[n].slots, schemas[n])
    }

    ghost predicate ReadyFor(t: TxnId, schemas: map<nat, Schema>)
      reads this, tables.Values, tm, tm.runningTxns
    {
      && Valid() && schemas.Keys == tables.Keys
      && forall n :: n in tables ==> tables[n].Ready(t) && |schemas[n]| == tables[n].info.width
    }

    lemma SeenShows(t: TxnId, schemas: map<nat, Schema>)
      requires ReadyFor(t, schemas)
      ensures Shows(Seen(t, schemas), t)
    {
      forall n | n in tables
        ensures Showing(tables[n].Value(), tables[n].slots, t, Seen(t, schemas)[n])
      {
        SeenTable(tables[n].Value(), t, tables[n].slots, schemas[n]);
      }
    }

    lemma SeenConsistent(t: TxnId, schemas: map<nat, Schema>)
      requires ReadyFor(t, schemas)
      ensures Consistent(Seen(t, schemas)) && OneIndexEach(Seen(t, schemas))
    {
      forall n | n in tables
        ensures Indexed(Seen(t, schemas)[n])
      {
        SeenTable(tables[n].Value(), t, tables[n].slots, schemas[n]);
      }
      IndexedConsistent(Seen(t, schemas));
    }

    /**
     * A query of a running transaction: the executors of the optimized plan, whatever other transactions do
     * meanwhile, emit the bag of rows that the plan before optimization means at the start.
     */
    method Query(plan: Plan, optimized: Plan, t: TxnId, sizes: nat -> nat, hasher: Hasher,
                 ghost schemas: map<nat, Schema>)
        returns (rows: seq<Row>)
      requires ReadyFor(t, schemas) && forall i :: sizes(i) > 0
      requires var db := Seen(t, schemas);
        && Plans.WellFormed(db, plan) && Resolved(db, plan) && MergesSafely(plan)
        && OptimizeCustom(db, plan) == Some(optimized)
      modifies tables.Values, tm, tm.runningTxns
      ensures Valid() && multiset(rows) == old(multiset(Eval(Seen(t, schemas), plan)))
    {
      ghost var db := Seen(t, schemas);
      SeenShows(t, schemas);
      SeenConsistent(t, schemas);
      OptimizeCustomSound(db, plan);
      rows := Execute(optimized, t, sizes, hasher, db);
    }

    /** A point at which other threads may run, as in `IndexedTable.Yield`, but over all tables. */
    method Yield(t: TxnId)
      requires Valid()
      modifies tables.Values, tm, tm.runningTxns
      ensures Valid()
      ensures forall n :: n in tables ==>
        tables[n].slots >= old(tables[n].slots) && OthersRan(old(tables[n].Value()), tables[n].Value(), t)
    {
      forall n | n in tables
        ensures OthersRan(tables[n].Value(), tables[n].Value(), t)
      {
        NobodyRan(tables[n].Value(), t);
      }
    }

    method LetOthersRun(t: TxnId, ghost db: Database)
      requires Shows(db, t)
      modifies tables.Values, tm, tm.runningTxns
      ensures Shows(db, t) && forall n :: n in tables ==> tables[n].slots >= old(tables[n].slots)
    {
      Yield(t);
      forall n | n in tables
        ensures Showing(tables[n].Value(), tables[n].slots, t, db[n])
      {
        OthersShow(old(tables[n].Value()), tables[n].Value(), t, old(tables[n].slots), tables[n].slots, db[n]);
      }
    }

    /** Begin a scan of one table; the other tables see only that the engine has noted it. */
    method Open(scan: TableScan, n: nat, t: TxnId, ghost db: Database)
      requires Shows(db, t) && n in tables && scan.Table() == tables[n] && scan.Txn() == t
      modifies scan.Executor(), tm
      ensures Shows(db, t) && scan.Valid() && scan.Viewed() == Pad(db[n].slots, tables[n].slots)
      ensures scan.Sequential? ==> scan.Ahead() == UpTo(tables[n].slots)
      ensures scan.ByIndex? ==> FoundBy(tables[n].index, scan.indexScan.predKeys, scan.Ahead())
    {
      InitScan(scan, n, t);
      forall m | m in tables
        ensures tables[m].Valid() && Showing(tables[m].Value(), tables[m].slots, t, db[m])
      {
        RecordShows(old(tables[m].Value()), tables[m].Value(), t, Scan(n, scan.Predicate()), tables[m].slots, db[m]);
      }
    }

    method InitScan(scan: TableScan, n: nat, t: TxnId)
      requires n in tables && scan.Table() == tables[n] && scan.Txn() == t
      requires forall m :: m in tables ==> tables[m].tm == tm
      requires tables[n].info.table == n && tables[n].Valid() && tables[n].Ready(t)
      modifies scan.Executor(), tm
      ensures scan.Valid() && scan.Viewed() == tables[n].Sight(t) == old(tables[n].Sight(t))
      ensures scan.Sequential? ==> scan.Ahead() == UpTo(tables[n].slots)
      ensures scan.ByIndex? ==> FoundBy(tables[n].index, scan.indexScan.predKeys, scan.Ahead())
      ensures tables[n].Recorded(old(tm.State()), t, scan.Predicate())
      ensures forall m :: m in tables ==> unchanged(tables[m])
    {
      scan.Init();
    }

    /** A scan of one table is under way. */
    ghost predicate Scanned(scan: TableScan, n: nat, t: TxnId, db: Database)
      reads this, tables.Values, tm, tm.runningTxns, scan.Executor(), scan.Table(), scan.Table().tm
      reads scan.Table().tm.runningTxns
    {
      && Shows(db, t) && n in tables && scan.Table() == tables[n] && scan.Txn() == t && scan.Valid()
      && |db[n].slots| <= |scan.Viewed()| <= tables[n].slots && scan.Viewed() == Pad(db[n].slots, |scan.Viewed()|)
    }

    /** Others run; the scan stays where it is. */
    method Pause(scan: TableScan, n: nat, t: TxnId, ghost db: Database)
      requires Scanned(scan, n, t, db)
      modifies tables.Values, tm, tm.runningTxns
      ensures Scanned(scan, n, t, db) && scan.Remaining() == old(scan.Remaining())
    {
      LetOthersRun(t, db);
      assert unchanged(scan.Executor());
      PadsUndisturbed(db[n].slots, scan.Viewed(), scan.Ahead(), tables[n].Sight(t));
    }

    /** One batch of the scan, which leaves the tables alone. */
    method Advance(scan: TableScan, n: nat, t: TxnId, batchSize: nat, ghost db: Database)
        returns (batch: seq<Hit>, ok: bool)
      requires Scanned(scan, n, t, db)
      modifies scan.Executor()
      ensures Scanned(scan, n, t, db) && batch + scan.Remaining() == old(scan.Remaining())
      ensures (ok <==> batch != []) && (|batch| < batchSize ==> scan.Remaining() == [])
    {
      batch, ok := FetchHits(scan, n, batchSize);
      assert Shows(db, t);
    }

    method FetchHits(scan: TableScan, n: nat, batchSize: nat) returns (batch: seq<Hit>, ok: bool)
      requires n in tables && scan.Table() == tables[n] && tables[n].tm == tm && scan.Valid()
      modifies scan.Executor()
      ensures scan.Valid() && scan.Viewed() == old(scan.Viewed()) && batch + scan.Remaining() == old(scan.Remaining())
      ensures (ok <==> batch != []) && (|batch| < batchSize ==> scan.Remaining() == [])
      ensures unchanged(this, tm, tm.runningTxns) && forall m :: m in tables ==> unchanged(tables[m])
    {
      batch, ok := scan.Next(batchSize);
    }

    method NextBatch(scan: TableScan, n: nat, t: TxnId, batchSize: nat, ghost db: Database)
        returns (batch: seq<Hit>, ok: bool)
      requires Scanned(scan, n, t, db) && batchSize > 0
      modifies scan.Executor(), tables.Values, tm, tm.runningTxns
      ensures Scanned(scan, n, t, db) && batch + scan.Remaining() == old(scan.Remaining())
      ensures if ok then batch != [] else batch == scan.Remaining() == []
    {
      Pause(scan, n, t, db);
      batch, ok := Advance(scan, n, t, batchSize, db);
    }

    /** A whole scan, with others running between its batches. */
    method RunScan(scan: TableScan, n: nat, t: TxnId, sizes: nat -> nat, ghost db: Database)
        returns (result: seq<Hit>)
      requires Scanned(scan, n, t, db) && forall i :: sizes(i) > 0
      modifies scan.Executor(), tables.Values, tm, tm.runningTxns
      ensures Shows(db, t) && result == old(scan.Remaining())
    {
      ghost var all := scan.Remaining();
      result := [];
      var calls, ok := 0, true;
      while ok
        invariant Scanned(scan, n, t, db)
        invariant result + scan.Remaining() == all && (!ok ==> scan.Remaining() == [])
        decreases ok, |scan.Remaining()|
      {
        var batch;
        batch, ok := NextBatch(scan, n, t, sizes(calls), db);
        ScanExecutors.Associates(result, batch, scan.Remaining());
        result, calls := result + batch, calls + 1;
      }
    }

    method RunSeqScan(n: nat, filter: Option<Expr>, t: TxnId, sizes: nat -> nat, ghost db: Database)
        returns (rows: seq<Row>)
      requires Shows(db, t) && n in tables && forall i :: sizes(i) > 0
      modifies tables.Values, tm, tm.runningTxns
      ensures Shows(db, t) && multiset(rows) == multiset(SeqScanRows(db[n].slots, filter))
    {
      var executor := new SeqScanExecutor(tables[n], t, filter);
      var scan := Sequential(executor);
      Open(scan, n, t, db);
      ghost var size := |scan.Viewed()|;
      var hits := RunScan(scan, n, t, sizes, db);
      rows := RowsOf(hits);
      HitRows(n, Pad(db[n].slots, size), filter, UpTo(size));
      PadSeqScan(db[n].slots, size, filter);
    }

    method RunIndexScan(n: nat, filter: Option<Expr>, keys: seq<Expr>, t: TxnId, sizes: nat -> nat, ghost db: Database)
        returns (rows: seq<Row>)
      requires Shows(db, t) && n in tables && keys != [] && Consistent(db) && forall i :: sizes(i) > 0
      modifies tables.Values, tm, tm.runningTxns
      ensures Shows(db, t)
      ensures multiset(rows) == multiset(IndexScanRows(db[n].slots, db[n].indexes[0].entries, filter, keys))
    {
      var executor := new IndexScanExecutor(tables[n], t, filter, keys);
      var scan := ByIndex(executor);
      Open(scan, n, t, db);
      ghost var size, slots := |scan.Viewed()|, scan.Ahead();
      EntriesApart(tables[n].Value());
      PadIndexScan(db[n].slots, size, filter, tables[n].info.col, db[n].indexes[0].entries, tables[n].index, keys);
      var hits := RunScan(scan, n, t, sizes, db);
      rows := RowsOf(hits);
      HitRows(n, Pad(db[n].slots, size), filter, slots);
    }

    method RunTableScan(plan: Plan, t: TxnId, sizes: nat -> nat, ghost db: Database) returns (rows: seq<Row>)
      requires Shows(db, t) && Executable(db, plan) && (plan.SeqScan? || plan.IndexScan?)
      requires forall i :: sizes(i) > 0
      modifies tables.Values, tm, tm.runningTxns
      ensures Shows(db, t) && multiset(rows) == multiset(Eval(db, plan))
    {
      ScanMeaning(db, plan);
      if plan.SeqScan? {
        rows := RunSeqScan(plan.table, plan.filter, t, sizes, db);
      } else {
        rows := RunIndexScan(plan.table, plan.filter, plan.keys, t, sizes, db);
      }
    }

    /**
     * Run the executors of a whole plan to the end, whatever other transactions do in between: the rows are those
     * that the plan means in the database as the transaction saw it at the start.
     */
    method Execute(plan: Plan, t: TxnId, sizes: nat -> nat, hasher: Hasher, ghost db: Database)
        returns (rows: seq<Row>)
      requires Shows(db, t) && Executable(db, plan) && forall i :: sizes(i) > 0
      modifies tables.Values, tm, tm.runningTxns
      ensures Shows(db, t) && Answers(db, plan, rows)
      decreases plan, 1
    {
      if plan.SeqScan? || plan.IndexScan? {
        rows := RunTableScan(plan, t, sizes, db);
        SameWidth(db, plan, rows);
      } else if plan.Filter? || plan.Projection? {
        rows := ExecuteOver(plan, t, sizes, hasher, db);
      } else {
        rows := ExecuteJoin(plan, t, sizes, hasher, db);
      }
    }

    method ExecuteOver(plan: Plan, t: TxnId, sizes: nat -> nat, hasher: Hasher, ghost db: Database)
        returns (rows: seq<Row>)
      requires Shows(db, t) && Executable(db, plan) && (plan.Filter? || plan.Projection?) && forall i :: sizes(i) > 0
      modifies tables.Values, tm, tm.runningTxns
      ensures Shows(db, t) && Answers(db, plan, rows)
      decreases plan, 0
    {
      ChildrenExecutable(db, plan);
      var below := Execute(plan.child, t, sizes, hasher, db);
      label before:
      rows := OverOne(plan, below, sizes, db);
      assert unchanged@before(this, tm, tm.runningTxns);
      assert forall m :: m in tables ==> unchanged@before(tables[m]);
    }

    method ExecuteJoin(plan: Plan, t: TxnId, sizes: nat -> nat, hasher: Hasher, ghost db: Database)
        returns (rows: seq<Row>)
      requires Shows(db, t) && Executable(db, plan) && (plan.NestedLoopJoin? || plan.HashJoin?)
      requires forall i :: sizes(i) > 0
      modifies tables.Values, tm, tm.runningTxns
      ensures Shows(db, t) && Answers(db, plan, rows)
      decreases plan, 0
    {
      ChildrenExecutable(db, plan);
      var left := Execute(plan.left, t, sizes, hasher, db);
      var right := Execute(plan.right, t, sizes, hasher, db);
      label before:
      rows := OverTwo(plan, left, right, sizes, hasher, db);
      assert unchanged@before(this, tm, tm.runningTxns);
      assert forall m :: m in tables ==> unchanged@before(tables[m]);
    }
  }

  /** Rows fit the schema, and the one index leads to all of them. */
  ghost predicate Indexed(d: Table) {
    && |d.indexes| == 1 && |d.indexes[0].keyAttrs| == 1
    && Agrees(d.slots, d.indexes[0].keyAttrs[0], d.indexes[0].entries)
    && forall i :: 0 <= i < |d.slots| && d.slots[i].Some? ==> |d.slots[i].value| == |d.schema|
  }

  ghost predicate OneIndexEach(db: Database) {
    forall n :: n in db ==> |db[n].indexes| == 1
  }

  lemma IndexedConsistent(db: Database)
    requires forall n :: n in db ==> Indexed(db[n])
    ensures Consistent(db) && OneIndexEach(db)
  {
  }

  /** A table that a running transaction sees is as wide as its schema, and its index leads to all of it. */
  lemma SeenTable(p: Pk, t: TxnId, n: nat, schema: Schema)
    requires PkReachable(p) && ReadyIn(p, t) && |schema| == p.info.width
    ensures Showing(p, n, t, SnapshotTable(p, t, n, schema)) && Indexed(SnapshotTable(p, t, n, schema))
  {
    PkReachableInv(p);
    ViewAgrees(p, t, n);
  }

  /** The rows are as wide as the plan's schema, and the plan's, in some order. */
  ghost predicate Answers(db: Database, plan: Plan, rows: seq<Row>)
    requires Resolved(db, plan)
  {
    AllWide(rows, |plan.schema|) && multiset(rows) == multiset(Eval(db, plan))
  }

  /** A well-formed plan over tables with one index each. */
  ghost predicate Executable(db: Database, plan: Plan) {
    Consistent(db) && OneIndexEach(db) && Plans.WellFormed(db, plan) && Resolved(db, plan)
  }

  lemma ScanMeaning(db: Database, plan: Plan)
    requires Executable(db, plan)
    ensures plan.SeqScan? ==> plan.table in db && Eval(db, plan) == SeqScanRows(db[plan.table].slots, plan.filter)
    ensures plan.IndexScan? ==>
      && plan.table in db && plan.keys != []
      && var d := db[plan.table];
         Eval(db, plan) == IndexScanRows(d.slots, d.indexes[0].entries, plan.filter, plan.keys)
  {
  }

  lemma ChildrenExecutable(db: Database, plan: Plan)
    requires Executable(db, plan)
    ensures plan.Filter? || plan.Projection? ==> Executable(db, plan.child)
    ensures plan.NestedLoopJoin? || plan.HashJoin? ==> Executable(db, plan.left) && Executable(db, plan.right)
  {
  }

  lemma SameWidth(db: Database, plan: Plan, rows: seq<Row>)
    requires Executable(db, plan)
    requires multiset(rows) == multiset(Eval(db, plan))
    ensures Answers(db, plan, rows)
  {
    RowWidth(db, plan);
    BagIn(rows, Eval(db, plan));
  }

  /** A filter or a projection over the rows of its child. */
  method OverOne(plan: Plan, below: seq<Row>, sizes: nat -> nat, ghost db: Database) returns (rows: seq<Row>)
    requires (plan.Filter? || plan.Projection?) && Executable(db, plan) && Answers(db, plan.child, below)
    ensures Answers(db, plan, rows)
  {
    var source := new Source(|plan.child.schema|, below);
    if plan.Filter? {
      var executor := new FilterExecutor(source, plan.condition);
      rows := executor.Poll(sizes);
      FlatMapBag(Passing(plan.condition), Passing(plan.condition), below, Eval(db, plan.child));
    } else {
      var executor := new ProjectionExecutor(source, plan.exprs);
      rows := executor.Poll(sizes);
      FlatMapBag(Projecting(plan.exprs), Projecting(plan.exprs), below, Eval(db, plan.child));
    }
    SameWidth(db, plan, rows);
  }

  /** A join over the rows of its children. */
  method OverTwo(
      plan: Plan, left: seq<Row>, right: seq<Row>, sizes: nat -> nat, hasher: Hasher, ghost db: Database)
      returns (rows: seq<Row>)
    requires (plan.NestedLoopJoin? || plan.HashJoin?) && Executable(db, plan) && forall i :: sizes(i) > 0
    requires Answers(db, plan.left, left) && Answers(db, plan.right, right)
    ensures Answers(db, plan, rows)
  {
    var leftSource := new Source(|plan.left.schema|, left);
    var rightSource := new Source(|plan.right.schema|, right);
    ghost var m;
    if plan.NestedLoopJoin? {
      var executor := new NestedLoopJoinExecutor(plan.kind, Some(plan.condition), leftSource, rightSource);
      rows := executor.Poll(sizes);
      m := PredicateMatch(Some(plan.condition));
    } else {
      var executor :=
        new HashJoinExecutor(plan.kind, plan.leftKeys, plan.rightKeys, leftSource, rightSource, hasher);
      rows := executor.Poll(sizes);
      m := KeyMatch(plan.leftKeys, plan.rightKeys);
    }
    JoinedBag(plan.kind, m, |plan.right.schema|, left, Eval(db, plan.left), right, Eval(db, plan.right));
    SameWidth(db, plan, rows);
  }

  lemma PadsUndisturbed(base: seq<Option<Row>>, view: seq<Option<Row>>, ahead: seq<nat>, sight: seq<Option<Row>>)
    requires |base| <= |view| <= |sight| && view == Pad(base, |view|) && sight == Pad(base, |sight|)
    requires forall i :: i in ahead ==> i < |view|
    ensures Undisturbed(sight, view, ahead)
  {
  }

}
