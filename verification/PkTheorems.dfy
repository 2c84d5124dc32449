/** What holds of a primary-key index in every run, and what that gives queries. */
module PkTheorems {
  import opened Sql
  import opened Chain
  import opened Mvcc
  import opened MvccRuns
  import opened MvccTheorems
  import opened PkIndex
  import opened Plans
  import opened Optimizer

  // ----- runs -----------------------------------------------------------------------------------------------

  /** The table is created empty; other tables may have rows. */
  ghost predicate PkInit(p: Pk) {
    && Mvcc.Init(p.w)
    && p.index == map[] && p.pending == map[]
    && (forall rid :: rid in p.w.heap ==> rid.table != p.info.table)
  }

  ghost predicate IsPkRun(p: Pk, steps: seq<PkStep>)
    decreases |steps|
  {
    steps == [] || (PkEnabled(p, steps[0]) && IsPkRun(PkNext(p, steps[0]), steps[1..]))
  }

  ghost function PkAfter(p: Pk, steps: seq<PkStep>): Pk
    requires IsPkRun(p, steps)
    decreases |steps|
  {
    if steps == [] then p else PkAfter(PkNext(p, steps[0]), steps[1..])
  }

  lemma PkInitInv(p: Pk)
    requires PkInit(p)
    ensures PkInv(p)
  {
    InitInv(p.w);
  }

  /** Index and rows agree in every state of every run. */
  lemma {:induction false} PkRunInv(p: Pk, steps: seq<PkStep>)
    requires PkInv(p) && IsPkRun(p, steps)
    ensures PkInv(PkAfter(p, steps)) && PkAfter(p, steps).info == p.info
    decreases |steps|
  {
    if steps != [] {
      PkStepInv(p, steps[0]);
      PkRunInv(PkNext(p, steps[0]), steps[1..]);
    }
  }

  /** The index never loses or moves an entry. */
  lemma {:induction false} IndexOnlyGrows(p: Pk, steps: seq<PkStep>, key: Value)
    requires IsPkRun(p, steps) && key in p.index
    ensures key in PkAfter(p, steps).index && PkAfter(p, steps).index[key] == p.index[key]
    decreases |steps|
  {
    if steps != [] {
      IndexOnlyGrows(PkNext(p, steps[0]), steps[1..], key);
    }
  }

  // ----- index and rows ---------------------------------------------------------------------------------------

  /** Every live version at an indexed slot, committed or not, carries the slot's key. */
  lemma VersionsCarryKey(p: Pk, key: Value, row: Row)
    requires PkInv(p) && key in p.index
    ensures p.index[key] in p.w.heap && p.index[key] in p.w.hist
    ensures Content(p.w.heap[p.index[key]]) == Some(row) ==> Key(p.info, row) == key
    ensures forall k :: 0 <= k < |p.w.hist[p.index[key]]| && p.w.hist[p.index[key]][k].row == Some(row) ==>
      Key(p.info, row) == key
  {
    var rid := p.index[key];
    assert RowOk(p, rid);
    if Content(p.w.heap[rid]) == Some(row) {
      FittingKey(p, key, row);
    }
    forall k | 0 <= k < |p.w.hist[rid]| && p.w.hist[rid][k].row == Some(row)
      ensures Key(p.info, row) == key
    {
      FittingKey(p, key, row);
    }
  }

  lemma FittingKey(p: Pk, key: Value, row: Row)
    requires IndexOk(p) && key in p.index && KeyFits(p, p.index[key], Some(row))
    ensures Key(p.info, row) == key
  {
    assert p.index[key] in p.index.Values;
  }

  /** A transaction that may still commit and is not halfway through an insertion. */
  ghost predicate Settled(p: Pk, t: TxnId) {
    t in p.w.txns && p.w.txns[t].state == Running && !p.w.txns[t].phase.Aborting? && t !in p.pending
  }

  /** The index leads from the key of every row a settled transaction sees to that row. */
  lemma SeenIsIndexed(p: Pk, t: TxnId, rid: Rid)
    requires PkInv(p) && Settled(p, t) && rid.table == p.info.table && Sees(p, t, rid)
    ensures |RowSeen(p, t, rid)| == p.info.width
    ensures Key(p.info, RowSeen(p, t, rid)) in p.index && p.index[Key(p.info, RowSeen(p, t, rid))] == rid
  {
    assert RowOk(p, rid) && TxnOk(p.w, t);
    SeenFits(p, t, rid);
    if rid !in p.index.Values && p.w.heap[rid].ts != t {
      UnbornUnseen(p, t, rid);
    }
  }

  /** No transaction that may commit sees two rows with one key. */
  lemma OneRowPerKey(p: Pk, t: TxnId, a: Rid, b: Rid)
    requires PkInv(p) && Settled(p, t) && a.table == b.table == p.info.table && Sees(p, t, a) && Sees(p, t, b)
    requires Key(p.info, RowSeen(p, t, a)) == Key(p.info, RowSeen(p, t, b))
    ensures a == b
  {
    SeenIsIndexed(p, t, a);
    SeenIsIndexed(p, t, b);
  }

  lemma CommittedIsIndexed(p: Pk, r: int, rid: Rid)
    requires PkInv(p) && rid in p.w.hist && rid.table == p.info.table && SnapshotOf(p.w, rid, r).Some?
    ensures var key := Key(p.info, SnapshotOf(p.w, rid, r).value); key in p.index && p.index[key] == rid
  {
    assert RowOk(p, rid);
    AsOfFits(p, rid, p.w.hist[rid], r);
    if rid !in p.index.Values {
      AsOfNone(p.w.hist[rid], r);
    }
  }

  /** Keys are unique in every committed snapshot, past ones too. */
  lemma KeysUniqueInSnapshots(p: Pk, r: int, a: Rid, b: Rid)
    requires PkInv(p) && a in p.w.hist && b in p.w.hist && a.table == b.table == p.info.table
    requires SnapshotOf(p.w, a, r).Some? && SnapshotOf(p.w, b, r).Some?
    requires Key(p.info, SnapshotOf(p.w, a, r).value) == Key(p.info, SnapshotOf(p.w, b, r).value)
    ensures a == b
  {
    CommittedIsIndexed(p, r, a);
    CommittedIsIndexed(p, r, b);
  }

  // ----- queries ------------------------------------------------------------------------------------------------

  ghost function SlotView(p: Pk, t: TxnId, i: nat): Option<Row>
    requires t in p.w.txns
  {
    var rid := Rid(p.info.table, i);
    if rid in p.w.heap then Visible(ReadBy(p.w, t, rid)) else None
  }

  /** What `t` sees in the first `n` slots of the table, in heap order. */
  ghost function View(p: Pk, t: TxnId, n: nat): (v: seq<Option<Row>>)
    requires t in p.w.txns
    ensures |v| == n && forall i :: 0 <= i < n ==> v[i] == SlotView(p, t, i)
  {
    seq(n, i requires 0 <= i < n => SlotView(p, t, i))
  }

  function Entries(index: map<Value, Rid>): map<Value, nat> {
    map key | key in index :: index[key].slot
  }

  /** The table as the plans of transaction `t` see it. */
  ghost function SnapshotTable(p: Pk, t: TxnId, n: nat, schema: Schema): Table
    requires t in p.w.txns
  {
    Table(schema, View(p, t, n), [Index([p.info.col], Entries(p.index))])
  }

  lemma ViewAgrees(p: Pk, t: TxnId, n: nat)
    requires PkInv(p) && Settled(p, t)
    ensures Agrees(View(p, t, n), p.info.col, Entries(p.index))
    ensures forall i :: 0 <= i < n && View(p, t, n)[i].Some? ==> |View(p, t, n)[i].value| == p.info.width
  {
    forall i | 0 <= i < n && View(p, t, n)[i].Some?
      ensures var row := View(p, t, n)[i].value;
        |row| == p.info.width && GetColumn(row, p.info.col) in p.index && p.index[GetColumn(row, p.info.col)].slot == i
    {
      SeenIsIndexed(p, t, Rid(p.info.table, i));
    }
  }

  /** Index lookup with the filter returns the bag of rows that a sequential scan with the filter returns. */
  lemma IndexLookupIsScan(p: Pk, t: TxnId, n: nat, filter: Expr)
    requires PkInv(p) && Settled(p, t) && CollectEqualityKeys(filter, None).Some?
    requires CollectEqualityKeys(filter, None).value.col == p.info.col
    ensures var keys := CollectEqualityKeys(filter, None).value.keys;
            multiset(IndexScanRows(View(p, t, n), Entries(p.index), Some(filter), keys)) ==
            multiset(SeqScanRows(View(p, t, n), Some(filter)))
  {
    ViewAgrees(p, t, n);
    IndexScanIsSeqScan(View(p, t, n), Entries(p.index), filter);
  }

  /** Optimizing a query of a settled transaction does not change its answer, in any state of any run. */
  lemma OptimizedQuery(p: Pk, t: TxnId, n: nat, schema: Schema, others: Database, plan: Plan)
    requires PkInv(p) && Settled(p, t) && |schema| == p.info.width && Consistent(others)
    requires var db := others[p.info.table := SnapshotTable(p, t, n, schema)];
      Plans.WellFormed(db, plan) && Resolved(db, plan) && MergesSafely(plan)
    ensures var db := others[p.info.table := SnapshotTable(p, t, n, schema)];
      && OptimizeCustom(db, plan).Some? && Resolved(db, OptimizeCustom(db, plan).value)
      && multiset(Eval(db, OptimizeCustom(db, plan).value)) == multiset(Eval(db, plan))
  {
    var db := others[p.info.table := SnapshotTable(p, t, n, schema)];
    ViewAgrees(p, t, n);
    assert Consistent(db);
    OptimizeCustomSound(db, plan);
  }
}
