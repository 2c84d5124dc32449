/** How one transaction's view of an indexed table changes: by its own edits, and by nothing else. */
module PkViews {
  import opened Sql
  import opened Chain
  import opened Mvcc
  import opened MvccFinish
  import opened MvccRuns
  import opened MvccTheorems
  import opened PkIndex
  import opened PkTheorems
  import opened Bags
  import opened Plans

  // ----- one row ----------------------------------------------------------------------------------------------

  /** The same slot and history under the same snapshot show the same row. */
  lemma SameSlotSameView(w: World, w': World, t: TxnId, rid: Rid)
    requires Inv(w) && Inv(w') && rid in w.heap && rid in w'.heap && w'.heap[rid] == w.heap[rid]
    requires t in w.txns && Live(w.txns[t]) && t in w'.txns && Live(w'.txns[t]) && w'.txns[t].readTs == w.txns[t].readTs
    requires SnapshotOf(w', rid, w.txns[t].readTs) == SnapshotOf(w, rid, w.txns[t].readTs)
    ensures Visible(ReadBy(w', t, rid)) == Visible(ReadBy(w, t, rid))
  {
    SnapshotRead(w, t, rid);
    SnapshotRead(w', t, rid);
  }

  lemma EditElsewhere(w: World, t: TxnId, rid: Rid, target: Option<Row>, requireDeleted: bool, other: Rid)
    requires Shape(w) && Enabled(w, Modify(t, rid, target, requireDeleted)) && other in w.heap && other != rid
    ensures var w' := Next(w, Modify(t, rid, target, requireDeleted));
      && t in w'.txns && w'.txns[t].readTs == w.txns[t].readTs && Live(w'.txns[t]) == Live(w.txns[t])
      && other in w'.heap && w'.heap[other] == w.heap[other] && w'.hist == w.hist
  {
    assert Conflicts(w, t, rid, requireDeleted) ==> w.txns[t].state == Running;
  }

  /** After its own edit a transaction sees the target there, and everything else as before. */
  lemma OwnEdit(w: World, t: TxnId, rid: Rid, target: Option<Row>, requireDeleted: bool, other: Rid)
    requires Inv(w) && Enabled(w, Modify(t, rid, target, requireDeleted)) && !Conflicts(w, t, rid, requireDeleted)
    requires other in w.heap
    ensures var w' := Next(w, Modify(t, rid, target, requireDeleted));
      && other in w'.heap && t in w'.txns
      && Visible(ReadBy(w', t, other)) == if other == rid then target else Visible(ReadBy(w, t, other))
  {
    EditEffect(w, t, rid, target, requireDeleted);
    if other != rid {
      assert TxnOk(w, t);
      EditElsewhere(w, t, rid, target, requireDeleted, other);
      StepInv(w, Modify(t, rid, target, requireDeleted));
      SameSlotSameView(w, Next(w, Modify(t, rid, target, requireDeleted)), t, other);
    }
  }

  /** Where `InsertTupleMvcc` may write over a deleted row, the transaction saw nothing. */
  lemma DeletedUnseen(w: World, t: TxnId, rid: Rid)
    requires t in w.txns && rid in w.heap && !Conflicts(w, t, rid, true)
    ensures Visible(ReadBy(w, t, rid)) == None
  {
  }

  lemma OwnInsert(w: World, t: TxnId, rid: Rid, row: Row, other: Rid)
    requires Inv(w) && Enabled(w, Insert(t, rid, row)) && other in w.heap
    ensures var w' := Next(w, Insert(t, rid, row));
      && other in w'.heap && rid in w'.heap && t in w'.txns
      && Visible(ReadBy(w', t, other)) == Visible(ReadBy(w, t, other)) && Visible(ReadBy(w', t, rid)) == Some(row)
  {
    assert TxnOk(w, t);
    InsertElsewhere(w, t, rid, row, other);
    StepInv(w, Insert(t, rid, row));
    SameSlotSameView(w, Next(w, Insert(t, rid, row)), t, other);
  }

  lemma InsertElsewhere(w: World, t: TxnId, rid: Rid, row: Row, other: Rid)
    requires Shape(w) && Enabled(w, Insert(t, rid, row)) && other in w.heap && 0 <= w.txns[t].readTs <= w.last
    ensures var w' := Next(w, Insert(t, rid, row));
      && t in w'.txns && w'.txns[t].readTs == w.txns[t].readTs && Live(w'.txns[t]) == Live(w.txns[t])
      && other in w'.heap && w'.heap[other] == w.heap[other]
      && SnapshotOf(w', other, w.txns[t].readTs) == SnapshotOf(w, other, w.txns[t].readTs)
      && rid in w'.heap && Visible(ReadBy(w', t, rid)) == Some(row)
  {
  }

  /** Nothing another transaction does changes what `t` sees. */
  lemma OthersKeepView(w: World, step: Step, t: TxnId, rid: Rid)
    requires Inv(w) && Enabled(w, step) && !StepOf(step, t) && t in w.txns && Live(w.txns[t]) && rid in w.heap
    ensures var w' := Next(w, step);
      t in w'.txns && Live(w'.txns[t]) && rid in w'.heap && Visible(ReadBy(w', t, rid)) == Visible(ReadBy(w, t, rid))
  {
    if step.AbortRow? && step.rid == rid {
      AbortedRow(w, step.t, rid);
    }
    OthersKeepOwn(w, step, t, rid);
    StepInv(w, step);
    assert TxnOk(w, t);
    SnapshotRead(w, t, rid);
    SnapshotRead(Next(w, step), t, rid);
    StepKeepsSnapshots(w, step, rid, w.txns[t].readTs);
  }

  /** A slot that another transaction has just created shows `t` nothing. */
  lemma FreshUnseen(w: World, step: Step, t: TxnId)
    requires Inv(w) && Enabled(w, step) && step.Insert? && step.t != t && t in w.txns && Live(w.txns[t])
    ensures var w' := Next(w, step);
      t in w'.txns && step.rid in w'.heap && Visible(ReadBy(w', t, step.rid)) == None
  {
    assert TxnOk(w, t);
    StepInv(w, step);
    SnapshotRead(Next(w, step), t, step.rid);
  }

  // ----- the whole table ----------------------------------------------------------------------------------------

  /** What one slot shows, read off the engine. */
  ghost predicate Shows(w: World, t: TxnId, rid: Rid, row: Option<Row>)
    requires t in w.txns
  {
    (if rid in w.heap then Visible(ReadBy(w, t, rid)) else None) == row
  }

  lemma OwnEditSlot(w: World, t: TxnId, rid: Rid, target: Option<Row>, requireDeleted: bool, other: Rid,
    row: Option<Row>)
    requires Inv(w) && Enabled(w, Modify(t, rid, target, requireDeleted)) && !Conflicts(w, t, rid, requireDeleted)
    requires Shows(w, t, other, row)
    ensures var w' := Next(w, Modify(t, rid, target, requireDeleted));
      t in w'.txns && Shows(w', t, other, if other == rid then target else row)
  {
    if other in w.heap {
      OwnEdit(w, t, rid, target, requireDeleted, other);
    } else {
      HeapGrows(w, Modify(t, rid, target, requireDeleted));
      EditEffect(w, t, rid, target, requireDeleted);
    }
  }

  lemma OwnEditView(p: Pk, t: TxnId, rid: Rid, target: Option<Row>, requireDeleted: bool, n: nat, p': Pk)
    requires Inv(p.w) && Enabled(p.w, Modify(t, rid, target, requireDeleted)) && !Conflicts(p.w, t, rid, requireDeleted)
    requires rid.table == p.info.table && rid.slot < n
    requires p'.info == p.info && p'.w == Next(p.w, Modify(t, rid, target, requireDeleted))
    ensures t in p'.w.txns && View(p', t, n) == View(p, t, n)[rid.slot := target]
  {
    OwnEditAt(p, t, rid, target, requireDeleted, rid.slot, p');
    forall i | 0 <= i < n
      ensures SlotView(p', t, i) == if i == rid.slot then target else SlotView(p, t, i)
    {
      OwnEditAt(p, t, rid, target, requireDeleted, i, p');
    }
    ViewEdited(p, p', t, n, rid.slot, target);
  }

  lemma ViewEdited(p: Pk, p': Pk, t: TxnId, n: nat, slot: nat, target: Option<Row>)
    requires t in p.w.txns && t in p'.w.txns && slot < n
    requires forall i :: 0 <= i < n ==> SlotView(p', t, i) == if i == slot then target else SlotView(p, t, i)
    ensures View(p', t, n) == View(p, t, n)[slot := target]
  {
  }

  lemma OwnEditAt(p: Pk, t: TxnId, rid: Rid, target: Option<Row>, requireDeleted: bool, i: nat, p': Pk)
    requires Inv(p.w) && Enabled(p.w, Modify(t, rid, target, requireDeleted)) && !Conflicts(p.w, t, rid, requireDeleted)
    requires rid.table == p.info.table
    requires p'.info == p.info && p'.w == Next(p.w, Modify(t, rid, target, requireDeleted))
    ensures t in p'.w.txns && SlotView(p', t, i) == if i == rid.slot then target else SlotView(p, t, i)
  {
    OwnEditSlot(p.w, t, rid, target, requireDeleted, Rid(p.info.table, i), SlotView(p, t, i));
  }

  lemma ViewIs(p: Pk, t: TxnId, view: seq<Option<Row>>)
    requires t in p.w.txns && forall i :: 0 <= i < |view| ==> Shows(p.w, t, Rid(p.info.table, i), view[i])
    ensures View(p, t, |view|) == view
  {
    forall i | 0 <= i < |view|
      ensures SlotView(p, t, i) == view[i]
    {
      assert Shows(p.w, t, Rid(p.info.table, i), view[i]);
    }
  }

  lemma OwnInsertSlot(w: World, t: TxnId, rid: Rid, row: Row, other: Rid, seen: Option<Row>)
    requires Inv(w) && Enabled(w, Insert(t, rid, row)) && Shows(w, t, other, seen)
    ensures var w' := Next(w, Insert(t, rid, row));
      t in w'.txns && Shows(w', t, other, if other == rid then Some(row) else seen)
  {
    if other in w.heap {
      OwnInsert(w, t, rid, row, other);
    }
  }

  lemma OwnInsertView(p: Pk, t: TxnId, rid: Rid, row: Row, p': Pk)
    requires Inv(p.w) && Enabled(p.w, Insert(t, rid, row)) && rid.table == p.info.table
    requires p'.info == p.info && p'.w == Next(p.w, Insert(t, rid, row))
    ensures t in p'.w.txns && View(p', t, rid.slot + 1) == View(p, t, rid.slot) + [Some(row)]
  {
    var view := View(p, t, rid.slot) + [Some(row)];
    OwnInsertSlot(p.w, t, rid, row, rid, SlotView(p, t, rid.slot));
    forall i | 0 <= i < |view|
      ensures Shows(p'.w, t, Rid(p.info.table, i), view[i])
    {
      OwnInsertSlot(p.w, t, rid, row, Rid(p.info.table, i), SlotView(p, t, i));
    }
    ViewIs(p', t, view);
  }

  /** Not a step of `t`'s thread. */
  predicate StepOfOther(step: PkStep, t: TxnId) {
    match step
    case Plain(s) => !StepOf(s, t)
    case _ => step.t != t
  }

  lemma OthersKeepSlot(w: World, step: Step, t: TxnId, rid: Rid, row: Option<Row>)
    requires Inv(w) && Enabled(w, step) && !StepOf(step, t) && t in w.txns && Live(w.txns[t]) && Shows(w, t, rid, row)
    ensures t in Next(w, step).txns && Shows(Next(w, step), t, rid, row)
  {
    if rid in w.heap {
      OthersKeepView(w, step, t, rid);
    } else {
      LiveStays(w, step, t);
      HeapGrows(w, step);
      if rid in Next(w, step).heap {
        FreshUnseen(w, step, t);
      }
    }
  }

  lemma OthersKeepTable(p: Pk, step: PkStep, t: TxnId, n: nat)
    requires PkInv(p) && PkEnabled(p, step) && StepOfOther(step, t) && t in p.w.txns && Live(p.w.txns[t])
    ensures var p' := PkNext(p, step);
      t in p'.w.txns && Live(p'.w.txns[t]) && View(p', t, n) == View(p, t, n)
  {
    if Base(p, step).Some? {
      OthersKeepViews(p, PkNext(p, step), Base(p, step).value, t, n);
    } else {
      SameWorldSameView(p, PkNext(p, step), t, n);
    }
  }

  lemma SameWorldSameView(p: Pk, p': Pk, t: TxnId, n: nat)
    requires p'.info == p.info && p'.w == p.w && t in p.w.txns
    ensures View(p', t, n) == View(p, t, n)
  {
    forall i | 0 <= i < n
      ensures SlotView(p', t, i) == SlotView(p, t, i)
    {
    }
  }

  lemma OthersKeepViews(p: Pk, p': Pk, s: Step, t: TxnId, n: nat)
    requires Inv(p.w) && Enabled(p.w, s) && !StepOf(s, t) && t in p.w.txns && Live(p.w.txns[t])
    requires p'.info == p.info && p'.w == Next(p.w, s)
    ensures t in p'.w.txns && Live(p'.w.txns[t]) && View(p', t, n) == View(p, t, n)
  {
    LiveStays(p.w, s, t);
    forall i | 0 <= i < n
      ensures Shows(p'.w, t, Rid(p.info.table, i), View(p, t, n)[i])
    {
      OthersKeepSlot(p.w, s, t, Rid(p.info.table, i), SlotView(p, t, i));
    }
    ViewIs(p', t, View(p, t, n));
  }

  lemma LiveStays(w: World, step: Step, t: TxnId)
    requires Books(w) && Enabled(w, step) && !StepOf(step, t) && t in w.txns && Live(w.txns[t])
    ensures t in Next(w, step).txns && Next(w, step).txns[t] == w.txns[t]
  {
    assert TxnOk(w, t);
    if step.Collect? {
      LiveKept(w, t);
    }
  }

  predicate OnlyOthers(steps: seq<PkStep>, t: TxnId) {
    forall k :: 0 <= k < |steps| ==> StepOfOther(steps[k], t)
  }

  /** Whatever other transactions do between two of its own steps, a transaction sees the same table. */
  lemma {:induction false} RunKeepsView(p: Pk, steps: seq<PkStep>, t: TxnId, n: nat)
    requires PkInv(p) && IsPkRun(p, steps) && OnlyOthers(steps, t) && t in p.w.txns && Live(p.w.txns[t])
    ensures var p' := PkAfter(p, steps);
      t in p'.w.txns && Live(p'.w.txns[t]) && View(p', t, n) == View(p, t, n)
    decreases |steps|
  {
    if steps != [] {
      OthersKeepTable(p, steps[0], t, n);
      PkStepInv(p, steps[0]);
      RunKeepsView(PkNext(p, steps[0]), steps[1..], t, n);
    }
  }

  // ----- the rows of a view -------------------------------------------------------------------------------------

  function Rows(o: Option<Row>): seq<Row> {
    if o.Some? then [o.value] else []
  }

  /** The rows in sight, in heap order. */
  function Present(view: seq<Option<Row>>): seq<Row> {
    FlatMap(Rows, view)
  }

  /** A sequential scan without a filter returns them. */
  lemma {:induction false} ScanIsPresent(view: seq<Option<Row>>)
    ensures SeqScanRows(view, None) == Present(view)
  {
    PrefixScan(view, |view|);
    assert view[..|view|] == view;
  }

  lemma {:induction false} PrefixScan(view: seq<Option<Row>>, n: nat)
    requires n <= |view|
    ensures FlatMap(Scanning(view, None), UpTo(n)) == Present(view[..n])
  {
    if n > 0 {
      PrefixScan(view, n - 1);
      assert UpTo(n) == UpTo(n - 1) + [n - 1];
      FlatMapAppend<nat, Row>(Scanning(view, None), UpTo(n - 1), [n - 1]);
      FlatMapSingle<nat, Row>(Scanning(view, None), n - 1);
      assert view[..n] == view[..n - 1] + [view[n - 1]];
      FlatMapAppend(Rows, view[..n - 1], [view[n - 1]]);
      FlatMapSingle(Rows, view[n - 1]);
    }
  }

  /** Replacing what is at one slot trades one row for another. */
  lemma PresentUpdate(view: seq<Option<Row>>, i: nat, o: Option<Row>)
    requires i < |view|
    ensures multiset(Present(view[i := o])) + multiset(Rows(view[i])) == multiset(Present(view)) + multiset(Rows(o))
  {
    FlatMapRemove(Rows, view, i);
    FlatMapRemove(Rows, view[i := o], i);
    assert view[i := o][..i] + view[i := o][i + 1..] == view[..i] + view[i + 1..];
  }
}
