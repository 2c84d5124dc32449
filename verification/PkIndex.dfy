/**
 * A table with a primary-key index over the transaction engine. The index only grows: an entry leads to the slot
 * that all versions of its key live in. Inserting takes two steps, one in the heap and one in the index.
 */
module PkIndex {
  import opened Sql
  import opened Chain
  import opened Mvcc
  import opened MvccCore
  import opened MvccFinish
  import opened MvccSerial
  import opened MvccRuns
  import opened MvccTheorems

  /** The indexed table, how wide its rows are and which column is the key. */
  datatype TableInfo = TableInfo(table: nat, width: nat, col: nat)

  /** `pending` is the fresh slot of each transaction that is between the heap and the index. */
  datatype Pk = Pk(info: TableInfo, w: World, index: map<Value, Rid>, pending: map<TxnId, Rid>)

  function Key(info: TableInfo, row: Row): Value {
    GetColumn(row, info.col)
  }

  datatype PkStep =
    | Plain(step: Step)
    | Delete(t: TxnId, rid: Rid)
    | UpdateInPlace(t: TxnId, rid: Rid, row: Row)
    | InsertOver(t: TxnId, rid: Rid, row: Row)
    | InsertNew(t: TxnId, rid: Rid, row: Row)
    | AddEntry(t: TxnId)

  predicate TouchesTable(step: Step, table: nat) {
    (step.Modify? || step.Insert?) && step.rid.table == table
  }

  ghost predicate Sees(p: Pk, t: TxnId, rid: Rid) {
    t in p.w.txns && rid in p.w.heap && Visible(ReadBy(p.w, t, rid)).Some?
  }

  ghost function RowSeen(p: Pk, t: TxnId, rid: Rid): Row
    requires Sees(p, t, rid)
  {
    Visible(ReadBy(p.w, t, rid)).value
  }

  /** The index already has the key of the pending row. */
  predicate Duplicate(p: Pk, t: TxnId)
    requires t in p.pending && p.pending[t] in p.w.heap
  {
    Key(p.info, p.w.heap[p.pending[t]].row) in p.index
  }

  /** The step of the engine behind a step here; none when only the index changes. */
  ghost function Base(p: Pk, step: PkStep): Option<Step>
    requires step.AddEntry? ==> step.t in p.pending && p.pending[step.t] in p.w.heap
  {
    match step
    case Plain(s) => Some(s)
    case Delete(t, rid) => Some(Modify(t, rid, None, false))
    case UpdateInPlace(t, rid, row) => Some(Modify(t, rid, Some(row), false))
    case InsertOver(t, rid, row) => Some(Modify(t, rid, Some(row), true))
    case InsertNew(t, rid, row) => Some(Insert(t, rid, row))
    // a duplicate key taints the transaction, as requiring its own live row to be deleted would
    case AddEntry(t) => if Duplicate(p, t) then Some(Modify(t, p.pending[t], None, true)) else None
  }

  ghost predicate Allowed(p: Pk, step: PkStep) {
    match step
    case Plain(s) => !TouchesTable(s, p.info.table) && forall t :: StepOf(s, t) ==> t !in p.pending
    // executors delete and update rows their child has just shown them
    case Delete(t, rid) => t !in p.pending && rid.table == p.info.table && Sees(p, t, rid)
    case UpdateInPlace(t, rid, row) =>
      && t !in p.pending && rid.table == p.info.table && |row| == p.info.width
      && Sees(p, t, rid) && Key(p.info, RowSeen(p, t, rid)) == Key(p.info, row)
    case InsertOver(t, rid, row) =>
      && t !in p.pending && |row| == p.info.width
      && Key(p.info, row) in p.index && p.index[Key(p.info, row)] == rid
    case InsertNew(t, rid, row) => t !in p.pending && rid.table == p.info.table && |row| == p.info.width
    case AddEntry(t) => t in p.pending && p.pending[t] in p.w.heap
  }

  ghost predicate PkEnabled(p: Pk, step: PkStep) {
    && p.w.undo.Keys == p.w.txns.Keys
    && Allowed(p, step)
    && (Base(p, step).Some? ==> Enabled(p.w, Base(p, step).value))
  }

  ghost function PkNext(p: Pk, step: PkStep): Pk
    requires PkEnabled(p, step)
  {
    var w := if Base(p, step).Some? then Next(p.w, Base(p, step).value) else p.w;
    match step
    case InsertNew(t, rid, _) => p.(w := w, pending := p.pending[t := rid])
    case AddEntry(t) =>
      p.(w := w,
         pending := p.pending - {t},
         index := if Duplicate(p, t) then p.index else p.index[Key(p.info, p.w.heap[p.pending[t]].row) := p.pending[t]])
    case _ => p.(w := w)
  }

  // ----- what every step keeps -----------------------------------------------------------------------------

  /** A row at an indexed slot carries the key that leads there. */
  ghost predicate KeyFits(p: Pk, rid: Rid, row: Option<Row>) {
    row.Some? ==>
      && |row.value| == p.info.width
      && (rid in p.index.Values ==> Key(p.info, row.value) in p.index && p.index[Key(p.info, row.value)] == rid)
  }

  /** The owner of a row without an index entry: still inserting it, or bound to abort. */
  ghost predicate Doomed(p: Pk, t: TxnId, rid: Rid) {
    t in p.w.txns
    && ((t in p.pending && p.pending[t] == rid) || p.w.txns[t].state == Tainted || p.w.txns[t].phase.Aborting?)
  }

  /** A slot without an index entry never had a committed row, and never will. */
  ghost predicate Unborn(p: Pk, rid: Rid)
    requires rid in p.w.heap && rid in p.w.hist
  {
    && (forall k :: 0 <= k < |p.w.hist[rid]| ==> p.w.hist[rid][k].row == None)
    && (if p.w.heap[rid].ts <= p.w.last then p.w.heap[rid].deleted else Doomed(p, p.w.heap[rid].ts, rid))
  }

  ghost predicate RowOk(p: Pk, rid: Rid)
    requires rid in p.w.heap && rid in p.w.hist
  {
    && |p.w.heap[rid].row| == p.info.width
    && KeyFits(p, rid, Content(p.w.heap[rid]))
    && (forall k :: 0 <= k < |p.w.hist[rid]| ==> KeyFits(p, rid, p.w.hist[rid][k].row))
    && (rid !in p.index.Values ==> Unborn(p, rid))
  }

  /** Entries lead to slots of the table, different keys to different slots. */
  ghost predicate IndexOk(p: Pk) {
    && (forall k :: k in p.index ==> p.index[k] in p.w.heap && p.index[k].table == p.info.table)
    && (forall a, b :: a in p.index && b in p.index && p.index[a] == p.index[b] ==> a == b)
  }

  ghost predicate PendingOk(p: Pk, t: TxnId)
    requires t in p.pending
  {
    var rid := p.pending[t];
    && IsActive(p.w, t) && rid.table == p.info.table && rid !in p.index.Values
    && rid in p.w.heap && p.w.heap[rid].ts == t && !p.w.heap[rid].deleted
  }

  /** Index, insertions under way and rows are in step. */
  ghost predicate TableOk(p: Pk) {
    && p.w.hist.Keys == p.w.heap.Keys
    && IndexOk(p)
    && (forall t :: t in p.pending ==> PendingOk(p, t))
    && (forall rid :: rid in p.w.heap && rid.table == p.info.table ==> RowOk(p, rid))
  }

  ghost predicate PkInv(p: Pk) {
    Inv(p.w) && TableOk(p)
  }

  // ----- what a step of the engine does to one row ----------------------------------------------------------

  lemma UntouchedRow(w: World, step: Step, rid: Rid)
    requires w.undo.Keys == w.txns.Keys && w.hist.Keys == w.heap.Keys && Enabled(w, step) && rid in w.heap
      && !step.Publish?
    requires !((step.Modify? || step.AbortRow?) && step.rid == rid)
    ensures var w' := Next(w, step);
      && rid in w'.heap && rid in w'.hist
      && Content(w'.heap[rid]) == Content(w.heap[rid]) && w'.heap[rid].row == w.heap[rid].row
      && w'.hist[rid] == w.hist[rid]
  {
  }

  lemma AbortedRow(w: World, t: TxnId, rid: Rid)
    requires Core(w) && Enabled(w, AbortRow(t, rid))
    ensures var w' := Next(w, AbortRow(t, rid));
      && w'.hist == w.hist && w'.last == w.last && w'.heap.Keys == w.heap.Keys
      && Content(w'.heap[rid]) == Last(w.hist[rid]).row && w'.heap[rid].ts <= w.last
      && |w'.heap[rid].row| == |w.heap[rid].row|
  {
    AbortRowOwned(w, t, rid);
    RevertedSlot(w, t, rid);
  }

  /** Away from an edit, a row keeps its content or gets its last committed one back; histories grow by its content. */
  lemma RowEffect(w: World, step: Step, rid: Rid)
    requires Core(w) && Enabled(w, step) && rid in w.heap && !(step.Modify? && step.rid == rid)
    ensures var w' := Next(w, step);
      && rid in w'.heap && rid in w'.hist && rid in w.hist && |w'.heap[rid].row| == |w.heap[rid].row|
      && (Content(w'.heap[rid]) == Content(w.heap[rid]) || Content(w'.heap[rid]) == Last(w.hist[rid]).row)
      && (w'.hist[rid] == w.hist[rid] ||
          (|w'.hist[rid]| == |w.hist[rid]| + 1 && w.hist[rid] <= w'.hist[rid]
            && Last(w'.hist[rid]).row == Content(w.heap[rid])))
  {
    if step.AbortRow? && step.rid == rid {
      AbortedRow(w, step.t, rid);
    } else if step.Publish? {
      PublishedVersion(w, step.t, rid);
    } else {
      UntouchedRow(w, step, rid);
    }
  }

  /** An edit puts its target in place, or taints the transaction. */
  lemma EditEffect(w: World, t: TxnId, rid: Rid, target: Option<Row>, requireDeleted: bool)
    requires Shape(w) && Enabled(w, Modify(t, rid, target, requireDeleted))
    ensures var w' := Next(w, Modify(t, rid, target, requireDeleted));
      && w'.hist == w.hist && w'.last == w.last && w'.heap.Keys == w.heap.Keys
      && (if Conflicts(w, t, rid, requireDeleted) then
            w'.heap == w.heap && w'.txns == w.txns[t := w.txns[t].(state := Tainted)]
          else
            && Content(w'.heap[rid]) == target && w'.heap[rid].ts == t && |w'.heap[rid].row| == |w.heap[rid].row|
            && w'.txns == w.txns[t := w.txns[t].(writes := w.txns[t].writes + {rid})])
  {
  }

  // ----- unborn rows ----------------------------------------------------------------------------------------

  /** Nobody but its owner ever sees an unborn row. */
  lemma UnbornUnseen(p: Pk, t: TxnId, rid: Rid)
    requires Inv(p.w) && rid in p.w.heap && rid in p.w.hist && Unborn(p, rid)
    requires t in p.w.txns && Live(p.w.txns[t]) && p.w.heap[rid].ts != t
    ensures Visible(ReadBy(p.w, t, rid)) == None
  {
    SnapshotRead(p.w, t, rid);
    AsOfNone(p.w.hist[rid], p.w.txns[t].readTs);
  }

  lemma {:induction false} AsOfNone(h: History, r: int)
    requires forall k :: 0 <= k < |h| ==> h[k].row == None
    ensures AsOf(h, r) == None
    decreases |h|
  {
    if |h| > 1 {
      AsOfNone(h[..|h| - 1], r);
    }
  }

  lemma {:induction false} AsOfFits(p: Pk, rid: Rid, h: History, r: int)
    requires forall k :: 0 <= k < |h| ==> KeyFits(p, rid, h[k].row)
    ensures KeyFits(p, rid, AsOf(h, r))
    decreases |h|
  {
    if |h| > 1 {
      AsOfFits(p, rid, h[..|h| - 1], r);
    }
  }

  /** What a live transaction sees fits. */
  lemma SeenFits(p: Pk, t: TxnId, rid: Rid)
    requires Inv(p.w) && rid in p.w.heap && rid in p.w.hist && RowOk(p, rid) && t in p.w.txns && Live(p.w.txns[t])
    ensures KeyFits(p, rid, Visible(ReadBy(p.w, t, rid)))
  {
    SnapshotRead(p.w, t, rid);
    AsOfFits(p, rid, p.w.hist[rid], p.w.txns[t].readTs);
  }

  ghost predicate NotPending(pending: map<TxnId, Rid>, step: Step) {
    forall t :: StepOf(step, t) ==> t !in pending
  }

  /** The owner of an unborn row cannot commit. */
  lemma DoomedStays(p: Pk, step: Step, rid: Rid)
    requires Shape(p.w) && Enabled(p.w, step) && NotPending(p.pending, step) && rid in p.w.heap
    requires var t := p.w.heap[rid].ts;
      && Doomed(p, t, rid) && TxnOk(p.w, t) && Owns(p.w.txns[t], t, rid, t, p.w.last)
      && (t in p.pending ==> PendingOk(p, t))
    requires !(step.AbortRow? && step.rid == rid)
    ensures Doomed(p.(w := Next(p.w, step)), p.w.heap[rid].ts, rid)
  {
    var t := p.w.heap[rid].ts;
    if step.Collect? {
      LiveKept(p.w, t);
    } else if StepOf(step, t) {
      DoomedOwnStep(p, step, rid, t);
    } else {
      OthersKeepRecord(p.w, step, t);
    }
  }

  lemma OthersKeepRecord(w: World, step: Step, t: TxnId)
    requires w.undo.Keys == w.txns.Keys && Enabled(w, step) && !StepOf(step, t) && t in w.txns && t < w.next
      && !step.Collect?
    ensures t in Next(w, step).txns && Next(w, step).txns[t] == w.txns[t]
  {
  }

  lemma DoomedOwnStep(p: Pk, step: Step, rid: Rid, t: TxnId)
    requires Shape(p.w) && Enabled(p.w, step) && StepOf(step, t) && t !in p.pending
    requires Doomed(p, t, rid) && TxnOk(p.w, t) && Owns(p.w.txns[t], t, rid, t, p.w.last)
    ensures Doomed(p.(w := Next(p.w, step)), t, rid)
  {
  }

  /** No step stamps, publishes or edits an unborn row: it stays as it is, or its owner takes it back. */
  lemma UnbornRow(p: Pk, step: Step, rid: Rid)
    requires Shape(p.w) && TxnsOk(p.w) && OwnsOk(p.w) && Enabled(p.w, step)
    requires rid in p.w.heap && rid in p.w.hist && Unborn(p, rid)
    requires NotPending(p.pending, step) && (forall t :: t in p.pending ==> PendingOk(p, t))
    requires !((step.Modify? || step.AbortRow?) && step.rid == rid)
    ensures var w' := Next(p.w, step);
      rid in w'.heap && rid in w'.hist && w'.heap[rid] == p.w.heap[rid] && w'.hist[rid] == p.w.hist[rid]
  {
    if step.StampRow? {
      UnbornNotStamped(p, step.t, rid);
    }
    if step.Publish? {
      UnbornNotPublished(p.w, step.t, rid, p.w.heap[rid].ts);
      PublishedVersion(p.w, step.t, rid);
    } else {
      RowAtRest(p.w, step, rid);
    }
  }

  lemma RowAtRest(w: World, step: Step, rid: Rid)
    requires w.undo.Keys == w.txns.Keys && w.hist.Keys == w.heap.Keys && Enabled(w, step) && rid in w.heap
    requires !step.Publish? && !((step.Modify? || step.AbortRow? || step.StampRow?) && step.rid == rid)
    ensures var w' := Next(w, step);
      rid in w'.heap && rid in w'.hist && w'.heap[rid] == w.heap[rid] && w'.hist[rid] == w.hist[rid]
  {
  }

  lemma UnbornNotStamped(p: Pk, t: TxnId, rid: Rid)
    requires Shape(p.w) && TxnsOk(p.w) && OwnsOk(p.w) && t in p.w.txns
    requires rid in p.w.heap && rid in p.w.hist && Unborn(p, rid)
    requires p.w.txns[t].phase.Stamping? && (t in p.pending ==> PendingOk(p, t))
    ensures rid !in p.w.txns[t].phase.todo
  {
    assert TxnOk(p.w, t) && Owns(p.w.txns[t], t, rid, p.w.heap[rid].ts, p.w.last);
  }

  /** The commit being published wrote only rows it has stamped. */
  lemma UnbornNotPublished(w: World, t: TxnId, rid: Rid, ts: int)
    requires OwnsOk(w) && Enabled(w, Publish(t)) && rid in w.heap && w.heap[rid].ts == ts && ts != w.last + 1
    ensures rid !in w.txns[t].writes
  {
    assert Owns(w.txns[t], t, rid, ts, w.last);
  }

  lemma UnbornStays(p: Pk, step: Step, rid: Rid)
    requires Core(p.w) && Enabled(p.w, step) && rid in p.w.heap && rid in p.w.hist && Unborn(p, rid)
    requires NotPending(p.pending, step) && (forall t :: t in p.pending ==> PendingOk(p, t))
    requires !(step.Modify? && step.rid == rid)
    ensures rid in Next(p.w, step).heap && rid in Next(p.w, step).hist && Unborn(p.(w := Next(p.w, step)), rid)
  {
    var ts := p.w.heap[rid].ts;
    if step.AbortRow? && step.rid == rid {
      AbortedRow(p.w, step.t, rid);
    } else {
      UnbornRow(p, step, rid);
      LastGrows(p.w, step);
      if ts > p.w.last { UnstampedStays(p, step, rid); }
    }
  }

  lemma UnstampedStays(p: Pk, step: Step, rid: Rid)
    requires Core(p.w) && Enabled(p.w, step) && NotPending(p.pending, step) && rid in p.w.heap
    requires p.w.heap[rid].ts > p.w.last && Doomed(p, p.w.heap[rid].ts, rid)
    requires (forall t :: t in p.pending ==> PendingOk(p, t)) && !(step.AbortRow? && step.rid == rid)
    ensures Doomed(p.(w := Next(p.w, step)), p.w.heap[rid].ts, rid) && p.w.heap[rid].ts > Next(p.w, step).last
  {
    var ts := p.w.heap[rid].ts;
    assert TxnOk(p.w, ts) && Owns(p.w.txns[ts], ts, rid, ts, p.w.last);
    DoomedStays(p, step, rid);
    LastSmall(p.w, step);
  }

  lemma LastSmall(w: World, step: Step)
    requires Books(w) && Enabled(w, step)
    ensures Next(w, step).last < TXN_START_ID
  {
    if step.Publish? { assert TxnOk(w, step.t); }
  }

  // ----- every step keeps the invariant ------------------------------------------------------------------------

  /** Rows that the engine's step does not edit. */
  lemma RowStays(p: Pk, step: Step, rid: Rid)
    requires Core(p.w) && Enabled(p.w, step) && rid in p.w.heap && rid in p.w.hist && RowOk(p, rid)
    requires NotPending(p.pending, step) && (forall t :: t in p.pending ==> PendingOk(p, t))
    requires !(step.Modify? && step.rid == rid)
    ensures rid in Next(p.w, step).heap && rid in Next(p.w, step).hist && RowOk(p.(w := Next(p.w, step)), rid)
  {
    RowEffect(p.w, step, rid);
    if rid !in p.index.Values {
      UnbornStays(p, step, rid);
    }
    StillOk(p, p.(w := Next(p.w, step)), rid);
  }

  /** The row's parts are all in order after a step. */
  lemma StillOk(p: Pk, p': Pk, rid: Rid)
    requires p'.info == p.info && p'.index == p.index && rid in p.w.heap && rid in p.w.hist && RowOk(p, rid)
    requires rid in p'.w.heap && rid in p'.w.hist && |p'.w.heap[rid].row| == |p.w.heap[rid].row|
    requires Content(p'.w.heap[rid]) == Content(p.w.heap[rid]) || Content(p'.w.heap[rid]) == Last(p.w.hist[rid]).row
    requires p'.w.hist[rid] == p.w.hist[rid] ||
      (|p'.w.hist[rid]| == |p.w.hist[rid]| + 1 && p.w.hist[rid] <= p'.w.hist[rid]
        && Last(p'.w.hist[rid]).row == Content(p.w.heap[rid]))
    requires rid !in p.index.Values ==> Unborn(p', rid)
    ensures RowOk(p', rid)
  {
    GrownFits(p, rid, p.w.hist[rid], p'.w.hist[rid], Content(p.w.heap[rid]));
  }

  lemma GrownFits(p: Pk, rid: Rid, h: History, h': History, row: Option<Row>)
    requires h' == h || (|h'| == |h| + 1 && h <= h' && Last(h').row == row)
    requires KeyFits(p, rid, row) && forall k :: 0 <= k < |h| ==> KeyFits(p, rid, h[k].row)
    ensures forall k :: 0 <= k < |h'| ==> KeyFits(p, rid, h'[k].row)
  {
    forall k | 0 <= k < |h'|
      ensures KeyFits(p, rid, h'[k].row)
    {
      assert k < |h| ==> h'[k] == h[k];
    }
  }

  /** Other transactions leave a live transaction where it is, and its own rows alone. */
  lemma OthersKeepOwn(w: World, step: Step, t: TxnId, rid: Rid)
    requires Shape(w) && TxnsOk(w) && OwnsOk(w) && Enabled(w, step)
    requires !StepOf(step, t) && t in w.txns && Live(w.txns[t]) && rid in w.heap
    requires step.AbortRow? && step.rid == rid ==> Next(w, step).heap[rid].ts <= w.last
    ensures var w' := Next(w, step);
      && t in w'.txns && w'.txns[t] == w.txns[t] && rid in w'.heap
      && (w'.heap[rid].ts == t <==> w.heap[rid].ts == t)
      && (w.heap[rid].ts == t ==> w'.heap[rid] == w.heap[rid])
  {
    assert TxnOk(w, t) && Owns(w.txns[t], t, rid, w.heap[rid].ts, w.last);
    if step.Collect? {
      LiveKept(w, t);
    } else if !step.Begin? && step.t in w.txns {
      assert TxnOk(w, step.t) && Owns(w.txns[step.t], step.t, rid, w.heap[rid].ts, w.last);
    }
  }

  lemma PendingStays(p: Pk, step: Step, t: TxnId)
    requires Books(p.w) && Enabled(p.w, step) && t in p.pending && PendingOk(p, t) && !StepOf(step, t)
    ensures PendingOk(p.(w := Next(p.w, step)), t)
  {
    var rid := p.pending[t];
    assert TxnOk(p.w, t);
    if step.AbortRow? && step.rid == rid {
      AbortRowOwned(p.w, step.t, rid);
    }
    OthersKeepOwn(p.w, step, t, rid);
  }

  lemma HeapGrows(w: World, step: Step)
    requires w.undo.Keys == w.txns.Keys && Enabled(w, step)
    ensures w.heap.Keys <= Next(w, step).heap.Keys
    ensures forall rid :: rid in Next(w, step).heap && rid !in w.heap ==> step.Insert? && rid == step.rid
  {
  }

  lemma RowsStay(p: Pk, step: Step)
    requires Core(p.w) && Enabled(p.w, step) && TableOk(p) && NotPending(p.pending, step)
    ensures forall rid :: rid in p.w.heap && rid.table == p.info.table && !(step.Modify? && step.rid == rid) ==>
      rid in Next(p.w, step).heap && rid in Next(p.w, step).hist && RowOk(p.(w := Next(p.w, step)), rid)
  {
    forall rid | rid in p.w.heap && rid.table == p.info.table && !(step.Modify? && step.rid == rid)
      ensures rid in Next(p.w, step).heap && rid in Next(p.w, step).hist && RowOk(p.(w := Next(p.w, step)), rid)
    {
      RowStays(p, step, rid);
    }
  }

  /** A step of the engine that edits no row of the table. */
  lemma PlainInv(p: Pk, step: Step)
    requires PkInv(p) && PkEnabled(p, Plain(step))
    ensures PkInv(PkNext(p, Plain(step)))
  {
    StepInv(p.w, step);
    HeapGrows(p.w, step);
    assert NotPending(p.pending, step);
    RowsStay(p, step);
    PendingAllStay(p, step);
  }

  lemma PendingAllStay(p: Pk, step: Step)
    requires Books(p.w) && Enabled(p.w, step) && NotPending(p.pending, step)
    requires forall t :: t in p.pending ==> PendingOk(p, t)
    ensures forall t :: t in p.pending ==> PendingOk(p.(w := Next(p.w, step)), t)
  {
    forall t | t in p.pending
      ensures PendingOk(p.(w := Next(p.w, step)), t)
    {
      PendingStays(p, step, t);
    }
  }

  /** Only its doomed owner can edit an unborn row. */
  lemma EditedUnborn(p: Pk, t: TxnId, rid: Rid, target: Option<Row>, requireDeleted: bool)
    requires Inv(p.w) && Enabled(p.w, Modify(t, rid, target, requireDeleted)) && t !in p.pending
    requires rid in p.w.hist && Unborn(p, rid) && Sees(p, t, rid)
    ensures Unborn(p.(w := Next(p.w, Modify(t, rid, target, requireDeleted))), rid)
  {
    assert TxnOk(p.w, t);
    if p.w.heap[rid].ts != t {
      UnbornUnseen(p, t, rid);
    }
    EditEffect(p.w, t, rid, target, requireDeleted);
  }

  /** The edited row itself. */
  lemma EditedRow(p: Pk, t: TxnId, rid: Rid, target: Option<Row>, requireDeleted: bool)
    requires Shape(p.w) && Enabled(p.w, Modify(t, rid, target, requireDeleted))
    requires rid in p.w.hist && RowOk(p, rid) && KeyFits(p, rid, target)
    requires rid !in p.index.Values ==> Unborn(p.(w := Next(p.w, Modify(t, rid, target, requireDeleted))), rid)
    ensures RowOk(p.(w := Next(p.w, Modify(t, rid, target, requireDeleted))), rid)
  {
    EditEffect(p.w, t, rid, target, requireDeleted);
  }

  lemma EditInv(p: Pk, t: TxnId, rid: Rid, target: Option<Row>, requireDeleted: bool)
    requires PkInv(p) && Enabled(p.w, Modify(t, rid, target, requireDeleted)) && t !in p.pending
    requires rid.table == p.info.table && KeyFits(p, rid, target) && (rid !in p.index.Values ==> Sees(p, t, rid))
    ensures PkInv(p.(w := Next(p.w, Modify(t, rid, target, requireDeleted))))
  {
    var step := Modify(t, rid, target, requireDeleted);
    StepInv(p.w, step);
    HeapGrows(p.w, step);
    if rid !in p.index.Values {
      EditedUnborn(p, t, rid, target, requireDeleted);
    }
    EditedRow(p, t, rid, target, requireDeleted);
    RowsStay(p, step);
    PendingAllStay(p, step);
  }

  lemma InsertNewInv(p: Pk, t: TxnId, rid: Rid, row: Row)
    requires PkInv(p) && PkEnabled(p, InsertNew(t, rid, row))
    ensures PkInv(PkNext(p, InsertNew(t, rid, row)))
  {
    StepInv(p.w, Insert(t, rid, row));
    InsertNewTable(p, t, rid, row);
  }

  lemma InsertNewTable(p: Pk, t: TxnId, rid: Rid, row: Row)
    requires Core(p.w) && TableOk(p) && PkEnabled(p, InsertNew(t, rid, row))
    ensures TableOk(PkNext(p, InsertNew(t, rid, row)))
  {
    var step := Insert(t, rid, row);
    PendingAllStay(p, step);
    RowsStay(p, step);
    InsertedTable(p, p.(w := Next(p.w, step)), t, rid, row);
  }

  /** The table with the fresh slot in it. */
  lemma InsertedTable(p: Pk, p1: Pk, t: TxnId, rid: Rid, row: Row)
    requires IndexOk(p) && t in p.w.txns && IsActive(p.w, t) && rid !in p.w.heap && t !in p.pending
    requires p1 == p.(w := DoInsert(p.w, t, rid, row)) && p1.w.hist.Keys == p1.w.heap.Keys && t > p.w.last
    requires forall o :: o in p.pending ==> PendingOk(p1, o)
    requires forall other :: other in p.w.heap && other.table == p.info.table ==>
               other in p1.w.heap && other in p1.w.hist && RowOk(p1, other)
    requires rid.table == p.info.table && |row| == p.info.width
    ensures TableOk(p1.(pending := p.pending[t := rid]))
  {
    var p2 := p1.(pending := p.pending[t := rid]);
    forall other | other in p.w.heap && other.table == p.info.table
      ensures RowOk(p2, other)
    {
      MorePending(p1, p2, other);
    }
    assert rid !in p.index.Values;
    assert RowOk(p2, rid);
    forall o | o in p.pending
      ensures PendingOk(p2, o)
    {
      assert PendingOk(p1, o);
    }
  }

  /** A transaction that starts inserting changes nothing for rows it does not insert. */
  lemma MorePending(p: Pk, p': Pk, rid: Rid)
    requires rid in p.w.heap && rid in p.w.hist && RowOk(p, rid)
    requires p'.info == p.info && p'.w == p.w && p'.index == p.index
    requires forall t :: t in p.pending ==> t in p'.pending && p'.pending[t] == p.pending[t]
    ensures RowOk(p', rid)
  {
  }

  lemma AddEntryTable(p: Pk, t: TxnId)
    requires TableOk(p) && PkEnabled(p, AddEntry(t)) && !Duplicate(p, t)
    ensures TableOk(PkNext(p, AddEntry(t)))
  {
    var p' := PkNext(p, AddEntry(t));
    var rid := p.pending[t];
    assert PendingOk(p, t);
    NewEntry(p.index, Key(p.info, p.w.heap[rid].row), rid);
    forall other | other in p.w.heap && other.table == p.info.table
      ensures RowOk(p', other)
    {
      EntryAdded(p, p', t, other);
    }
    forall o | o in p'.pending
      ensures PendingOk(p', o)
    {
      assert PendingOk(p, o);
    }
  }

  lemma NewEntry(index: map<Value, Rid>, key: Value, rid: Rid)
    requires key !in index
    ensures index[key := rid].Values == index.Values + {rid}
  {
    var index' := index[key := rid];
    assert index'[key] == rid;
    forall r | r in index.Values
      ensures r in index'.Values
    {
      var k :| k in index && index[k] == r;
      assert index'[k] == r;
    }
  }

  lemma EntryAdded(p: Pk, p': Pk, t: TxnId, rid: Rid)
    requires rid in p.w.heap && rid in p.w.hist && RowOk(p, rid) && t in p.pending && PendingOk(p, t)
      && !Duplicate(p, t)
    requires p'.info == p.info && p'.w == p.w && p'.pending == p.pending - {t}
    requires p'.index == p.index[Key(p.info, p.w.heap[p.pending[t]].row) := p.pending[t]]
    requires p'.index.Values == p.index.Values + {p.pending[t]}
    ensures RowOk(p', rid)
  {
    forall row: Option<Row> | KeyFits(p, rid, row) && rid != p.pending[t]
      ensures KeyFits(p', rid, row)
    {
    }
  }

  lemma DuplicateTable(p: Pk, t: TxnId)
    requires TableOk(p) && PkEnabled(p, AddEntry(t)) && Duplicate(p, t) && Shape(p.w)
    ensures TableOk(PkNext(p, AddEntry(t)))
  {
    assert PendingOk(p, t);
    EditEffect(p.w, t, p.pending[t], None, true);
    TaintedTable(p, PkNext(p, AddEntry(t)), t);
  }

  /** Giving up an insertion only taints the transaction. */
  lemma TaintedTable(p: Pk, p': Pk, t: TxnId)
    requires TableOk(p) && t in p.pending && PendingOk(p, t)
    requires p'.info == p.info && p'.index == p.index && p'.pending == p.pending - {t}
    requires p'.w == p.w.(txns := p.w.txns[t := p.w.txns[t].(state := Tainted)])
    ensures TableOk(p')
  {
    forall other | other in p.w.heap && other.table == p.info.table
      ensures RowOk(p', other)
    {
      assert RowOk(p, other);
    }
    forall o | o in p'.pending
      ensures PendingOk(p', o)
    {
      assert PendingOk(p, o);
    }
  }

  lemma UpdateInPlaceInv(p: Pk, t: TxnId, rid: Rid, row: Row)
    requires PkInv(p) && PkEnabled(p, UpdateInPlace(t, rid, row))
    ensures PkInv(PkNext(p, UpdateInPlace(t, rid, row)))
  {
    assert TxnOk(p.w, t) && RowOk(p, rid);
    SeenFits(p, t, rid);
    EditInv(p, t, rid, Some(row), false);
  }

  /** Every step keeps the invariant. */
  lemma PkStepInv(p: Pk, step: PkStep)
    requires PkInv(p) && PkEnabled(p, step)
    ensures PkInv(PkNext(p, step))
  {
    match step
    case Plain(s) => PlainInv(p, s);
    case Delete(t, rid) => EditInv(p, t, rid, None, false);
    case UpdateInPlace(t, rid, row) => UpdateInPlaceInv(p, t, rid, row);
    case InsertOver(t, rid, row) => EditInv(p, t, rid, Some(row), true);
    case InsertNew(t, rid, row) => InsertNewInv(p, t, rid, row);
    case AddEntry(t) =>
      if Duplicate(p, t) {
        StepInv(p.w, Modify(t, p.pending[t], None, true));
        DuplicateTable(p, t);
      } else {
        AddEntryTable(p, t);
      }
  }
}
