/** A table with its primary-key index as a program: inserting, deleting, updating and scanning rows. */
module IndexedTables {
  import opened Sql
  import opened Undo
  import opened Chain
  import opened Mvcc
  import opened MvccExact
  import opened TransactionManagers
  import opened PkIndex
  import opened PkTheorems
  import opened PkViews
  import opened Bags
  import opened Joins

  // ----- runs that lead to a state --------------------------------------------------------------------------

  ghost predicate PkReachable(p: Pk) {
    exists start, steps :: PkInit(start) && IsPkRun(start, steps) && PkAfter(start, steps) == p
  }

  lemma PkReachableInv(p: Pk)
    requires PkReachable(p)
    ensures PkInv(p)
  {
    var start, steps :| PkInit(start) && IsPkRun(start, steps) && PkAfter(start, steps) == p;
    PkInitInv(start);
    PkRunInv(start, steps);
  }

  lemma {:induction false} PkRunAppend(p: Pk, steps: seq<PkStep>, step: PkStep)
    requires IsPkRun(p, steps) && PkEnabled(PkAfter(p, steps), step)
    ensures IsPkRun(p, steps + [step]) && PkAfter(p, steps + [step]) == PkNext(PkAfter(p, steps), step)
    decreases |steps|
  {
    if steps == [] {
      assert steps + [step] == [step];
    } else {
      PkRunAppend(PkNext(p, steps[0]), steps[1..], step);
      assert (steps + [step])[1..] == steps[1..] + [step];
    }
  }

  lemma PkStepReachable(p: Pk, step: PkStep)
    requires PkReachable(p) && PkEnabled(p, step)
    ensures PkReachable(PkNext(p, step))
  {
    var start, steps :| PkInit(start) && IsPkRun(start, steps) && PkAfter(start, steps) == p;
    PkRunAppend(start, steps, step);
  }

  // ----- facts the methods need ------------------------------------------------------------------------------

  /** A running transaction that is in no statement's middle. */
  ghost predicate ReadyIn(p: Pk, t: TxnId) {
    IsActive(p.w, t) && p.w.txns[t].state == Running && t !in p.pending
  }

  ghost predicate IsEdit(step: PkStep) {
    step.Delete? || step.UpdateInPlace? || step.InsertOver?
  }

  /** A row in sight can be deleted, or updated in place under its key. */
  lemma SeenCanBeEdited(p: Pk, t: TxnId, rid: Rid, row: Row)
    requires PkReachable(p) && ReadyIn(p, t) && rid.table == p.info.table && SlotView(p, t, rid.slot).Some?
    requires |row| == p.info.width
    ensures rid in p.w.heap && |p.w.heap[rid].row| == p.info.width
    ensures PkEnabled(p, Delete(t, rid))
    ensures Key(p.info, SlotView(p, t, rid.slot).value) == Key(p.info, row) ==> PkEnabled(p, UpdateInPlace(t, rid, row))
  {
    PkReachableInv(p);
    assert rid == Rid(p.info.table, rid.slot);
    assert RowOk(p, rid);
    RunningCanEdit(p, t, rid, row);
  }

  lemma RunningCanEdit(p: Pk, t: TxnId, rid: Rid, row: Row)
    requires p.w.undo.Keys == p.w.txns.Keys && ReadyIn(p, t) && rid.table == p.info.table && Sees(p, t, rid)
    requires |row| == p.info.width == |p.w.heap[rid].row|
    ensures PkEnabled(p, Delete(t, rid))
    ensures Key(p.info, RowSeen(p, t, rid)) == Key(p.info, row) ==> PkEnabled(p, UpdateInPlace(t, rid, row))
  {
  }

  /** A row can go where the index says its key lives. */
  lemma FoundCanBeEdited(p: Pk, t: TxnId, row: Row)
    requires PkReachable(p) && ReadyIn(p, t) && |row| == p.info.width && Key(p.info, row) in p.index
    ensures p.index[Key(p.info, row)] in p.w.heap && p.index[Key(p.info, row)].table == p.info.table
    ensures PkEnabled(p, InsertOver(t, p.index[Key(p.info, row)], row))
  {
    PkReachableInv(p);
    assert RowOk(p, p.index[Key(p.info, row)]);
  }

  /** What an edit does to the transaction and to its view. */
  lemma EditOutcome(p: Pk, step: PkStep, t: TxnId, rid: Rid, target: Option<Row>, requireDeleted: bool, n: nat)
    requires PkReachable(p) && PkEnabled(p, step) && IsEdit(step) && ReadyIn(p, t)
    requires Base(p, step) == Some(Modify(t, rid, target, requireDeleted)) && rid.table == p.info.table && rid.slot < n
    ensures var p' := PkNext(p, step);
      if Conflicts(p.w, t, rid, requireDeleted) then t in p'.w.txns && p'.w.txns[t].state == Tainted
      else ReadyIn(p', t) && View(p', t, n) == View(p, t, n)[rid.slot := target] && Frees(p, p', t, rid, target.None?)
  {
    PkReachableInv(p);
    EditEffect(p.w, t, rid, target, requireDeleted);
    if !Conflicts(p.w, t, rid, requireDeleted) {
      EditFrees(p, t, rid, target, requireDeleted);
      OwnEditView(p, t, rid, target, requireDeleted, n, p.(w := Next(p.w, Modify(t, rid, target, requireDeleted))));
    }
  }

  lemma OverNothing(p: Pk, t: TxnId, rid: Rid)
    requires t in p.w.txns && rid in p.w.heap && rid.table == p.info.table && !Conflicts(p.w, t, rid, true)
    ensures SlotView(p, t, rid.slot) == None
  {
    assert rid == Rid(p.info.table, rid.slot);
    DeletedUnseen(p.w, t, rid);
  }

  lemma ActiveIsLive(p: Pk, t: TxnId)
    requires ReadyIn(p, t)
    ensures Live(p.w.txns[t])
  {
  }

  lemma RecordOutcome(p: Pk, t: TxnId, scan: Scan, n: nat)
    requires p.w.undo.Keys == p.w.txns.Keys && ReadyIn(p, t)
    ensures PkEnabled(p, Plain(RecordScan(t, scan)))
    ensures var p' := PkNext(p, Plain(RecordScan(t, scan)));
      ReadyIn(p', t) && View(p', t, n) == View(p, t, n)
  {
    var p' := PkNext(p, Plain(RecordScan(t, scan)));
    SameReads(p, p', t, n);
  }

  lemma SameReads(p: Pk, p': Pk, t: TxnId, n: nat)
    requires p'.info == p.info && p'.w.heap == p.w.heap && p'.w.undo == p.w.undo
    requires t in p.w.txns && t in p'.w.txns && p'.w.txns[t].readTs == p.w.txns[t].readTs
    ensures View(p', t, n) == View(p, t, n)
  {
    forall i | 0 <= i < n
      ensures SlotView(p', t, i) == SlotView(p, t, i)
    {
    }
  }

  // ----- other transactions in between ------------------------------------------------------------------------

  /** A view with more slots in it, all of them showing nothing. */
  function Pad(view: seq<Option<Row>>, n: nat): (r: seq<Option<Row>>)
    requires |view| <= n
    ensures |r| == n && r[..|view|] == view && forall i :: |view| <= i < n ==> r[i] == None
  {
    view + seq(n - |view|, _ => None)
  }

  /** Some run of other transactions leads from `p` to `p'`. */
  ghost predicate OthersRan(p: Pk, p': Pk, t: TxnId) {
    exists steps :: IsPkRun(p, steps) && OnlyOthers(steps, t) && PkAfter(p, steps) == p'
  }

  /** `t` is running, perhaps halfway through an insertion. */
  ghost predicate Unhurt(p: Pk, t: TxnId) {
    IsActive(p.w, t) && p.w.txns[t].state == Running
  }

  /** Every entry of the index is still there. */
  ghost predicate Grown(index: map<Value, Rid>, index': map<Value, Rid>) {
    forall key :: key in index ==> key in index' && index'[key] == index[key]
  }

  /** `t` is at the same point of an insertion, if it is in one. */
  ghost predicate SamePending(p: Pk, p': Pk, t: TxnId) {
    (t in p'.pending <==> t in p.pending) && (t in p.pending && t in p'.pending ==> p'.pending[t] == p.pending[t])
  }

  lemma OthersKeepIndex(p: Pk, step: PkStep, t: TxnId)
    requires PkEnabled(p, step) && StepOfOther(step, t)
    ensures var p' := PkNext(p, step); p'.info == p.info && SamePending(p, p', t) && Grown(p.index, p'.index)
  {
  }

  lemma OthersKeepUnhurt(p: Pk, step: PkStep, t: TxnId)
    requires Books(p.w) && PkEnabled(p, step) && StepOfOther(step, t) && Unhurt(p, t)
    ensures Unhurt(PkNext(p, step), t)
  {
    if Base(p, step).Some? {
      LiveStays(p.w, Base(p, step).value, t);
    }
  }

  /** Other transactions leave a running transaction as it was, and the index only grows. */
  lemma {:induction false} RunKeepsIndex(p: Pk, steps: seq<PkStep>, t: TxnId)
    requires IsPkRun(p, steps) && OnlyOthers(steps, t)
    ensures var p' := PkAfter(p, steps); p'.info == p.info && SamePending(p, p', t) && Grown(p.index, p'.index)
    decreases |steps|
  {
    if steps != [] {
      OthersKeepIndex(p, steps[0], t);
      RunKeepsIndex(PkNext(p, steps[0]), steps[1..], t);
    }
  }

  lemma {:induction false} RunKeepsUnhurt(p: Pk, steps: seq<PkStep>, t: TxnId)
    requires PkInv(p) && IsPkRun(p, steps) && OnlyOthers(steps, t) && Unhurt(p, t)
    ensures Unhurt(PkAfter(p, steps), t)
    decreases |steps|
  {
    if steps != [] {
      PkStepInv(p, steps[0]);
      OthersKeepUnhurt(p, steps[0], t);
      RunKeepsUnhurt(PkNext(p, steps[0]), steps[1..], t);
    }
  }

  /** What `t` knows after others have run: its view, with more empty slots, and its own state. */
  lemma AfterOthers(p: Pk, p': Pk, t: TxnId, n: nat, n': nat)
    requires PkReachable(p) && OthersRan(p, p', t) && Unhurt(p, t) && Covers(p.w.heap, p.info.table, n) && n <= n'
    ensures Unhurt(p', t) && View(p', t, n') == Pad(View(p, t, n), n')
    ensures SamePending(p, p', t) && Grown(p.index, p'.index)
  {
    PkReachableInv(p);
    var steps :| IsPkRun(p, steps) && OnlyOthers(steps, t) && PkAfter(p, steps) == p';
    RunKeepsIndex(p, steps, t);
    RunKeepsUnhurt(p, steps, t);
    RunKeepsView(p, steps, t, n');
    PaddedView(p, t, n, n');
  }

  lemma PaddedView(p: Pk, t: TxnId, n: nat, n': nat)
    requires t in p.w.txns && Covers(p.w.heap, p.info.table, n) && n <= n'
    ensures View(p, t, n') == Pad(View(p, t, n), n')
  {
    forall i | n <= i < n'
      ensures SlotView(p, t, i) == None
    {
    }
  }

  /** Index entries lead to slots in use. */
  lemma EntriesInUse(p: Pk, n: nat)
    requires PkReachable(p) && Covers(p.w.heap, p.info.table, n)
    ensures forall key :: key in p.index ==> p.index[key].slot < n
  {
    PkReachableInv(p);
  }

  /** A fresh slot can be filled, and shows the row to its writer. */
  lemma FreshCanBeFilled(p: Pk, t: TxnId, slot: nat, row: Row)
    requires PkReachable(p) && ReadyIn(p, t) && |row| == p.info.width
    requires Covers(p.w.heap, p.info.table, slot)
    ensures var step := InsertNew(t, Rid(p.info.table, slot), row);
      && PkEnabled(p, step)
      && t in PkNext(p, step).w.txns
      && View(PkNext(p, step), t, slot + 1) == View(p, t, slot) + [Some(row)]
  {
    PkReachableInv(p);
    var rid := Rid(p.info.table, slot);
    assert rid !in p.w.heap;
    OwnInsertView(p, t, rid, row, PkNext(p, InsertNew(t, rid, row)));
  }

  /** Entering the index afterwards changes no view; a duplicate taints the transaction. */
  lemma EntryOutcome(p: Pk, t: TxnId, n: nat)
    requires PkReachable(p) && t in p.pending && (t in p.w.txns ==> p.w.txns[t].state == Running)
    ensures PkEnabled(p, AddEntry(t)) && t in p.w.txns
    ensures var p' := PkNext(p, AddEntry(t));
      if Duplicate(p, t) then p'.w == SetTxn(p.w, t, p.w.txns[t].(state := Tainted))
      else p'.w == p.w && ReadyIn(p', t) && View(p', t, n) == View(p, t, n)
  {
    PkReachableInv(p);
    assert PendingOk(p, t);
    EntryStep(p, t, n);
  }

  lemma EntryStep(p: Pk, t: TxnId, n: nat)
    requires p.w.undo.Keys == p.w.txns.Keys && t in p.pending && PendingOk(p, t) && p.w.txns[t].state == Running
    ensures PkEnabled(p, AddEntry(t))
    ensures var p' := PkNext(p, AddEntry(t));
      if Duplicate(p, t) then p'.w == SetTxn(p.w, t, p.w.txns[t].(state := Tainted))
      else p'.w == p.w && ReadyIn(p', t) && View(p', t, n) == View(p, t, n)
  {
    if !Duplicate(p, t) {
      SameReads(p, PkNext(p, AddEntry(t)), t, n);
    }
  }

  /** The pending row is the one its transaction sees there. */
  lemma PendingRow(p: Pk, t: TxnId, row: Row)
    requires PkReachable(p) && t in p.pending && t in p.w.txns && SlotView(p, t, p.pending[t].slot) == Some(row)
    ensures p.pending[t] in p.w.heap && p.w.heap[p.pending[t]].row == row
  {
    PkReachableInv(p);
    assert PendingOk(p, t);
    assert p.pending[t] == Rid(p.info.table, p.pending[t].slot);
  }

  // ----- where a key may be inserted --------------------------------------------------------------------------

  /** A row with this key may be inserted by `t`: the key is new, or its slot is empty for `t`. */
  ghost predicate Free(p: Pk, t: TxnId, key: Value) {
    key !in p.index || (t in p.w.txns && p.index[key] in p.w.heap && !Conflicts(p.w, t, p.index[key], true))
  }

  /** `t` may edit the row at this slot. */
  ghost predicate Editable(p: Pk, t: TxnId, rid: Rid) {
    t in p.w.txns && rid in p.w.heap && !Conflicts(p.w, t, rid, false)
  }

  /** Read off the history: the row is `t`'s own, or its newest committed version is in `t`'s snapshot. */
  lemma EditableExactly(p: Pk, t: TxnId, rid: Rid)
    requires PkReachable(p) && ReadyIn(p, t)
    ensures Editable(p, t, rid) <==> MayEdit(p.w, t, rid)
  {
    PkReachableInv(p);
    if rid in p.w.heap { ConflictsExactly(p.w, t, rid, false); }
  }

  /** And for an insertion: the key is new, or its slot shows `t` nothing and may be edited. */
  lemma FreeExactly(p: Pk, t: TxnId, key: Value)
    requires PkReachable(p) && ReadyIn(p, t)
    ensures Free(p, t, key) <==>
      key in p.index ==> MayEdit(p.w, t, p.index[key]) && SlotView(p, t, p.index[key].slot) == None
  {
    PkReachableInv(p);
    if key in p.index {
      assert p.index[key] == Rid(p.info.table, p.index[key].slot);
      ConflictsExactly(p.w, t, p.index[key], true);
    }
  }

  /** An edit by `t` frees the key of its slot if it deletes the row, takes it if not, and touches nothing else. */
  ghost predicate Frees(p: Pk, p': Pk, t: TxnId, rid: Rid, deleted: bool) {
    && p'.index == p.index
    && (forall key :: Free(p', t, key) <==> if key in p.index && p.index[key] == rid then deleted else Free(p, t, key))
    && (forall other :: other != rid ==> (Editable(p', t, other) <==> Editable(p, t, other)))
  }

  lemma EditFrees(p: Pk, t: TxnId, rid: Rid, target: Option<Row>, requireDeleted: bool)
    requires Shape(p.w) && Enabled(p.w, Modify(t, rid, target, requireDeleted))
      && !Conflicts(p.w, t, rid, requireDeleted)
    ensures Frees(p, p.(w := Next(p.w, Modify(t, rid, target, requireDeleted))), t, rid, target.None?)
  {
    EditEffect(p.w, t, rid, target, requireDeleted);
    forall other | other in p.w.heap && other != rid
      ensures Next(p.w, Modify(t, rid, target, requireDeleted)).heap[other] == p.w.heap[other]
    {
      EditElsewhere(p.w, t, rid, target, requireDeleted, other);
    }
  }

  /** An insertion by `t` takes its own key and no other. */
  ghost predicate Takes(p: Pk, p': Pk, t: TxnId, key: Value) {
    forall k :: Free(p', t, k) <==> k != key && Free(p, t, k)
  }

  /** The rows of the table are in the slots that the heap has handed out. */
  ghost predicate Covers(heap: map<Rid, Slot>, table: nat, slots: nat) {
    && (forall rid :: rid in heap && rid.table == table ==> rid.slot < slots)
    && (forall i: nat :: i < slots ==> Rid(table, i) in heap)
  }

  lemma CoversNext(heap: map<Rid, Slot>, table: nat, slots: nat, v: Slot)
    requires Covers(heap, table, slots)
    ensures Covers(heap[Rid(table, slots) := v], table, slots + 1)
  {
  }

  datatype InsertResult = Inserted(rid: Rid) | InsertConflict

  class IndexedTable {
    const tm: TransactionManager
    const info: TableInfo
    var index: map<Value, Rid>
    var slots: nat
    ghost var pending: map<TxnId, Rid>

    ghost function Value(): Pk
      reads this, tm, tm.runningTxns
    {
      Pk(info, tm.State(), index, pending)
    }

    ghost predicate Valid()
      reads this, tm, tm.runningTxns
    {
      tm.Valid() && PkReachable(Value()) && Covers(tm.heap, info.table, slots)
    }

    ghost predicate Ready(t: TxnId)
      reads this, tm, tm.runningTxns
    {
      ReadyIn(Value(), t)
    }

    /** What `t` sees, slot by slot. */
    ghost function Sight(t: TxnId): seq<Option<Row>>
      requires t in tm.txns
      reads this, tm, tm.runningTxns
    {
      View(Value(), t, slots)
    }

    constructor (tm: TransactionManager, info: TableInfo)
      requires tm.Valid() && Mvcc.Init(tm.State()) && forall rid :: rid in tm.heap ==> rid.table != info.table
      ensures Valid() && this.tm == tm && this.info == info && index == map[] && slots == 0
    {
      this.tm, this.info := tm, info;
      index, slots, pending := map[], 0, map[];
      new;
      assert PkInit(Value()) && IsPkRun(Value(), []) && PkAfter(Value(), []) == Value();
    }

    /** The engine has noted `t`'s scan, and nothing else has happened since `w`. */
    ghost predicate Recorded(w: World, t: TxnId, filter: Option<Expr>)
      reads this, tm, tm.runningTxns
    {
      && w.undo.Keys == w.txns.Keys && Enabled(w, RecordScan(t, Scan(info.table, filter)))
      && tm.State() == Next(w, RecordScan(t, Scan(info.table, filter)))
    }

    /** Note the scan for validation at commit. */
    method AppendScanPredicate(t: TxnId, filter: Option<Expr>)
      requires Valid() && Ready(t)
      modifies tm
      ensures Valid() && Ready(t) && Sight(t) == old(Sight(t))
      ensures Recorded(old(tm.State()), t, filter)
    {
      ghost var p := Value();
      ghost var step := RecordScan(t, Scan(info.table, filter));
      RecordOutcome(p, t, Scan(info.table, filter), slots);
      PkStepReachable(p, Plain(step));
      tm.AppendScanPredicate(t, Scan(info.table, filter));
      assert Value() == PkNext(p, Plain(step));
    }

    /** What `t` sees at one slot. */
    method ReadSlot(t: TxnId, slot: nat) returns (row: Option<Row>)
      requires Valid() && Ready(t) && slot < slots
      ensures row == Sight(t)[slot]
    {
      ActiveIsLive(Value(), t);
      row := tm.ReadTuple(t, Rid(info.table, slot));
    }

    /** One edit of one row by `ModifyTuple`; `step` says which executor is behind it. */
    method EditRow(t: TxnId, rid: Rid, target: Option<Row>, requireDeleted: bool, ghost step: PkStep)
        returns (result: ModifyResult)
      requires Valid() && Ready(t) && PkEnabled(Value(), step) && IsEdit(step)
      requires Base(Value(), step) == Some(Modify(t, rid, target, requireDeleted)) && rid.table == info.table
      modifies tm
      ensures Valid() && Value() == PkNext(old(Value()), step)
      ensures result.WriteConflict? <==> old(rid in tm.heap && Conflicts(tm.State(), t, rid, requireDeleted))
      ensures result.WriteConflict? ==> t in tm.txns && tm.txns[t].state == Tainted
      ensures result.Modified? ==> Ready(t) && Sight(t) == old(Sight(t))[rid.slot := target]
      ensures result.Modified? ==> Frees(old(Value()), Value(), t, rid, target.None?)
    {
      ghost var p := Value();
      EditOutcome(p, step, t, rid, target, requireDeleted, slots);
      PkStepReachable(p, step);
      HeapGrows(p.w, Modify(t, rid, target, requireDeleted));
      result := tm.ModifyTuple(t, rid, target, requireDeleted);
      assert Value() == PkNext(p, step);
    }

    method DeleteRow(t: TxnId, rid: Rid) returns (result: ModifyResult)
      requires Valid() && Ready(t) && rid.table == info.table && rid.slot < slots && Sight(t)[rid.slot].Some?
      modifies tm
      ensures Valid() && (result.Modified? <==> old(Editable(Value(), t, rid)))
      ensures result.Modified? <==> old(MayEdit(tm.State(), t, rid))
      ensures result.WriteConflict? ==> t in tm.txns && tm.txns[t].state == Tainted
      ensures result.Modified? ==> Ready(t) && Sight(t) == old(Sight(t))[rid.slot := None]
      ensures result.Modified? ==> Frees(old(Value()), Value(), t, rid, true)
    {
      EditableExactly(Value(), t, rid);
      SeenCanBeEdited(Value(), t, rid, NullRow(info.width));
      result := EditRow(t, rid, None, false, Delete(t, rid));
    }

    method UpdateRow(t: TxnId, rid: Rid, row: Row) returns (result: ModifyResult)
      requires Valid() && Ready(t) && rid.table == info.table && rid.slot < slots && Sight(t)[rid.slot].Some?
      requires |row| == info.width && Key(info, Sight(t)[rid.slot].value) == Key(info, row)
      modifies tm
      ensures Valid() && (result.Modified? <==> old(Editable(Value(), t, rid)))
      ensures result.Modified? <==> old(MayEdit(tm.State(), t, rid))
      ensures result.WriteConflict? ==> t in tm.txns && tm.txns[t].state == Tainted
      ensures result.Modified? ==> Ready(t) && Sight(t) == old(Sight(t))[rid.slot := Some(row)]
      ensures result.Modified? ==> Frees(old(Value()), Value(), t, rid, false)
    {
      EditableExactly(Value(), t, rid);
      SeenCanBeEdited(Value(), t, rid, row);
      result := EditRow(t, rid, Some(row), false, UpdateInPlace(t, rid, row));
    }

    /** The second half of an insertion: enter the key, or give up if somebody else has entered it. */
    method AddEntryFor(t: TxnId, rid: Rid, key: Value) returns (added: bool)
      requires Valid() && t in pending && pending[t] == rid && t in tm.txns && tm.txns[t].state == Running
      requires rid in tm.heap && key == Key(info, tm.heap[rid].row)
      modifies this, tm
      ensures Valid() && slots == old(slots) && added == (key !in old(index))
      ensures !added ==> index == old(index) && t in tm.txns && tm.txns[t].state == Tainted
      ensures added ==> index == old(index)[key := rid] && Ready(t) && Sight(t) == old(Sight(t))
      ensures added ==> tm.State() == old(tm.State())
    {
      ghost var p := Value();
      EntryOutcome(p, t, slots);
      PkStepReachable(p, AddEntry(t));
      added := key !in index;
      if added {
        index := index[key := rid];
      } else {
        StepReachable(tm.State(), Modify(t, rid, None, true));
        tm.txns := tm.txns[t := tm.txns[t].(state := Tainted)];
      }
      pending := pending - {t};
      assert Value() == PkNext(p, AddEntry(t));
    }

    /** A new slot for the row, not yet in the index. */
    method InsertIntoHeap(t: TxnId, row: Row) returns (rid: Rid)
      requires Valid() && Ready(t) && |row| == info.width
      modifies this, tm
      ensures Valid() && slots == old(slots) + 1 && index == old(index) && rid == Rid(info.table, old(slots))
      ensures pending == old(pending)[t := rid] && t in tm.txns && tm.txns[t].state == Running
      ensures rid in tm.heap && tm.heap[rid].row == row && rid !in old(tm.heap)
      ensures tm.State() == old(DoInsert(tm.State(), t, rid, row))
      ensures Sight(t) == old(Sight(t)) + [Some(row)]
    {
      ghost var p := Value();
      rid := Rid(info.table, slots);
      ghost var step := InsertNew(t, rid, row);
      FreshCanBeFilled(p, t, slots, row);
      PkStepReachable(p, step);
      CoversNext(tm.heap, info.table, slots, Slot(t, false, row, NoLink));
      tm.InsertTuple(t, rid, row);
      slots := slots + 1;
      pending := pending[t := rid];
      assert Value() == PkNext(p, step);
    }

    /**
     * A point at which other threads may run. Nothing happens in the program's own text; all that a caller may
     * rely on is that some run of other transactions, possibly empty, has taken place. It is empty if `alone`.
     */
    method Yield(t: TxnId, ghost alone: bool)
      requires Valid() && Unhurt(Value(), t)
      modifies this, tm, tm.runningTxns
      ensures Valid() && OthersRan(old(Value()), Value(), t) && slots >= old(slots)
      ensures alone ==> Value() == old(Value()) && slots == old(slots)
    {
      assert IsPkRun(Value(), []) && OnlyOthers([], t) && PkAfter(Value(), []) == Value();
    }

    /** The same, with what it leaves untouched. */
    method LetOthersRun(t: TxnId, ghost alone: bool)
      requires Valid() && Unhurt(Value(), t)
      modifies this, tm, tm.runningTxns
      ensures Valid() && Unhurt(Value(), t) && slots >= old(slots)
      ensures Sight(t) == Pad(old(Sight(t)), slots)
      ensures SamePending(old(Value()), Value(), t) && Grown(old(index), index)
      ensures alone ==> Value() == old(Value()) && slots == old(slots)
    {
      ghost var p, n := Value(), slots;
      Yield(t, alone);
      AfterOthers(p, Value(), t, n, slots);
    }

    /**
     * Insert a row: where its key already lives if that slot is free for `t`, else in a new slot, with others
     * running between the lookup, the heap and the index. Undisturbed, it fails exactly when the key's slot holds
     * a row, or has changed since `t` began.
     */
    method InsertTupleMvcc(t: TxnId, row: Row, ghost alone: bool) returns (result: InsertResult)
      requires Valid() && Ready(t) && |row| == info.width
      modifies this, tm, tm.runningTxns
      ensures Valid() && slots >= old(slots)
      ensures alone ==> (result.Inserted? <==> old(Free(Value(), t, Key(info, row))))
      ensures alone ==> (result.Inserted? <==>
        old(Key(info, row) in index ==>
              && MayEdit(tm.State(), t, index[Key(info, row)])
              && SlotView(Value(), t, index[Key(info, row)].slot) == None))
      ensures result.InsertConflict? ==> t in tm.txns && tm.txns[t].state == Tainted
      ensures result.Inserted? ==>
        && Ready(t) && Key(info, row) in index && index[Key(info, row)] == result.rid
        && SeesInserted(old(Sight(t)), Sight(t), result.rid.slot, row)
        && (alone ==> Takes(old(Value()), Value(), t, Key(info, row)))
    {
      FreeExactly(Value(), t, Key(info, row));
      var key := Key(info, row);
      if key in index {
        result := WriteOver(t, row, alone);
      } else {
        result := WriteNew(t, row, alone);
      }
    }

    /** The index has the key: write over its slot. */
    method WriteOver(t: TxnId, row: Row, ghost alone: bool) returns (result: InsertResult)
      requires Valid() && Ready(t) && |row| == info.width && Key(info, row) in index
      modifies this, tm, tm.runningTxns
      ensures Valid() && slots >= old(slots)
      ensures alone ==> (result.Inserted? <==> old(Free(Value(), t, Key(info, row))))
      ensures result.InsertConflict? ==> t in tm.txns && tm.txns[t].state == Tainted
      ensures result.Inserted? ==>
        && Ready(t) && Key(info, row) in index && index[Key(info, row)] == result.rid
        && SeesInserted(old(Sight(t)), Sight(t), result.rid.slot, row)
        && (alone ==> Takes(old(Value()), Value(), t, Key(info, row)))
    {
      var key := Key(info, row);
      var rid := index[key];
      LetOthersRun(t, alone);
      ghost var p := Value();
      FoundCanBeEdited(p, t, row);
      if !Conflicts(p.w, t, rid, true) { OverNothing(p, t, rid); }
      var edit := EditRow(t, rid, Some(row), true, InsertOver(t, rid, row));
      if edit.Modified? { FreesTakes(p, Value(), t, rid, key); }
      return if edit.Modified? then Inserted(rid) else InsertConflict;
    }

    /** The index did not have the key: a new slot, then the index, if nobody else has been faster. */
    method WriteNew(t: TxnId, row: Row, ghost alone: bool) returns (result: InsertResult)
      requires Valid() && Ready(t) && |row| == info.width && Key(info, row) !in index
      modifies this, tm, tm.runningTxns
      ensures Valid() && slots >= old(slots)
      ensures alone ==> result.Inserted?
      ensures result.InsertConflict? ==> t in tm.txns && tm.txns[t].state == Tainted
      ensures result.Inserted? ==>
        && Ready(t) && Key(info, row) in index && index[Key(info, row)] == result.rid
        && SeesInserted(old(Sight(t)), Sight(t), result.rid.slot, row)
        && (alone ==> Takes(old(Value()), Value(), t, Key(info, row)))
    {
      ghost var p, view := Value(), Sight(t);
      LetOthersRun(t, alone);
      ghost var n := slots;
      var rid := InsertIntoHeap(t, row);
      LetOthersRun(t, alone);
      AppendedAndPadded(view, n, Sight(t), row);
      PendingRow(Value(), t, row);
      var added := AddEntryFor(t, rid, Key(info, row));
      if alone { NewSlotTakes(p, Value(), t, rid, row); }
      return if added then Inserted(rid) else InsertConflict;
    }
  }

  /** Writing over the slot of a key takes that key. */
  lemma FreesTakes(p: Pk, p': Pk, t: TxnId, rid: Rid, key: Value)
    requires PkReachable(p) && key in p.index && p.index[key] == rid && Frees(p, p', t, rid, false)
    ensures Takes(p, p', t, key)
  {
    PkReachableInv(p);
  }

  lemma NewSlotTakes(p: Pk, p': Pk, t: TxnId, rid: Rid, row: Row)
    requires PkReachable(p) && t in p.w.txns && rid !in p.w.heap && Key(p.info, row) !in p.index
    requires p'.w == DoInsert(p.w, t, rid, row) && p'.index == p.index[Key(p.info, row) := rid]
    ensures Takes(p, p', t, Key(p.info, row))
  {
    PkReachableInv(p);
    TakesNew(p, p', t, rid, row);
  }

  lemma TakesNew(p: Pk, p': Pk, t: TxnId, rid: Rid, row: Row)
    requires IndexOk(p) && t in p.w.txns && rid !in p.w.heap && Key(p.info, row) !in p.index
    requires p'.w == DoInsert(p.w, t, rid, row) && p'.index == p.index[Key(p.info, row) := rid]
    ensures Takes(p, p', t, Key(p.info, row))
  {
    assert p'.w.heap[rid] == Slot(t, false, row, NoLink);
    forall k | k in p.index
      ensures Free(p', t, k) <==> Free(p, t, k)
    {
    }
  }

  /** The view after an insertion: one slot that showed nothing, or did not exist, now shows the row. */
  ghost predicate SeesInserted(before: seq<Option<Row>>, after: seq<Option<Row>>, slot: nat, row: Row) {
    && |before| <= |after| && slot < |after|
    && Pad(before, |after|)[slot] == None && after == Pad(before, |after|)[slot := Some(row)]
  }

  /** More empty slots show no more rows. */
  lemma {:induction false} PresentPad(view: seq<Option<Row>>, n: nat)
    requires |view| <= n
    ensures Present(Pad(view, n)) == Present(view)
    decreases n
  {
    if |view| < n {
      PresentPad(view, n - 1);
      assert Pad(view, n) == Pad(view, n - 1) + [None];
      FlatMapAppend(Rows, Pad(view, n - 1), [None]);
      FlatMapSingle(Rows, None);
    } else {
      assert Pad(view, n) == view;
    }
  }

  lemma InsertedBag(before: seq<Option<Row>>, after: seq<Option<Row>>, slot: nat, row: Row)
    requires SeesInserted(before, after, slot, row)
    ensures multiset(Present(after)) == multiset(Present(before)) + multiset{row}
  {
    PresentPad(before, |after|);
    PresentUpdate(Pad(before, |after|), slot, Some(row));
  }

  lemma PadTwice(view: seq<Option<Row>>, n: nat, m: nat)
    requires |view| <= n <= m
    ensures Pad(Pad(view, n), m) == Pad(view, m)
  {
  }

  /** A new slot at the end of a padded view, padded again. */
  lemma AppendedAndPadded(before: seq<Option<Row>>, n: nat, after: seq<Option<Row>>, row: Row)
    requires |before| <= n < |after| && after == Pad(Pad(before, n) + [Some(row)], |after|)
    ensures SeesInserted(before, after, n, row)
  {
  }
}
