/**
 * A run with one transaction's work taken out of it. `Alike` relates a state of the run as it was with the state
 * the others would be in had transaction `t` begun and aborted but edited nothing.
 */
module MvccErase {
  import opened Sql
  import opened Undo
  import opened Chain
  import opened Watermarks
  import opened Mvcc
  import opened MvccCore
  import opened MvccEdit

  // ----- the relation --------------------------------------------------------------------------------------------

  /** The same version in slots of the same width; bytes behind a tombstone may differ. */
  ghost predicate SlotLike(a: Slot, b: Slot) {
    SameVersion(a, b) && |a.row| == |b.row|
  }

  /** What is at the row once `t` has taken its edits back. */
  ghost function Under(w: World, t: TxnId, rid: Rid): Slot
    requires rid in w.heap
  {
    if w.heap[rid].ts == t then Reverted(w.undo, t, w.heap[rid]) else w.heap[rid]
  }

  /** The same transaction, except that it may have been tainted by running into a row of `t`. */
  ghost predicate TxnLike(x: Txn, y: Txn) {
    y == x || (x.state == Tainted && y == x.(state := Running))
  }

  /** A transaction that has begun and done nothing since. */
  ghost function Idle(x: Txn): Txn {
    Txn(x.isolation, Running, x.readTs, -1, {}, [], Active)
  }

  ghost predicate LiveIn(w: World, t: TxnId) {
    t in w.txns && Live(w.txns[t])
  }

  ghost predicate CountersAlike(w: World, v: World, t: TxnId) {
    && v.last == w.last && v.next == w.next && v.running == w.running && v.commits == w.commits && v.floor == w.floor
    && v.committer == (if w.committer == Some(t) then None else w.committer)
  }

  ghost predicate OtherAlike(w: World, v: World, s: TxnId) {
    && (s in w.txns <==> s in v.txns)
    && (s in w.txns && s in v.txns && s in w.undo && s in v.undo ==>
          TxnLike(w.txns[s], v.txns[s]) && v.undo[s] == w.undo[s])
  }

  ghost predicate TxnsAlike(w: World, v: World, t: TxnId) {
    && (forall s :: s != t ==> OtherAlike(w, v, s))
    && (if LiveIn(w, t) then t in v.txns && v.txns[t] == Idle(w.txns[t]) else !LiveIn(v, t))
    && (t in w.txns ==> w.txns[t].state != Committed) && (t in v.txns ==> v.txns[t].state != Committed)
  }

  /** An empty slot that the run with `t` has yet to hand out to it. */
  ghost predicate Waiting(v: World, rid: Rid, row: Row) {
    rid in v.heap && rid in v.hist && v.heap[rid] == Slot(0, true, row, NoLink)
      && v.hist[rid] == [Version(0, None, -1, 0)]
  }

  ghost predicate RowAlike(w: World, v: World, t: TxnId, rid: Rid)
    requires rid in w.heap
  {
    && rid in v.heap && SlotLike(v.heap[rid], Under(w, t, rid))
    && rid in w.hist && rid in v.hist && v.hist[rid] == w.hist[rid] && NotWriter(w.hist[rid], t)
  }

  /** `d` holds the slots `t` will still create, with their first bytes. */
  ghost predicate HeapAlike(w: World, v: World, t: TxnId, d: map<Rid, Row>) {
    && v.heap.Keys == w.heap.Keys + d.Keys && v.hist.Keys == v.heap.Keys && w.heap.Keys !! d.Keys
    && (forall rid :: rid in w.heap ==> RowAlike(w, v, t, rid))
    && (forall rid :: rid in d ==> Waiting(v, rid, d[rid]))
  }

  ghost predicate Alike(w: World, v: World, t: TxnId, d: map<Rid, Row>) {
    CountersAlike(w, v, t) && TxnsAlike(w, v, t) && HeapAlike(w, v, t, d)
  }

  // ----- taking edits back --------------------------------------------------------------------------------------

  /** The row `t` has taken back is its last committed version. */
  lemma UnderCommitted(w: World, t: TxnId, rid: Rid)
    requires Chains(w) && Shape(w) && rid in w.heap && w.heap[rid].ts == t && t in w.txns
    ensures t > w.last && 0 <= Under(w, t, rid).ts <= w.last
    ensures Represents(w.undo, w.floor, Under(w, t, rid), w.hist[rid])
  {
    var v, h := w.heap[rid], w.hist[rid];
    assert SlotOk(w, v, h) && HistOk(w, h);
    RevertedChain(w.undo, w.floor, v, h, t, w.txns[t].readTs);
    OrderedNonNegative(h, |h| - 1);
  }

  lemma RevertedLength(u: Buffers, t: TxnId, v: Slot)
    ensures |Reverted(u, t, v).row| == |v.row|
  {
  }

  /** The first edit of a row, taken back, leaves it as it was. */
  lemma FirstEditBack(u: Buffers, t: TxnId, v: Slot, target: Option<Row>)
    requires t in u && v.ts != t && (target.Some? ==> |target.value| == |v.row|)
    ensures var (logs, link) := Logged(u[t], t, v, target);
      SlotLike(Reverted(u[t := logs], t, Edited(t, v, target, link)), v)
  {
    var (logs, link) := Logged(u[t], t, v, target);
    assert EditAll(logs, t, Edited(t, v, target, link), []) == (logs, Edited(t, v, target, link));
    assert EditAll(u[t], t, v, [target]) == (logs, Edited(t, v, target, link));
    AbortUndoesEdits(u, t, v, [target]);
    RevertedLength(u[t := logs], t, Edited(t, v, target, link));
  }

  /** So does a later edit, which replaces the log. */
  lemma LaterEditBack(u: Buffers, t: TxnId, v: Slot, target: Option<Row>)
    requires t in u && v.ts == t && (target.Some? ==> |target.value| == |v.row|)
    requires v.link.Link? ==> v.link.txn == t && v.link.idx < |u[t]| && Fits(u[t][v.link.idx], v)
    ensures var (logs, link) := Logged(u[t], t, v, target);
      SlotLike(Reverted(u[t := logs], t, Edited(t, v, target, link)), Reverted(u, t, v))
  {
    var (logs, link) := Logged(u[t], t, v, target);
    RevertedLength(u, t, v);
    RevertedLength(u[t := logs], t, Edited(t, v, target, link));
    if v.link.Link? && !u[t][v.link.idx].deleted {
      ReEditRestores(v, u[t][v.link.idx], target);
    }
  }

  lemma RevertedFrame(u: Buffers, u': Buffers, t: TxnId, v: Slot)
    requires t in u && t in u' && (v.link.Link? && v.link.txn == t ==> v.link.idx < |u[t]| && v.link.idx < |u'[t]|)
    requires v.link.Link? && v.link.txn == t ==> u'[t][v.link.idx] == u[t][v.link.idx]
    ensures Reverted(u', t, v) == Reverted(u, t, v)
  {
  }

  /** A step that changes `t`'s record and buffer at most. */
  lemma OwnStepTxns(w: World, w': World, v: World, t: TxnId)
    requires TxnsAlike(w, v, t) && t in w.txns && t in w'.txns && w'.txns == w.txns[t := w'.txns[t]]
    requires w.undo.Keys == w.txns.Keys && w'.undo.Keys == w.undo.Keys
    requires forall s :: s in w.undo && s != t ==> w'.undo[s] == w.undo[s]
    requires w'.txns[t].state != Committed && Live(w'.txns[t]) == Live(w.txns[t]) && Idle(w'.txns[t]) == Idle(w.txns[t])
    ensures TxnsAlike(w', v, t)
  {
    forall s | s != t
      ensures OtherAlike(w', v, s)
    {
      assert OtherAlike(w, v, s);
    }
  }

  lemma UnderElsewhere(w: World, w': World, t: TxnId, rid: Rid)
    requires rid in w.heap && rid in w'.heap && w'.heap[rid] == w.heap[rid]
    requires w.heap[rid].ts == t ==> t in w.undo && t in w'.undo && w'.undo[t] == w.undo[t]
    ensures Under(w', t, rid) == Under(w, t, rid)
  {
  }

  /** A row that keeps its slots and histories in both runs. */
  lemma RowElsewhere(w: World, v: World, w': World, v': World, t: TxnId, r: Rid)
    requires r in w.heap && RowAlike(w, v, t, r)
    requires r in w'.heap && w'.heap[r] == w.heap[r] && r in v'.heap && v'.heap[r] == v.heap[r]
    requires r in w'.hist && w'.hist[r] == w.hist[r] && r in v'.hist && v'.hist[r] == v.hist[r]
    requires w.heap[r].ts == t ==> t in w.undo && t in w'.undo && w'.undo[t] == w.undo[t]
    ensures RowAlike(w', v', t, r)
  {
    UnderElsewhere(w, w', t, r);
  }

  // ----- steps that only `t`'s own record shows --------------------------------------------------------------------

  /** Steps of `t` that touch no row. */
  predicate Bookkeeping(step: Step, t: TxnId) {
    StepOf(step, t) && (step.RecordScan? || step.StartCommit? || step.VerifyRow? || step.FinishVerify?
      || step.StartAbort?)
  }

  lemma BookkeepingFrame(w: World, t: TxnId, step: Step)
    requires Shape(w) && t in w.txns && TxnOk(w, t) && Enabled(w, step) && Bookkeeping(step, t)
      && w.txns[t].state != Committed
    ensures var w' := Next(w, step);
      && w'.heap == w.heap && w'.hist == w.hist && w'.undo == w.undo && w'.txns == w.txns[t := w'.txns[t]]
      && t in w'.txns && w'.txns[t].state != Committed && Live(w'.txns[t]) == Live(w.txns[t])
      && Idle(w'.txns[t]) == Idle(w.txns[t])
      && w'.last == w.last && w'.next == w.next && w'.running == w.running && w'.commits == w.commits
      && w'.floor == w.floor
      && (w'.committer == w.committer || ((w.committer == None || w.committer == Some(t)) &&
                                          (w'.committer == None || w'.committer == Some(t))))
  {
  }

  lemma BookkeepingAlike(w: World, v: World, t: TxnId, d: map<Rid, Row>, step: Step)
    requires Shape(w) && TxnsOk(w) && Alike(w, v, t, d) && Enabled(w, step) && Bookkeeping(step, t)
    ensures Alike(Next(w, step), v, t, d)
  {
    assert TxnOk(w, t);
    BookkeepingFrame(w, t, step);
    SameRowsAlike(w, Next(w, step), v, t, d);
    OwnStepTxns(w, Next(w, step), v, t);
  }

  lemma SameRowsAlike(w: World, w': World, v: World, t: TxnId, d: map<Rid, Row>)
    requires HeapAlike(w, v, t, d) && w'.heap == w.heap && w'.hist == w.hist && w'.undo == w.undo
    ensures HeapAlike(w', v, t, d)
  {
    forall rid | rid in w'.heap
      ensures RowAlike(w', v, t, rid)
    {
      assert RowAlike(w, v, t, rid);
    }
  }

  lemma TaintAlike(w: World, v: World, t: TxnId, d: map<Rid, Row>, s: TxnId)
    requires Alike(w, v, t, d) && s in w.txns && s in v.txns && w.undo.Keys == w.txns.Keys && v.undo.Keys == v.txns.Keys
    requires w.txns[s].state == Running
    ensures Alike(SetTxn(w, s, w.txns[s].(state := Tainted)), v, t, d)
  {
    var w' := SetTxn(w, s, w.txns[s].(state := Tainted));
    SameRowsAlike(w, w', v, t, d);
    forall o | o != t
      ensures OtherAlike(w', v, o)
    {
      assert OtherAlike(w, v, o);
    }
  }

  // ----- edits of `t` ------------------------------------------------------------------------------------------------

  /** The link of an uncommitted row of `t` leads into `t`'s buffer, to a log that fits. */
  lemma OwnLink(w: World, t: TxnId, rid: Rid)
    requires Chains(w) && Shape(w) && rid in w.heap && w.heap[rid].ts == t && t in w.txns
    ensures t in w.undo
    ensures w.heap[rid].link.Link? ==>
      && w.heap[rid].link.txn == t && w.heap[rid].link.idx < |w.undo[t]|
      && Fits(w.undo[t][w.heap[rid].link.idx], w.heap[rid])
  {
    assert SlotOk(w, w.heap[rid], w.hist[rid]);
  }

  /** The edited row. */
  lemma OwnRowAlike(w: World, v: World, t: TxnId, rid: Rid, target: Option<Row>)
    requires Chains(w) && Shape(w) && Enabled(w, Modify(t, rid, target, false)) && !Conflicts(w, t, rid, false)
    requires RowAlike(w, v, t, rid)
    ensures RowAlike(DoModify(w, t, rid, target, false), v, t, rid)
  {
    if w.heap[rid].ts == t {
      OwnLink(w, t, rid);
      LaterEditBack(w.undo, t, w.heap[rid], target);
    } else {
      FirstEditBack(w.undo, t, w.heap[rid], target);
    }
  }

  /** Another row of `t` keeps its log. */
  lemma OwnOtherRowAlike(w: World, v: World, t: TxnId, rid: Rid, target: Option<Row>, other: Rid)
    requires Chains(w) && Shape(w) && LinksDistinct(w)
    requires Enabled(w, Modify(t, rid, target, false)) && !Conflicts(w, t, rid, false)
    requires other in w.heap && other != rid && RowAlike(w, v, t, other)
    ensures RowAlike(DoModify(w, t, rid, target, false), v, t, other)
  {
    var w' := DoModify(w, t, rid, target, false);
    if w.heap[other].ts == t {
      OwnLink(w, t, other);
      if w.heap[rid].ts == t { OwnLink(w, t, rid); }
      RevertedFrame(w.undo, w'.undo, t, w.heap[other]);
    }
  }

  lemma OwnEditAlike(w: World, v: World, t: TxnId, d: map<Rid, Row>, rid: Rid, target: Option<Row>)
    requires Chains(w) && Shape(w) && LinksDistinct(w) && Alike(w, v, t, d)
    requires Enabled(w, Modify(t, rid, target, false)) && !Conflicts(w, t, rid, false)
    ensures Alike(DoModify(w, t, rid, target, false), v, t, d)
  {
    OwnRowAlike(w, v, t, rid, target);
    forall other | other in w.heap && other != rid
      ensures RowAlike(DoModify(w, t, rid, target, false), v, t, other)
    {
      OwnOtherRowAlike(w, v, t, rid, target, other);
    }
    OwnEditFrame(w, v, t, d, rid, target);
  }

  lemma OwnEditFrame(w: World, v: World, t: TxnId, d: map<Rid, Row>, rid: Rid, target: Option<Row>)
    requires w.undo.Keys == w.txns.Keys && Alike(w, v, t, d)
    requires Enabled(w, Modify(t, rid, target, false)) && !Conflicts(w, t, rid, false)
    requires forall other :: other in w.heap ==>
      other in DoModify(w, t, rid, target, false).heap && RowAlike(DoModify(w, t, rid, target, false), v, t, other)
    ensures Alike(DoModify(w, t, rid, target, false), v, t, d)
  {
    OwnStepTxns(w, DoModify(w, t, rid, target, false), v, t);
  }

  lemma OwnInsertAlike(w: World, v: World, t: TxnId, d: map<Rid, Row>, rid: Rid, row: Row)
    requires Shape(w) && TxnsOk(w) && Alike(w, v, t, d) && Enabled(w, Insert(t, rid, row)) && rid in d && d[rid] == row
    requires t >= TXN_START_ID
    ensures Alike(DoInsert(w, t, rid, row), v, t, d - {rid})
  {
    var w' := DoInsert(w, t, rid, row);
    assert TxnOk(w, t);
    assert Waiting(v, rid, row);
    forall other | other in w'.heap
      ensures RowAlike(w', v, t, other)
    {
      if other != rid { assert RowAlike(w, v, t, other); }
    }
    forall s | s != t
      ensures OtherAlike(w', v, s)
    {
      assert OtherAlike(w, v, s);
    }
  }

  lemma OwnAbortRowAlike(w: World, v: World, t: TxnId, d: map<Rid, Row>, rid: Rid)
    requires Chains(w) && Shape(w) && Alike(w, v, t, d) && Enabled(w, AbortRow(t, rid)) && w.heap[rid].ts == t
    ensures Alike(Next(w, AbortRow(t, rid)), v, t, d)
  {
    UnderCommitted(w, t, rid);
    OwnRevert(w, v, t, d, rid);
  }

  lemma OwnRevert(w: World, v: World, t: TxnId, d: map<Rid, Row>, rid: Rid)
    requires w.undo.Keys == w.txns.Keys && Alike(w, v, t, d) && Enabled(w, AbortRow(t, rid)) && w.heap[rid].ts == t
    requires Under(w, t, rid).ts < t
    ensures Alike(Next(w, AbortRow(t, rid)), v, t, d)
  {
    var w' := Next(w, AbortRow(t, rid));
    forall other | other in w.heap
      ensures RowAlike(w', v, t, other)
    {
      if other == rid { RevertedRowAlike(w, v, t, rid); } else { RowElsewhere(w, v, w', v, t, other); }
    }
    OwnStepTxns(w, w', v, t);
  }

  lemma RevertedRowAlike(w: World, v: World, t: TxnId, rid: Rid)
    requires w.undo.Keys == w.txns.Keys && Enabled(w, AbortRow(t, rid)) && w.heap[rid].ts == t && RowAlike(w, v, t, rid)
    requires Under(w, t, rid).ts < t
    ensures RowAlike(Next(w, AbortRow(t, rid)), v, t, rid)
  {
  }

  /** The end of the abort: only now does the other run show that `t` has gone. */
  lemma OwnFinishAlike(w: World, v: World, t: TxnId, d: map<Rid, Row>)
    requires Shape(w) && Shape(v) && TxnsOk(w) && OwnsOk(w) && Alike(w, v, t, d) && Enabled(w, FinishAbort(t))
    ensures Enabled(v, StartAbort(t)) && Enabled(Next(v, StartAbort(t)), FinishAbort(t))
    ensures Next(v, StartAbort(t)).undo.Keys == Next(v, StartAbort(t)).txns.Keys
    ensures Alike(Next(w, FinishAbort(t)), Next(Next(v, StartAbort(t)), FinishAbort(t)), t, d)
  {
    assert TxnOk(w, t);
    forall rid | rid in w.heap
      ensures w.heap[rid].ts != t
    {
      assert Owns(w.txns[t], t, rid, w.heap[rid].ts, w.last);
    }
    FinishedRows(w, v, t, d);
    FinishedTxns(w, v, t);
  }

  /** The idle transaction, begun and aborted. */
  ghost function AbortedIdle(v: World, t: TxnId): World
    requires t in v.txns
  {
    SetTxn(v, t, v.txns[t].(state := Aborted, phase := Done)).(running := RemoveRead(v.running, v.txns[t].readTs))
  }

  lemma FinishedTxns(w: World, v: World, t: TxnId)
    requires w.undo.Keys == w.txns.Keys && v.undo.Keys == v.txns.Keys && TxnsAlike(w, v, t) && CountersAlike(w, v, t)
    requires Enabled(w, FinishAbort(t)) && LiveIn(w, t) && w.committer != Some(t)
    ensures Enabled(v, StartAbort(t)) && Enabled(Next(v, StartAbort(t)), FinishAbort(t))
    ensures Next(Next(v, StartAbort(t)), FinishAbort(t)) == AbortedIdle(v, t)
    ensures Next(v, StartAbort(t)).undo.Keys == Next(v, StartAbort(t)).txns.Keys
    ensures TxnsAlike(Next(w, FinishAbort(t)), AbortedIdle(v, t), t)
    ensures CountersAlike(Next(w, FinishAbort(t)), AbortedIdle(v, t), t)
  {
    forall s | s != t
      ensures OtherAlike(Next(w, FinishAbort(t)), AbortedIdle(v, t), s)
    {
      assert OtherAlike(w, v, s);
    }
  }

  lemma FinishedRows(w: World, v: World, t: TxnId, d: map<Rid, Row>)
    requires HeapAlike(w, v, t, d) && t in w.txns && t in v.txns && Enabled(w, FinishAbort(t))
      && w.undo.Keys == w.txns.Keys
    requires forall rid :: rid in w.heap ==> w.heap[rid].ts != t
    ensures HeapAlike(Next(w, FinishAbort(t)), AbortedIdle(v, t), t, d)
  {
    forall rid | rid in w.heap
      ensures RowAlike(Next(w, FinishAbort(t)), AbortedIdle(v, t), t, rid)
    {
      RowElsewhere(w, v, Next(w, FinishAbort(t)), AbortedIdle(v, t), t, rid);
    }
    forall rid | rid in d
      ensures Waiting(AbortedIdle(v, t), rid, d[rid])
    {
      assert Waiting(v, rid, d[rid]);
    }
  }

  // ----- steps of others ---------------------------------------------------------------------------------------------

  /** A step that changes one other transaction's record in the same way in both runs. */
  lemma OtherStepTxns(w: World, v: World, w': World, v': World, t: TxnId, s: TxnId)
    requires TxnsAlike(w, v, t) && s != t && s in w.txns && s in v.txns && s in w'.txns && s in v'.txns
    requires w'.txns == w.txns[s := w'.txns[s]] && v'.txns == v.txns[s := v'.txns[s]]
    requires w.undo.Keys == w.txns.Keys && v.undo.Keys == v.txns.Keys
    requires s in w'.undo && s in v'.undo && w'.undo == w.undo[s := w'.undo[s]] && v'.undo == v.undo[s := v'.undo[s]]
    requires TxnLike(w'.txns[s], v'.txns[s]) && v'.undo[s] == w'.undo[s]
    ensures TxnsAlike(w', v', t)
  {
    forall o | o != t
      ensures OtherAlike(w', v', o)
    {
      assert OtherAlike(w, v, o);
    }
  }

  lemma OtherSameRows(w: World, v: World, w': World, v': World, t: TxnId, d: map<Rid, Row>)
    requires HeapAlike(w, v, t, d) && w'.heap == w.heap && w'.hist == w.hist && v'.heap == v.heap && v'.hist == v.hist
    requires t in w.undo ==> t in w'.undo && w'.undo[t] == w.undo[t]
    requires forall rid :: rid in w.heap && w.heap[rid].ts == t ==> t in w.undo
    ensures HeapAlike(w', v', t, d)
  {
    forall rid | rid in w'.heap
      ensures RowAlike(w', v', t, rid)
    {
      assert RowAlike(w, v, t, rid);
    }
  }

  /** An uncommitted row's transaction is in the map. */
  lemma OwnerInMap(w: World, t: TxnId)
    requires Shape(w) && TxnsOk(w) && StampsOk(w) && t >= TXN_START_ID
    ensures forall rid :: rid in w.heap && w.heap[rid].ts == t ==> t in w.undo
  {
    forall rid | rid in w.heap && w.heap[rid].ts == t
      ensures t in w.undo
    {
      assert StampOk(w, w.heap[rid].ts);
      if w.committer.Some? { assert TxnOk(w, w.committer.value); }
    }
  }

  lemma BeginAlike(w: World, v: World, t: TxnId, d: map<Rid, Row>, isolation: Isolation)
    requires Shape(w) && Shape(v) && TxnsOk(w) && StampsOk(w) && Alike(w, v, t, d) && t >= TXN_START_ID
    ensures Alike(DoBegin(w, isolation), DoBegin(v, isolation), t, d)
  {
    var w', v' := DoBegin(w, isolation), DoBegin(v, isolation);
    assert w.next !in w.txns && v.next !in v.txns;
    OwnerInMap(w, t);
    OtherSameRows(w, v, w', v', t, d);
    forall s | s != t
      ensures OtherAlike(w', v', s)
    {
      assert OtherAlike(w, v, s);
    }
  }

  /** Steps of others that touch no row and take no part in `Commit`'s decision. */
  predicate OtherBookkeeping(step: Step) {
    step.RecordScan? || step.FinishVerify? || step.StartAbort? || step.FinishAbort?
  }

  lemma OtherBookkeepingTxn(w: World, v: World, t: TxnId, step: Step)
    requires Shape(w) && Shape(v) && CountersAlike(w, v, t) && Enabled(w, step) && OtherBookkeeping(step) && step.t != t
    requires step.t in w.txns && TxnOk(w, step.t) && OtherAlike(w, v, step.t)
    ensures Enabled(v, step) && step.t in v.txns
    ensures var s, w', v' := step.t, Next(w, step), Next(v, step);
      && w'.txns == w.txns[s := w'.txns[s]] && v'.txns == v.txns[s := v'.txns[s]] && TxnLike(w'.txns[s], v'.txns[s])
      && w'.undo == w.undo && v'.undo == v.undo && CountersAlike(w', v', t)
      && w'.heap == w.heap && w'.hist == w.hist && v'.heap == v.heap && v'.hist == v.hist
  {
  }

  lemma OtherBookkeepingAlike(w: World, v: World, t: TxnId, d: map<Rid, Row>, step: Step)
    requires Books(w) && Shape(v) && Alike(w, v, t, d) && t >= TXN_START_ID
    requires Enabled(w, step) && OtherBookkeeping(step) && step.t != t
    ensures Enabled(v, step) && Alike(Next(w, step), Next(v, step), t, d)
  {
    assert OtherAlike(w, v, step.t) && TxnOk(w, step.t);
    OwnerInMap(w, t);
    OtherBookkeepingTxn(w, v, t, step);
    OtherSameRows(w, v, Next(w, step), Next(v, step), t, d);
    OtherStepTxns(w, v, Next(w, step), Next(v, step), t, step.t);
  }

  /** Starting to commit, and checking one row: the state is `Running`, so the records are equal. */
  lemma StartCommitAlike(w: World, v: World, t: TxnId, d: map<Rid, Row>, s: TxnId)
    requires Books(w) && Shape(v) && Alike(w, v, t, d) && t >= TXN_START_ID && Enabled(w, StartCommit(s)) && s != t
    ensures Enabled(v, StartCommit(s)) && Alike(Next(w, StartCommit(s)), Next(v, StartCommit(s)), t, d)
  {
    assert OtherAlike(w, v, s);
    OwnerInMap(w, t);
    SameChangedRows(w, v, t, w.txns[s]);
    StartedAlike(w, v, t, d, s);
  }

  lemma StartedAlike(w: World, v: World, t: TxnId, d: map<Rid, Row>, s: TxnId)
    requires w.undo.Keys == w.txns.Keys && v.undo.Keys == v.txns.Keys && Alike(w, v, t, d) && s != t
    requires Enabled(w, StartCommit(s)) && OtherAlike(w, v, s)
    requires forall rid :: rid in w.heap && w.heap[rid].ts == t ==> t in w.undo
    requires s in v.txns && ChangedRows(v.txns, v.txns[s]) == ChangedRows(w.txns, w.txns[s])
    ensures Enabled(v, StartCommit(s)) && Alike(Next(w, StartCommit(s)), Next(v, StartCommit(s)), t, d)
  {
    OtherSameRows(w, v, DoStartCommit(w, s), DoStartCommit(v, s), t, d);
    OtherStepTxns(w, v, DoStartCommit(w, s), DoStartCommit(v, s), t, s);
  }

  lemma SameChangedRows(w: World, v: World, t: TxnId, x: Txn)
    requires TxnsAlike(w, v, t) && w.undo.Keys == w.txns.Keys && v.undo.Keys == v.txns.Keys
    ensures ChangedRows(v.txns, x) == ChangedRows(w.txns, x)
  {
    forall o
      ensures (o in w.txns && w.txns[o].state == Committed) <==> (o in v.txns && v.txns[o].state == Committed)
      ensures o in w.txns && o in v.txns && w.txns[o].state == Committed ==> v.txns[o] == w.txns[o]
    {
      if o != t { assert OtherAlike(w, v, o); }
    }
    ChangedRowsWithin(w.txns, v.txns, x);
    ChangedRowsWithin(v.txns, w.txns, x);
  }

  lemma ChangedRowsWithin(a: map<TxnId, Txn>, b: map<TxnId, Txn>, x: Txn)
    requires forall o :: o in a && a[o].state == Committed ==> o in b && b[o] == a[o]
    ensures ChangedRows(a, x) <= ChangedRows(b, x)
  {
    forall rid | rid in ChangedRows(a, x)
      ensures rid in ChangedRows(b, x)
    {
      var o :| o in a && rid in a[o].writes && a[o].state == Committed && a[o].commitTs > x.readTs
               && exists k :: 0 <= k < |x.scans| && x.scans[k].table == rid.table;
      assert o in b && b[o] == a[o];
    }
  }
}
