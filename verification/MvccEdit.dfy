/** The steps that write rows - `Insert` and `Modify` - keep `Core`. */
module MvccEdit {
  import opened Sql
  import opened Undo
  import opened Chain
  import opened Mvcc
  import opened MvccCore

  // ----- chains --------------------------------------------------------------------------------------

  /** The first edit of a committed row puts a pending version on top of its history. */
  lemma FirstEditChain(u: Buffers, floor: int, v: Slot, h: History, t: TxnId, readTs: int, target: Option<Row>)
    requires Represents(u, floor, v, h) && t in u && v.ts != t
    requires target.Some? ==> |target.value| == |v.row|
    ensures var (logs, link) := Logged(u[t], t, v, target);
            var v' := Edited(t, v, target, link);
            Represents(u[t := logs], floor, v', Pending(h, v', t, readTs))
  {
    var log := NewLog(|v.row|, Content(v), target, v.ts, v.link);
    var (logs, link) := Logged(u[t], t, v, target);
    var v' := Edited(t, v, target, link);
    var p := Pending(h, v', t, readTs);
    assert p[..|p| - 1] == h;
    if v.deleted {
      TombstoneBytes(u, floor, v, h, v'.row);
      RestoreTombstone(v'.row, log);
      assert Down(v', log) == v.(row := v'.row);
    } else {
      NewLogRestores(v.row, target, v'.row, v.ts, v.link);
      assert Down(v', log) == v;
    }
    RepresentsAppend(u, floor, Down(v', log), h, t, logs);
  }

  /** One more edit of a row the transaction has already written replaces its pending version. */
  lemma ReEditChain(u: Buffers, floor: int, v: Slot, h: History, t: TxnId, readTs: int, target: Option<Row>)
    requires Represents(u, floor, v, Pending(h, v, t, readTs)) && NotWriter(h, t) && t in u && v.ts == t
    requires target.Some? ==> |target.value| == |v.row|
    ensures var (logs, link) := Logged(u[t], t, v, target);
            var v' := Edited(t, v, target, link);
            Represents(u[t := logs], floor, v', Pending(h, v', t, readTs))
  {
    var (logs, link) := Logged(u[t], t, v, target);
    var v' := Edited(t, v, target, link);
    var p, p' := Pending(h, v, t, readTs), Pending(h, v', t, readTs);
    assert p[..|p| - 1] == h && p'[..|p'| - 1] == h;
    if v.link.Link? {
      var log, log' := u[t][link.idx], logs[link.idx];
      if log.deleted {
        RestoreTombstone(v.row, log);
        RestoreTombstone(v'.row, log);
        TombstoneBytes(u, floor, Down(v, log), h, v'.row);
        assert Down(v', log') == Down(v, log).(row := v'.row);
      } else {
        ReEditRestores(v, log, target);
        assert Down(v', log') == Down(v, log);
      }
      RepresentsFrame(u, floor, Down(v', log'), h, t, logs);
    } else {
      assert u[t := logs] == u;
    }
  }

  lemma ReEditRestores(v: Slot, log: UndoLog, target: Option<Row>)
    requires Fits(log, v) && !log.deleted
    requires target.Some? ==> |target.value| == |v.row|
    ensures var log' := UpdatedLog(log, Content(v), target);
            && WellFormed(log', |v.row|) && !log'.deleted && log'.ts == log.ts && log'.prev == log.prev
            && Restore(Written(v.row, target), log') == Restore(v.row, log)
            && (target.None? ==> Full(log'))
  {
    var bytes := Written(v.row, target);
    if v.deleted {
      FullRestores(log, bytes, v.row);
    }
    UpdatedLogRestores(log, Content(v), target, bytes, Restore(v.row, log));
  }

  /** The buffer and the slot after a sequence of edits by `t`. */
  ghost function EditAll(logs: seq<UndoLog>, t: TxnId, v: Slot, edits: seq<Edit>): (seq<UndoLog>, Slot)
    requires forall k :: 0 <= k < |edits| && edits[k].Some? ==> |edits[k].value| == |v.row|
    decreases |edits|
  {
    if edits == [] then (logs, v)
    else
      var (next, link) := Logged(logs, t, v, edits[0]);
      EditAll(next, t, Edited(t, v, edits[0], link), edits[1..])
  }

  /** The slot is as it was before `t` touched it; only bytes behind a tombstone may differ. */
  ghost predicate SameVersion(a: Slot, b: Slot) {
    a.ts == b.ts && a.deleted == b.deleted && a.link == b.link && (!b.deleted ==> a.row == b.row)
  }

  /** The log kept for a row leads back to the slot `before` the transaction. */
  ghost predicate LeadsBack(log: UndoLog, v: Slot, before: Slot) {
    && Fits(log, v) && SameVersion(Down(v, log), before)
  }

  lemma {:induction false} EditsLeadBack(logs: seq<UndoLog>, t: TxnId, v: Slot, edits: seq<Edit>, before: Slot)
    requires forall k :: 0 <= k < |edits| && edits[k].Some? ==> |edits[k].value| == |v.row|
    requires v.ts == t && v.link.Link? && v.link.txn == t && v.link.idx < |logs|
      && LeadsBack(logs[v.link.idx], v, before)
    ensures var (logs', v') := EditAll(logs, t, v, edits);
      v'.ts == t && v'.link == v.link && v.link.idx < |logs'| && LeadsBack(logs'[v.link.idx], v', before)
    decreases |edits|
  {
    if edits != [] {
      var log := logs[v.link.idx];
      var (next, link) := Logged(logs, t, v, edits[0]);
      var v1 := Edited(t, v, edits[0], link);
      if !log.deleted {
        ReEditRestores(v, log, edits[0]);
      }
      EditsLeadBack(next, t, v1, edits[1..], before);
    }
  }

  /**
   * Abort is a no-op on a row. Whatever sequence of updates, deletions and re-insertions the
   * transaction made, taking the row back restores its timestamp, tombstone flag, link and live columns.
   */
  lemma AbortUndoesEdits(u: Buffers, t: TxnId, v: Slot, edits: seq<Edit>)
    requires t in u && v.ts != t && edits != []
    requires forall k :: 0 <= k < |edits| && edits[k].Some? ==> |edits[k].value| == |v.row|
    ensures var (logs, v') := EditAll(u[t], t, v, edits);
            SameVersion(Reverted(u[t := logs], t, v'), v)
  {
    var log := NewLog(|v.row|, Content(v), edits[0], v.ts, v.link);
    var (next, link) := Logged(u[t], t, v, edits[0]);
    var v1 := Edited(t, v, edits[0], link);
    if !v.deleted {
      NewLogRestores(v.row, edits[0], v1.row, v.ts, v.link);
    }
    assert LeadsBack(log, v1, v);
    EditsLeadBack(next, t, v1, edits[1..], v);
  }

  /** Another row of the same transaction does not see one of the transaction's logs replaced. */
  lemma OtherPendingChain(
      u: Buffers, floor: int, v: Slot, h: History, t: TxnId, readTs: int, i: nat, log: UndoLog)
    requires Represents(u, floor, v, Pending(h, v, t, readTs)) && NotWriter(h, t) && t in u && i < |u[t]|
    requires v.link.Link? ==> v.link.idx != i
    ensures Represents(u[t := u[t][i := log]], floor, v, Pending(h, v, t, readTs))
  {
    var p := Pending(h, v, t, readTs);
    assert p[..|p| - 1] == h;
    if v.link.Link? {
      RepresentsFrame(u, floor, Down(v, u[t][v.link.idx]), h, t, u[t][i := log]);
    }
  }

  /** All slots are right when the changed one is and the others are. */
  lemma SlotsFromRest(heap: map<Rid, Slot>, w': World, rid: Rid)
    requires w'.hist.Keys == w'.heap.Keys && rid in w'.heap && w'.heap == heap[rid := w'.heap[rid]]
    requires SlotOk(w', w'.heap[rid], w'.hist[rid])
    requires forall r :: r in heap && r != rid ==> SlotOk(w', heap[r], w'.hist[r])
    ensures SlotsOk(w')
  {
    forall r | r in w'.heap
      ensures SlotOk(w', w'.heap[r], w'.hist[r])
    {
      if r != rid { assert w'.heap[r] == heap[r]; }
    }
  }

  // ----- Insert ----------------------------------------------------------------------------------------

  lemma InsertOwns(w: World, t: TxnId, rid: Rid, row: Row)
    requires Shape(w) && TxnsOk(w) && OwnsOk(w) && Enabled(w, Insert(t, rid, row))
    ensures OwnsOk(Next(w, Insert(t, rid, row)))
  {
    var w' := Next(w, Insert(t, rid, row));
    forall s, r | s in w'.txns && r in w'.heap
      ensures Owns(w'.txns[s], s, r, w'.heap[r].ts, w'.last)
    {
      assert TxnOk(w, s);
      if r != rid { assert Owns(w.txns[s], s, r, w.heap[r].ts, w.last); }
    }
  }

  lemma InsertTxns(w: World, t: TxnId, rid: Rid, row: Row)
    requires Shape(w) && TxnsOk(w) && StampsOk(w) && Enabled(w, Insert(t, rid, row))
    ensures TxnsOk(Next(w, Insert(t, rid, row))) && StampsOk(Next(w, Insert(t, rid, row)))
  {
    var w' := Next(w, Insert(t, rid, row));
    forall s | s in w'.txns
      ensures TxnOk(w', s)
    {
      assert TxnOk(w, s);
    }
    forall r | r in w'.heap
      ensures StampOk(w', w'.heap[r].ts)
    {
      if r != rid { assert StampOk(w, w.heap[r].ts); }
    }
  }

  lemma InsertBooks(w: World, t: TxnId, rid: Rid, row: Row)
    requires Books(w) && Enabled(w, Insert(t, rid, row))
    ensures Books(Next(w, Insert(t, rid, row)))
  {
    InsertOwns(w, t, rid, row);
    InsertTxns(w, t, rid, row);
    InsertLinks(w, t, rid, row);
  }

  lemma InsertLinks(w: World, t: TxnId, rid: Rid, row: Row)
    requires Shape(w) && LinksDistinct(w) && Enabled(w, Insert(t, rid, row))
    ensures Shape(Next(w, Insert(t, rid, row))) && LinksDistinct(Next(w, Insert(t, rid, row)))
  {
  }

  lemma InsertOtherSlots(w: World, t: TxnId, rid: Rid, row: Row)
    requires Chains(w) && Enabled(w, Insert(t, rid, row)) && w.undo.Keys == w.txns.Keys
    requires StampsOk(Next(w, Insert(t, rid, row)))
    ensures forall r :: r in w.heap ==> SlotOk(Next(w, Insert(t, rid, row)), w.heap[r], w.hist[r])
  {
    var w' := Next(w, Insert(t, rid, row));
    forall r | r in w.heap
      ensures SlotOk(w', w.heap[r], w.hist[r])
    {
      assert w'.heap[r] == w.heap[r];
      assert StampOk(w', w'.heap[r].ts);
      SlotFrame(w, w', w.heap[r], w.hist[r]);
    }
  }

  lemma InsertHists(w: World, t: TxnId, rid: Rid, row: Row)
    requires HistsOk(w) && Enabled(w, Insert(t, rid, row)) && 0 <= w.last && 0 <= w.next && -1 !in w.txns
    ensures HistsOk(DoInsert(w, t, rid, row))
  {
    var w' := DoInsert(w, t, rid, row);
    forall r | r in w'.hist
      ensures HistOk(w', w'.hist[r])
    {
      if r != rid { assert HistOk(w, w.hist[r]); }
    }
  }

  lemma InsertChains(w: World, t: TxnId, rid: Rid, row: Row)
    requires Chains(w) && Enabled(w, Insert(t, rid, row)) && TXN_START_ID <= t && w.undo.Keys == w.txns.Keys
    requires 0 <= w.last < t && 0 <= w.txns[t].readTs && StampsOk(Next(w, Insert(t, rid, row)))
    requires 0 <= w.next && -1 !in w.txns
    ensures Chains(Next(w, Insert(t, rid, row)))
  {
    InsertOtherSlots(w, t, rid, row);
    SlotsFromRest(w.heap, Next(w, Insert(t, rid, row)), rid);
    InsertHists(w, t, rid, row);
  }

  // ----- Modify ------------------------------------------------------------------------------------------

  lemma ModifyOwns(w: World, t: TxnId, rid: Rid, target: Option<Row>)
    requires Books(w) && Enabled(w, Modify(t, rid, target, false)) && !Conflicts(w, t, rid, false)
    ensures OwnsOk(DoModify(w, t, rid, target, false)) && StampsOk(DoModify(w, t, rid, target, false))
  {
    var w' := DoModify(w, t, rid, target, false);
    forall s, r | s in w'.txns && r in w'.heap
      ensures Owns(w'.txns[s], s, r, w'.heap[r].ts, w'.last)
    {
      assert TxnOk(w, s) && TxnOk(w, t);
      assert Owns(w.txns[s], s, r, w.heap[r].ts, w.last);
    }
    forall r | r in w'.heap
      ensures StampOk(w', w'.heap[r].ts)
    {
      assert StampOk(w, w.heap[r].ts);
    }
  }

  lemma ModifyTxns(w: World, t: TxnId, rid: Rid, target: Option<Row>)
    requires Shape(w) && TxnsOk(w) && Enabled(w, Modify(t, rid, target, false)) && !Conflicts(w, t, rid, false)
    ensures Shape(DoModify(w, t, rid, target, false)) && TxnsOk(DoModify(w, t, rid, target, false))
  {
    var w' := DoModify(w, t, rid, target, false);
    forall s | s in w'.txns
      ensures TxnOk(w', s)
    {
      assert TxnOk(w, s);
    }
  }

  /** One row gets a link that is its old one, or that no other uncommitted row has. */
  lemma OneLinkChanged(w: World, w': World, rid: Rid)
    requires LinksDistinct(w) && rid in w.heap && rid in w'.heap && w'.heap == w.heap[rid := w'.heap[rid]]
      && w'.last == w.last
    requires (w'.heap[rid].link == w.heap[rid].link && w.heap[rid].ts > w.last)
      || forall r :: r in w.heap && w.heap[r].ts > w.last && r != rid ==> w.heap[r].link != w'.heap[rid].link
    ensures LinksDistinct(w')
  {
  }

  /** A fresh link points past every link in use; a replaced log keeps its link. */
  lemma ModifyLinks(w: World, t: TxnId, rid: Rid, target: Option<Row>)
    requires LinksDistinct(w) && Chains(w) && w.undo.Keys == w.txns.Keys && w.last < t
    requires Enabled(w, Modify(t, rid, target, false)) && !Conflicts(w, t, rid, false) && w.txns[t].readTs <= w.last
    ensures LinksDistinct(DoModify(w, t, rid, target, false))
  {
    if w.heap[rid].ts != t {
      forall r | r in w.heap && w.heap[r].ts > w.last
        ensures w.heap[r].link != Link(t, |w.undo[t]|)
      {
        LinkInRange(w, r, t);
      }
    }
    ModifyFrame(w, t, rid, target);
    OneLinkChanged(w, DoModify(w, t, rid, target, false), rid);
  }

  lemma LinkInRange(w: World, r: Rid, t: TxnId)
    requires Chains(w) && r in w.heap && t in w.undo
    ensures w.heap[r].link.Link? && w.heap[r].link.txn == t ==> w.heap[r].link.idx < |w.undo[t]|
  {
    assert SlotOk(w, w.heap[r], w.hist[r]);
  }

  lemma ModifyBooks(w: World, t: TxnId, rid: Rid, target: Option<Row>)
    requires Books(w) && Chains(w) && Enabled(w, Modify(t, rid, target, false)) && !Conflicts(w, t, rid, false)
    ensures Books(DoModify(w, t, rid, target, false))
  {
    ModifyOwns(w, t, rid, target);
    ModifyTxns(w, t, rid, target);
    ModifyLinks(w, t, rid, target);
  }

  /** What `Modify` does to the edited row's chain. */
  lemma ModifySlot(w: World, t: TxnId, rid: Rid, target: Option<Row>)
    requires Chains(w) && Enabled(w, Modify(t, rid, target, false)) && !Conflicts(w, t, rid, false)
    requires TXN_START_ID <= t && w.undo.Keys == w.txns.Keys && 0 <= w.last < TXN_START_ID
    requires w.txns[t].readTs <= w.last && w.txns[t].state != Committed
    ensures var w' := DoModify(w, t, rid, target, false);
            SlotOk(w', w'.heap[rid], w'.hist[rid])
  {
    var v, h := w.heap[rid], w.hist[rid];
    assert SlotOk(w, v, h) && HistOk(w, h);
    if v.ts == t {
      assert NotWriter(h, t);
      ReEditChain(w.undo, w.floor, v, h, t, w.txns[t].readTs, target);
    } else {
      FirstEditChain(w.undo, w.floor, v, h, t, w.txns[t].readTs, target);
    }
  }

  /** What `Modify` does to every other row's chain: nothing. */
  lemma ModifyOtherSlot(w: World, t: TxnId, rid: Rid, target: Option<Row>, r: Rid)
    requires Enabled(w, Modify(t, rid, target, false)) && !Conflicts(w, t, rid, false)
    requires w.undo.Keys == w.txns.Keys && LinksDistinct(w)
    requires w.txns[t].phase == Active && w.txns[t].state != Committed && w.committer != Some(t) && w.last < t
    requires r in w.heap && r != rid && w.hist.Keys == w.heap.Keys
    requires SlotOk(w, w.heap[r], w.hist[r]) && HistOk(w, w.hist[r]) && StampOk(w, w.heap[rid].ts)
    ensures SlotOk(DoModify(w, t, rid, target, false), w.heap[r], w.hist[r])
  {
    var w' := DoModify(w, t, rid, target, false);
    var v, h, e := w.heap[r], w.hist[r], w.heap[rid];
    var logs := w'.undo[t];
    assert NotWriter(h, t);
    assert StampOk(w', v.ts);
    if v.ts <= w.last {
      RepresentsFrame(w.undo, w.floor, v, h, t, logs);
    } else {
      var s := WriterOf(w, v.ts);
      var p := Pending(h, v, s, w.txns[s].readTs);
      assert WriterOf(w', v.ts) == s && w'.txns[s].readTs == w.txns[s].readTs;
      if s != t {
        RepresentsFrame(w.undo, w.floor, v, p, t, logs);
      } else if e.ts != t {
        RepresentsAppend(w.undo, w.floor, v, p, t, logs);
      } else if logs != w.undo[t] {
        OtherPendingChain(w.undo, w.floor, v, h, t, w.txns[t].readTs, e.link.idx, logs[e.link.idx]);
      } else {
        assert w'.undo == w.undo;
      }
    }
  }

  lemma ModifyOtherSlots(w: World, t: TxnId, rid: Rid, target: Option<Row>)
    requires Chains(w) && Enabled(w, Modify(t, rid, target, false)) && !Conflicts(w, t, rid, false)
    requires w.undo.Keys == w.txns.Keys && LinksDistinct(w)
    requires w.txns[t].state != Committed && w.committer != Some(t) && w.last < t && StampOk(w, w.heap[rid].ts)
    ensures forall r :: r in w.heap && r != rid ==> SlotOk(DoModify(w, t, rid, target, false), w.heap[r], w.hist[r])
  {
    forall r | r in w.heap && r != rid
      ensures SlotOk(DoModify(w, t, rid, target, false), w.heap[r], w.hist[r])
    {
      assert HistOk(w, w.hist[r]);
      ModifyOtherSlot(w, t, rid, target, r);
    }
  }

  lemma ModifyHists(w: World, t: TxnId, rid: Rid, target: Option<Row>)
    requires HistsOk(w) && Enabled(w, Modify(t, rid, target, false)) && t in w.undo
    requires !Conflicts(w, t, rid, false)
    ensures HistsOk(DoModify(w, t, rid, target, false))
  {
    HistsFrame(w, DoModify(w, t, rid, target, false));
  }

  lemma ModifyChains(w: World, t: TxnId, rid: Rid, target: Option<Row>)
    requires Chains(w) && Enabled(w, Modify(t, rid, target, false)) && !Conflicts(w, t, rid, false)
    requires w.undo.Keys == w.txns.Keys && LinksDistinct(w) && TxnOk(w, t) && StampOk(w, w.heap[rid].ts)
    requires TXN_START_ID <= t && 0 <= w.last < TXN_START_ID
    ensures Chains(DoModify(w, t, rid, target, false))
  {
    ModifySlot(w, t, rid, target);
    ModifyOtherSlots(w, t, rid, target);
    ModifyFrame(w, t, rid, target);
    SlotsFromRest(w.heap, DoModify(w, t, rid, target, false), rid);
    ModifyHists(w, t, rid, target);
  }

  lemma ModifyFrame(w: World, t: TxnId, rid: Rid, target: Option<Row>)
    requires Enabled(w, Modify(t, rid, target, false)) && !Conflicts(w, t, rid, false) && w.undo.Keys == w.txns.Keys
    ensures var w' := DoModify(w, t, rid, target, false);
      && w'.hist == w.hist && w'.heap.Keys == w.heap.Keys && rid in w'.heap && w'.heap == w.heap[rid := w'.heap[rid]]
  {
  }
}
