/** The steps of other transactions in the two runs that `MvccErase` relates: edits, commits, aborts, collections. */
module MvccEraseSteps {
  import opened Sql
  import opened Undo
  import opened Chain
  import opened Watermarks
  import opened Mvcc
  import opened MvccCore
  import opened MvccFinish
  import opened MvccInv
  import opened MvccSerial
  import opened MvccErase

  // ----- edits -------------------------------------------------------------------------------------------------------

  /** The same edit of the same version writes the same log. */
  lemma SameLog(logs: seq<UndoLog>, s: TxnId, a: Slot, b: Slot, target: Option<Row>)
    requires SlotLike(b, a) && (target.Some? ==> |target.value| == |a.row|)
    ensures Logged(logs, s, b, target) == Logged(logs, s, a, target)
    ensures var link := Logged(logs, s, a, target).1; SlotLike(Edited(s, b, target, link), Edited(s, a, target, link))
  {
  }

  /** Rows other than one keep what they had in both runs. */
  lemma OneRowChanged(w: World, v: World, w': World, v': World, t: TxnId, d: map<Rid, Row>, rid: Rid)
    requires HeapAlike(w, v, t, d) && rid in w.heap && rid in w'.heap && rid in v'.heap
    requires w'.heap == w.heap[rid := w'.heap[rid]] && v'.heap == v.heap[rid := v'.heap[rid]]
    requires w'.hist == w.hist && v'.hist == v.hist
    requires forall r :: r in w.heap && w.heap[r].ts == t ==> t in w.undo
    requires t in w.undo ==> t in w'.undo && w'.undo[t] == w.undo[t]
    requires w'.heap[rid].ts != t && SlotLike(v'.heap[rid], w'.heap[rid])
    ensures HeapAlike(w', v', t, d)
  {
    assert w'.heap.Keys == w.heap.Keys && v'.heap.Keys == v.heap.Keys;
    RowsElsewhere(w, v, w', v', t, rid);
    StillWaiting(w, v, v', t, d, rid);
  }

  lemma RowsElsewhere(w: World, v: World, w': World, v': World, t: TxnId, rid: Rid)
    requires rid in w.heap && (forall r :: r in w.heap ==> RowAlike(w, v, t, r)) && rid in w'.heap && rid in v'.heap
    requires w'.heap == w.heap[rid := w'.heap[rid]] && v'.heap == v.heap[rid := v'.heap[rid]]
    requires w'.hist == w.hist && v'.hist == v.hist
    requires forall r :: r in w.heap && w.heap[r].ts == t ==> t in w.undo
    requires t in w.undo ==> t in w'.undo && w'.undo[t] == w.undo[t]
    requires w'.heap[rid].ts != t && SlotLike(v'.heap[rid], w'.heap[rid])
    ensures forall r :: r in w'.heap ==> RowAlike(w', v', t, r)
  {
    forall r | r in w'.heap
      ensures RowAlike(w', v', t, r)
    {
      if r == rid { assert RowAlike(w, v, t, rid); } else { RowElsewhere(w, v, w', v', t, r); }
    }
  }

  lemma StillWaiting(w: World, v: World, v': World, t: TxnId, d: map<Rid, Row>, rid: Rid)
    requires HeapAlike(w, v, t, d) && rid in w.heap && rid in v'.heap
    requires v'.heap == v.heap[rid := v'.heap[rid]] && v'.hist == v.hist
    ensures forall r :: r in d ==> Waiting(v', r, d[r])
  {
    forall r | r in d
      ensures Waiting(v', r, d[r])
    {
      assert Waiting(v, r, d[r]) && r != rid;
    }
  }

  lemma SameConflicts(w: World, v: World, t: TxnId, s: TxnId, rid: Rid, requireDeleted: bool)
    requires s != t && s in w.txns && s in v.txns && rid in w.heap && RowAlike(w, v, t, rid) && w.heap[rid].ts != t
    requires v.txns[s].readTs == w.txns[s].readTs
    ensures Conflicts(v, s, rid, requireDeleted) <==> Conflicts(w, s, rid, requireDeleted)
  {
  }

  /** Running into the same conflict taints in both runs. */
  lemma OtherConflictAlike(w: World, v: World, t: TxnId, d: map<Rid, Row>, s: TxnId)
    requires Books(w) && Shape(v) && Alike(w, v, t, d) && t >= TXN_START_ID && s != t
    requires s in w.txns && s in v.txns && w.txns[s].state == Running
    ensures Alike(SetTxn(w, s, w.txns[s].(state := Tainted)), SetTxn(v, s, v.txns[s].(state := Tainted)), t, d)
  {
    assert OtherAlike(w, v, s);
    OwnerInMap(w, t);
    var w', v' := SetTxn(w, s, w.txns[s].(state := Tainted)), SetTxn(v, s, v.txns[s].(state := Tainted));
    OtherSameRows(w, v, w', v', t, d);
    OtherStepTxns(w, v, w', v', t, s);
  }

  /** What an edit by `s` writes in the two runs. */
  lemma OtherEditOutcome(w: World, v: World, t: TxnId, s: TxnId, rid: Rid, target: Option<Row>)
    requires Enabled(w, Modify(s, rid, target, false)) && Enabled(v, Modify(s, rid, target, false)) && s != t
    requires !Conflicts(w, s, rid, false) && !Conflicts(v, s, rid, false)
    requires w.undo.Keys == w.txns.Keys && v.undo.Keys == v.txns.Keys
    requires RowAlike(w, v, t, rid) && OtherAlike(w, v, s) && w.heap[rid].ts != t
    ensures var w', v' := DoModify(w, s, rid, target, false), DoModify(v, s, rid, target, false);
      && v'.undo[s] == w'.undo[s] && w'.heap[rid].ts == s && SlotLike(v'.heap[rid], w'.heap[rid])
      && w'.heap == w.heap[rid := w'.heap[rid]] && v'.heap == v.heap[rid := v'.heap[rid]]
      && w'.undo == w.undo[s := w'.undo[s]] && v'.undo == v.undo[s := v'.undo[s]]
      && w'.txns == w.txns[s := w'.txns[s]] && v'.txns == v.txns[s := v'.txns[s]] && TxnLike(w'.txns[s], v'.txns[s])
      && w'.hist == w.hist && v'.hist == v.hist
  {
    SameLog(w.undo[s], s, w.heap[rid], v.heap[rid], target);
  }

  lemma OtherEditAlike(w: World, v: World, t: TxnId, d: map<Rid, Row>, s: TxnId, rid: Rid, target: Option<Row>)
    requires Books(w) && Shape(v) && Alike(w, v, t, d) && t >= TXN_START_ID && s != t
    requires Enabled(w, Modify(s, rid, target, false)) && Enabled(v, Modify(s, rid, target, false))
    requires !Conflicts(w, s, rid, false) && !Conflicts(v, s, rid, false) && w.heap[rid].ts != t
    ensures Alike(DoModify(w, s, rid, target, false), DoModify(v, s, rid, target, false), t, d)
  {
    assert OtherAlike(w, v, s) && RowAlike(w, v, t, rid);
    var w', v' := DoModify(w, s, rid, target, false), DoModify(v, s, rid, target, false);
    OwnerInMap(w, t);
    OtherEditOutcome(w, v, t, s, rid, target);
    OneRowChanged(w, v, w', v', t, d, rid);
    OtherStepTxns(w, v, w', v', t, s);
  }

  lemma SameEnabled(w: World, v: World, t: TxnId, s: TxnId, rid: Rid, target: Option<Row>, requireDeleted: bool)
    requires w.undo.Keys == w.txns.Keys && v.undo.Keys == v.txns.Keys
    requires Enabled(w, Modify(s, rid, target, requireDeleted)) && s != t && w.heap[rid].ts != t
    requires OtherAlike(w, v, s) && RowAlike(w, v, t, rid)
    ensures Enabled(v, Modify(s, rid, target, requireDeleted))
    ensures Conflicts(v, s, rid, requireDeleted) <==> Conflicts(w, s, rid, requireDeleted)
  {
    SameConflicts(w, v, t, s, rid, requireDeleted);
  }

  lemma OtherModifyAlike(
      w: World, v: World, t: TxnId, d: map<Rid, Row>, s: TxnId, rid: Rid, target: Option<Row>, requireDeleted: bool)
    requires Books(w) && Shape(v) && Alike(w, v, t, d) && t >= TXN_START_ID && s != t
    requires Enabled(w, Modify(s, rid, target, requireDeleted)) && w.heap[rid].ts != t
    ensures var step := Modify(s, rid, target, requireDeleted);
      Enabled(v, step) && Alike(Next(w, step), Next(v, step), t, d)
  {
    assert OtherAlike(w, v, s) && RowAlike(w, v, t, rid);
    SameEnabled(w, v, t, s, rid, target, requireDeleted);
    if Conflicts(w, s, rid, requireDeleted) {
      OtherConflictAlike(w, v, t, d, s);
    } else {
      ModifyConflictFree(w, s, rid, target, requireDeleted);
      ModifyConflictFree(v, s, rid, target, requireDeleted);
      OtherEditAlike(w, v, t, d, s, rid, target);
    }
  }

  lemma OtherInsertAlike(w: World, v: World, t: TxnId, d: map<Rid, Row>, s: TxnId, rid: Rid, row: Row)
    requires Books(w) && Shape(v) && Alike(w, v, t, d) && t >= TXN_START_ID && s != t
    requires Enabled(w, Insert(s, rid, row)) && rid !in d
    ensures Enabled(v, Insert(s, rid, row)) && Alike(Next(w, Insert(s, rid, row)), Next(v, Insert(s, rid, row)), t, d)
  {
    assert OtherAlike(w, v, s);
    OwnerInMap(w, t);
    InsertedRowsAlike(w, v, t, d, s, rid, row);
    OtherStepTxns(w, v, DoInsert(w, s, rid, row), DoInsert(v, s, rid, row), t, s);
  }

  lemma InsertedRowsAlike(w: World, v: World, t: TxnId, d: map<Rid, Row>, s: TxnId, rid: Rid, row: Row)
    requires HeapAlike(w, v, t, d) && w.hist.Keys == w.heap.Keys && t >= TXN_START_ID && s != t
    requires s in w.txns && s in v.txns && rid !in w.heap && rid !in d
    requires forall r :: r in w.heap && w.heap[r].ts == t ==> t in w.undo
    ensures HeapAlike(DoInsert(w, s, rid, row), DoInsert(v, s, rid, row), t, d)
  {
    SlotAdded(w, v, DoInsert(w, s, rid, row), DoInsert(v, s, rid, row), t, d, rid);
  }

  lemma SlotAdded(w: World, v: World, w': World, v': World, t: TxnId, d: map<Rid, Row>, rid: Rid)
    requires HeapAlike(w, v, t, d) && rid in w'.heap && rid !in w.heap && rid !in d && rid in w'.hist
    requires w'.heap == w.heap[rid := w'.heap[rid]] && w'.hist == w.hist[rid := w'.hist[rid]] && w'.undo == w.undo
    requires v'.heap == v.heap[rid := w'.heap[rid]] && v'.hist == v.hist[rid := w'.hist[rid]]
    requires w'.heap[rid].ts != t && NotWriter(w'.hist[rid], t) && w.hist.Keys == w.heap.Keys
    requires forall r :: r in w.heap && w.heap[r].ts == t ==> t in w.undo
    ensures HeapAlike(w', v', t, d)
  {
    forall r | r in w'.heap
      ensures RowAlike(w', v', t, r)
    {
      if r != rid { RowElsewhere(w, v, w', v', t, r); }
    }
    assert forall r :: r in d ==> Waiting(v, r, d[r]);
  }

  // ----- commit and abort of others ----------------------------------------------------------------------------------

  lemma OtherVerifyRowAlike(w: World, v: World, t: TxnId, d: map<Rid, Row>, s: TxnId, rid: Rid)
    requires Core(w) && Core(v) && Alike(w, v, t, d) && t >= TXN_START_ID && s != t && Enabled(w, VerifyRow(s, rid))
    ensures Enabled(v, VerifyRow(s, rid)) && Alike(Next(w, VerifyRow(s, rid)), Next(v, VerifyRow(s, rid)), t, d)
  {
    assert OtherAlike(w, v, s) && RowAlike(w, v, t, rid) && TxnOk(w, s);
    OwnerInMap(w, t);
    OtherVerdict(w, v, t, d, s, rid, w.txns[s].readTs, Query(w.txns[s].scans, rid.table));
    VerifiedAlike(w, v, t, d, s, rid);
  }

  lemma OtherVerdict(w: World, v: World, t: TxnId, d: map<Rid, Row>, s: TxnId, rid: Rid, r: int, q: Query)
    requires Core(w) && Core(v) && Alike(w, v, t, d) && s != t && s in w.txns && w.txns[s].phase.Verifying?
    requires rid in w.heap && rid in v.heap && r == w.txns[s].readTs
    ensures Unchanged(v.undo, v.heap[rid], r, q) <==> Unchanged(w.undo, w.heap[rid], r, q)
  {
    assert OtherAlike(w, v, s) && RowAlike(w, v, t, rid);
    NoneStamping(w, s, rid);
    NoneStamping(v, s, rid);
    VerdictsAgree(w, v, rid, r, q);
  }

  /** While `s` validates no row carries the timestamp of an unpublished commit. */
  lemma NoneStamping(w: World, s: TxnId, rid: Rid)
    requires s in w.txns && w.txns[s].phase.Verifying? && rid in w.heap && Core(w)
    ensures w.heap[rid].ts <= w.last || w.heap[rid].ts >= TXN_START_ID
    ensures w.floor <= w.txns[s].readTs && 0 <= w.txns[s].readTs
  {
    assert TxnOk(w, s) && StampOk(w, w.heap[rid].ts);
  }

  lemma VerdictsAgree(w: World, v: World, rid: Rid, r: int, q: Query)
    requires rid in w.heap && rid in v.heap && rid in w.hist && rid in v.hist && v.hist[rid] == w.hist[rid]
    requires w.heap[rid].ts <= w.last || w.heap[rid].ts >= TXN_START_ID
    requires v.heap[rid].ts <= v.last || v.heap[rid].ts >= TXN_START_ID
    requires w.floor <= r && v.floor <= r && 0 <= r && Core(w) && Core(v)
    ensures Unchanged(v.undo, v.heap[rid], r, q) <==> Unchanged(w.undo, w.heap[rid], r, q)
  {
    VerdictOfRow(w, rid, r, q);
    VerdictOfRow(v, rid, r, q);
  }

  lemma VerifiedAlike(w: World, v: World, t: TxnId, d: map<Rid, Row>, s: TxnId, rid: Rid)
    requires w.undo.Keys == w.txns.Keys && v.undo.Keys == v.txns.Keys && Alike(w, v, t, d) && s != t
    requires Enabled(w, VerifyRow(s, rid)) && w.txns[s].state == Running && w.committer == Some(s)
    requires Enabled(v, VerifyRow(s, rid)) && v.txns[s] == w.txns[s]
    requires forall r :: r in w.heap && w.heap[r].ts == t ==> t in w.undo
    requires var x := w.txns[s];
      Unchanged(v.undo, v.heap[rid], x.readTs, Query(x.scans, rid.table)) <==>
      Unchanged(w.undo, w.heap[rid], x.readTs, Query(x.scans, rid.table))
    ensures Alike(DoVerifyRow(w, s, rid), DoVerifyRow(v, s, rid), t, d)
  {
    assert OtherAlike(w, v, s);
    OnlyRecordsAlike(w, v, DoVerifyRow(w, s, rid), DoVerifyRow(v, s, rid), t, d, s);
  }

  /** A step that changes one transaction's record and the commit latch alone, and alike. */
  lemma OnlyRecordsAlike(w: World, v: World, w': World, v': World, t: TxnId, d: map<Rid, Row>, s: TxnId)
    requires w.undo.Keys == w.txns.Keys && v.undo.Keys == v.txns.Keys && Alike(w, v, t, d)
    requires s != t && s in w.txns && s in v.txns && s in w'.txns && s in v'.txns
    requires w' == w.(txns := w.txns[s := w'.txns[s]], committer := w'.committer)
    requires v' == v.(txns := v.txns[s := v'.txns[s]], committer := v'.committer)
    requires v'.committer == if w'.committer == Some(t) then None else w'.committer
    requires TxnLike(w.txns[s], v.txns[s]) && TxnLike(w'.txns[s], v'.txns[s]) && v.undo[s] == w.undo[s]
    requires forall r :: r in w.heap && w.heap[r].ts == t ==> t in w.undo
    ensures Alike(w', v', t, d)
  {
    OtherSameRows(w, v, w', v', t, d);
    OtherStepTxns(w, v, w', v', t, s);
  }

  lemma OtherStampAlike(w: World, v: World, t: TxnId, d: map<Rid, Row>, s: TxnId, rid: Rid)
    requires Books(w) && Shape(v) && Alike(w, v, t, d) && t >= TXN_START_ID && s != t && Enabled(w, StampRow(s, rid))
    ensures Enabled(v, StampRow(s, rid)) && Alike(Next(w, StampRow(s, rid)), Next(v, StampRow(s, rid)), t, d)
  {
    assert OtherAlike(w, v, s) && RowAlike(w, v, t, rid) && TxnOk(w, s);
    assert Owns(w.txns[s], s, rid, w.heap[rid].ts, w.last);
    OwnerInMap(w, t);
    StampedAlike(w, v, t, d, s, rid);
  }

  lemma StampedAlike(w: World, v: World, t: TxnId, d: map<Rid, Row>, s: TxnId, rid: Rid)
    requires w.undo.Keys == w.txns.Keys && v.undo.Keys == v.txns.Keys && Alike(w, v, t, d) && s != t
    requires Enabled(w, StampRow(s, rid)) && w.txns[s].state == Running && w.heap[rid].ts == s
      && w.last + 1 < TXN_START_ID <= t
    requires forall r :: r in w.heap && w.heap[r].ts == t ==> t in w.undo
    ensures Enabled(v, StampRow(s, rid)) && Alike(DoStampRow(w, s, rid), DoStampRow(v, s, rid), t, d)
  {
    assert OtherAlike(w, v, s) && RowAlike(w, v, t, rid);
    OneRowChanged(w, v, DoStampRow(w, s, rid), DoStampRow(v, s, rid), t, d, rid);
    OtherStepTxns(w, v, DoStampRow(w, s, rid), DoStampRow(v, s, rid), t, s);
  }

  /** Everything `s` publishes is the same in both runs. */
  lemma SamePublication(w: World, v: World, t: TxnId, d: map<Rid, Row>, s: TxnId)
    requires HeapAlike(w, v, t, d) && s in w.txns && s in v.txns && v.txns[s] == w.txns[s] && v.last == w.last
    requires w.hist.Keys == w.heap.Keys && w.txns[s].writes <= w.heap.Keys
    requires forall rid :: rid in w.txns[s].writes ==> w.heap[rid].ts != t
    ensures v.txns[s].writes <= v.heap.Keys
    ensures forall rid :: rid in w.txns[s].writes ==> Content(v.heap[rid]) == Content(w.heap[rid])
    ensures forall rid :: rid in w.hist ==> rid in v.hist && PublishedHist(v, s)[rid] == PublishedHist(w, s)[rid]
    ensures forall rid :: rid in d ==> rid in v.hist && PublishedHist(v, s)[rid] == v.hist[rid]
  {
    forall rid | rid in w.txns[s].writes
      ensures Content(v.heap[rid]) == Content(w.heap[rid])
    {
      assert RowAlike(w, v, t, rid);
    }
    forall rid | rid in w.hist
      ensures rid in v.hist && PublishedHist(v, s)[rid] == PublishedHist(w, s)[rid]
    {
      assert rid in v.heap;
      if rid in w.heap { assert RowAlike(w, v, t, rid); }
    }
    forall rid | rid in d
      ensures rid in v.hist && PublishedHist(v, s)[rid] == v.hist[rid]
    {
      assert Waiting(v, rid, d[rid]);
    }
  }

  lemma OtherPublishAlike(w: World, v: World, t: TxnId, d: map<Rid, Row>, s: TxnId)
    requires Books(w) && Books(v) && Alike(w, v, t, d) && t >= TXN_START_ID && s != t && Enabled(w, Publish(s))
    ensures Enabled(v, Publish(s)) && Alike(Next(w, Publish(s)), Next(v, Publish(s)), t, d)
  {
    assert OtherAlike(w, v, s) && TxnOk(w, s);
    OwnerInMap(w, t);
    forall rid | rid in w.txns[s].writes
      ensures w.heap[rid].ts != t
    {
      assert Owns(w.txns[s], s, rid, w.heap[rid].ts, w.last);
    }
    SamePublication(w, v, t, d, s);
    PublishedAlike(w, v, t, d, s);
  }

  lemma PublishedAlike(w: World, v: World, t: TxnId, d: map<Rid, Row>, s: TxnId)
    requires w.undo.Keys == w.txns.Keys && v.undo.Keys == v.txns.Keys && Alike(w, v, t, d) && s != t
    requires Enabled(w, Publish(s)) && Enabled(v, Publish(s)) && v.txns[s] == w.txns[s] && w.committer == Some(s)
    requires forall r :: r in w.heap && w.heap[r].ts == t ==> t in w.undo
    requires forall rid :: rid in w.txns[s].writes ==> Content(v.heap[rid]) == Content(w.heap[rid])
    requires forall rid :: rid in w.hist ==> rid in v.hist && PublishedHist(v, s)[rid] == PublishedHist(w, s)[rid]
    requires forall rid :: rid in d ==> rid in v.hist && PublishedHist(v, s)[rid] == v.hist[rid]
    ensures Alike(DoPublish(w, s), DoPublish(v, s), t, d)
  {
    PublishedTxnsAlike(w, v, t, s);
    PublishedRowsAlike(w, v, t, d, s);
    PublishedCountersAlike(w, v, t, s);
  }

  lemma PublishedTxnsAlike(w: World, v: World, t: TxnId, s: TxnId)
    requires w.undo.Keys == w.txns.Keys && v.undo.Keys == v.txns.Keys && TxnsAlike(w, v, t) && s != t
      && v.last == w.last
    requires Enabled(w, Publish(s)) && Enabled(v, Publish(s)) && v.txns[s] == w.txns[s]
    ensures TxnsAlike(DoPublish(w, s), DoPublish(v, s), t)
  {
    assert OtherAlike(w, v, s);
    OtherStepTxns(w, v, DoPublish(w, s), DoPublish(v, s), t, s);
  }

  lemma PublishedCountersAlike(w: World, v: World, t: TxnId, s: TxnId)
    requires CountersAlike(w, v, t) && s != t && w.committer == Some(s)
    requires Enabled(w, Publish(s)) && Enabled(v, Publish(s)) && v.txns[s] == w.txns[s]
    requires forall rid :: rid in w.txns[s].writes ==> Content(v.heap[rid]) == Content(w.heap[rid])
    ensures CountersAlike(DoPublish(w, s), DoPublish(v, s), t)
  {
    var x := w.txns[s];
    assert (map rid | rid in x.writes :: Content(v.heap[rid])) == (map rid | rid in x.writes :: Content(w.heap[rid]));
  }

  lemma PublishedRowsAlike(w: World, v: World, t: TxnId, d: map<Rid, Row>, s: TxnId)
    requires HeapAlike(w, v, t, d) && s != t && Enabled(w, Publish(s)) && Enabled(v, Publish(s))
    requires forall r :: r in w.heap && w.heap[r].ts == t ==> t in w.undo
    requires forall rid :: rid in w.hist ==> rid in v.hist && PublishedHist(v, s)[rid] == PublishedHist(w, s)[rid]
    requires forall rid :: rid in d ==> rid in v.hist && PublishedHist(v, s)[rid] == v.hist[rid]
    ensures HeapAlike(DoPublish(w, s), DoPublish(v, s), t, d)
  {
    forall rid | rid in w.heap
      ensures RowAlike(DoPublish(w, s), DoPublish(v, s), t, rid)
    {
      PublishedRowAlike(w, v, t, s, rid);
    }
    forall rid | rid in d
      ensures Waiting(DoPublish(v, s), rid, d[rid])
    {
      assert Waiting(v, rid, d[rid]);
    }
  }

  lemma PublishedRowAlike(w: World, v: World, t: TxnId, s: TxnId, rid: Rid)
    requires rid in w.heap && RowAlike(w, v, t, rid) && s != t && Enabled(w, Publish(s)) && Enabled(v, Publish(s))
    requires w.heap[rid].ts == t ==> t in w.undo
    requires PublishedHist(v, s)[rid] == PublishedHist(w, s)[rid]
    ensures RowAlike(DoPublish(w, s), DoPublish(v, s), t, rid)
  {
    UnderElsewhere(w, DoPublish(w, s), t, rid);
  }

  /** Taking back the same log from the same version. */
  lemma SameReverted(u: Buffers, u': Buffers, s: TxnId, a: Slot, b: Slot)
    requires SlotLike(b, a) && s in u && s in u' && u'[s] == u[s]
    requires a.link.Link? && a.link.txn == s ==> a.link.idx < |u[s]| && Fits(u[s][a.link.idx], a)
    ensures SlotLike(Reverted(u', s, b), Reverted(u, s, a))
  {
    if a.link.Link? && a.link.txn == s && a.deleted && !u[s][a.link.idx].deleted {
      FullRestores(u[s][a.link.idx], a.row, b.row);
    }
  }

  lemma OtherAbortRowAlike(w: World, v: World, t: TxnId, d: map<Rid, Row>, s: TxnId, rid: Rid)
    requires Core(w) && Shape(v) && Alike(w, v, t, d) && t >= TXN_START_ID && s != t && Enabled(w, AbortRow(s, rid))
    ensures Enabled(v, AbortRow(s, rid)) && Alike(Next(w, AbortRow(s, rid)), Next(v, AbortRow(s, rid)), t, d)
  {
    assert OtherAlike(w, v, s) && RowAlike(w, v, t, rid);
    AbortRowOwned(w, s, rid);
    OwnLink(w, s, rid);
    UnderCommitted(w, s, rid);
    OwnerInMap(w, t);
    SameReverted(w.undo, v.undo, s, w.heap[rid], v.heap[rid]);
    TakenBackAlike(w, v, t, d, s, rid);
  }

  lemma TakenBackAlike(w: World, v: World, t: TxnId, d: map<Rid, Row>, s: TxnId, rid: Rid)
    requires w.undo.Keys == w.txns.Keys && v.undo.Keys == v.txns.Keys && Alike(w, v, t, d) && s != t
    requires Enabled(w, AbortRow(s, rid)) && w.heap[rid].ts == s && w.last < TXN_START_ID <= t
    requires Reverted(w.undo, s, w.heap[rid]).ts <= w.last
    requires rid in v.heap && SlotLike(Reverted(v.undo, s, v.heap[rid]), Reverted(w.undo, s, w.heap[rid]))
    requires forall r :: r in w.heap && w.heap[r].ts == t ==> t in w.undo
    ensures Enabled(v, AbortRow(s, rid)) && Alike(DoAbortRow(w, s, rid), DoAbortRow(v, s, rid), t, d)
  {
    assert OtherAlike(w, v, s) && RowAlike(w, v, t, rid);
    OneRowChanged(w, v, DoAbortRow(w, s, rid), DoAbortRow(v, s, rid), t, d, rid);
    OtherStepTxns(w, v, DoAbortRow(w, s, rid), DoAbortRow(v, s, rid), t, s);
  }

  /** Running into a row of `t` taints a transaction in the one run; in the other it has nothing to run into. */
  lemma CollisionAlike(
      w: World, v: World, t: TxnId, d: map<Rid, Row>, s: TxnId, rid: Rid, target: Option<Row>, requireDeleted: bool)
    requires Shape(w) && Shape(v) && TxnsOk(w) && Alike(w, v, t, d) && t >= TXN_START_ID && s != t
    requires Enabled(w, Modify(s, rid, target, requireDeleted)) && w.heap[rid].ts == t
    ensures Alike(Next(w, Modify(s, rid, target, requireDeleted)), v, t, d)
  {
    assert OtherAlike(w, v, s) && TxnOk(w, s);
    TaintAlike(w, v, t, d, s);
  }

  // ----- collections -------------------------------------------------------------------------------------------------

  /** One version down the same chain. */
  lemma DownLike(a: Slot, b: Slot, log: UndoLog)
    requires SlotLike(b, a) && Fits(log, a)
    ensures WellFormed(log, |b.row|) && SlotLike(Down(b, log), Down(a, log))
  {
    if a.deleted && !log.deleted {
      FullRestores(log, a.row, b.row);
    }
  }

  /** A chain in which `t` wrote nothing needs the same buffers, whatever `t`'s holds. */
  lemma {:induction false} NeededLike(u: Buffers, u': Buffers, floor: int, a: Slot, b: Slot, h: History, mark: int,
    t: TxnId)
    requires Represents(u, floor, a, h) && NotWriter(h, t) && SlotLike(b, a)
    requires forall s :: s != t ==> (s in u <==> s in u') && (s in u ==> u'[s] == u[s])
    ensures Needed(u', b, mark) == Needed(u, a, mark)
    decreases |h|
  {
    if a.link.Link? {
      assert a.link.txn == Last(h).writer == h[|h| - 1].writer;
      if a.link.txn in u {
        var log := u[a.link.txn][a.link.idx];
        DownLike(a, b, log);
        NeededLike(u, u', floor, Down(a, log), Down(b, log), h[..|h| - 1], mark, t);
      }
    }
  }

  /** A row of `t` needs what the version beneath it needs, and `t` itself. */
  lemma NeededUnder(u: Buffers, u': Buffers, floor: int, a: Slot, b: Slot, h: History, mark: int, t: TxnId, readTs: int)
    requires Represents(u, floor, a, Pending(h, a, t, readTs)) && t in u && Ordered(h) && NotWriter(h, t)
    requires SlotLike(b, Reverted(u, t, a)) && 0 <= mark < a.ts && Last(h).ts < a.ts
    requires forall s :: s != t ==> (s in u <==> s in u') && (s in u ==> u'[s] == u[s])
    ensures Needed(u', b, mark) == Needed(u, a, mark) - {t}
  {
    var p := Pending(h, a, t, readTs);
    assert p[..|p| - 1] == h;
    if a.link.Link? {
      var log := u[t][a.link.idx];
      RestoreTombstone(a.row, log);
      assert Reverted(u, t, a) == Down(a, log);
      NeededLike(u, u', floor, Down(a, log), b, h, mark, t);
      NeededNotWriter(u, floor, Down(a, log), h, mark, t);
    }
  }

  /** A chain needs buffers of its writers only. */
  lemma {:induction false} NeededNotWriter(u: Buffers, floor: int, a: Slot, h: History, mark: int, t: TxnId)
    requires Represents(u, floor, a, h) && NotWriter(h, t)
    ensures t !in Needed(u, a, mark)
    decreases |h|
  {
    if a.link.Link? {
      assert a.link.txn == Last(h).writer == h[|h| - 1].writer;
      if a.link.txn in u {
        NeededNotWriter(u, floor, Down(a, u[a.link.txn][a.link.idx]), h[..|h| - 1], mark, t);
      }
    }
  }

  /** What one row needs, beyond `t` itself, is the same in both runs. */
  lemma RowNeedsAlike(w: World, v: World, t: TxnId, rid: Rid, mark: int)
    requires Core(w) && Shape(v) && TxnsAlike(w, v, t) && rid in w.heap && RowAlike(w, v, t, rid)
    requires t >= TXN_START_ID && !IsStamping(w, t) && 0 <= mark <= w.last
    ensures Needed(v.undo, v.heap[rid], mark) == Needed(w.undo, w.heap[rid], mark) - {t}
  {
    assert SlotOk(w, w.heap[rid], w.hist[rid]) && HistOk(w, w.hist[rid]) && StampOk(w, w.heap[rid].ts);
    forall s | s != t
      ensures (s in w.undo <==> s in v.undo) && (s in w.undo ==> v.undo[s] == w.undo[s])
    {
      assert OtherAlike(w, v, s);
    }
    SlotNeedsAlike(w, v, t, w.heap[rid], v.heap[rid], w.hist[rid], mark);
  }

  lemma SlotNeedsAlike(w: World, v: World, t: TxnId, a: Slot, b: Slot, h: History, mark: int)
    requires SlotOk(w, a, h) && Ordered(h) && NotWriter(h, t) && Last(h).ts <= w.last < TXN_START_ID <= t
    requires !IsStamping(w, t) && 0 <= mark <= w.last && w.undo.Keys == w.txns.Keys
    requires SlotLike(b, if a.ts == t then Reverted(w.undo, t, a) else a)
    requires forall s :: s != t ==> (s in w.undo <==> s in v.undo) && (s in w.undo ==> v.undo[s] == w.undo[s])
    ensures Needed(v.undo, b, mark) == Needed(w.undo, a, mark) - {t}
  {
    if a.ts <= w.last {
      NeededLike(w.undo, v.undo, w.floor, a, b, h, mark, t);
      NeededNotWriter(w.undo, w.floor, a, h, mark, t);
    } else if a.ts == t {
      NeededUnder(w.undo, v.undo, w.floor, a, b, h, mark, t, w.txns[t].readTs);
    } else {
      var s := WriterOf(w, a.ts);
      assert s != t;
      var p := Pending(h, a, s, w.txns[s].readTs);
      NeededLike(w.undo, v.undo, w.floor, a, b, p, mark, t);
      NeededNotWriter(w.undo, w.floor, a, p, mark, t);
    }
  }

  /** `t` has got through to stamping its rows: it can only commit. */
  ghost predicate IsStamping(w: World, t: TxnId) {
    t in w.txns && w.txns[t].phase.Stamping?
  }

  lemma NeededByAlike(w: World, v: World, t: TxnId, d: map<Rid, Row>, mark: int)
    requires Core(w) && Shape(v) && TxnsAlike(w, v, t) && HeapAlike(w, v, t, d)
    requires t >= TXN_START_ID && !IsStamping(w, t) && 0 <= mark <= w.last
    ensures NeededBy(v, mark) == NeededBy(w, mark) - {t}
  {
    forall rid | rid in w.heap
      ensures rid in v.heap && Needed(v.undo, v.heap[rid], mark) == Needed(w.undo, w.heap[rid], mark) - {t}
    {
      assert RowAlike(w, v, t, rid);
      RowNeedsAlike(w, v, t, rid, mark);
    }
    forall rid | rid in d
      ensures rid in v.heap && Needed(v.undo, v.heap[rid], mark) == {}
    {
      assert Waiting(v, rid, d[rid]);
    }
    NeedsUnion(w, v, t, d, mark);
  }

  lemma NeedsUnion(w: World, v: World, t: TxnId, d: map<Rid, Row>, mark: int)
    requires v.heap.Keys == w.heap.Keys + d.Keys
    requires forall rid :: rid in w.heap ==>
      rid in v.heap && Needed(v.undo, v.heap[rid], mark) == Needed(w.undo, w.heap[rid], mark) - {t}
    requires forall rid :: rid in d ==> rid in v.heap && Needed(v.undo, v.heap[rid], mark) == {}
    ensures NeededBy(v, mark) == NeededBy(w, mark) - {t}
  {
    forall s | s in NeededBy(v, mark)
      ensures s in NeededBy(w, mark) - {t}
    {
      var rid :| rid in v.heap && s in Needed(v.undo, v.heap[rid], mark);
      assert rid in w.heap && s in Needed(w.undo, w.heap[rid], mark);
    }
    forall s | s in NeededBy(w, mark) - {t}
      ensures s in NeededBy(v, mark)
    {
      var rid :| rid in w.heap && s in Needed(w.undo, w.heap[rid], mark);
      assert s in Needed(v.undo, v.heap[rid], mark);
    }
  }

  /** Another transaction is collected in both runs or in neither. */
  lemma CollectableAlike(w: World, v: World, t: TxnId, mark: int, s: TxnId)
    requires w.undo.Keys == w.txns.Keys && v.undo.Keys == v.txns.Keys && TxnsAlike(w, v, t)
    requires NeededBy(v, mark) == NeededBy(w, mark) - {t}
    requires s != t && s in w.txns && s in v.txns
    ensures Collectable(v, mark, s) <==> Collectable(w, mark, s)
  {
    assert OtherAlike(w, v, s);
    forall o
      ensures LiveIn(w, o) <==> LiveIn(v, o)
      ensures LiveIn(w, o) && LiveIn(v, o) ==>
        v.txns[o].isolation == w.txns[o].isolation && v.txns[o].readTs == w.txns[o].readTs
    {
      if o != t { assert OtherAlike(w, v, o); }
    }
    if Collectable(w, mark, s) {
      forall o | o in v.txns && Live(v.txns[o]) && v.txns[o].isolation == Serializable && v.txns[s].state == Committed
        ensures v.txns[s].commitTs <= v.txns[o].readTs
      {
        assert LiveIn(v, o) && LiveIn(w, o);
      }
    }
    if Collectable(v, mark, s) {
      forall o | o in w.txns && Live(w.txns[o]) && w.txns[o].isolation == Serializable && w.txns[s].state == Committed
        ensures w.txns[s].commitTs <= w.txns[o].readTs
      {
        assert LiveIn(w, o) && LiveIn(v, o);
      }
    }
  }

  lemma CollectAlike(w: World, v: World, t: TxnId, d: map<Rid, Row>)
    requires Core(w) && RunningOk(w) && Shape(v) && TxnsOk(v) && Alike(w, v, t, d)
    requires t >= TXN_START_ID && !IsStamping(w, t) && Enabled(w, Collect)
    ensures Enabled(v, Collect) && Alike(DoCollect(w), DoCollect(v), t, d)
  {
    WatermarkBounds(w);
    NeededByAlike(w, v, t, d, WatermarkOf(w.running, w.last));
    CollectEnabledAlike(w, v, t);
    CollectedTxnsAlike(w, v, t, WatermarkOf(w.running, w.last));
    OwnBufferKept(w, t);
    CollectedRowsAlike(w, v, t, d);
  }

  lemma CollectEnabledAlike(w: World, v: World, t: TxnId)
    requires Shape(w) && Shape(v) && TxnsOk(v) && TxnsAlike(w, v, t) && Enabled(w, Collect)
    ensures Enabled(v, Collect)
  {
    forall s | s in v.txns
      ensures v.txns[s].phase == Active || v.txns[s].phase == Done
    {
      assert TxnOk(v, s);
      if s != t { assert OtherAlike(w, v, s); }
    }
  }

  /** As long as `t` holds a row it is live, and keeps its buffer. */
  lemma OwnBufferKept(w: World, t: TxnId)
    requires Books(w) && t >= TXN_START_ID
    ensures forall rid :: rid in w.heap && w.heap[rid].ts == t ==>
      t in w.undo && t in DoCollect(w).undo && DoCollect(w).undo[t] == w.undo[t]
  {
    OwnerInMap(w, t);
    forall rid | rid in w.heap && w.heap[rid].ts == t
      ensures t in DoCollect(w).undo && DoCollect(w).undo[t] == w.undo[t]
    {
      assert Owns(w.txns[t], t, rid, w.heap[rid].ts, w.last) && TxnOk(w, t);
      LiveKept(w, t);
    }
  }

  lemma CollectedRowsAlike(w: World, v: World, t: TxnId, d: map<Rid, Row>)
    requires HeapAlike(w, v, t, d)
    requires forall rid :: rid in w.heap && w.heap[rid].ts == t ==>
      t in w.undo && t in DoCollect(w).undo && DoCollect(w).undo[t] == w.undo[t]
    ensures HeapAlike(DoCollect(w), DoCollect(v), t, d)
  {
    var w', v' := DoCollect(w), DoCollect(v);
    forall rid | rid in w'.heap
      ensures RowAlike(w', v', t, rid)
    {
      RowElsewhere(w, v, w', v', t, rid);
    }
    forall rid | rid in d
      ensures Waiting(v', rid, d[rid])
    {
      assert Waiting(v, rid, d[rid]);
    }
  }

  lemma CollectedTxnsAlike(w: World, v: World, t: TxnId, mark: int)
    requires w.undo.Keys == w.txns.Keys && v.undo.Keys == v.txns.Keys && TxnsAlike(w, v, t)
    requires mark == WatermarkOf(w.running, w.last) == WatermarkOf(v.running, v.last)
    requires NeededBy(v, mark) == NeededBy(w, mark) - {t}
    ensures TxnsAlike(DoCollect(w), DoCollect(v), t)
  {
    var w', v' := DoCollect(w), DoCollect(v);
    forall s | s != t
      ensures OtherAlike(w', v', s)
    {
      assert OtherAlike(w, v, s);
      if s in w.txns { CollectableAlike(w, v, t, mark, s); }
    }
    if LiveIn(w, t) {
      LiveKept(w, t);
      LiveKept(v, t);
    }
  }
}
