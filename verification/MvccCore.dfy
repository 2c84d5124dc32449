/** Every step keeps `Core`: the part of the invariant that makes snapshot reads right. */
module MvccCore {
  import opened Sql
  import opened Chain
  import opened Mvcc

  // ----- steps that only touch one transaction's record --------------------------------------------

  /** One transaction's record changes, and perhaps who holds the commit mutex. */
  ghost predicate OnlyTxn(w: World, w': World, t: TxnId) {
    && t in w.txns && t in w'.txns
    && w'.txns == w.txns[t := w'.txns[t]]
    && w'.heap == w.heap && w'.hist == w.hist && w'.undo == w.undo && w'.floor == w.floor
    && w'.last == w.last && w'.next == w.next && w'.commits == w.commits
    && w'.txns[t].readTs == w.txns[t].readTs
    && w.txns[t].state != Committed
    && (w'.committer == w.committer || (w.committer == None && w'.committer == Some(t))
        || (w.committer == Some(t) && w'.committer == None && !w.txns[t].phase.Stamping?))
  }

  lemma OnlyTxnTxns(w: World, w': World, t: TxnId)
    requires OnlyTxn(w, w', t) && TxnsOk(w) && TxnOk(w', t)
    ensures TxnsOk(w')
  {
    forall s | s in w'.txns
      ensures TxnOk(w', s)
    {
      assert TxnOk(w, s);
    }
  }

  lemma OnlyTxnOwns(w: World, w': World, t: TxnId)
    requires OnlyTxn(w, w', t) && OwnsOk(w)
    requires forall rid :: rid in w.heap ==> Owns(w'.txns[t], t, rid, w.heap[rid].ts, w.last)
    ensures OwnsOk(w')
  {
  }

  lemma OnlyTxnStamps(w: World, w': World, t: TxnId)
    requires OnlyTxn(w, w', t) && Shape(w) && StampsOk(w) && LinksDistinct(w) && TxnOk(w, t)
    requires w.txns[t].phase.Stamping? ==> w'.txns[t].phase.Stamping?
    ensures Shape(w') && StampsOk(w') && LinksDistinct(w')
  {
    forall rid | rid in w'.heap
      ensures StampOk(w', w'.heap[rid].ts)
    {
      assert StampOk(w, w.heap[rid].ts);
    }
  }

  lemma OnlyTxnBooks(w: World, w': World, t: TxnId)
    requires Books(w) && OnlyTxn(w, w', t) && TxnOk(w', t)
    requires w.txns[t].phase.Stamping? ==> w'.txns[t].phase.Stamping?
    requires forall rid :: rid in w.heap ==> Owns(w'.txns[t], t, rid, w.heap[rid].ts, w.last)
    ensures Books(w')
  {
    OnlyTxnTxns(w, w', t);
    OnlyTxnOwns(w, w', t);
    OnlyTxnStamps(w, w', t);
  }

  lemma OnlyTxnChains(w: World, w': World, t: TxnId)
    requires OnlyTxn(w, w', t) && Chains(w) && StampsOk(w') && TxnOk(w, t)
    requires w.txns[t].phase.Stamping? ==> w'.txns[t].phase.Stamping?
    ensures Chains(w')
  {
    forall rid | rid in w'.heap
      ensures SlotOk(w', w'.heap[rid], w'.hist[rid])
    {
      assert StampOk(w', w'.heap[rid].ts);
      SlotFrame(w, w', w.heap[rid], w.hist[rid]);
    }
    HistsFrame(w, w');
  }

  /** A slot and its history do not notice changes to other parts of the state. */
  lemma SlotFrame(w: World, w': World, v: Slot, h: History)
    requires SlotOk(w, v, h) && StampOk(w', v.ts)
    requires w'.undo == w.undo && w'.floor == w.floor && w'.last == w.last
    requires v.ts > w.last ==>
               && WriterOf(w', v.ts) == WriterOf(w, v.ts) && WriterOf(w, v.ts) in w'.txns
               && w'.txns[WriterOf(w, v.ts)].readTs == w.txns[WriterOf(w, v.ts)].readTs
    ensures SlotOk(w', v, h)
  {
  }

  lemma HistsFrame(w: World, w': World)
    requires HistsOk(w) && w'.hist == w.hist && w'.last == w.last && w'.next == w.next
    requires forall s :: s in w'.txns && s in w.txns && w.txns[s].state == Committed ==> w'.txns[s].state == Committed
    requires w'.txns.Keys <= w.txns.Keys
    ensures HistsOk(w')
  {
    forall rid | rid in w'.hist
      ensures HistOk(w', w'.hist[rid])
    {
      assert HistOk(w, w.hist[rid]);
    }
  }

  lemma OnlyTxnCore(w: World, w': World, t: TxnId)
    requires Core(w) && OnlyTxn(w, w', t) && Books(w')
    requires w.txns[t].phase.Stamping? ==> w'.txns[t].phase.Stamping?
    ensures Core(w')
  {
    assert TxnOk(w, t);
    OnlyTxnChains(w, w', t);
  }

  lemma RecordScanBooks(w: World, t: TxnId, scan: Scan)
    requires Books(w) && Enabled(w, RecordScan(t, scan))
    ensures Books(Next(w, RecordScan(t, scan)))
  {
    assert TxnOk(w, t);
    OnlyTxnBooks(w, Next(w, RecordScan(t, scan)), t);
  }

  lemma TaintBooks(w: World, t: TxnId)
    requires Books(w) && IsActive(w, t) && w.txns[t].state == Running
    ensures Books(SetTxn(w, t, w.txns[t].(state := Tainted)))
  {
    assert TxnOk(w, t);
    OnlyTxnBooks(w, SetTxn(w, t, w.txns[t].(state := Tainted)), t);
  }

  lemma StartCommitBooks(w: World, t: TxnId)
    requires Books(w) && Enabled(w, StartCommit(t))
    ensures Books(Next(w, StartCommit(t)))
  {
    assert TxnOk(w, t);
    forall rid | rid in ChangedRows(w.txns, w.txns[t])
      ensures rid in w.heap
    {
      var o :| o in w.txns && rid in w.txns[o].writes;
      assert TxnOk(w, o);
    }
    forall rid | rid in w.heap
      ensures Owns(Next(w, StartCommit(t)).txns[t], t, rid, w.heap[rid].ts, w.last)
    {
      assert Owns(w.txns[t], t, rid, w.heap[rid].ts, w.last);
      NothingStamped(w, rid);
    }
    OnlyTxnBooks(w, Next(w, StartCommit(t)), t);
  }

  /** While nobody holds the commit mutex past validation, no row carries the next commit timestamp. */
  lemma NothingStamped(w: World, rid: Rid)
    requires StampsOk(w) && rid in w.heap && w.last + 1 < TXN_START_ID
    requires w.committer.None? || (w.committer.value in w.txns && w.txns[w.committer.value].phase.Verifying?)
    ensures w.heap[rid].ts <= w.last || w.heap[rid].ts >= TXN_START_ID
    ensures w.heap[rid].ts != w.last + 1
  {
    assert StampOk(w, w.heap[rid].ts);
  }

  lemma VerifyRowBooks(w: World, t: TxnId, rid: Rid)
    requires Books(w) && Enabled(w, VerifyRow(t, rid))
    ensures Books(Next(w, VerifyRow(t, rid)))
  {
    assert TxnOk(w, t);
    OnlyTxnBooks(w, Next(w, VerifyRow(t, rid)), t);
  }

  lemma FinishVerifyBooks(w: World, t: TxnId)
    requires Books(w) && Enabled(w, FinishVerify(t))
    ensures Books(Next(w, FinishVerify(t)))
  {
    assert TxnOk(w, t);
    forall rid | rid in w.heap
      ensures Owns(Next(w, FinishVerify(t)).txns[t], t, rid, w.heap[rid].ts, w.last)
    {
      assert Owns(w.txns[t], t, rid, w.heap[rid].ts, w.last);
      NothingStamped(w, rid);
    }
    OnlyTxnBooks(w, Next(w, FinishVerify(t)), t);
  }

  lemma StartAbortBooks(w: World, t: TxnId)
    requires Books(w) && Enabled(w, StartAbort(t))
    ensures Books(Next(w, StartAbort(t)))
  {
    assert TxnOk(w, t);
    OnlyTxnBooks(w, Next(w, StartAbort(t)), t);
  }

  lemma FinishAbortBooks(w: World, t: TxnId)
    requires Books(w) && Enabled(w, FinishAbort(t))
    ensures Books(Next(w, FinishAbort(t)))
  {
    assert TxnOk(w, t);
    OnlyTxnBooks(w, Next(w, FinishAbort(t)), t);
  }

  // ----- Begin -----------------------------------------------------------------------------------

  lemma BeginBooks(w: World, isolation: Isolation)
    requires Books(w)
    ensures Books(DoBegin(w, isolation))
  {
    var w' := DoBegin(w, isolation);
    assert w.next !in w.txns;
    forall t | t in w'.txns
      ensures TxnOk(w', t)
    {
      if t != w.next { assert TxnOk(w, t); }
    }
    BeginOwns(w, isolation);
    forall rid | rid in w'.heap
      ensures StampOk(w', w'.heap[rid].ts)
    {
      assert StampOk(w, w.heap[rid].ts);
    }
  }

  lemma BeginOwns(w: World, isolation: Isolation)
    requires Shape(w) && TxnsOk(w) && OwnsOk(w) && StampsOk(w) && w.next !in w.txns
    ensures OwnsOk(DoBegin(w, isolation))
  {
    var w' := DoBegin(w, isolation);
    forall t, rid | t in w'.txns && rid in w'.heap
      ensures Owns(w'.txns[t], t, rid, w'.heap[rid].ts, w'.last)
    {
      assert StampOk(w, w.heap[rid].ts);
      if w.committer.Some? { assert TxnOk(w, w.committer.value); }
    }
  }

  lemma BeginSlot(w: World, v: Slot, h: History, isolation: Isolation)
    requires SlotOk(w, v, h) && HistOk(w, h) && w.next !in w.txns
    ensures SlotOk(DoBegin(w, isolation), v, h) && HistOk(DoBegin(w, isolation), h)
  {
    assert NotWriter(h, w.next);
    if v.ts <= w.last {
      RepresentsNewBuffer(w.undo, w.floor, v, h, w.next);
    } else {
      var t := WriterOf(w, v.ts);
      RepresentsNewBuffer(w.undo, w.floor, v, Pending(h, v, t, w.txns[t].readTs), w.next);
    }
  }

  lemma BeginChains(w: World, isolation: Isolation)
    requires Chains(w) && w.next !in w.txns
    ensures Chains(DoBegin(w, isolation))
  {
    var w' := DoBegin(w, isolation);
    forall rid | rid in w.heap
      ensures SlotOk(w', w'.heap[rid], w'.hist[rid]) && HistOk(w', w'.hist[rid])
    {
      BeginSlot(w, w.heap[rid], w.hist[rid], isolation);
    }
  }

  // ----- steps on one row ----------------------------------------------------------------------------

  /** One row's slot changes on behalf of transaction `t`; histories, buffers and other rows stay. */
  ghost predicate OnlySlot(w: World, w': World, t: TxnId, rid: Rid) {
    && t in w.txns && t in w'.txns && rid in w.heap && rid in w'.heap
    && w'.heap == w.heap[rid := w'.heap[rid]]
    && w'.txns == w.txns[t := w'.txns[t]]
    && w'.hist == w.hist && w'.undo == w.undo && w'.floor == w.floor
    && w'.last == w.last && w'.next == w.next && w'.commits == w.commits && w'.committer == w.committer
    && w'.txns[t].readTs == w.txns[t].readTs && w'.txns[t].state == w.txns[t].state
    && w'.txns[t].writes == w.txns[t].writes
  }

  lemma OnlySlotTxns(w: World, w': World, t: TxnId, rid: Rid)
    requires OnlySlot(w, w', t, rid) && TxnsOk(w) && TxnOk(w', t)
    ensures TxnsOk(w')
  {
    forall s | s in w'.txns
      ensures TxnOk(w', s)
    {
      assert TxnOk(w, s);
    }
  }

  lemma OnlySlotOwns(w: World, w': World, t: TxnId, rid: Rid)
    requires OnlySlot(w, w', t, rid) && OwnsOk(w)
    requires forall r :: r in w.heap ==> Owns(w'.txns[t], t, r, w'.heap[r].ts, w.last)
    requires forall s :: s in w.txns && s != t ==> Owns(w.txns[s], s, rid, w'.heap[rid].ts, w.last)
    ensures OwnsOk(w')
  {
  }

  lemma OnlySlotStamps(w: World, w': World, t: TxnId, rid: Rid)
    requires OnlySlot(w, w', t, rid) && StampsOk(w) && StampOk(w', w'.heap[rid].ts)
    requires w'.txns[t].phase.Stamping? == w.txns[t].phase.Stamping?
    ensures StampsOk(w')
  {
    forall r | r in w'.heap
      ensures StampOk(w', w'.heap[r].ts)
    {
      if r != rid { assert StampOk(w, w.heap[r].ts); }
    }
  }

  lemma OnlySlotOthers(w: World, w': World, t: TxnId, rid: Rid)
    requires OnlySlot(w, w', t, rid) && w.hist.Keys == w.heap.Keys && SlotsOk(w) && StampsOk(w')
    requires SlotOk(w', w'.heap[rid], w'.hist[rid])
    ensures SlotsOk(w')
  {
    forall r | r in w'.heap
      ensures SlotOk(w', w'.heap[r], w'.hist[r])
    {
      if r != rid {
        assert StampOk(w', w'.heap[r].ts);
        SlotFrame(w, w', w.heap[r], w.hist[r]);
      }
    }
  }

  lemma OnlySlotChains(w: World, w': World, t: TxnId, rid: Rid)
    requires OnlySlot(w, w', t, rid) && Chains(w) && StampsOk(w')
    requires SlotOk(w', w'.heap[rid], w'.hist[rid])
    ensures Chains(w')
  {
    OnlySlotOthers(w, w', t, rid);
    OnlySlotHists(w, w', t, rid);
  }

  lemma OnlySlotHists(w: World, w': World, t: TxnId, rid: Rid)
    requires OnlySlot(w, w', t, rid) && HistsOk(w)
    ensures HistsOk(w')
  {
    HistsFrame(w, w');
  }

  lemma OnlySlotBooks(w: World, w': World, t: TxnId, rid: Rid)
    requires Books(w) && OnlySlot(w, w', t, rid) && TxnOk(w', t) && StampOk(w', w'.heap[rid].ts)
    requires forall r :: r in w.heap ==> Owns(w'.txns[t], t, r, w'.heap[r].ts, w.last)
    requires forall s :: s in w.txns && s != t ==> Owns(w.txns[s], s, rid, w'.heap[rid].ts, w.last)
    requires w'.txns[t].phase.Stamping? == w.txns[t].phase.Stamping?
    requires w'.heap[rid].ts > w.last ==> w.heap[rid].ts > w.last && w'.heap[rid].link == w.heap[rid].link
    ensures Books(w')
  {
    OnlySlotTxns(w, w', t, rid);
    OnlySlotOwns(w, w', t, rid);
    OnlySlotStamps(w, w', t, rid);
    OnlySlotLinks(w, w', t, rid);
  }

  lemma OnlySlotLinks(w: World, w': World, t: TxnId, rid: Rid)
    requires OnlySlot(w, w', t, rid) && LinksDistinct(w)
    requires w'.heap[rid].ts > w.last ==> w.heap[rid].ts > w.last && w'.heap[rid].link == w.heap[rid].link
    ensures LinksDistinct(w')
  {
  }

  // ----- StampRow ----------------------------------------------------------------------------------

  /** Stamping changes the timestamp of a pending version and nothing else about its chain. */
  lemma StampKeepsChain(u: Buffers, floor: int, v: Slot, h: History, t: TxnId, readTs: int, ts: int)
    requires Represents(u, floor, v, Pending(h, v, t, readTs)) && t in u
    ensures Represents(u, floor, v.(ts := ts), Pending(h, v.(ts := ts), t, readTs))
  {
    var v' := v.(ts := ts);
    var p, p' := Pending(h, v, t, readTs), Pending(h, v', t, readTs);
    assert p[..|p| - 1] == h && p'[..|p'| - 1] == h;
    if v.link.Link? {
      assert Down(v, u[t][v.link.idx]) == Down(v', u[t][v.link.idx]);
    }
  }

  lemma StampRowBooks(w: World, t: TxnId, rid: Rid)
    requires Books(w) && Enabled(w, StampRow(t, rid))
    ensures w.heap[rid].ts == t
    ensures Books(Next(w, StampRow(t, rid)))
  {
    assert TxnOk(w, t) && Owns(w.txns[t], t, rid, w.heap[rid].ts, w.last);
    StampRowOwns(w, t, rid);
    OnlySlotBooks(w, Next(w, StampRow(t, rid)), t, rid);
  }

  lemma StampRowChains(w: World, t: TxnId, rid: Rid)
    requires Chains(w) && Enabled(w, StampRow(t, rid)) && w.undo.Keys == w.txns.Keys && w.heap[rid].ts == t > w.last
    requires StampsOk(Next(w, StampRow(t, rid))) && w.committer == Some(t) && TXN_START_ID <= t
      && w.last + 1 < TXN_START_ID
    ensures Chains(Next(w, StampRow(t, rid)))
  {
    var v := w.heap[rid];
    assert SlotOk(w, v, w.hist[rid]);
    StampKeepsChain(w.undo, w.floor, v, w.hist[rid], t, w.txns[t].readTs, w.last + 1);
    OnlySlotChains(w, Next(w, StampRow(t, rid)), t, rid);
  }

  lemma StampRowOwns(w: World, t: TxnId, rid: Rid)
    requires Shape(w) && OwnsOk(w) && TxnsOk(w) && Enabled(w, StampRow(t, rid)) && w.heap[rid].ts == t
    ensures var w' := Next(w, StampRow(t, rid));
      && (forall r :: r in w.heap ==> Owns(w'.txns[t], t, r, w'.heap[r].ts, w.last))
      && (forall s :: s in w.txns && s != t ==> Owns(w.txns[s], s, rid, w'.heap[rid].ts, w.last))
  {
    var w' := Next(w, StampRow(t, rid));
    assert TxnOk(w, t);
    forall r | r in w.heap
      ensures Owns(w'.txns[t], t, r, w'.heap[r].ts, w.last)
    {
      assert Owns(w.txns[t], t, r, w.heap[r].ts, w.last);
    }
    forall s | s in w.txns && s != t
      ensures Owns(w.txns[s], s, rid, w'.heap[rid].ts, w.last)
    {
      assert TxnOk(w, s) && Owns(w.txns[s], s, rid, w.heap[rid].ts, w.last);
    }
  }

  // ----- AbortRow ----------------------------------------------------------------------------------

  /** Taking back a pending edit brings back a chain for the committed history alone. */
  lemma RevertedChain(u: Buffers, floor: int, v: Slot, h: History, t: TxnId, readTs: int)
    requires Represents(u, floor, v, Pending(h, v, t, readTs)) && t in u && Ordered(h)
    ensures Represents(u, floor, Reverted(u, t, v), h)
  {
    var p := Pending(h, v, t, readTs);
    assert p[..|p| - 1] == h;
    if v.link.Link? {
      var log := u[t][v.link.idx];
      RestoreTombstone(v.row, log);
      assert Reverted(u, t, v) == Down(v, log);
    } else {
      assert |h| == 1 && h[0].row == None;
    }
  }

  lemma AbortRowChains(w: World, t: TxnId, rid: Rid)
    requires Chains(w) && Enabled(w, AbortRow(t, rid)) && w.undo.Keys == w.txns.Keys
    requires w.heap[rid].ts == t > w.last && TXN_START_ID <= t
    requires StampsOk(Next(w, AbortRow(t, rid)))
    ensures Chains(Next(w, AbortRow(t, rid)))
  {
    RevertedSlot(w, t, rid);
    OnlySlotChains(w, Next(w, AbortRow(t, rid)), t, rid);
  }

  lemma RevertedSlot(w: World, t: TxnId, rid: Rid)
    requires Chains(w) && Enabled(w, AbortRow(t, rid)) && w.undo.Keys == w.txns.Keys
    requires w.heap[rid].ts == t > w.last && TXN_START_ID <= t
    ensures 0 <= Reverted(w.undo, t, w.heap[rid]).ts <= w.last
    ensures Represents(w.undo, w.floor, Reverted(w.undo, t, w.heap[rid]), w.hist[rid])
  {
    var v, h := w.heap[rid], w.hist[rid];
    assert SlotOk(w, v, h) && HistOk(w, h);
    RevertedChain(w.undo, w.floor, v, h, t, w.txns[t].readTs);
    OrderedNonNegative(h, |h| - 1);
  }

  lemma AbortRowBooks(w: World, t: TxnId, rid: Rid)
    requires Books(w) && Enabled(w, AbortRow(t, rid))
    requires 0 <= Reverted(w.undo, t, w.heap[rid]).ts <= w.last
    ensures Books(Next(w, AbortRow(t, rid)))
  {
    assert TxnOk(w, t) && Owns(w.txns[t], t, rid, w.heap[rid].ts, w.last);
    AbortRowOwns(w, t, rid);
    OnlySlotBooks(w, Next(w, AbortRow(t, rid)), t, rid);
  }

  lemma AbortRowOwned(w: World, t: TxnId, rid: Rid)
    requires Books(w) && Enabled(w, AbortRow(t, rid))
    ensures w.heap[rid].ts == t > w.last && TXN_START_ID <= t
  {
    assert TxnOk(w, t) && Owns(w.txns[t], t, rid, w.heap[rid].ts, w.last);
  }

  lemma AbortRowOwns(w: World, t: TxnId, rid: Rid)
    requires Shape(w) && OwnsOk(w) && TxnsOk(w) && Enabled(w, AbortRow(t, rid)) && w.heap[rid].ts == t
    requires Next(w, AbortRow(t, rid)).heap[rid].ts <= w.last
    ensures var w' := Next(w, AbortRow(t, rid));
      && (forall r :: r in w.heap ==> Owns(w'.txns[t], t, r, w'.heap[r].ts, w.last))
      && (forall s :: s in w.txns && s != t ==> Owns(w.txns[s], s, rid, w'.heap[rid].ts, w.last))
  {
    var w' := Next(w, AbortRow(t, rid));
    assert TxnOk(w, t);
    forall r | r in w.heap
      ensures Owns(w'.txns[t], t, r, w'.heap[r].ts, w.last)
    {
      assert Owns(w.txns[t], t, r, w.heap[r].ts, w.last);
    }
    forall s | s in w.txns && s != t
      ensures Owns(w.txns[s], s, rid, w'.heap[rid].ts, w.last)
    {
      assert TxnOk(w, s) && Owns(w.txns[s], s, rid, w.heap[rid].ts, w.last);
    }
  }
}
