/** `Publish` and the garbage collection `Collect` keep `Core`. */
module MvccFinish {
  import opened Sql
  import opened Undo
  import opened Chain
  import opened Watermarks
  import opened Mvcc
  import opened MvccCore

  // ----- Publish -----------------------------------------------------------------------------------

  /** By the time a commit is published, exactly its rows carry its timestamp. */
  lemma AllStamped(w: World, t: TxnId, rid: Rid)
    requires OwnsOk(w) && Enabled(w, Publish(t)) && rid in w.heap
    ensures w.heap[rid].ts == w.last + 1 <==> rid in w.txns[t].writes
    ensures w.heap[rid].ts != t
  {
    assert Owns(w.txns[t], t, rid, w.heap[rid].ts, w.last);
  }

  lemma PublishTxns(w: World, t: TxnId)
    requires Shape(w) && TxnsOk(w) && Enabled(w, Publish(t))
    ensures Shape(Next(w, Publish(t))) && TxnsOk(Next(w, Publish(t)))
  {
    var w' := Next(w, Publish(t));
    assert TxnOk(w, t);
    forall s | s in w'.txns
      ensures TxnOk(w', s)
    {
      assert TxnOk(w, s);
    }
  }

  lemma PublishOwns(w: World, t: TxnId)
    requires Shape(w) && TxnsOk(w) && OwnsOk(w) && Enabled(w, Publish(t))
    ensures OwnsOk(Next(w, Publish(t)))
  {
    var w' := Next(w, Publish(t));
    assert TxnOk(w, t);
    forall s, rid | s in w'.txns && rid in w'.heap
      ensures Owns(w'.txns[s], s, rid, w'.heap[rid].ts, w'.last)
    {
      assert TxnOk(w, s) && Owns(w.txns[s], s, rid, w.heap[rid].ts, w.last);
    }
  }

  lemma PublishStamps(w: World, t: TxnId)
    requires Shape(w) && StampsOk(w) && LinksDistinct(w) && Enabled(w, Publish(t))
    ensures StampsOk(Next(w, Publish(t))) && LinksDistinct(Next(w, Publish(t)))
  {
    var w' := Next(w, Publish(t));
    forall rid | rid in w'.heap
      ensures StampOk(w', w'.heap[rid].ts)
    {
      assert StampOk(w, w.heap[rid].ts);
    }
  }

  lemma PublishBooks(w: World, t: TxnId)
    requires Books(w) && Enabled(w, Publish(t))
    ensures Books(Next(w, Publish(t)))
  {
    PublishTxns(w, t);
    PublishOwns(w, t);
    PublishStamps(w, t);
  }

  /** Publishing turns a pending version into the newest committed one. */
  lemma PublishSlot(w: World, t: TxnId, rid: Rid)
    requires Enabled(w, Publish(t)) && w.undo.Keys == w.txns.Keys && rid in w.heap && w.hist.Keys == w.heap.Keys
    requires SlotOk(w, w.heap[rid], w.hist[rid])
    requires w.heap[rid].ts == w.last + 1 <==> rid in w.txns[t].writes
    requires w.committer == Some(t) && w.heap[rid].ts != t && 0 <= w.last < w.last + 1 < TXN_START_ID
    ensures var w' := Next(w, Publish(t));
            SlotOk(w', w'.heap[rid], w'.hist[rid])
  {
    var w' := Next(w, Publish(t));
    var v, h := w.heap[rid], w.hist[rid];
    if rid in w.txns[t].writes {
      assert w'.hist[rid] == Pending(h, v, t, w.txns[t].readTs);
    } else {
      assert w'.hist[rid] == h;
      if v.ts > w.last {
        assert WriterOf(w', v.ts) == WriterOf(w, v.ts);
      }
    }
  }

  lemma PublishHist(w: World, t: TxnId, rid: Rid)
    requires Enabled(w, Publish(t)) && w.undo.Keys == w.txns.Keys && rid in w.heap && w.hist.Keys == w.heap.Keys
    requires HistOk(w, w.hist[rid]) && w.txns[t].readTs <= w.last && t < w.next
    requires rid in w.txns[t].writes ==> Last(w.hist[rid]).ts <= w.txns[t].readTs
    ensures HistOk(Next(w, Publish(t)), Next(w, Publish(t)).hist[rid])
  {
    var w' := Next(w, Publish(t));
    var h := w.hist[rid];
    assert w'.hist[rid] == if rid in w.txns[t].writes
      then h + [Version(w.last + 1, Content(w.heap[rid]), t, w.txns[t].readTs)] else h;
  }

  lemma PublishSlots(w: World, t: TxnId)
    requires w.hist.Keys == w.heap.Keys && SlotsOk(w) && OwnsOk(w) && Enabled(w, Publish(t))
      && w.undo.Keys == w.txns.Keys
    requires w.committer == Some(t) && 0 <= w.last < w.last + 1 < TXN_START_ID
    ensures SlotsOk(Next(w, Publish(t)))
  {
    var w' := Next(w, Publish(t));
    forall rid | rid in w'.heap
      ensures SlotOk(w', w'.heap[rid], w'.hist[rid])
    {
      AllStamped(w, t, rid);
      PublishSlot(w, t, rid);
    }
  }

  lemma PublishHists(w: World, t: TxnId)
    requires w.hist.Keys == w.heap.Keys && SlotsOk(w) && HistsOk(w) && OwnsOk(w)
    requires Enabled(w, Publish(t)) && w.undo.Keys == w.txns.Keys && t < w.next
    requires w.committer == Some(t) && w.last + 1 < TXN_START_ID && w.txns[t].readTs <= w.last
    ensures HistsOk(Next(w, Publish(t)))
  {
    var w' := Next(w, Publish(t));
    forall rid | rid in w'.hist
      ensures HistOk(w', w'.hist[rid])
    {
      AllStamped(w, t, rid);
      assert SlotOk(w, w.heap[rid], w.hist[rid]);
      PublishHist(w, t, rid);
    }
  }

  lemma PublishChains(w: World, t: TxnId)
    requires Chains(w) && OwnsOk(w) && Enabled(w, Publish(t)) && w.undo.Keys == w.txns.Keys && TxnOk(w, t) && t < w.next
    requires 0 <= w.last
    ensures Chains(Next(w, Publish(t)))
  {
    PublishSlots(w, t);
    PublishHists(w, t);
  }

  // ----- Collect ---------------------------------------------------------------------------------------

  /** The watermark is at or below every running snapshot, and no lower than at the last collection. */
  lemma WatermarkBounds(w: World)
    requires Shape(w) && TxnsOk(w) && RunningOk(w)
    ensures var mark := WatermarkOf(w.running, w.last);
            && w.floor <= mark <= w.last
            && forall t :: t in w.txns && Live(w.txns[t]) ==> mark <= w.txns[t].readTs
  {
    var mark := WatermarkOf(w.running, w.last);
    if w.running.Keys != {} {
      assert IsLeast(w.running.Keys, mark);
      var t := Sets.Pick(Readers(w.txns, mark));
      assert TxnOk(w, t);
    }
    forall t | t in w.txns && Live(w.txns[t])
      ensures mark <= w.txns[t].readTs
    {
      assert w.txns[t].readTs in w.running.Keys;
    }
  }

  /** A collection needs only buffers that exist. */
  lemma {:induction false} NeededExists(u: Buffers, v: Slot, mark: int)
    ensures Needed(u, v, mark) <= u.Keys
    decreases if v.ts < 0 then 0 else v.ts
  {
    if v.ts > mark && Resolves(u, v.link) {
      var log := LogAt(u, v.link);
      if log.ts > mark && WellFormed(log, |v.row|) && log.ts < v.ts && v.ts > 0 {
        NeededExists(u, Down(v, log), mark);
      }
    }
  }

  lemma CollectTxns(w: World)
    requires Shape(w) && TxnsOk(w) && Enabled(w, Collect) && RunningOk(w)
    ensures Shape(DoCollect(w)) && TxnsOk(DoCollect(w)) && w.committer == None
  {
    var w' := DoCollect(w);
    WatermarkBounds(w);
    forall t | t in w.txns
      ensures w.committer != Some(t)
    {
      assert TxnOk(w, t);
    }
    forall t | t in w'.txns
      ensures TxnOk(w', t)
    {
      assert TxnOk(w, t);
    }
  }

  lemma LiveKept(w: World, t: TxnId)
    requires t in w.txns && Live(w.txns[t])
    ensures t in DoCollect(w).txns
  {
  }

  lemma CollectOwns(w: World)
    requires Shape(w) && TxnsOk(w) && OwnsOk(w) && StampsOk(w) && LinksDistinct(w) && w.committer == None
    ensures OwnsOk(DoCollect(w)) && StampsOk(DoCollect(w)) && LinksDistinct(DoCollect(w))
  {
    var w' := DoCollect(w);
    forall rid | rid in w'.heap
      ensures StampOk(w', w'.heap[rid].ts)
    {
      var ts := w.heap[rid].ts;
      assert StampOk(w, ts);
      if ts >= TXN_START_ID {
        assert TxnOk(w, ts) && Owns(w.txns[ts], ts, rid, ts, w.last);
        LiveKept(w, ts);
      }
    }
  }

  lemma CollectSlot(w: World, rid: Rid, mark: int)
    requires rid in w.heap && w.hist.Keys == w.heap.Keys && w.undo.Keys == w.txns.Keys
    requires SlotOk(w, w.heap[rid], w.hist[rid]) && HistOk(w, w.hist[rid]) && w.committer == None
    requires mark == WatermarkOf(w.running, w.last) && w.floor <= mark
    requires w.heap[rid].ts > w.last ==>
               w.heap[rid].ts in w.txns && Live(w.txns[w.heap[rid].ts]) && w.txns[w.heap[rid].ts].readTs < TXN_START_ID
    ensures SlotOk(DoCollect(w), w.heap[rid], w.hist[rid])
  {
    var v, h, kept := w.heap[rid], w.hist[rid], Kept(w, mark);
    NeededExists(w.undo, v, mark);
    assert Needed(w.undo, v, mark) <= kept;
    if v.ts <= w.last {
      CollectKeepsChain(w.undo, w.floor, v, h, mark, kept);
    } else {
      var t := WriterOf(w, v.ts);
      CollectKeepsChain(w.undo, w.floor, v, Pending(h, v, t, w.txns[t].readTs), mark, kept);
    }
  }

  lemma CollectChains(w: World)
    requires Chains(w) && Shape(w) && TxnsOk(w) && OwnsOk(w) && Enabled(w, Collect) && RunningOk(w)
    requires w.committer == None
    ensures Chains(DoCollect(w))
  {
    WatermarkBounds(w);
    forall rid | rid in w.heap
      ensures SlotOk(DoCollect(w), w.heap[rid], w.hist[rid])
    {
      var ts := w.heap[rid].ts;
      assert SlotOk(w, w.heap[rid], w.hist[rid]) && HistOk(w, w.hist[rid]);
      if ts > w.last {
        assert TxnOk(w, ts) && Owns(w.txns[ts], ts, rid, ts, w.last);
      }
      CollectSlot(w, rid, WatermarkOf(w.running, w.last));
    }
    HistsFrame(w, DoCollect(w));
  }
}
