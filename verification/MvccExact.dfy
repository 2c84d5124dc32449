/** What the engine decides, read off the committed histories: when edits conflict, when commits fail, what goes. */
module MvccExact {
  import opened Sql
  import opened Chain
  import opened Watermarks
  import opened Mvcc
  import opened MvccSerial
  import opened MvccTheorems

  // ----- edits -----------------------------------------------------------------------------------------------

  /** The row is `t`'s own, or nobody else is at it and its newest committed version is in `t`'s snapshot. */
  ghost predicate MayEdit(w: World, t: TxnId, rid: Rid) {
    && t in w.txns && rid in w.heap && rid in w.hist
    && (w.heap[rid].ts == t || (w.heap[rid].ts <= w.last && Last(w.hist[rid]).ts <= w.txns[t].readTs))
  }

  lemma ConflictsExactly(w: World, t: TxnId, rid: Rid, requireDeleted: bool)
    requires Core(w) && IsActive(w, t) && rid in w.heap
    ensures !Conflicts(w, t, rid, requireDeleted) <==>
      MayEdit(w, t, rid) && (requireDeleted ==> Visible(ReadBy(w, t, rid)) == None)
  {
    var v, h := w.heap[rid], w.hist[rid];
    assert SlotOk(w, v, h) && HistOk(w, h) && TxnOk(w, t);
  }

  /**
   * First updater wins, exactly: an edit goes through, leaving the target in place and the transaction as it was,
   * if and only if the row is the transaction's own, or nobody else's version is on it and its newest committed
   * version lies in the snapshot; and where a deleted row is asked for, if the transaction sees nothing there.
   */
  lemma EditExactly(w: World, t: TxnId, rid: Rid, target: Option<Row>, requireDeleted: bool)
    requires Inv(w) && Enabled(w, Modify(t, rid, target, requireDeleted))
    ensures var w', may := Next(w, Modify(t, rid, target, requireDeleted)),
                           MayEdit(w, t, rid) && (requireDeleted ==> Visible(ReadBy(w, t, rid)) == None);
      && t in w'.txns
      && (may ==>
            && w'.txns[t].state == w.txns[t].state && w'.heap[rid].ts == t && Content(w'.heap[rid]) == target
            && rid in w'.txns[t].writes && Visible(ReadBy(w', t, rid)) == target)
      && (!may ==> w'.txns[t].state == Tainted != w.txns[t].state && w'.heap == w.heap && w'.undo == w.undo)
  {
    ConflictsExactly(w, t, rid, requireDeleted);
    EditTakes(w, t, rid, target, requireDeleted);
  }

  lemma EditTakes(w: World, t: TxnId, rid: Rid, target: Option<Row>, requireDeleted: bool)
    requires w.undo.Keys == w.txns.Keys && Enabled(w, Modify(t, rid, target, requireDeleted))
    ensures var w' := Next(w, Modify(t, rid, target, requireDeleted));
      && t in w'.txns
      && (!Conflicts(w, t, rid, requireDeleted) ==>
            && w'.txns[t].state == w.txns[t].state && w'.heap[rid].ts == t && Content(w'.heap[rid]) == target
            && rid in w'.txns[t].writes)
      && (Conflicts(w, t, rid, requireDeleted) ==>
            w'.txns[t].state == Tainted != w.txns[t].state && w'.heap == w.heap && w'.undo == w.undo)
  {
  }

  // ----- validation --------------------------------------------------------------------------------------------

  /** The scan's filter selects the row, if there is one. */
  predicate Selects(filter: Option<Expr>, row: Option<Row>) {
    row.Some? && Passes(filter, row.value)
  }

  /** A commit after the snapshot changed this row, and one of the scans selects it before or after that commit. */
  ghost predicate RowDisturbed(w: World, x: Txn, rid: Rid) {
    rid in w.hist && exists i, k :: DisturbedBy(w, x, rid, i, k)
  }

  ghost predicate DisturbedBy(w: World, x: Txn, rid: Rid, i: int, k: int)
    requires rid in w.hist
  {
    && 0 <= x.readTs <= i < |w.commits| && rid in w.commits[i].images
    && 0 <= k < |x.scans| && x.scans[k].table == rid.table
    && (Selects(x.scans[k].filter, w.commits[i].images[rid])
        || Selects(x.scans[k].filter, Replay(w.commits, w.hist[rid][0].row, rid, i)))
  }

  lemma MatchesSelects(q: Query, row: Option<Row>)
    ensures Matches(q, row) <==>
      exists k :: 0 <= k < |q.scans| && q.scans[k].table == q.table && Selects(q.scans[k].filter, row)
  {
  }

  /** Just before a version its predecessor was current. */
  lemma {:induction false} AsOfBefore(h: History, k: nat)
    requires Ordered(h) && 0 < k < |h|
    ensures AsOf(h, h[k].ts - 1) == h[k - 1].row
    decreases |h|
  {
    OrderedTs(h, k - 1, k);
    if k < |h| - 1 {
      OrderedTs(h, k, |h| - 1);
      AsOfBefore(h[..|h| - 1], k);
    }
  }

  /** The version that the `i`-th commit wrote, and what was current just before. */
  lemma VersionOfCommit(w: World, rid: Rid, k: nat)
    requires CommitsOk(w) && HistsOk(w) && |w.commits| == w.last && rid in w.hist && 0 < k < |w.hist[rid]|
    ensures var h := w.hist[rid];
      && 0 < h[k].ts <= w.last && rid in w.commits[h[k].ts - 1].images
      && w.commits[h[k].ts - 1].images[rid] == h[k].row
      && Replay(w.commits, h[0].row, rid, h[k].ts - 1) == h[k - 1].row
  {
    var h := w.hist[rid];
    assert HistOk(w, h) && FromCommit(w.commits, rid, h[k]);
    AsOfBefore(h, k);
    ReplayHistory(w, rid, h, h[k].ts - 1);
  }

  lemma UnchangedMeans(w: World, x: Txn, rid: Rid)
    requires CommitsOk(w) && HistsOk(w) && |w.commits| == w.last < TXN_START_ID && rid in w.hist && 0 <= x.readTs
    ensures UnchangedSince(w.hist[rid], x.readTs, Query(x.scans, rid.table)) <==> !RowDisturbed(w, x, rid)
  {
    var h, q := w.hist[rid], Query(x.scans, rid.table);
    if !UnchangedSince(h, x.readTs, q) {
      var n :| 0 <= n < |h| && x.readTs < h[n].ts < TXN_START_ID
               && (Matches(q, h[n].row) || (n > 0 && Matches(q, h[n - 1].row)));
      DisturbedFrom(w, x, rid, n);
    }
    if RowDisturbed(w, x, rid) {
      var i, k :| DisturbedBy(w, x, rid, i, k);
      DisturbedAt(w, x, rid, i, k);
    }
  }

  lemma DisturbedAt(w: World, x: Txn, rid: Rid, i: int, k: int)
    requires CommitsOk(w) && HistsOk(w) && |w.commits| == w.last < TXN_START_ID && rid in w.hist && 0 <= x.readTs
    requires DisturbedBy(w, x, rid, i, k)
    ensures !UnchangedSince(w.hist[rid], x.readTs, Query(x.scans, rid.table))
  {
    var h, q := w.hist[rid], Query(x.scans, rid.table);
    assert HasVersionOf(w.hist, rid, i);
    var n :| 0 < n < |h| && h[n].ts == i + 1;
    VersionOfCommit(w, rid, n);
    MatchesSelects(q, h[n].row);
    MatchesSelects(q, h[n - 1].row);
    assert Matches(q, h[n].row) || Matches(q, h[n - 1].row);
  }

  lemma DisturbedFrom(w: World, x: Txn, rid: Rid, n: nat)
    requires CommitsOk(w) && HistsOk(w) && |w.commits| == w.last < TXN_START_ID && rid in w.hist && 0 <= x.readTs
    requires var h, q := w.hist[rid], Query(x.scans, rid.table);
      n < |h| && x.readTs < h[n].ts && (Matches(q, h[n].row) || (n > 0 && Matches(q, h[n - 1].row)))
    ensures RowDisturbed(w, x, rid)
  {
    var h, q := w.hist[rid], Query(x.scans, rid.table);
    assert HistOk(w, h);
    if n == 0 {
      assert false;
    } else {
      VersionOfCommit(w, rid, n);
      MatchesSelects(q, h[n].row);
      MatchesSelects(q, h[n - 1].row);
      var row := if Matches(q, h[n].row) then h[n].row else h[n - 1].row;
      var k :| 0 <= k < |q.scans| && q.scans[k].table == q.table && Selects(q.scans[k].filter, row);
      assert DisturbedBy(w, x, rid, h[n].ts - 1, k);
    }
  }

  /** The validation walk of one row: it fails exactly if a commit after the snapshot disturbed a scan there. */
  lemma VerdictExactly(w: World, rid: Rid, x: Txn)
    requires Inv(w) && rid in w.heap && w.floor <= x.readTs && 0 <= x.readTs
    requires w.heap[rid].ts <= w.last || w.heap[rid].ts >= TXN_START_ID
    ensures Unchanged(w.undo, w.heap[rid], x.readTs, Query(x.scans, rid.table)) <==> !RowDisturbed(w, x, rid)
  {
    VerdictOfRow(w, rid, x.readTs, Query(x.scans, rid.table));
    UnchangedMeans(w, x, rid);
  }

  /** And such a row is among those that the committer looks at. */
  lemma DisturbedIsChanged(w: World, t: TxnId, rid: Rid)
    requires Inv(w) && t in w.txns && Live(w.txns[t]) && w.txns[t].isolation == Serializable
    requires RowDisturbed(w, w.txns[t], rid)
    ensures rid in ChangedRows(w.txns, w.txns[t])
  {
    var x := w.txns[t];
    var i, k :| DisturbedBy(w, x, rid, i, k);
    assert HasVersionOf(w.hist, rid, i);
    var n :| 0 < n < |w.hist[rid]| && w.hist[rid][n].ts == i + 1;
    assert Witnessed(w.txns, rid, w.hist[rid][n]);
  }

  // ----- collection --------------------------------------------------------------------------------------------

  /** Without the transaction's undo buffer some reader at or above `mark` would read the row differently. */
  ghost predicate ReaderMisses(u: Buffers, v: Slot, mark: int, t: TxnId) {
    exists r :: mark <= r && Read(u - {t}, v, r) != Read(u, v, r)
  }

  lemma {:induction false} NeededByReader(u: Buffers, floor: int, v: Slot, h: History, mark: int, t: TxnId)
    requires Represents(u, floor, v, h) && Ordered(h) && floor <= mark && 0 <= mark && t in Needed(u, v, mark)
    ensures Read(u - {t}, v, mark) != Read(u, v, mark)
    decreases |h|
  {
    ReadIsAsOf(u, floor, v, h, mark);
    var log := LogAt(u, v.link);
    ChainDecreases(u, floor, v, h);
    if v.link.txn != t {
      NeededByReader(u, floor, Down(v, log), h[..|h| - 1], mark, t);
    }
  }

  lemma {:induction false} NotNeededByReader(
      u: Buffers, floor: int, v: Slot, h: History, mark: int, t: TxnId, r: int)
    requires Represents(u, floor, v, h) && Ordered(h) && floor <= mark <= r && 0 <= mark && t !in Needed(u, v, mark)
    ensures Read(u - {t}, v, r) == Read(u, v, r)
    decreases |h|
  {
    if v.ts > r && v.link.Link? {
      var log := LogAt(u, v.link);
      ChainDecreases(u, floor, v, h);
      if log.ts > mark {
        NotNeededByReader(u, floor, Down(v, log), h[..|h| - 1], mark, t, r);
      }
    }
  }

  lemma NeededExactly(u: Buffers, floor: int, v: Slot, h: History, mark: int, t: TxnId)
    requires Represents(u, floor, v, h) && Ordered(h) && floor <= mark && 0 <= mark
    ensures t in Needed(u, v, mark) <==> ReaderMisses(u, v, mark, t)
  {
    if t in Needed(u, v, mark) {
      NeededByReader(u, floor, v, h, mark, t);
    } else {
      forall r | mark <= r
        ensures Read(u - {t}, v, r) == Read(u, v, r)
      {
        NotNeededByReader(u, floor, v, h, mark, t, r);
      }
    }
  }

  lemma SlotNeededExactly(w: World, rid: Rid, mark: int, t: TxnId)
    requires Core(w) && rid in w.heap && w.floor <= mark
    ensures t in Needed(w.undo, w.heap[rid], mark) <==> ReaderMisses(w.undo, w.heap[rid], mark, t)
  {
    var v, h := w.heap[rid], w.hist[rid];
    assert SlotOk(w, v, h) && HistOk(w, h);
    if v.ts <= w.last {
      NeededExactly(w.undo, w.floor, v, h, mark, t);
    } else {
      var s := WriterOf(w, v.ts);
      assert TxnOk(w, s);
      NeededExactly(w.undo, w.floor, v, Pending(h, v, s, w.txns[s].readTs), mark, t);
    }
  }

  /** Validation of a live serializable transaction may still ask what this one wrote. */
  ghost predicate ValidatedAgainst(w: World, t: TxnId)
    requires t in w.txns
  {
    w.txns[t].state == Committed
    && exists s :: s in w.txns && Live(w.txns[s]) && w.txns[s].isolation == Serializable
                   && w.txns[s].readTs < w.txns[t].commitTs
  }

  /**
   * A collection erases exactly what nobody can miss: a finished transaction survives if and only if some reader
   * at or above the watermark needs its undo buffer, or it committed after the snapshot of a live serializable
   * transaction.
   */
  lemma CollectsExactly(w: World, t: TxnId)
    requires Inv(w) && Enabled(w, Collect) && t in w.txns
    ensures var w' := Next(w, Collect);
      && (t in w'.txns <==>
            || Live(w.txns[t]) || ValidatedAgainst(w, t)
            || exists rid :: rid in w.heap && ReaderMisses(w.undo, w.heap[rid], w'.floor, t))
      && (t in w'.undo <==> t in w'.txns)
      && (t in w'.txns ==> w'.txns[t] == w.txns[t] && w'.undo[t] == w.undo[t])
  {
    var mark := WatermarkOf(w.running, w.last);
    WatermarkIsLeast(w);
    MarkAboveFloor(w);
    forall rid | rid in w.heap
      ensures t in Needed(w.undo, w.heap[rid], mark) <==> ReaderMisses(w.undo, w.heap[rid], mark, t)
    {
      SlotNeededExactly(w, rid, mark, t);
    }
    CollectedTxn(w, t);
  }

  lemma MarkAboveFloor(w: World)
    requires Inv(w)
    ensures w.floor <= WatermarkOf(w.running, w.last)
  {
    WatermarkIsLeast(w);
    var mark := WatermarkOf(w.running, w.last);
    if mark != w.last {
      var t :| t in w.txns && Live(w.txns[t]) && w.txns[t].readTs == mark;
      assert TxnOk(w, t);
    }
  }

  lemma CollectedTxn(w: World, t: TxnId)
    requires w.undo.Keys == w.txns.Keys && Enabled(w, Collect) && t in w.txns && TxnOk(w, t)
    ensures var w', mark := Next(w, Collect), WatermarkOf(w.running, w.last);
      && w'.floor == mark && (t in w'.undo <==> t in w'.txns)
      && (t in w'.txns ==> w'.txns[t] == w.txns[t] && w'.undo[t] == w.undo[t])
      && (t in w'.txns <==>
            || Live(w.txns[t]) || ValidatedAgainst(w, t)
            || exists rid :: rid in w.heap && t in Needed(w.undo, w.heap[rid], mark))
  {
  }

  /** When nobody is live, nothing is left. */
  lemma CollectsAll(w: World)
    requires Inv(w) && Enabled(w, Collect) && forall t :: t in w.txns ==> !Live(w.txns[t])
    ensures Next(w, Collect).txns == map[] && Next(w, Collect).undo == map[]
  {
    CollectedTxns(w);
    forall t | t in w.txns
      ensures t !in Next(w, Collect).txns
    {
      CollectsDead(w, t);
    }
  }

  lemma CollectedTxns(w: World)
    requires w.undo.Keys == w.txns.Keys && Enabled(w, Collect)
    ensures Next(w, Collect).txns.Keys == Next(w, Collect).undo.Keys <= w.txns.Keys
  {
  }

  lemma CollectsDead(w: World, t: TxnId)
    requires Inv(w) && Enabled(w, Collect) && t in w.txns && forall s :: s in w.txns ==> !Live(w.txns[s])
    ensures t !in Next(w, Collect).txns
  {
    CollectsExactly(w, t);
    WatermarkIsLeast(w);
    assert TxnOk(w, t);
    CollectedTxn(w, t);
    forall rid | rid in w.heap
      ensures !ReaderMisses(w.undo, w.heap[rid], w.last, t)
    {
      NobodyAt(w, rid);
    }
  }

  lemma NobodyAt(w: World, rid: Rid)
    requires Books(w) && rid in w.heap && forall t :: t in w.txns ==> !Live(w.txns[t])
    ensures w.heap[rid].ts <= w.last
  {
    var ts := w.heap[rid].ts;
    assert StampOk(w, ts);
    forall t | t in w.txns
      ensures t != ts && w.committer != Some(t)
    {
      assert TxnOk(w, t) && Owns(w.txns[t], t, rid, ts, w.last);
    }
  }
}
