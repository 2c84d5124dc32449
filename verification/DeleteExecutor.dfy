/** `DELETE`: rows are deleted batch by batch while the child scan that finds them is still open. */
module DeleteExecutors {
  import opened Sql
  import opened Chain
  import opened Mvcc
  import opened PkIndex
  import opened PkViews
  import opened IndexedTables
  import opened ScanExecutors
  import opened Plans
  import opened Bags

  datatype DeleteResult = Deleted(count: nat) | NoMore | DeleteConflict

  // ----- views that lose slots ----------------------------------------------------------------------------------

  function SlotsOf(hits: seq<Hit>): set<nat> {
    set h | h in hits :: h.rid.slot
  }

  lemma SlotsOfMore(hits: seq<Hit>, more: seq<Hit>)
    ensures SlotsOf(hits + more) == SlotsOf(hits) + SlotsOf(more)
  {
    forall h | h in hits || h in more
      ensures h in hits + more
    {
    }
  }

  /** The slots in `gone` have been emptied; the others are as before, with more empty ones behind them. */
  ghost predicate Emptied(before: seq<Option<Row>>, after: seq<Option<Row>>, gone: set<nat>) {
    |before| <= |after| && forall i :: 0 <= i < |after| ==>
      after[i] == if i in gone || |before| <= i then None else before[i]
  }

  /** The rows that a deletion leaves: those for which its predicate is not true. */
  function Spared(view: seq<Option<Row>>, filter: Option<Expr>): (spared: seq<Option<Row>>)
    ensures |spared| == |view|
  {
    seq(|view|, i requires 0 <= i < |view| =>
      if view[i].Some? && Passes(filter, view[i].value) then None else view[i])
  }

  /** Emptying all that a complete scan finds leaves exactly those rows. */
  lemma EmptiedIsSpared(
      table: nat, view: seq<Option<Row>>, filter: Option<Expr>, slots: seq<nat>,
      before: seq<Option<Row>>, after: seq<Option<Row>>)
    requires Complete(view, filter, slots) && |view| <= |before| && before == Pad(view, |before|)
    requires Emptied(before, after, SlotsOf(HitsAt(table, view, filter, slots)))
    ensures |view| <= |after| && after == Pad(Spared(view, filter), |after|)
  {
    var hits := HitsAt(table, view, filter, slots);
    forall i: nat | i < |view|
      ensures i in SlotsOf(hits) <==> view[i].Some? && Passes(filter, view[i].value)
    {
      if view[i].Some? && Passes(filter, view[i].value) {
        var h := Hit(Rid(table, i), view[i].value);
        FlatMapIn(Hitting(table, view, filter), slots, h);
        assert h in Hitting(table, view, filter)(i);
      }
      if i in SlotsOf(hits) {
        var h :| h in hits && h.rid.slot == i;
        FlatMapIn(Hitting(table, view, filter), slots, h);
      }
    }
    forall i: nat | i < |view|
      ensures before[i] == view[i]
    {
      assert before[..|view|][i] == view[i];
    }
  }

  lemma ScanLast(view: seq<Option<Row>>, filter: Option<Expr>, n: nat)
    requires |view| == n + 1
    ensures SeqScanRows(view, filter) ==
            SeqScanRows(view[..n], filter) + if Spared(view, filter)[n] == view[n] then [] else Rows(view[n])
  {
    assert UpTo(n + 1) == UpTo(n) + [n];
    FlatMapAppend<nat, Row>(Scanning(view, filter), UpTo(n), [n]);
    FlatMapSingle<nat, Row>(Scanning(view, filter), n);
    FlatMapSame<nat, Row>(Scanning(view, filter), Scanning(view[..n], filter), UpTo(n));
  }

  lemma PresentLast(view: seq<Option<Row>>, n: nat)
    requires |view| == n + 1
    ensures Present(view) == Present(view[..n]) + Rows(view[n])
  {
    assert view == view[..n] + [view[n]];
    FlatMapAppend(Rows, view[..n], [view[n]]);
    FlatMapSingle(Rows, view[n]);
  }

  lemma SparedLast(view: seq<Option<Row>>, filter: Option<Expr>, n: nat)
    requires |view| == n + 1
    ensures Present(Spared(view, filter)) == Present(Spared(view[..n], filter)) + Rows(Spared(view, filter)[n])
  {
    assert Spared(view, filter)[..n] == Spared(view[..n], filter);
    PresentLast(Spared(view, filter), n);
  }

  lemma SplitLonger(a: seq<Row>, b: seq<Row>, c: seq<Row>, x: seq<Row>, y: seq<Row>, z: seq<Row>)
    requires multiset(a) + multiset(b) == multiset(c) && multiset(x) + multiset(y) == multiset(z)
    ensures multiset(a + x) + multiset(b + y) == multiset(c + z)
  {
  }

  /** What is spared and what the scan selects make up the old rows. */
  lemma {:induction false} SparedBag(view: seq<Option<Row>>, filter: Option<Expr>)
    ensures multiset(Present(Spared(view, filter))) + multiset(SeqScanRows(view, filter)) == multiset(Present(view))
    decreases |view|
  {
    if view != [] {
      var n := |view| - 1;
      var init, spared, last := view[..n], Spared(view, filter)[n], view[n];
      SparedBag(init, filter);
      SparedLast(view, filter, n);
      PresentLast(view, n);
      ScanLast(view, filter, n);
      SplitLonger(Present(Spared(init, filter)), SeqScanRows(init, filter), Present(init),
                  Rows(spared), if spared == last then [] else Rows(last), Rows(last));
    }
  }

  // ----- which rows may still be deleted -----------------------------------------------------------------------

  ghost predicate AllEditable(p: Pk, t: TxnId, hits: seq<Hit>) {
    forall h :: h in hits ==> Editable(p, t, h.rid)
  }

  /** Seen from the state `p`, the deletions so far were all possible and change nothing for those to come. */
  ghost predicate DoneSoFar(p: Pk, now: Pk, t: TxnId, gone: seq<Hit>, rest: seq<Hit>) {
    && AllEditable(p, t, gone)
    && forall h :: h in rest ==> (Editable(now, t, h.rid) <==> Editable(p, t, h.rid))
  }

  lemma OneMoreDone(p: Pk, now: Pk, next: Pk, t: TxnId, gone: seq<Hit>, h: Hit, rest: seq<Hit>)
    requires DoneSoFar(p, now, t, gone, [h] + rest) && Editable(now, t, h.rid) && Frees(now, next, t, h.rid, true)
    requires DistinctRids([h] + rest)
    ensures DoneSoFar(p, next, t, gone + [h], rest)
  {
    assert h in [h] + rest;
    forall other | other in rest
      ensures Editable(next, t, other.rid) <==> Editable(p, t, other.rid)
    {
      assert other in [h] + rest;
      var k :| 0 <= k < |rest| && rest[k] == other;
      assert ([h] + rest)[0].rid != ([h] + rest)[k + 1].rid;
    }
  }

  // ----- one deletion ---------------------------------------------------------------------------------------------

  /** The hits are in sight. */
  ghost predicate Waiting(sight: seq<Option<Row>>, table: nat, hits: seq<Hit>) {
    forall h :: h in hits ==>
      h.rid.table == table && h.rid.slot < |sight| && sight[h.rid.slot] == Some(h.row)
  }

  lemma AheadIsWaiting(
      sight: seq<Option<Row>>, table: nat, view: seq<Option<Row>>, filter: Option<Expr>, slots: seq<nat>)
    requires Undisturbed(sight, view, slots)
    ensures Waiting(sight, table, HitsAt(table, view, filter, slots))
  {
    HitsShown(table, view, filter, slots);
  }

  /** The view after `h` has been deleted. */
  lemma ViewWithout(
      start: seq<Option<Row>>, sight: seq<Option<Row>>, gone: seq<Hit>, table: nat, h: Hit, rest: seq<Hit>,
      view: seq<Option<Row>>, ahead: seq<nat>)
    requires Emptied(start, sight, SlotsOf(gone)) && Waiting(sight, table, [h] + rest) && DistinctRids([h] + rest)
    requires Undisturbed(sight, view, ahead) && h.rid.slot !in ahead && h.rid.slot < |sight|
    ensures var after := sight[h.rid.slot := None];
      Emptied(start, after, SlotsOf(gone + [h])) && Waiting(after, table, rest) && Undisturbed(after, view, ahead)
  {
    SlotsOfMore(gone, [h]);
    assert SlotsOf([h]) == {h.rid.slot};
    forall other | other in rest
      ensures other in [h] + rest && other.rid != h.rid
    {
      assert h in [h] + rest;
      var k :| 0 <= k < |rest| && rest[k] == other;
      assert ([h] + rest)[0].rid != ([h] + rest)[k + 1].rid;
    }
  }

  /**
   * Where a deletion stands: `gone` has been emptied since `start`, `rest` is in sight and comes next, and the
   * child scan is undisturbed.
   */
  ghost predicate Standing(child: TableScan, start: seq<Option<Row>>, gone: seq<Hit>, rest: seq<Hit>)
    reads child.Executor(), child.Table(), child.Table().tm, child.Table().tm.runningTxns
  {
    && child.Valid() && DistinctRids(rest)
    && Emptied(start, child.Sight(), SlotsOf(gone)) && Waiting(child.Sight(), child.Table().info.table, rest)
  }

  /** The same, and if nobody else has run since `p`, what that says about conflicts. */
  ghost predicate Progress(
      child: TableScan, start: seq<Option<Row>>, p: Pk, gone: seq<Hit>, rest: seq<Hit>, alone: bool)
    reads child.Executor(), child.Table(), child.Table().tm, child.Table().tm.runningTxns
  {
    && Standing(child, start, gone, rest)
    && (alone ==> DoneSoFar(p, child.Table().Value(), child.Txn(), gone, rest))
  }

  /** Others run: everything stands as before. */
  method Pause(child: TableScan, ghost start: seq<Option<Row>>, ghost p: Pk, ghost gone: seq<Hit>,
               ghost rest: seq<Hit>, ghost alone: bool)
    requires Progress(child, start, p, gone, rest, alone)
    modifies child.Table(), child.Table().tm, child.Table().tm.runningTxns
    ensures Progress(child, start, p, gone, rest, alone)
  {
    ghost var sight := child.Sight();
    child.Table().LetOthersRun(child.Txn(), alone);
    PadUndisturbed(sight, child.Table().slots, child.Viewed(), child.Ahead());
    PadStanding(start, sight, child.Table().slots, gone, child.Table().info.table, rest);
  }

  lemma PadStanding(
      start: seq<Option<Row>>, sight: seq<Option<Row>>, n: nat, gone: seq<Hit>, table: nat, rest: seq<Hit>)
    requires |sight| <= n && Emptied(start, sight, SlotsOf(gone)) && Waiting(sight, table, rest)
    ensures Emptied(start, Pad(sight, n), SlotsOf(gone)) && Waiting(Pad(sight, n), table, rest)
  {
    forall i | 0 <= i < |sight|
      ensures Pad(sight, n)[i] == sight[i]
    {
      assert Pad(sight, n)[..|sight|][i] == sight[i];
    }
  }

  /** Delete one row. */
  method DeleteOne(
      child: TableScan, h: Hit, ghost rest: seq<Hit>, ghost start: seq<Option<Row>>, ghost gone: seq<Hit>,
      ghost p: Pk, ghost alone: bool)
      returns (ok: bool)
    requires Progress(child, start, p, gone, [h] + rest, alone) && h.rid.slot !in child.Ahead()
    modifies child.Table().tm
    ensures ok ==> Progress(child, start, p, gone + [h], rest, alone)
    ensures alone && !ok ==> !Editable(p, child.Txn(), h.rid)
    ensures !ok ==> Failed(child)
  {
    ghost var sight, now := child.Sight(), child.Table().Value();
    assert h in [h] + rest;
    var result := child.Table().DeleteRow(child.Txn(), h.rid);
    ok := result.Modified?;
    if ok {
      ViewWithout(start, sight, gone, child.Table().info.table, h, rest, child.Viewed(), child.Ahead());
      TailDistinct(h, rest);
      if alone { OneMoreDone(p, now, child.Table().Value(), child.Txn(), gone, h, rest); }
    }
  }

  /** A conflict has tainted the transaction. */
  ghost predicate Failed(child: TableScan)
    reads child.Table(), child.Table().tm, child.Table().tm.runningTxns
  {
    child.Table().Valid() && child.Txn() in child.Table().tm.txns
    && child.Table().tm.txns[child.Txn()].state == Tainted
  }

  lemma TailDistinct(h: Hit, rest: seq<Hit>)
    requires DistinctRids([h] + rest)
    ensures DistinctRids(rest)
  {
    forall i, j | 0 <= i < j < |rest|
      ensures rest[i].rid != rest[j].rid
    {
      assert ([h] + rest)[i + 1].rid != ([h] + rest)[j + 1].rid;
    }
  }

  /** One turn of the loop over a batch. */
  method DeleteNext(
      child: TableScan, batch: seq<Hit>, i: nat, ghost rest: seq<Hit>, ghost start: seq<Option<Row>>,
      ghost gone: seq<Hit>, ghost p: Pk, ghost alone: bool)
      returns (ok: bool)
    requires i < |batch| && Progress(child, start, p, gone + batch[..i], batch[i..] + rest, alone)
    requires Behind(batch, child.Ahead())
    modifies child.Table(), child.Table().tm, child.Table().tm.runningTxns
    ensures ok ==> Progress(child, start, p, gone + batch[..i + 1], batch[i + 1..] + rest, alone)
    ensures alone && !ok ==> !AllEditable(p, child.Txn(), batch)
    ensures !ok ==> Failed(child)
  {
    ghost var later := batch[i + 1..] + rest;
    assert batch[i..] + rest == [batch[i]] + later;
    assert (gone + batch[..i]) + [batch[i]] == gone + batch[..i + 1];
    Pause(child, start, p, gone + batch[..i], [batch[i]] + later, alone);
    ok := DeleteOne(child, batch[i], later, start, gone + batch[..i], p, alone);
  }

  method FetchBatch(
      child: TableScan, batchSize: nat, ghost start: seq<Option<Row>>, ghost p: Pk, ghost gone: seq<Hit>,
      ghost alone: bool)
      returns (batch: seq<Hit>, more: bool)
    requires Progress(child, start, p, gone, child.Remaining(), alone) && batchSize > 0
    modifies child.Executor(), child.Table(), child.Table().tm, child.Table().tm.runningTxns
    ensures batch + child.Remaining() == old(child.Remaining()) && Behind(batch, child.Ahead())
    ensures Progress(child, start, p, gone, batch + child.Remaining(), alone)
    ensures if more then batch != [] else batch == child.Remaining() == []
  {
    Pause(child, start, p, gone, child.Remaining(), alone);
    batch, more := child.Next(batchSize);
  }

  /** Delete the rows of one batch. */
  method DeleteBatch(
      child: TableScan, batch: seq<Hit>, ghost start: seq<Option<Row>>, ghost gone: seq<Hit>, ghost p: Pk,
      ghost alone: bool)
      returns (ok: bool)
    requires Progress(child, start, p, gone, batch + child.Remaining(), alone) && Behind(batch, child.Ahead())
    modifies child.Table(), child.Table().tm, child.Table().tm.runningTxns
    ensures ok ==> Progress(child, start, p, gone + batch, child.Remaining(), alone)
    ensures alone && !ok ==> !AllEditable(p, child.Txn(), batch)
    ensures !ok ==> Failed(child)
  {
    ghost var rest := child.Remaining();
    assert gone + batch[..0] == gone && batch[0..] == batch;
    for i := 0 to |batch|
      invariant Progress(child, start, p, gone + batch[..i], batch[i..] + rest, alone)
    {
      ok := DeleteNext(child, batch, i, rest, start, gone, p, alone);
      if !ok {
        return false;
      }
    }
    assert batch[..|batch|] == batch && batch[|batch|..] + rest == rest;
    return true;
  }

  /** One turn of the loop over the batches. */
  method DeleteSome(
      child: TableScan, batchSize: nat, ghost start: seq<Option<Row>>, ghost p: Pk, ghost gone: seq<Hit>,
      ghost all: seq<Hit>, ghost alone: bool)
      returns (batch: seq<Hit>, more: bool, ok: bool)
    requires Progress(child, start, p, gone, child.Remaining(), alone) && gone + child.Remaining() == all
    requires batchSize > 0
    modifies child.Executor(), child.Table(), child.Table().tm, child.Table().tm.runningTxns
    ensures ok ==> Progress(child, start, p, gone + batch, child.Remaining(), alone)
    ensures (gone + batch) + child.Remaining() == all && batch + child.Remaining() == old(child.Remaining())
    ensures if more then batch != [] else child.Remaining() == []
    ensures alone && !ok ==> !AllEditable(p, child.Txn(), all)
    ensures !ok ==> Failed(child)
  {
    batch, more := FetchBatch(child, batchSize, start, p, gone, alone);
    Associates(gone, batch, child.Remaining());
    assert forall h :: h in batch ==> h in (gone + batch) + child.Remaining();
    ok := DeleteBatch(child, batch, start, gone, p, alone);
  }

  // ----- the executor -----------------------------------------------------------------------------------------------

  class DeleteExecutor {
    var done: bool

    constructor ()
      ensures !done
    {
      done := false;
    }

    method Init(child: TableScan)
      requires child.Table().Valid() && child.Table().Ready(child.Txn()) && child.Suits()
      modifies this, child.Executor(), child.Table().tm
      ensures !done && child.Fresh() && child.Sight() == old(child.Sight())
    {
      done := false;
      child.Init();
      child.BeginsFresh();
    }

    /** Fetch a batch, delete its rows, fetch the next, with others running in between. */
    method DeleteAll(child: TableScan, batchSize: nat, ghost start: seq<Option<Row>>, ghost p: Pk, ghost alone: bool)
        returns (ok: bool, count: nat)
      requires Progress(child, start, p, [], child.Remaining(), alone) && batchSize > 0
      modifies child.Executor(), child.Table(), child.Table().tm, child.Table().tm.runningTxns
      ensures ok ==> Progress(child, start, p, old(child.Remaining()), [], alone) && count == |old(child.Remaining())|
      ensures alone && !ok ==> !AllEditable(p, child.Txn(), old(child.Remaining()))
      ensures !ok ==> Failed(child)
    {
      ghost var all, gone := child.Remaining(), [];
      count, ok := 0, true;
      var more := true;
      while more
        invariant Progress(child, start, p, gone, child.Remaining(), alone) && gone + child.Remaining() == all
        invariant ok && count == |gone| && (!more ==> child.Remaining() == [])
        decreases more, |child.Remaining()|
      {
        var batch;
        batch, more, ok := DeleteSome(child, batchSize, start, p, gone, all, alone);
        if !ok {
          return;
        }
        gone, count := gone + batch, count + |batch|;
      }
    }

    /**
     * The deletions do not disturb the scan: on success the transaction sees exactly the rows of before for
     * which the predicate is not true. Undisturbed, it succeeds exactly when nobody else has changed the rows it
     * selects.
     */
    method Next(child: TableScan, batchSize: nat, ghost alone: bool) returns (result: DeleteResult)
      requires child.Fresh() && batchSize > 0
      modifies this, child.Executor(), child.Table(), child.Table().tm, child.Table().tm.runningTxns
      ensures result.NoMore? <==> old(done)
      ensures alone && !old(done) ==>
        (result.Deleted? <==> old(AllEditable(child.Table().Value(), child.Txn(), child.Remaining())))
      ensures result.DeleteConflict? ==> Failed(child)
      ensures result.Deleted? ==>
        && done && child.Valid() && |old(child.Viewed())| <= child.Table().slots
        && result.count == old(|SeqScanRows(child.Viewed(), child.Predicate())|)
        && child.Sight() == Pad(old(Spared(child.Viewed(), child.Predicate())), child.Table().slots)
    {
      if done {
        return NoMore;
      }
      result := DeleteFound(child, batchSize, alone);
      done := result.Deleted?;
    }

    method DeleteFound(child: TableScan, batchSize: nat, ghost alone: bool) returns (result: DeleteResult)
      requires child.Fresh() && batchSize > 0
      modifies child.Executor(), child.Table(), child.Table().tm, child.Table().tm.runningTxns
      ensures alone ==>
        (result.Deleted? <==> old(AllEditable(child.Table().Value(), child.Txn(), child.Remaining())))
      ensures !result.NoMore? && (result.DeleteConflict? ==> Failed(child))
      ensures result.Deleted? ==>
        && child.Valid() && |old(child.Viewed())| <= child.Table().slots
        && result.count == old(|SeqScanRows(child.Viewed(), child.Predicate())|)
        && child.Sight() == Pad(old(Spared(child.Viewed(), child.Predicate())), child.Table().slots)
    {
      ghost var start, p, view, filter, slots :=
        child.Sight(), child.Table().Value(), child.Viewed(), child.Predicate(), child.Ahead();
      BeginProgress(child);
      var ok, count := DeleteAll(child, batchSize, start, p, alone);
      if !ok {
        return DeleteConflict;
      }
      EmptiedIsSpared(child.Table().info.table, view, filter, slots, start, child.Sight());
      return Deleted(count);
    }
  }

  /** Everything is still to come. */
  lemma BeginProgress(child: TableScan)
    requires child.Fresh()
    ensures forall alone :: Progress(child, child.Sight(), child.Table().Value(), [], child.Remaining(), alone)
    ensures |child.Remaining()| == |SeqScanRows(child.Viewed(), child.Predicate())|
  {
    var table, view, filter, slots := child.Table().info.table, child.Viewed(), child.Predicate(), child.Ahead();
    FreshHits(table, view, filter, slots);
    AheadIsWaiting(child.Sight(), table, view, filter, slots);
    BagIn(RowsOf(child.Remaining()), SeqScanRows(view, filter));
    OneRowEach(child.Remaining());
  }

  lemma {:induction false} OneRowEach(hits: seq<Hit>)
    ensures |RowsOf(hits)| == |hits|
    decreases |hits|
  {
    if hits != [] { OneRowEach(hits[1..]); }
  }
}
