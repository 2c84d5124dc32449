/** What the transaction engine promises, over all runs. */
module MvccTheorems {
  import opened Sql
  import opened Undo
  import opened Chain
  import opened Watermarks
  import opened Mvcc
  import opened MvccCore
  import opened MvccFinish
  import opened MvccInv
  import opened MvccSerial
  import opened MvccRuns

  // ----- snapshot reads ----------------------------------------------------------------------------

  /** What transaction `t` reads at `rid`: its own version if it wrote the row, else its snapshot's. */
  ghost function ReadBy(w: World, t: TxnId, rid: Rid): Reading
    requires t in w.txns && rid in w.heap
  {
    if w.heap[rid].ts == t then Seen(Content(w.heap[rid]))
    else Read(w.undo, w.heap[rid], w.txns[t].readTs)
  }

  /** The committed row as of timestamp `r`; rows not yet created do not exist. */
  ghost function SnapshotOf(w: World, rid: Rid, r: int): Option<Row> {
    if rid in w.hist then AsOf(w.hist[rid], r) else None
  }

  /** Any reader at or above the latest collection's watermark sees the committed row. */
  lemma ReadAt(w: World, rid: Rid, r: int)
    requires Core(w) && rid in w.heap && w.floor <= r <= w.last
    ensures Sound(Read(w.undo, w.heap[rid], r))
    ensures Visible(Read(w.undo, w.heap[rid], r)) == SnapshotOf(w, rid, r)
  {
    assert SlotOk(w, w.heap[rid], w.hist[rid]) && HistOk(w, w.hist[rid]);
    if w.heap[rid].ts > w.last {
      assert TxnOk(w, WriterOf(w, w.heap[rid].ts));
    }
    ReadSlot(w, w.heap[rid], w.hist[rid], r);
  }

  lemma ReadSlot(w: World, v: Slot, h: History, r: int)
    requires SlotOk(w, v, h) && Ordered(h) && w.floor <= r <= w.last && 0 <= r && Last(h).ts <= w.last
    requires v.ts > w.last ==> w.txns[WriterOf(w, v.ts)].readTs < v.ts
    ensures Sound(Read(w.undo, v, r)) && Visible(Read(w.undo, v, r)) == AsOf(h, r)
  {
    if v.ts <= w.last {
      ReadIsAsOf(w.undo, w.floor, v, h, r);
    } else {
      var t := WriterOf(w, v.ts);
      ReadIsAsOf(w.undo, w.floor, v, Pending(h, v, t, w.txns[t].readTs), r);
      AsOfAppend(h, Version(v.ts, Content(v), t, w.txns[t].readTs), r);
    }
  }

  /** Snapshot isolation: a transaction sees its own version of a row, or else its snapshot's. */
  lemma SnapshotRead(w: World, t: TxnId, rid: Rid)
    requires Inv(w) && t in w.txns && Live(w.txns[t]) && rid in w.heap
    ensures Sound(ReadBy(w, t, rid))
    ensures w.heap[rid].ts != t ==> Visible(ReadBy(w, t, rid)) == SnapshotOf(w, rid, w.txns[t].readTs)
  {
    assert TxnOk(w, t);
    ReadAt(w, rid, w.txns[t].readTs);
  }

  /** The snapshot at `r` is the state after replaying the first `r` commits, whole, in commit order. */
  lemma SnapshotIsReplay(w: World, rid: Rid, r: nat)
    requires Inv(w) && rid in w.hist && r <= w.last
    ensures SnapshotOf(w, rid, r) == Replay(w.commits, w.hist[rid][0].row, rid, r)
  {
    assert HistOk(w, w.hist[rid]);
    ReplayHistory(w, rid, w.hist[rid], r);
  }

  /** `h` is a beginning of the row's history that holds all its versions up to `r`. */
  lemma {:induction false} ReplayHistory(w: World, rid: Rid, h: History, r: nat)
    requires CommitsOk(w) && rid in w.hist && h <= w.hist[rid] && Ordered(h) && r <= |w.commits|
    requires forall k :: |h| <= k < |w.hist[rid]| ==> w.hist[rid][k].ts > r
    ensures AsOf(h, r) == Replay(w.commits, w.hist[rid][0].row, rid, r)
    decreases r, |h|
  {
    if Last(h).ts > r {
      OrderedNonNegative(h, |h| - 1);
      var rest: History := h[..|h| - 1];
      assert forall k :: |rest| <= k < |w.hist[rid]| ==> w.hist[rid][k].ts > r;
      ReplayHistory(w, rid, rest, r);
    } else if r > 0 {
      if Last(h).ts == r {
        OrderedFirst(h);
        assert FromCommit(w.commits, rid, w.hist[rid][|h| - 1]);
      } else {
        NoCommitAt(w, rid, h, r);
        ReplayHistory(w, rid, h, r - 1);
      }
    } else {
      OrderedFirst(h);
    }
  }

  lemma OrderedFirst(h: History)
    requires Ordered(h)
    ensures Last(h).ts == 0 <==> |h| == 1
  {
    if |h| > 1 { OrderedTs(h, 0, |h| - 1); }
  }

  lemma NoCommitAt(w: World, rid: Rid, h: History, r: nat)
    requires CommitsOk(w) && rid in w.hist && h <= w.hist[rid] && Ordered(h) && 0 < r <= |w.commits|
    requires Last(h).ts < r && forall k :: |h| <= k < |w.hist[rid]| ==> w.hist[rid][k].ts > r
    ensures rid !in w.commits[r - 1].images
  {
    if rid in w.commits[r - 1].images {
      assert HasVersionOf(w.hist, rid, r - 1);
      var k :| 0 < k < |w.hist[rid]| && w.hist[rid][k].ts == r;
      if k < |h| - 1 { OrderedTs(h, k, |h| - 1); }
      assert false;
    }
  }

  // ----- stability over runs ---------------------------------------------------------------------------

  /** No step changes any snapshot that could already be read, and live transactions keep theirs. */
  lemma StepKeepsSnapshots(w: World, step: Step, rid: Rid, r: int)
    requires Shape(w) && Enabled(w, step) && 0 <= r <= w.last
    ensures SnapshotOf(Next(w, step), rid, r) == SnapshotOf(w, rid, r)
  {
    if step.Publish? && rid in w.hist {
      PublishedVersion(w, step.t, rid);
      if rid in w.txns[step.t].writes {
        AsOfAppend(w.hist[rid], Version(w.last + 1, Content(w.heap[rid]), step.t, w.txns[step.t].readTs), r);
      }
    }
  }

  /** A transaction that is running after a step was running before it, with the same snapshot. */
  lemma StillLive(w: World, step: Step, t: TxnId)
    requires Shape(w) && TxnsOk(w) && Enabled(w, step)
    requires t < w.next && t in Next(w, step).txns && Live(Next(w, step).txns[t])
    ensures t in w.txns && Live(w.txns[t]) && w.txns[t].readTs == Next(w, step).txns[t].readTs
  {
    if step.Modify? { assert TxnOk(w, step.t); }
  }

  lemma {:induction false} RunKeepsSnapshot(w: World, steps: seq<Step>, t: TxnId, rid: Rid)
    requires Inv(w) && IsRun(w, steps) && t < w.next
    requires t in After(w, steps).txns && Live(After(w, steps).txns[t])
    ensures t in w.txns && Live(w.txns[t]) && w.txns[t].readTs == After(w, steps).txns[t].readTs
    ensures SnapshotOf(After(w, steps), rid, w.txns[t].readTs) == SnapshotOf(w, rid, w.txns[t].readTs)
    decreases |steps|
  {
    if steps != [] {
      var w1 := Next(w, steps[0]);
      StepInv(w, steps[0]);
      NextGrows(w, steps[0]);
      RunKeepsSnapshot(w1, steps[1..], t, rid);
      StillLive(w, steps[0], t);
      assert TxnOk(w, t);
      StepKeepsSnapshots(w, steps[0], rid, w.txns[t].readTs);
    }
  }

  lemma NextGrows(w: World, step: Step)
    requires w.undo.Keys == w.txns.Keys && Enabled(w, step)
    ensures w.next <= Next(w, step).next
  {
  }

  /**
   * Repeatable reads. Whatever other transactions and collections do in between, a running
   * transaction reads the same committed row again, and never hits a missing undo log.
   */
  lemma RepeatableRead(w: World, steps: seq<Step>, t: TxnId, rid: Rid)
    requires Inv(w) && IsRun(w, steps) && t in w.txns && rid in w.heap && rid in After(w, steps).heap
    requires t in After(w, steps).txns && Live(After(w, steps).txns[t])
    requires w.heap[rid].ts != t && After(w, steps).heap[rid].ts != t
    ensures Sound(ReadBy(After(w, steps), t, rid))
    ensures Visible(ReadBy(After(w, steps), t, rid)) == Visible(ReadBy(w, t, rid))
  {
    RunKeepsSnapshot(w, steps, t, rid);
    RunInv(w, steps);
    SnapshotRead(w, t, rid);
    SnapshotRead(After(w, steps), t, rid);
  }

  // ----- no lost updates, no traces of aborted work ----------------------------------------------------

  /** First updater wins: of two commits that wrote one row, the later began after the earlier committed. */
  lemma NoLostUpdate(w: World, i: nat, j: nat, rid: Rid)
    requires Inv(w) && i < j < |w.commits| && rid in w.commits[i].images && rid in w.commits[j].images
    ensures i + 1 <= w.commits[j].readTs
  {
    InCommitOrder(w, i, j, rid);
  }

  lemma InCommitOrder(w: World, i: nat, j: nat, rid: Rid)
    requires CommitsOk(w) && HistsOk(w)
    requires i < j < |w.commits| && rid in w.commits[i].images && rid in w.commits[j].images
    ensures i + 1 <= w.commits[j].readTs
  {
    var h := w.hist[rid];
    assert HasVersionOf(w.hist, rid, i) && HasVersionOf(w.hist, rid, j) && HistOk(w, h);
    var a :| 0 < a < |h| && h[a].ts == i + 1;
    var b :| 0 < b < |h| && h[b].ts == j + 1;
    assert FromCommit(w.commits, rid, w.hist[rid][b]);
    if b < a { OrderedTs(h, b, a); }
    OrderedTs(h, a, b);
  }

  /** An aborted transaction is on no row, in no history and behind no commit that wrote a row. */
  lemma AbortLeavesNothing(w: World, t: TxnId, rid: Rid)
    requires Inv(w) && t in w.txns && w.txns[t].state == Aborted && rid in w.heap
    ensures w.heap[rid].ts != t && NotWriter(w.hist[rid], t)
    ensures forall i :: 0 <= i < |w.commits| && rid in w.commits[i].images ==> w.commits[i].txn != t
  {
    assert TxnOk(w, t) && Owns(w.txns[t], t, rid, w.heap[rid].ts, w.last) && HistOk(w, w.hist[rid]);
    NotBehindCommits(w, t, rid);
  }

  lemma NotBehindCommits(w: World, t: TxnId, rid: Rid)
    requires CommitsOk(w) && rid in w.hist && NotWriter(w.hist[rid], t)
    ensures forall i :: 0 <= i < |w.commits| && rid in w.commits[i].images ==> w.commits[i].txn != t
  {
    forall i | 0 <= i < |w.commits| && rid in w.commits[i].images
      ensures w.commits[i].txn != t
    {
      assert HasVersionOf(w.hist, rid, i);
      var k :| 0 < k < |w.hist[rid]| && w.hist[rid][k].ts == i + 1;
      assert FromCommit(w.commits, rid, w.hist[rid][k]);
    }
  }

  /**
   * Taking back a row gives every reader the committed row again: the newest committed version is
   * back in the heap, and all other rows are as they were.
   */
  lemma AbortRowRestores(w: World, t: TxnId, rid: Rid, r: int)
    requires Inv(w) && Enabled(w, AbortRow(t, rid)) && w.floor <= r <= w.last
    ensures var w' := Next(w, AbortRow(t, rid));
      && w'.heap[rid].ts == Last(w.hist[rid]).ts && Content(w'.heap[rid]) == Last(w.hist[rid]).row
      && Visible(Read(w'.undo, w'.heap[rid], r)) == SnapshotOf(w, rid, r)
      && (forall other :: other in w.heap && other != rid ==> w'.heap[other] == w.heap[other])
  {
    RestoredRow(w, t, rid, r);
  }

  lemma RestoredRow(w: World, t: TxnId, rid: Rid, r: int)
    requires Core(w) && Enabled(w, AbortRow(t, rid)) && w.floor <= r <= w.last
    ensures var w' := Next(w, AbortRow(t, rid));
      && w'.heap[rid].ts == Last(w.hist[rid]).ts && Content(w'.heap[rid]) == Last(w.hist[rid]).row
      && Visible(Read(w'.undo, w'.heap[rid], r)) == SnapshotOf(w, rid, r)
      && (forall other :: other in w.heap && other != rid ==> w'.heap[other] == w.heap[other])
  {
    var w' := Next(w, AbortRow(t, rid));
    TakenBack(w, t, rid);
    AbortRowCore(w, t, rid);
    ReadAt(w', rid, r);
  }

  lemma TakenBack(w: World, t: TxnId, rid: Rid)
    requires Core(w) && Enabled(w, AbortRow(t, rid))
    ensures var w' := Next(w, AbortRow(t, rid));
      && w'.heap == w.heap[rid := w'.heap[rid]] && w'.hist == w.hist && w'.floor == w.floor && w'.last == w.last
      && w'.heap[rid].ts == Last(w.hist[rid]).ts && Content(w'.heap[rid]) == Last(w.hist[rid]).row
  {
    AbortRowOwned(w, t, rid);
    RevertedSlot(w, t, rid);
  }

  // ----- version chains --------------------------------------------------------------------------------

  /** Timestamps strictly decrease along every link that resolves. */
  ghost predicate Descending(u: Buffers, v: Slot)
    decreases if v.ts < 0 then 0 else v.ts
  {
    Resolves(u, v.link) ==>
      var log := LogAt(u, v.link);
      0 <= log.ts < v.ts && WellFormed(log, |v.row|) && Descending(u, Down(v, log))
  }

  lemma {:induction false} RepresentsDescending(u: Buffers, floor: int, v: Slot, h: History)
    requires Represents(u, floor, v, h) && Ordered(h)
    ensures Descending(u, v)
    decreases |h|
  {
    if Resolves(u, v.link) {
      ChainDecreases(u, floor, v, h);
      RepresentsDescending(u, floor, Down(v, LogAt(u, v.link)), h[..|h| - 1]);
    }
  }

  /** Every chain descends, and an uncommitted row links to nothing or to its own writer's buffer. */
  lemma VersionChains(w: World, rid: Rid)
    requires Inv(w) && rid in w.heap
    ensures Descending(w.undo, w.heap[rid])
    ensures w.heap[rid].ts >= TXN_START_ID && w.heap[rid].link.Link? ==> w.heap[rid].link.txn == w.heap[rid].ts
  {
    if w.heap[rid].ts > w.last {
      assert StampOk(w, w.heap[rid].ts);
      assert TxnOk(w, WriterOf(w, w.heap[rid].ts));
    }
    ChainDescends(w, rid);
  }

  lemma ChainDescends(w: World, rid: Rid)
    requires Chains(w) && rid in w.heap && 0 <= w.last < TXN_START_ID
    requires w.heap[rid].ts > w.last && StampOk(w, w.heap[rid].ts) ==>
               w.txns[WriterOf(w, w.heap[rid].ts)].readTs <= w.last
    ensures Descending(w.undo, w.heap[rid])
    ensures w.heap[rid].ts >= TXN_START_ID && w.heap[rid].link.Link? ==> w.heap[rid].link.txn == w.heap[rid].ts
  {
    var v, h := w.heap[rid], w.hist[rid];
    assert SlotOk(w, v, h) && HistOk(w, h);
    if v.ts <= w.last {
      RepresentsDescending(w.undo, w.floor, v, h);
    } else {
      var t := WriterOf(w, v.ts);
      RepresentsDescending(w.undo, w.floor, v, Pending(h, v, t, w.txns[t].readTs));
    }
  }

  // ----- the watermark -----------------------------------------------------------------------------------

  /** The watermark is the least snapshot in use, or the last commit when none is. */
  lemma WatermarkIsLeast(w: World)
    requires Inv(w)
    ensures var mark := WatermarkOf(w.running, w.last);
      && (forall t :: t in w.txns && Live(w.txns[t]) ==> mark <= w.txns[t].readTs)
      && (mark == w.last || exists t :: t in w.txns && Live(w.txns[t]) && w.txns[t].readTs == mark)
      && ((forall t :: t in w.txns ==> !Live(w.txns[t])) ==> mark == w.last)
  {
    var mark := WatermarkOf(w.running, w.last);
    WatermarkBounds(w);
    if w.running.Keys != {} {
      assert IsLeast(w.running.Keys, mark);
      var t := Sets.Pick(Readers(w.txns, mark));
      assert t in w.txns && Live(w.txns[t]) && w.txns[t].readTs == mark;
    }
  }

  /** It never goes back, so what a collection may drop no later reader will ask for. */
  lemma WatermarkMonotone(w: World, step: Step)
    requires Inv(w) && Enabled(w, step)
    ensures WatermarkOf(w.running, w.last) <= WatermarkOf(Next(w, step).running, Next(w, step).last)
  {
    var w' := Next(w, step);
    StepInv(w, step);
    WatermarkIsLeast(w);
    WatermarkIsLeast(w');
    WatermarkBounds(w);
    var mark, mark' := WatermarkOf(w.running, w.last), WatermarkOf(w'.running, w'.last);
    LastGrows(w, step);
    if mark' != w'.last {
      var t :| t in w'.txns && Live(w'.txns[t]) && w'.txns[t].readTs == mark';
      if t < w.next { StillLive(w, step, t); } else { NewTxn(w, step, t); }
    }
  }

  lemma LastGrows(w: World, step: Step)
    requires w.undo.Keys == w.txns.Keys && Enabled(w, step)
    ensures w.last <= Next(w, step).last
  {
  }

  /** Transactions begin at the last published commit: never inside a commit still being stamped. */
  lemma NewTxn(w: World, step: Step, t: TxnId)
    requires Shape(w) && Enabled(w, step) && t in Next(w, step).txns && t >= w.next
    ensures step.Begin? && t == w.next && Next(w, step).txns[t].readTs == w.last
    ensures var x := Next(w, step).txns[t];
      x.isolation == step.isolation && x.state == Running && x.writes == {} && x.scans == [] && x.phase == Active
  {
  }

  /** While a commit is being stamped, its rows are above every snapshot; all become visible at once. */
  lemma CommitInvisibleUntilPublished(w: World, t: TxnId, s: TxnId, rid: Rid)
    requires Inv(w) && t in w.txns && w.txns[t].phase.Stamping? && s in w.txns && rid in w.txns[t].writes
    ensures rid in w.heap && w.heap[rid].ts > w.last >= w.txns[s].readTs
    ensures w.txns[t].phase == Stamping({}) ==> w.heap[rid].ts == w.last + 1
  {
    StampingRow(w, t, s, rid);
  }

  lemma StampingRow(w: World, t: TxnId, s: TxnId, rid: Rid)
    requires Shape(w) && TxnsOk(w) && OwnsOk(w)
    requires t in w.txns && w.txns[t].phase.Stamping? && s in w.txns && rid in w.txns[t].writes
    ensures rid in w.heap && w.heap[rid].ts > w.last >= w.txns[s].readTs
    ensures w.txns[t].phase == Stamping({}) ==> w.heap[rid].ts == w.last + 1
  {
    assert TxnOk(w, t) && TxnOk(w, s) && Owns(w.txns[t], t, rid, w.heap[rid].ts, w.last);
  }

  // ----- garbage collection ------------------------------------------------------------------------------

  /** A collection changes no read of a running transaction, nor of any that begins later. */
  lemma CollectionKeepsReads(w: World, rid: Rid, r: int)
    requires Inv(w) && Enabled(w, Collect) && rid in w.heap && WatermarkOf(w.running, w.last) <= r <= w.last
    ensures Sound(Read(Next(w, Collect).undo, w.heap[rid], r))
    ensures Visible(Read(Next(w, Collect).undo, w.heap[rid], r)) == Visible(Read(w.undo, w.heap[rid], r))
  {
    WatermarkBounds(w);
    StepCore(w, Collect);
    ReadAt(w, rid, r);
    ReadAt(Next(w, Collect), rid, r);
  }

  /** Validation of a running serializable transaction would examine the same rows with the same verdicts. */
  lemma CollectionKeepsVerdicts(w: World, s: TxnId, rid: Rid)
    requires Inv(w) && Enabled(w, Collect) && s in w.txns && Live(w.txns[s]) && w.txns[s].isolation == Serializable
    requires rid in w.heap
    ensures s in Next(w, Collect).txns
    ensures ChangedRows(Next(w, Collect).txns, w.txns[s]) == ChangedRows(w.txns, w.txns[s])
    ensures var x := w.txns[s];
            Unchanged(Next(w, Collect).undo, w.heap[rid], x.readTs, Query(x.scans, rid.table)) <==>
            Unchanged(w.undo, w.heap[rid], x.readTs, Query(x.scans, rid.table))
  {
    LiveKept(w, s);
    CollectKeepsChanged(w, s);
    CollectTxns(w);
    WatermarkBounds(w);
    StepCore(w, Collect);
    assert TxnOk(w, s);
    SameVerdict(w, Next(w, Collect), rid, w.txns[s].readTs, Query(w.txns[s].scans, rid.table));
  }

  lemma SameVerdict(w: World, w': World, rid: Rid, r: int, q: Query)
    requires Core(w) && Core(w') && w'.heap == w.heap && w'.hist == w.hist && w'.last == w.last
    requires rid in w.heap && w.floor <= r && w'.floor <= r && w.committer == None
    ensures Unchanged(w'.undo, w.heap[rid], r, q) <==> Unchanged(w.undo, w.heap[rid], r, q)
  {
    assert StampOk(w, w.heap[rid].ts);
    VerdictOfRow(w, rid, r, q);
    VerdictOfRow(w', rid, r, q);
  }

  lemma CollectKeepsChanged(w: World, s: TxnId)
    requires s in w.txns && Live(w.txns[s]) && w.txns[s].isolation == Serializable
    ensures ChangedRows(DoCollect(w).txns, w.txns[s]) == ChangedRows(w.txns, w.txns[s])
  {
    var w', x := DoCollect(w), w.txns[s];
    forall rid | rid in ChangedRows(w.txns, x)
      ensures rid in ChangedRows(w'.txns, x)
    {
      var o :| o in w.txns && rid in w.txns[o].writes && w.txns[o].state == Committed && w.txns[o].commitTs > x.readTs;
      assert !Collectable(w, WatermarkOf(w.running, w.last), o);
      assert o in w'.txns && w'.txns[o] == w.txns[o];
    }
  }

  // ----- serializability -----------------------------------------------------------------------------------

  /** What one scan selects from a row. */
  ghost function Selected(scan: Scan, row: Option<Row>): Option<Row> {
    if row.Some? && Passes(scan.filter, row.value) then row else None
  }

  /**
   * Serializability in commit order. Replaying the commits one after another, every scan of an
   * accepted serializable writer selects, just before its own turn, what it selected when it ran.
   */
  lemma SerializableInCommitOrder(w: World, i: nat, k: nat, rid: Rid)
    requires Inv(w) && i < |w.commits| && w.commits[i].isolation == Serializable && w.commits[i].images != map[]
    requires k < |w.commits[i].scans| && rid in w.hist && w.commits[i].scans[k].table == rid.table
    ensures 0 <= w.commits[i].readTs <= i
    ensures var first := w.hist[rid][0].row;
            Selected(w.commits[i].scans[k], Replay(w.commits, first, rid, w.commits[i].readTs)) ==
            Selected(w.commits[i].scans[k], Replay(w.commits, first, rid, i))
  {
    var c := w.commits[i];
    assert Certified(w, i);
    SnapshotIsReplay(w, rid, c.readTs);
    SnapshotIsReplay(w, rid, i);
    var q := Query(c.scans, rid.table);
    var a, b := AsOf(w.hist[rid], c.readTs), AsOf(w.hist[rid], i);
    assert SameForScans(w.hist[rid], c.readTs, i, q);
    assert a.Some? && Passes(c.scans[k].filter, a.value) ==> Matches(q, a);
    assert b.Some? && Passes(c.scans[k].filter, b.value) ==> Matches(q, b);
  }
}
