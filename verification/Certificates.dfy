/** Serializability in terms of what scans return: recorded scans reach the commit, and select the same rows there. */
module Certificates {
  import opened Sql
  import opened Chain
  import opened Mvcc
  import opened MvccRuns
  import opened MvccTheorems
  import opened MvccExact
  import opened Bags
  import opened Plans

  /** The first `n` slots of a table after replaying the first `r` commits. */
  ghost function ReplayedTable(w: World, table: nat, r: nat, n: nat): (view: seq<Option<Row>>)
    requires r <= |w.commits|
    ensures |view| == n
  {
    seq(n, i requires 0 <= i < n => ReplayedRow(w, Rid(table, i), r))
  }

  ghost function ReplayedRow(w: World, rid: Rid, r: nat): Option<Row>
    requires r <= |w.commits|
  {
    if rid in w.hist then Replay(w.commits, w.hist[rid][0].row, rid, r) else None
  }

  /** Whatever the filter selects at one of the two times is the same row at both. */
  lemma SameRowSelected(w: World, i: nat, k: nat, rid: Rid)
    requires Inv(w) && i < |w.commits| && w.commits[i].isolation == Serializable && w.commits[i].images != map[]
    requires k < |w.commits[i].scans| && w.commits[i].scans[k].table == rid.table && rid in w.hist
    ensures 0 <= w.commits[i].readTs <= i
    ensures var filter, a, b := w.commits[i].scans[k].filter, ReplayedRow(w, rid, w.commits[i].readTs),
                                ReplayedRow(w, rid, i);
      Selects(filter, a) || Selects(filter, b) ==> a == b
  {
    var c := w.commits[i];
    assert Certified(w, i);
    SnapshotIsReplay(w, rid, c.readTs);
    SnapshotIsReplay(w, rid, i);
    var q := Query(c.scans, rid.table);
    assert SameForScans(w.hist[rid], c.readTs, i, q);
    MatchesSelects(q, AsOf(w.hist[rid], c.readTs));
    MatchesSelects(q, AsOf(w.hist[rid], i));
  }

  /**
   * Serializability in commit order: each recorded scan of an accepted serializable writer returns, after replaying
   * the commits before its own, the rows it returns in the writer's snapshot.
   */
  lemma ScansSelectSame(w: World, i: nat, k: nat, n: nat)
    requires Inv(w) && i < |w.commits| && w.commits[i].isolation == Serializable && w.commits[i].images != map[]
    requires k < |w.commits[i].scans|
    ensures 0 <= w.commits[i].readTs <= i
    ensures var scan := w.commits[i].scans[k];
      SeqScanRows(ReplayedTable(w, scan.table, w.commits[i].readTs, n), scan.filter) ==
      SeqScanRows(ReplayedTable(w, scan.table, i, n), scan.filter)
  {
    var c, scan := w.commits[i], w.commits[i].scans[k];
    SnapshotBefore(w, i);
    var a, b := ReplayedTable(w, scan.table, c.readTs, n), ReplayedTable(w, scan.table, i, n);
    forall j: nat | j < n
      ensures Selects(scan.filter, a[j]) || Selects(scan.filter, b[j]) ==> a[j] == b[j]
    {
      if Rid(scan.table, j) in w.hist { SameRowSelected(w, i, k, Rid(scan.table, j)); }
    }
    SameScan(a, b, scan.filter);
  }

  lemma SnapshotBefore(w: World, i: nat)
    requires CommitsOk(w) && i < |w.commits|
    ensures 0 <= w.commits[i].readTs <= i
  {
  }

  lemma SameScan(a: seq<Option<Row>>, b: seq<Option<Row>>, filter: Option<Expr>)
    requires |a| == |b|
    requires forall j :: 0 <= j < |a| && (Selects(filter, a[j]) || Selects(filter, b[j])) ==> a[j] == b[j]
    ensures SeqScanRows(a, filter) == SeqScanRows(b, filter)
  {
    FlatMapSame<nat, Row>(Scanning(a, filter), Scanning(b, filter), UpTo(|a|));
  }

  /** What a transaction sees of a table that it has not written is the replay up to its snapshot. */
  lemma ViewIsReplay(w: World, t: TxnId, rid: Rid)
    requires Inv(w) && t in w.txns && Live(w.txns[t]) && rid in w.heap && w.heap[rid].ts != t
    ensures 0 <= w.txns[t].readTs <= |w.commits|
    ensures Visible(ReadBy(w, t, rid)) == ReplayedRow(w, rid, w.txns[t].readTs)
  {
    assert TxnOk(w, t);
    SnapshotRead(w, t, rid);
    SnapshotIsReplay(w, rid, w.txns[t].readTs);
  }

  // ----- from the scan to the commit ---------------------------------------------------------------------------

  /** The transaction can no longer publish. */
  ghost predicate Over(w: World, t: TxnId) {
    t < w.next && (t in w.txns ==> !Live(w.txns[t]))
  }

  lemma OverStays(w: World, step: Step, t: TxnId)
    requires Shape(w) && TxnsOk(w) && Enabled(w, step) && Over(w, t)
    ensures Over(Next(w, step), t) && step != Publish(t)
  {
    if t in w.txns { assert TxnOk(w, t); }
  }

  /** The scan is on record, under the snapshot and isolation level of its transaction. */
  ghost predicate OnRecord(w: World, t: TxnId, scan: Scan, readTs: int, isolation: Isolation) {
    t in w.txns && scan in w.txns[t].scans && w.txns[t].readTs == readTs && w.txns[t].isolation == isolation
  }

  lemma RecordStays(w: World, step: Step, t: TxnId, scan: Scan, readTs: int, isolation: Isolation)
    requires Shape(w) && TxnsOk(w) && Enabled(w, step) && OnRecord(w, t, scan, readTs, isolation)
    ensures Over(Next(w, step), t) || OnRecord(Next(w, step), t, scan, readTs, isolation)
  {
    assert TxnOk(w, t);
  }

  lemma CommitAppended(w: World, step: Step)
    requires w.undo.Keys == w.txns.Keys && Enabled(w, step)
    ensures var w' := Next(w, step);
      if step.Publish? then
        && |w'.commits| == |w.commits| + 1 && w.commits <= w'.commits && step.t in w.txns
        && var c, x := w'.commits[|w.commits|], w.txns[step.t];
           && c.txn == step.t && c.scans == x.scans && c.readTs == x.readTs && c.isolation == x.isolation
           && c.images.Keys == x.writes
      else w'.commits == w.commits
  {
  }

  /** The commit answers for the scan, under its snapshot and isolation level. */
  ghost predicate AnswersFor(c: CommitRecord, scan: Scan, readTs: int, isolation: Isolation) {
    scan in c.scans && c.readTs == readTs && c.isolation == isolation
  }

  /** Whatever happens in between, a transaction's commit answers for all the scans it recorded. */
  lemma {:induction false} RecordReachesCommit(
      w: World, steps: seq<Step>, t: TxnId, scan: Scan, readTs: int, isolation: Isolation)
    requires Inv(w) && IsRun(w, steps) && t < w.next && (Over(w, t) || OnRecord(w, t, scan, readTs, isolation))
    ensures |w.commits| <= |After(w, steps).commits| && w.commits <= After(w, steps).commits
    ensures forall i :: |w.commits| <= i < |After(w, steps).commits| && After(w, steps).commits[i].txn == t ==>
              AnswersFor(After(w, steps).commits[i], scan, readTs, isolation)
    decreases |steps|
  {
    if steps != [] {
      var w1 := Next(w, steps[0]);
      StepInv(w, steps[0]);
      CommitAppended(w, steps[0]);
      NextGrows(w, steps[0]);
      if Over(w, t) { OverStays(w, steps[0], t); } else { RecordStays(w, steps[0], t, scan, readTs, isolation); }
      RecordReachesCommit(w1, steps[1..], t, scan, readTs, isolation);
      assert After(w, steps) == After(w1, steps[1..]);
      if steps[0].Publish? {
        assert After(w, steps).commits[|w.commits|] == w1.commits[|w.commits|];
      }
    }
  }
}
