/**
 * The transaction engine as a step system. One step is what one thread does under one page latch,
 * or under the transaction map's mutex. `Commit` and `Abort` are several steps each, one per row,
 * and any steps of other transactions may fall in between.
 */
module Mvcc {
  import opened Sql
  import opened Undo
  import opened Chain
  import opened Watermarks

  datatype Rid = Rid(table: nat, slot: nat)

  datatype Isolation = ReadUncommitted | SnapshotIsolation | Serializable

  datatype TxnState = Running | Tainted | Committed | Aborted

  /** How far the thread of a transaction has got inside `Commit` or `Abort`, and the rows still to visit. */
  datatype Phase =
    | Active
    | Verifying(todo: set<Rid>)
    | Stamping(todo: set<Rid>)
    | Aborting(todo: set<Rid>)
    | Done

  datatype Txn = Txn(
    isolation: Isolation, state: TxnState, readTs: int, commitTs: int,
    writes: set<Rid>, scans: seq<Scan>, phase: Phase)

  /** What a published commit did: the rows it wrote (`None` for a deletion) and the scans it relied on. */
  datatype CommitRecord = CommitRecord(
    txn: TxnId, readTs: int, isolation: Isolation, scans: seq<Scan>, images: map<Rid, Option<Row>>)

  /**
   * The program's state, then four parts that exist only for the specification: `hist`, the committed
   * history of each row; `commits`, the commits in order; `floor`, the watermark of the latest
   * collection; and the phases inside `txns`.
   */
  datatype World = World(
    heap: map<Rid, Slot>, undo: Buffers, txns: map<TxnId, Txn>, last: int, next: TxnId,
    running: Counts, committer: Option<TxnId>,
    hist: map<Rid, History>, commits: seq<CommitRecord>, floor: int)

  // ----- the steps -----------------------------------------------------------------------------

  datatype Step =
    | Begin(isolation: Isolation)
    | RecordScan(t: TxnId, scan: Scan)
    | Modify(t: TxnId, rid: Rid, target: Option<Row>, requireDeleted: bool)
    | Insert(t: TxnId, rid: Rid, row: Row)
    | StartCommit(t: TxnId)
    | VerifyRow(t: TxnId, rid: Rid)
    | FinishVerify(t: TxnId)
    | StampRow(t: TxnId, rid: Rid)
    | Publish(t: TxnId)
    | StartAbort(t: TxnId)
    | AbortRow(t: TxnId, rid: Rid)
    | FinishAbort(t: TxnId)
    | Collect

  /** The step is of one transaction's thread. */
  predicate StepOf(step: Step, t: TxnId) {
    !step.Begin? && !step.Collect? && step.t == t
  }

  predicate Live(x: Txn) {
    x.state == Running || x.state == Tainted
  }

  predicate IsActive(w: World, t: TxnId) {
    t in w.txns && w.txns[t].phase == Active
  }

  /** First updater wins: somebody else's uncommitted version, or one newer than the snapshot. */
  predicate Conflicts(w: World, t: TxnId, rid: Rid, requireDeleted: bool)
    requires t in w.txns && rid in w.heap
  {
    var v := w.heap[rid];
    (v.ts != t && v.ts > w.txns[t].readTs) || (requireDeleted && !v.deleted)
  }

  /** Rows that a transaction committed after `t` began wrote, in a table that `t` scanned. */
  ghost function ChangedRows(txns: map<TxnId, Txn>, x: Txn): set<Rid> {
    set o, rid | o in txns && rid in txns[o].writes
                 && txns[o].state == Committed && txns[o].commitTs > x.readTs
                 && (exists k :: 0 <= k < |x.scans| && x.scans[k].table == rid.table)
      :: rid
  }

  ghost predicate Enabled(w: World, step: Step) {
    match step
    case Begin(_) => true
    case RecordScan(t, _) => IsActive(w, t)
    case Modify(t, rid, target, requireDeleted) =>
      && IsActive(w, t) && rid in w.heap
      && (target.Some? ==> |target.value| == |w.heap[rid].row|)
      // a second conflict of an already tainted transaction terminates the process
      && (Conflicts(w, t, rid, requireDeleted) ==> w.txns[t].state == Running)
    case Insert(t, rid, _) => IsActive(w, t) && rid !in w.heap
    case StartCommit(t) =>
      IsActive(w, t) && w.txns[t].state == Running && w.committer == None && w.last + 1 < TXN_START_ID
    case VerifyRow(t, rid) => t in w.txns && w.txns[t].phase.Verifying? && rid in w.txns[t].phase.todo && rid in w.heap
    case FinishVerify(t) => t in w.txns && w.txns[t].phase == Verifying({})
    case StampRow(t, rid) => t in w.txns && w.txns[t].phase.Stamping? && rid in w.txns[t].phase.todo && rid in w.heap
    case Publish(t) => t in w.txns && w.txns[t].phase == Stamping({}) && w.txns[t].writes <= w.heap.Keys
    case StartAbort(t) => IsActive(w, t) && Live(w.txns[t])
    case AbortRow(t, rid) => t in w.txns && w.txns[t].phase.Aborting? && rid in w.txns[t].phase.todo && rid in w.heap
    case FinishAbort(t) => t in w.txns && w.txns[t].phase == Aborting({})
    // stop-the-world: nobody is inside the table heap
    case Collect => forall t :: t in w.txns ==> w.txns[t].phase == Active || w.txns[t].phase == Done
  }

  ghost function SetTxn(w: World, t: TxnId, x: Txn): World {
    w.(txns := w.txns[t := x])
  }

  ghost function DoBegin(w: World, isolation: Isolation): World {
    w.(txns := w.txns[w.next := Txn(isolation, Running, w.last, -1, {}, [], Active)],
       undo := w.undo[w.next := []],
       next := w.next + 1,
       running := AddRead(w.running, w.last))
  }

  /** The undo buffer of `t` once it has edited a slot that was `v`, and the slot's new link. */
  ghost function Logged(logs: seq<UndoLog>, t: TxnId, v: Slot, target: Option<Row>): (seq<UndoLog>, Link)
    requires target.Some? ==> |target.value| == |v.row|
  {
    if v.ts != t then
      (logs + [NewLog(|v.row|, Content(v), target, v.ts, v.link)], Link(t, |logs|))
    else if v.link.Link? && v.link.txn == t && v.link.idx < |logs| && WellFormed(logs[v.link.idx], |v.row|) then
      (logs[v.link.idx := UpdatedLog(logs[v.link.idx], Content(v), target)], v.link)
    else
      (logs, v.link)
  }

  ghost function Edited(t: TxnId, v: Slot, target: Option<Row>, link: Link): Slot {
    Slot(t, target.None?, Written(v.row, target), link)
  }

  ghost function DoModify(w: World, t: TxnId, rid: Rid, target: Option<Row>, requireDeleted: bool): World
    requires t in w.txns && t in w.undo && rid in w.heap && (target.Some? ==> |target.value| == |w.heap[rid].row|)
  {
    if Conflicts(w, t, rid, requireDeleted) then SetTxn(w, t, w.txns[t].(state := Tainted))
    else
      var v := w.heap[rid];
      var (logs, link) := Logged(w.undo[t], t, v, target);
      w.(heap := w.heap[rid := Edited(t, v, target, link)],
         undo := w.undo[t := logs],
         txns := w.txns[t := w.txns[t].(writes := w.txns[t].writes + {rid})])
  }

  ghost function DoInsert(w: World, t: TxnId, rid: Rid, row: Row): World
    requires t in w.txns
  {
    w.(heap := w.heap[rid := Slot(t, false, row, NoLink)],
       hist := w.hist[rid := [Version(0, None, -1, 0)]],
       txns := w.txns[t := w.txns[t].(writes := w.txns[t].writes + {rid})])
  }

  ghost function DoStartCommit(w: World, t: TxnId): World
    requires t in w.txns
  {
    var x := w.txns[t];
    var phase := if x.isolation == Serializable && x.writes != {} then Verifying(ChangedRows(w.txns, x))
                 else Stamping(x.writes);
    SetTxn(w, t, x.(phase := phase)).(committer := Some(t))
  }

  ghost function DoVerifyRow(w: World, t: TxnId, rid: Rid): World
    requires t in w.txns && w.txns[t].phase.Verifying? && rid in w.heap
  {
    var x := w.txns[t];
    if Unchanged(w.undo, w.heap[rid], x.readTs, Query(x.scans, rid.table)) then
      SetTxn(w, t, x.(phase := Verifying(x.phase.todo - {rid})))
    else
      // validation failed: give up the commit mutex and abort
      SetTxn(w, t, x.(phase := Aborting(x.writes))).(committer := None)
  }

  ghost function DoStampRow(w: World, t: TxnId, rid: Rid): World
    requires t in w.txns && w.txns[t].phase.Stamping? && rid in w.heap
  {
    var x := w.txns[t];
    var v := w.heap[rid];
    SetTxn(w, t, x.(phase := Stamping(x.phase.todo - {rid})))
      .(heap := if v.ts == t then w.heap[rid := v.(ts := w.last + 1)] else w.heap)
  }

  ghost function PublishedHist(w: World, t: TxnId): map<Rid, History>
    requires t in w.txns && w.txns[t].writes <= w.heap.Keys
  {
    map rid | rid in w.hist ::
      if rid in w.txns[t].writes then
        w.hist[rid] + [Version(w.last + 1, Content(w.heap[rid]), t, w.txns[t].readTs)]
      else w.hist[rid]
  }

  ghost function DoPublish(w: World, t: TxnId): World
    requires t in w.txns && w.txns[t].writes <= w.heap.Keys
  {
    var x := w.txns[t];
    var images := map rid | rid in x.writes :: Content(w.heap[rid]);
    SetTxn(w, t, x.(state := Committed, commitTs := w.last + 1, phase := Done))
      .(last := w.last + 1,
        committer := None,
        running := RemoveRead(w.running, x.readTs),
        hist := PublishedHist(w, t),
        commits := w.commits + [CommitRecord(t, x.readTs, x.isolation, x.scans, images)])
  }

  /** The slot after `t` has taken its edit back. */
  ghost function Reverted(u: Buffers, t: TxnId, v: Slot): Slot {
    if v.link.Link? && v.link.txn == t && Resolves(u, v.link) && WellFormed(LogAt(u, v.link), |v.row|) then
      var log := LogAt(u, v.link);
      // when the restored version is a tombstone the aborted bytes stay behind it
      Slot(log.ts, log.deleted, if log.deleted then v.row else Restore(v.row, log), log.prev)
    else Slot(0, true, v.row, v.link)
  }

  ghost function DoAbortRow(w: World, t: TxnId, rid: Rid): World
    requires t in w.txns && w.txns[t].phase.Aborting? && rid in w.heap
  {
    var x := w.txns[t];
    var v := w.heap[rid];
    SetTxn(w, t, x.(phase := Aborting(x.phase.todo - {rid})))
      .(heap := if v.ts == t then w.heap[rid := Reverted(w.undo, t, v)] else w.heap)
  }

  ghost function DoFinishAbort(w: World, t: TxnId): World
    requires t in w.txns
  {
    var x := w.txns[t];
    SetTxn(w, t, x.(state := Aborted, phase := Done)).(running := RemoveRead(w.running, x.readTs))
  }

  /** Buffers some row's readers at or above the watermark may still walk into. */
  ghost function NeededBy(w: World, mark: int): set<TxnId> {
    set rid, t | rid in w.heap && t in Needed(w.undo, w.heap[rid], mark) :: t
  }

  /** A finished transaction may go unless it is needed, or validation may still ask for its write set. */
  ghost predicate Collectable(w: World, mark: int, t: TxnId)
    requires t in w.txns
  {
    && !Live(w.txns[t])
    && t !in NeededBy(w, mark)
    && (w.txns[t].state == Committed ==>
          forall s :: s in w.txns && Live(w.txns[s]) && w.txns[s].isolation == Serializable ==>
            w.txns[t].commitTs <= w.txns[s].readTs)
  }

  ghost function Kept(w: World, mark: int): set<TxnId> {
    set t | t in w.txns && !Collectable(w, mark, t)
  }

  ghost function DoCollect(w: World): World {
    var mark := WatermarkOf(w.running, w.last);
    var kept := Kept(w, mark);
    w.(txns := map t | t in w.txns && t in kept :: w.txns[t],
       undo := Keep(w.undo, kept),
       floor := mark)
  }

  ghost function Next(w: World, step: Step): World
    requires Enabled(w, step) && w.undo.Keys == w.txns.Keys
  {
    match step
    case Begin(isolation) => DoBegin(w, isolation)
    case RecordScan(t, scan) => SetTxn(w, t, w.txns[t].(scans := w.txns[t].scans + [scan]))
    case Modify(t, rid, target, requireDeleted) => DoModify(w, t, rid, target, requireDeleted)
    case Insert(t, rid, row) => DoInsert(w, t, rid, row)
    case StartCommit(t) => DoStartCommit(w, t)
    case VerifyRow(t, rid) => DoVerifyRow(w, t, rid)
    case FinishVerify(t) => SetTxn(w, t, w.txns[t].(phase := Stamping(w.txns[t].writes)))
    case StampRow(t, rid) => DoStampRow(w, t, rid)
    case Publish(t) => DoPublish(w, t)
    case StartAbort(t) => SetTxn(w, t, w.txns[t].(phase := Aborting(w.txns[t].writes)))
    case AbortRow(t, rid) => DoAbortRow(w, t, rid)
    case FinishAbort(t) => DoFinishAbort(w, t)
    case Collect => DoCollect(w)
  }

  // ----- what every step keeps -------------------------------------------------------------------

  /** Maps over the same keys, ids and timestamps in their ranges. */
  ghost predicate Shape(w: World) {
    && w.undo.Keys == w.txns.Keys
    && w.hist.Keys == w.heap.Keys
    && (forall t :: t in w.txns ==> TXN_START_ID <= t < w.next)
    && TXN_START_ID <= w.next
    && 0 <= w.floor <= w.last < TXN_START_ID
    && |w.commits| == w.last
  }

  /** The bookkeeping of one transaction; only one transaction at a time is inside `Commit`. */
  ghost predicate TxnOk(w: World, t: TxnId)
    requires t in w.txns
  {
    var x := w.txns[t];
    && 0 <= x.readTs <= w.last
    && (Live(x) <==> x.phase != Done)
    && (Live(x) ==> w.floor <= x.readTs)
    && (w.committer == Some(t) <==> x.phase.Verifying? || x.phase.Stamping?)
    && (x.phase.Verifying? || x.phase.Stamping? ==> x.state == Running && w.last + 1 < TXN_START_ID)
    && (x.state == Committed ==> x.commitTs <= w.last)
    && x.writes <= w.heap.Keys
    && (x.phase.Verifying? ==> x.phase.todo <= w.heap.Keys)
    && (x.phase.Stamping? || x.phase.Aborting? ==> x.phase.todo <= x.writes)
  }

  ghost predicate TxnsOk(w: World) {
    && (w.committer.Some? ==> w.committer.value in w.txns)
    && (forall t :: t in w.txns ==> TxnOk(w, t))
  }

  /** A transaction's temporary timestamp is on exactly the rows it has written and not yet released. */
  ghost predicate Owns(x: Txn, t: TxnId, rid: Rid, ts: int, last: int) {
    match x.phase
    case Active => ts == t <==> rid in x.writes
    case Verifying(_) => ts == t <==> rid in x.writes
    case Stamping(todo) => (ts == t <==> rid in todo) && (ts == last + 1 <==> rid in x.writes && rid !in todo)
    case Aborting(todo) => ts == t <==> rid in todo
    case Done => ts != t
  }

  ghost predicate OwnsOk(w: World) {
    forall t, rid :: t in w.txns && rid in w.heap ==> Owns(w.txns[t], t, rid, w.heap[rid].ts, w.last)
  }

  /** A timestamp on a row is committed, or the commit being stamped, or a transaction's own. */
  ghost predicate StampOk(w: World, ts: int) {
    || 0 <= ts <= w.last
    || (ts == w.last + 1 && w.committer.Some? && w.committer.value in w.txns
      && w.txns[w.committer.value].phase.Stamping?)
    || (ts >= TXN_START_ID && ts in w.txns)
  }

  ghost predicate StampsOk(w: World) {
    forall rid :: rid in w.heap ==> StampOk(w, w.heap[rid].ts)
  }

  /** The transaction behind an uncommitted version. */
  ghost function WriterOf(w: World, ts: int): TxnId
    requires ts > w.last && StampOk(w, ts)
  {
    if ts >= TXN_START_ID then ts else w.committer.value
  }

  /** The history with the uncommitted version of slot `v` on top. */
  ghost function Pending(h: History, v: Slot, t: TxnId, readTs: int): History {
    h + [Version(v.ts, Content(v), t, readTs)]
  }

  /** A committed slot stands for the row's history; an uncommitted one for the history plus itself. */
  ghost predicate SlotOk(w: World, v: Slot, h: History) {
    && StampOk(w, v.ts)
    && if v.ts <= w.last then Represents(w.undo, w.floor, v, h)
       else
         var t := WriterOf(w, v.ts);
         t in w.txns && Last(h).ts <= w.txns[t].readTs
         && Represents(w.undo, w.floor, v, Pending(h, v, t, w.txns[t].readTs))
  }

  ghost predicate SlotsOk(w: World)
    requires w.hist.Keys == w.heap.Keys
  {
    forall rid :: rid in w.heap ==> SlotOk(w, w.heap[rid], w.hist[rid])
  }

  /** Committed histories: ordered, and written by transactions that have finished. */
  ghost predicate HistOk(w: World, h: History) {
    && Ordered(h)
    && Last(h).ts <= w.last
    && (forall k :: 0 <= k < |h| ==>
          h[k].writer < w.next && (h[k].writer in w.txns ==> w.txns[h[k].writer].state == Committed))
  }

  ghost predicate HistsOk(w: World) {
    forall rid :: rid in w.hist ==> HistOk(w, w.hist[rid])
  }

  /** No two uncommitted rows share an undo log. */
  ghost predicate LinksDistinct(w: World) {
    forall a, b ::
      (a in w.heap && b in w.heap && w.heap[a].ts > w.last && w.heap[b].ts > w.last
       && w.heap[a].link == w.heap[b].link && w.heap[a].link.Link?) ==> a == b
  }

  /** Who owns what. */
  ghost predicate Books(w: World) {
    && Shape(w)
    && TxnsOk(w)
    && OwnsOk(w)
    && StampsOk(w)
    && LinksDistinct(w)
  }

  /** What the rows stand for. */
  ghost predicate Chains(w: World) {
    && w.hist.Keys == w.heap.Keys
    && HistsOk(w)
    && SlotsOk(w)
  }

  /** The part of the invariant that readers rely on. */
  ghost predicate Core(w: World) {
    && Books(w)
    && Chains(w)
  }

  ghost function Readers(txns: map<TxnId, Txn>, r: int): set<TxnId> {
    set t | t in txns && Live(txns[t]) && txns[t].readTs == r
  }

  /** The watermark structure counts the running transactions by read timestamp. */
  ghost predicate RunningOk(w: World) {
    && (forall r :: r in w.running ==> w.running[r] == |Readers(w.txns, r)| > 0)
    && (forall t :: t in w.txns && Live(w.txns[t]) ==> w.txns[t].readTs in w.running)
  }

  /** The writer of a committed version is still in the map, with this row in its write set. */
  ghost predicate Witnessed(txns: map<TxnId, Txn>, rid: Rid, version: Version) {
    && version.writer in txns
    && txns[version.writer].state == Committed
    && txns[version.writer].commitTs == version.ts
    && rid in txns[version.writer].writes
  }

  /** Everything a running serializable transaction must be checked against can still be found. */
  ghost predicate WitnessesOk(w: World) {
    forall s, rid, k ::
      (s in w.txns && Live(w.txns[s]) && w.txns[s].isolation == Serializable
       && rid in w.hist && 0 <= k < |w.hist[rid]| && w.hist[rid][k].ts > w.txns[s].readTs) ==>
        Witnessed(w.txns, rid, w.hist[rid][k])
  }

  /** Rows already validated select the same for the committing transaction as when it began. */
  ghost predicate ValidatedRow(w: World, x: Txn, rid: Rid)
    requires rid in w.hist
  {
    SameForScans(w.hist[rid], x.readTs, w.last, Query(x.scans, rid.table))
  }

  ghost predicate ValidationOk(w: World) {
    forall t, rid :: t in w.txns && rid in w.hist ==>
      && (w.txns[t].phase.Verifying? && rid !in w.txns[t].phase.todo ==> ValidatedRow(w, w.txns[t], rid))
      && (w.txns[t].phase.Stamping? && w.txns[t].isolation == Serializable && w.txns[t].writes != {} ==>
            ValidatedRow(w, w.txns[t], rid))
  }

  /** The row's state after replaying the first `r` commits one after another. */
  ghost function Replay(commits: seq<CommitRecord>, first: Option<Row>, rid: Rid, r: nat): Option<Row>
    requires r <= |commits|
  {
    if r == 0 then first
    else if rid in commits[r - 1].images then commits[r - 1].images[rid]
    else Replay(commits, first, rid, r - 1)
  }

  /** Each version comes from the commit with its timestamp. */
  ghost predicate FromCommit(commits: seq<CommitRecord>, rid: Rid, version: Version) {
    && 1 <= version.ts <= |commits|
    && commits[version.ts - 1].txn == version.writer
    && commits[version.ts - 1].readTs == version.snapshot
    && rid in commits[version.ts - 1].images
    && commits[version.ts - 1].images[rid] == version.row
  }

  /** Histories and the commit sequence tell the same story. */
  ghost predicate CommitsOk(w: World) {
    && (forall rid, k :: rid in w.hist && 0 < k < |w.hist[rid]| ==> FromCommit(w.commits, rid, w.hist[rid][k]))
    && (forall rid, i {:trigger HasVersionOf(w.hist, rid, i)} ::
          0 <= i < |w.commits| && rid in w.commits[i].images ==> HasVersionOf(w.hist, rid, i))
    && (forall i :: 0 <= i < |w.commits| ==> 0 <= w.commits[i].readTs <= i)
  }

  /** The row's history has a version that the `i`-th commit wrote. */
  ghost predicate HasVersionOf(hist: map<Rid, History>, rid: Rid, i: int) {
    rid in hist && exists k :: 0 < k < |hist[rid]| && hist[rid][k].ts == i + 1
  }

  /** The scans of the `i`-th commit select the same rows at its snapshot as just before its commit. */
  ghost predicate Certified(w: World, i: nat)
    requires i < |w.commits|
  {
    w.commits[i].isolation == Serializable && w.commits[i].images != map[] ==>
      forall rid :: rid in w.hist ==>
        SameForScans(w.hist[rid], w.commits[i].readTs, i, Query(w.commits[i].scans, rid.table))
  }

  ghost predicate CertificatesOk(w: World) {
    forall i :: 0 <= i < |w.commits| ==> Certified(w, i)
  }

  ghost predicate Inv(w: World) {
    && Core(w)
    && RunningOk(w)
    && WitnessesOk(w)
    && ValidationOk(w)
    && CommitsOk(w)
    && CertificatesOk(w)
  }

  /** A database just opened: rows loaded at timestamp 0, no transactions. */
  ghost predicate Init(w: World) {
    && w.undo == map[] && w.txns == map[] && w.last == 0 && w.next == TXN_START_ID
    && w.running == map[] && w.committer == None && w.commits == [] && w.floor == 0
    && w.hist.Keys == w.heap.Keys
    && forall rid :: rid in w.heap ==>
         && w.heap[rid].ts == 0 && w.heap[rid].link == NoLink
         && w.hist[rid] == [Version(0, Content(w.heap[rid]), -1, 0)]
  }
}
