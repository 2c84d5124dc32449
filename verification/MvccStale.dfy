/**
 * Readers in flight. A reader copies a row and its undo link under the page latch, releases the latch,
 * and then fetches undo logs one by one while writers go on: they may edit the row again and replace
 * the very log the reader is about to fetch, commit, or abort.
 */
module MvccStale {
  import opened Sql
  import opened Undo
  import opened Chain
  import opened Mvcc
  import opened MvccInv
  import opened MvccRuns
  import opened MvccTheorems

  /** The history without its newest version. */
  ghost function Older(h: History): seq<Version> {
    h[..|h| - 1]
  }

  /** Whoever wrote the versions below the newest has committed. */
  ghost predicate OlderCommitted(w: World, h: History) {
    forall k :: 0 <= k < |h| - 1 ==>
      h[k].writer < w.next && (h[k].writer in w.txns ==> w.txns[h[k].writer].state == Committed)
  }

  /**
   * The copied slot `c` still stands for `h`. While the copied version's writer is active, the row is
   * still its, on the same undo log and over the same committed history.
   */
  ghost predicate StaleOk(w: World, rid: Rid, c: Slot, h: History) {
    && Represents(w.undo, w.floor, c, h)
    && Ordered(h)
    && OlderCommitted(w, h)
    && Last(h).writer < w.next
    && (c.link.Link? && IsActive(w, c.link.txn) ==> StillOwned(w, rid, c, h))
  }

  ghost predicate StillOwned(w: World, rid: Rid, c: Slot, h: History) {
    && rid in w.heap && rid in w.hist
    && c.link.Link? && w.heap[rid].ts == c.link.txn && w.heap[rid].link == c.link
    && Older(h) == w.hist[rid]
  }

  /** The copy a reader takes under the page latch, and the history it stands for. */
  ghost function CopiedHistory(w: World, rid: Rid): History
    requires rid in w.heap && rid in w.hist && StampOk(w, w.heap[rid].ts)
    requires w.heap[rid].ts > w.last ==> WriterOf(w, w.heap[rid].ts) in w.txns
  {
    var v := w.heap[rid];
    if v.ts <= w.last then w.hist[rid]
    else Pending(w.hist[rid], v, WriterOf(w, v.ts), w.txns[WriterOf(w, v.ts)].readTs)
  }

  lemma CopyIsOk(w: World, rid: Rid)
    requires Core(w) && rid in w.heap
    ensures StampOk(w, w.heap[rid].ts)
    ensures w.heap[rid].ts > w.last ==> WriterOf(w, w.heap[rid].ts) in w.txns
    ensures StaleOk(w, rid, w.heap[rid], CopiedHistory(w, rid))
    ensures forall r :: r <= w.last ==> AsOf(CopiedHistory(w, rid), r) == SnapshotOf(w, rid, r)
  {
    var v, h := w.heap[rid], w.hist[rid];
    assert StampOk(w, v.ts) && SlotOk(w, v, h) && HistOk(w, h);
    if v.ts > w.last {
      var t := WriterOf(w, v.ts);
      assert TxnOk(w, t);
      CopiedPending(w, rid, t);
    } else if v.link.Link? && v.link.txn in w.txns {
      assert TxnOk(w, v.link.txn);
    }
  }

  lemma CopiedPending(w: World, rid: Rid, t: TxnId)
    requires rid in w.heap && w.hist.Keys == w.heap.Keys && SlotOk(w, w.heap[rid], w.hist[rid])
      && HistOk(w, w.hist[rid])
    requires w.heap[rid].ts > w.last && t == WriterOf(w, w.heap[rid].ts) && t in w.txns && t < w.next
    requires TxnOk(w, t) && w.last < TXN_START_ID && TXN_START_ID <= t
    ensures StaleOk(w, rid, w.heap[rid], CopiedHistory(w, rid))
    ensures forall r :: r <= w.last ==> AsOf(CopiedHistory(w, rid), r) == AsOf(w.hist[rid], r)
  {
    var v, h := w.heap[rid], w.hist[rid];
    var p := Pending(h, v, t, w.txns[t].readTs);
    assert Older(p) == h;
    forall r | r <= w.last
      ensures AsOf(p, r) == AsOf(h, r)
    {
      AsOfAppend(h, Version(v.ts, Content(v), t, w.txns[t].readTs), r);
    }
  }

  // ----- one step of anybody else ----------------------------------------------------------------------

  /** Replacing the log a stale copy hangs on does not change what the copy restores. */
  lemma ReplacedLogKeepsCopy(
      u: Buffers, floor: int, c: Slot, h: History, v: Slot, readTs: int, t: TxnId, target: Option<Row>)
    requires Represents(u, floor, c, h) && t in u && c.link.Link? && c.link.txn == t && v.link == c.link
    requires |h| > 1 && NotWriter(Older(h), t)
    requires Represents(u, floor, v, Pending(Older(h), v, t, readTs))
    requires target.Some? ==> |target.value| == |v.row|
    ensures var i := c.link.idx;
            i < |u[t]| && WellFormed(u[t][i], |v.row|)
            && Represents(u[t := u[t][i := UpdatedLog(u[t][i], Content(v), target)]], floor, c, h)
  {
    var older: History := Older(h);
    var p := Pending(older, v, t, readTs);
    assert p[..|p| - 1] == older;
    var i := c.link.idx;
    var log := u[t][i];
    var log' := UpdatedLog(log, Content(v), target);
    if !log.deleted {
      CopyRestores(log, c, v, target);
    }
    assert Down(c, log') == Down(c, log);
    RepresentsFrame(u, floor, Down(c, log), older, t, u[t][i := log']);
  }

  lemma CopyRestores(log: UndoLog, c: Slot, v: Slot, target: Option<Row>)
    requires Fits(log, c) && Fits(log, v) && !log.deleted && |v.row| == |c.row|
    requires Content(Down(c, log)) == Content(Down(v, log))
    requires target.Some? ==> |target.value| == |v.row|
    ensures var log' := UpdatedLog(log, Content(v), target);
            Fits(log', c) && !log'.deleted && Down(c, log') == Down(c, log)
  {
    UpdatedLogRestores(log, Content(v), target, c.row, Restore(c.row, log));
  }

  /** Another log of the same transaction is replaced. */
  lemma OtherLogKeepsCopy(u: Buffers, floor: int, c: Slot, h: History, t: TxnId, i: nat, log: UndoLog)
    requires Represents(u, floor, c, h) && |h| > 1 && NotWriter(Older(h), t) && t in u && i < |u[t]|
    requires c.link.Link? && c.link.txn == t ==> c.link.idx != i
    ensures Represents(u[t := u[t][i := log]], floor, c, h)
  {
    if c.link.Link? && c.link.txn in u {
      RepresentsFrame(u, floor, Down(c, u[c.link.txn][c.link.idx]), Older(h), t, u[t][i := log]);
    }
  }

  lemma SameBuffersKeepCopy(w: World, w': World, rid: Rid, c: Slot, h: History)
    requires StaleOk(w, rid, c, h) && w'.undo == w.undo && w'.floor == w.floor && w'.next == w.next
    requires w'.txns.Keys == w.txns.Keys
    requires forall s :: s in w.txns && w.txns[s].state == Committed ==> w'.txns[s].state == Committed
    requires forall s :: s in w.txns && w'.txns[s].phase == Active ==> w.txns[s].phase == Active
    requires c.link.Link? && IsActive(w', c.link.txn) && StillOwned(w, rid, c, h) ==> StillOwned(w', rid, c, h)
    ensures StaleOk(w', rid, c, h)
  {
  }

  lemma BeginKeepsCopy(w: World, isolation: Isolation, rid: Rid, c: Slot, h: History)
    requires StaleOk(w, rid, c, h) && w.next !in w.txns
    ensures StaleOk(DoBegin(w, isolation), rid, c, h)
  {
    assert NotWriter(h, w.next) by {
      assert forall k :: 0 <= k < |h| ==> h[k].writer < w.next;
    }
    RepresentsNewBuffer(w.undo, w.floor, c, h, w.next);
  }

  /** The edit of a row by its own writer, or of any other row. */
  lemma ModifyKeepsChain(w: World, t: TxnId, e: Rid, target: Option<Row>, rid: Rid, c: Slot, h: History)
    requires Core(w) && StaleOk(w, rid, c, h) && Enabled(w, Modify(t, e, target, false)) && !Conflicts(w, t, e, false)
    ensures Represents(DoModify(w, t, e, target, false).undo, w.floor, c, h)
  {
    assert TxnOk(w, t);
    var v := w.heap[e];
    var (logs, link) := Logged(w.undo[t], t, v, target);
    if c.link.NoLink? {
    } else if c.link.txn != t {
      assert NotWriter(h, t);
      RepresentsFrame(w.undo, w.floor, c, h, t, logs);
    } else if v.ts != t {
      RepresentsAppend(w.undo, w.floor, c, h, t, logs);
    } else {
      assert SlotOk(w, v, w.hist[e]);
      OwnEditKeepsChain(w, t, e, target, rid, c, h);
    }
  }

  lemma OwnEditKeepsChain(w: World, t: TxnId, e: Rid, target: Option<Row>, rid: Rid, c: Slot, h: History)
    requires StaleOk(w, rid, c, h) && Enabled(w, Modify(t, e, target, false)) && !Conflicts(w, t, e, false)
    requires w.hist.Keys == w.heap.Keys && w.undo.Keys == w.txns.Keys && LinksDistinct(w)
    requires w.last < t && TXN_START_ID <= t && w.txns[t].state != Committed
    requires w.heap[e].ts == t && c.link.Link? && c.link.txn == t && SlotOk(w, w.heap[e], w.hist[e])
    ensures Represents(DoModify(w, t, e, target, false).undo, w.floor, c, h)
  {
    var v := w.heap[e];
    assert StillOwned(w, rid, c, h);
    assert NotWriter(Older(h), t);
    if v.link.NoLink? {
      assert DoModify(w, t, e, target, false).undo == w.undo;
    } else if e == rid {
      ReplacedLogKeepsCopy(w.undo, w.floor, c, h, v, w.txns[t].readTs, t, target);
    } else {
      assert v.link.idx != c.link.idx;
      OtherLogKeepsCopy(w.undo, w.floor, c, h, t, v.link.idx, DoModify(w, t, e, target, false).undo[t][v.link.idx]);
    }
  }

  lemma ModifyKeepsCopy(w: World, t: TxnId, e: Rid, target: Option<Row>, rid: Rid, c: Slot, h: History)
    requires Core(w) && StaleOk(w, rid, c, h) && Enabled(w, Modify(t, e, target, false)) && !Conflicts(w, t, e, false)
    ensures StaleOk(DoModify(w, t, e, target, false), rid, c, h)
  {
    assert TxnOk(w, t);
    ModifyKeepsChain(w, t, e, target, rid, c, h);
    if c.link.Link? && IsActive(w, c.link.txn) {
      assert TxnOk(w, c.link.txn);
    }
    OwnershipAfterModify(w, t, e, target, rid, c, h);
  }

  lemma OwnershipAfterModify(w: World, t: TxnId, e: Rid, target: Option<Row>, rid: Rid, c: Slot, h: History)
    requires StaleOk(w, rid, c, h) && Enabled(w, Modify(t, e, target, false)) && !Conflicts(w, t, e, false)
    requires w.undo.Keys == w.txns.Keys && TxnOk(w, t) && w.last < TXN_START_ID
    requires c.link.Link? && IsActive(w, c.link.txn) ==> w.last < c.link.txn
    ensures var w' := DoModify(w, t, e, target, false);
      && OlderCommitted(w', h)
      && (c.link.Link? && IsActive(w', c.link.txn) ==> StillOwned(w', rid, c, h))
  {
  }

  lemma PublishKeepsCopy(w: World, t: TxnId, rid: Rid, c: Slot, h: History)
    requires Core(w) && StaleOk(w, rid, c, h) && Enabled(w, Publish(t))
    ensures StaleOk(Next(w, Publish(t)), rid, c, h)
  {
    assert TxnOk(w, t);
    if c.link.Link? && IsActive(w, c.link.txn) && c.link.txn != t {
      assert TxnOk(w, c.link.txn) && Owns(w.txns[t], t, rid, w.heap[rid].ts, w.last);
    }
    PublishFrame(w, t, rid, c, h);
    SameBuffersKeepCopy(w, Next(w, Publish(t)), rid, c, h);
  }

  lemma PublishFrame(w: World, t: TxnId, rid: Rid, c: Slot, h: History)
    requires w.undo.Keys == w.txns.Keys && Enabled(w, Publish(t)) && w.txns[t].state != Committed
      && StaleOk(w, rid, c, h)
    requires c.link.Link? && IsActive(w, c.link.txn) && c.link.txn != t ==> rid !in w.txns[t].writes
    ensures var w' := Next(w, Publish(t));
      && w'.undo == w.undo && w'.floor == w.floor && w'.next == w.next && w'.txns.Keys == w.txns.Keys
      && (forall s :: s in w.txns && w.txns[s].state == Committed ==> w'.txns[s].state == Committed)
      && (forall s :: s in w.txns && w'.txns[s].phase == Active ==> w.txns[s].phase == Active)
      && (c.link.Link? && IsActive(w', c.link.txn) && StillOwned(w, rid, c, h) ==> StillOwned(w', rid, c, h))
  {
  }

  /** Steps that leave the buffers alone and publish nothing. */
  predicate RowStep(step: Step) {
    !step.Begin? && !step.Modify? && !step.Publish? && !step.Collect?
  }

  lemma RowStepFrame(w: World, step: Step)
    requires w.undo.Keys == w.txns.Keys && Enabled(w, step) && RowStep(step) && TxnOk(w, step.t)
    ensures var w' := Next(w, step);
      && w'.undo == w.undo && w'.floor == w.floor && w'.next == w.next && w'.txns.Keys == w.txns.Keys
      && (forall s :: s in w.txns && w.txns[s].state == Committed ==> w'.txns[s].state == Committed)
      && (forall s :: s in w.txns && w'.txns[s].phase == Active ==> w.txns[s].phase == Active)
  {
    RowStepRecord(w, step);
  }

  lemma RowStepRecord(w: World, step: Step)
    requires w.undo.Keys == w.txns.Keys && Enabled(w, step) && RowStep(step) && TxnOk(w, step.t)
    ensures var t, w' := step.t, Next(w, step);
      && t in w.txns && t in w'.txns && w'.txns == w.txns[t := w'.txns[t]]
      && (w.txns[t].state == Committed ==> w'.txns[t].state == Committed)
      && (w'.txns[t].phase == Active ==> w.txns[t].phase == Active)
  {
  }

  lemma RowStepOwnership(w: World, step: Step, rid: Rid, c: Slot, h: History)
    requires w.undo.Keys == w.txns.Keys && Enabled(w, step) && RowStep(step)
    requires c.link.Link? && IsActive(Next(w, step), c.link.txn) && StillOwned(w, rid, c, h)
    ensures StillOwned(Next(w, step), rid, c, h)
  {
  }

  lemma RowStepKeepsCopy(w: World, step: Step, rid: Rid, c: Slot, h: History)
    requires Books(w) && StaleOk(w, rid, c, h) && Enabled(w, step) && RowStep(step)
    ensures StaleOk(Next(w, step), rid, c, h)
  {
    assert TxnOk(w, step.t);
    RowStepFrame(w, step);
    if c.link.Link? && IsActive(Next(w, step), c.link.txn) && StillOwned(w, rid, c, h) {
      RowStepOwnership(w, step, rid, c, h);
    }
    SameBuffersKeepCopy(w, Next(w, step), rid, c, h);
  }

  lemma TaintKeepsCopy(w: World, t: TxnId, rid: Rid, c: Slot, h: History)
    requires StaleOk(w, rid, c, h) && t in w.txns && w.txns[t].state == Running
    ensures StaleOk(SetTxn(w, t, w.txns[t].(state := Tainted)), rid, c, h)
  {
    SameBuffersKeepCopy(w, SetTxn(w, t, w.txns[t].(state := Tainted)), rid, c, h);
  }

  /** No step but a collection, which waits for all readers, disturbs a reader's copy. */
  lemma StepKeepsCopy(w: World, step: Step, rid: Rid, c: Slot, h: History)
    requires Core(w) && StaleOk(w, rid, c, h) && Enabled(w, step) && step != Collect
    ensures StaleOk(Next(w, step), rid, c, h)
  {
    match step
    case Begin(isolation) => assert w.next !in w.txns; BeginKeepsCopy(w, isolation, rid, c, h);
    case Modify(t, e, target, requireDeleted) =>
      if Conflicts(w, t, e, requireDeleted) {
        TaintKeepsCopy(w, t, rid, c, h);
      } else {
        ModifyConflictFree(w, t, e, target, requireDeleted);
        ModifyKeepsCopy(w, t, e, target, rid, c, h);
      }
    case Publish(t) => PublishKeepsCopy(w, t, rid, c, h);
    case _ => RowStepKeepsCopy(w, step, rid, c, h);
  }

  lemma {:induction false} RunKeepsCopy(w: World, steps: seq<Step>, rid: Rid, c: Slot, h: History)
    requires Inv(w) && StaleOk(w, rid, c, h) && IsRun(w, steps) && Collect !in steps
    ensures Inv(After(w, steps)) && StaleOk(After(w, steps), rid, c, h) && After(w, steps).floor == w.floor
    decreases |steps|
  {
    if steps != [] {
      StepInv(w, steps[0]);
      StepKeepsCopy(w, steps[0], rid, c, h);
      SameFloor(w, steps[0]);
      RunKeepsCopy(Next(w, steps[0]), steps[1..], rid, c, h);
    }
  }

  lemma SameFloor(w: World, step: Step)
    requires w.undo.Keys == w.txns.Keys && Enabled(w, step) && step != Collect
    ensures Next(w, step).floor == w.floor
  {
  }

  // ----- the whole read ------------------------------------------------------------------------------------

  /** The moments at which a reader fetches its logs, with anything but a collection in between. */
  ghost predicate Moments(w: World, runs: seq<seq<Step>>)
    decreases |runs|
  {
    runs == [] || (IsRun(w, runs[0]) && Collect !in runs[0] && Moments(After(w, runs[0]), runs[1..]))
  }

  /** The read loop, one fetch per moment; `None` when it has not finished by the last of them. */
  ghost function ReadAcross(w: World, runs: seq<seq<Step>>, c: Slot, r: int): Option<Reading>
    requires Moments(w, runs)
    decreases |runs|
  {
    if c.ts <= r then Some(Seen(Content(c)))
    else if c.link.NoLink? then Some(NeverExisted)
    else if runs == [] then None
    else
      var now := After(w, runs[0]);
      if !Resolves(now.undo, c.link) || !WellFormed(LogAt(now.undo, c.link), |c.row|) then Some(LogMissing)
      else ReadAcross(now, runs[1..], Down(c, LogAt(now.undo, c.link)), r)
  }

  lemma FetchedCopy(w: World, rid: Rid, c: Slot, h: History)
    requires Books(w) && StaleOk(w, rid, c, h) && Resolves(w.undo, c.link)
    ensures |h| > 1 && WellFormed(LogAt(w.undo, c.link), |c.row|)
    ensures StaleOk(w, rid, Down(c, LogAt(w.undo, c.link)), Older(h))
  {
    var d := Down(c, LogAt(w.undo, c.link));
    if d.link.Link? && d.link.txn in w.txns {
      assert TxnOk(w, d.link.txn);
    }
  }

  lemma {:induction false} CopyReadAcross(w: World, runs: seq<seq<Step>>, rid: Rid, c: Slot, h: History, r: int)
    requires Inv(w) && StaleOk(w, rid, c, h) && Moments(w, runs) && w.floor <= r && 0 <= r
    ensures var result := ReadAcross(w, runs, c, r);
            && (result.Some? ==> Sound(result.value) && Visible(result.value) == AsOf(h, r))
            && (|h| <= |runs| + 1 ==> result.Some?)
    decreases |runs|
  {
    if c.ts > r && c.link.Link? && runs != [] {
      var now := After(w, runs[0]);
      RunKeepsCopy(w, runs[0], rid, c, h);
      assert Resolves(now.undo, c.link);
      FetchedCopy(now, rid, c, h);
      CopyReadAcross(now, runs[1..], rid, Down(c, LogAt(now.undo, c.link)), Older(h), r);
    }
  }

  /**
   * A read whose steps are spread over a run, with any steps of other transactions between its copy
   * and each of its fetches, still returns the committed row of the reader's snapshot; it is done
   * after at most as many fetches as the row has versions.
   */
  lemma InFlightRead(w: World, t: TxnId, rid: Rid, runs: seq<seq<Step>>)
    requires Inv(w) && t in w.txns && Live(w.txns[t]) && rid in w.heap && w.heap[rid].ts != t && Moments(w, runs)
    ensures var r := w.txns[t].readTs;
            var result := ReadAcross(w, runs, w.heap[rid], r);
            && (result.Some? ==> Sound(result.value) && Visible(result.value) == SnapshotOf(w, rid, r))
            && (|w.hist[rid]| <= |runs| ==> result.Some?)
  {
    assert TxnOk(w, t);
    CopyIsOk(w, rid);
    CopyReadAcross(w, runs, rid, w.heap[rid], CopiedHistory(w, rid), w.txns[t].readTs);
  }

  // ----- validation --------------------------------------------------------------------------------------------

  /** The validation walk of one row, one fetch per moment; `None` when it has not finished by the last of them. */
  ghost function VerdictAcross(w: World, runs: seq<seq<Step>>, c: Slot, r: int, q: Query): Option<bool>
    requires Moments(w, runs)
    decreases |runs|
  {
    if c.ts <= r then Some(true)
    else if c.link.NoLink? then Some(!(c.ts < TXN_START_ID && Matches(q, Content(c))))
    else if runs == [] then None
    else
      var now := After(w, runs[0]);
      var found := Resolves(now.undo, c.link) && WellFormed(LogAt(now.undo, c.link), |c.row|);
      var before := if found then Content(Down(c, LogAt(now.undo, c.link))) else None;
      if c.ts < TXN_START_ID && (Matches(q, Content(c)) || Matches(q, before)) then Some(false)
      else if !found then Some(true)
      else
        var log := LogAt(now.undo, c.link);
        var base := if before.Some? then before.value else c.row;
        VerdictAcross(now, runs[1..], Slot(log.ts, log.deleted, base, log.prev), r, q)
  }

  lemma OldCopyUnchanged(h: History, r: int, q: Query)
    requires Ordered(h) && Last(h).ts <= r
    ensures UnchangedSince(h, r, q)
  {
    forall k | 0 <= k < |h| - 1
      ensures h[k].ts <= r
    {
      OrderedTs(h, k, |h| - 1);
    }
  }

  lemma {:induction false} CopyVerdictAcross(
      w: World, runs: seq<seq<Step>>, rid: Rid, c: Slot, h: History, r: int, q: Query)
    requires Inv(w) && StaleOk(w, rid, c, h) && Moments(w, runs) && w.floor <= r && 0 <= r
    ensures var result := VerdictAcross(w, runs, c, r, q);
            && (result.Some? ==> (result.value <==> UnchangedSince(h, r, q)))
            && (|h| <= |runs| + 1 ==> result.Some?)
    decreases |runs|
  {
    if c.ts <= r {
      OldCopyUnchanged(h, r, q);
    } else if c.link.NoLink? {
      OrderedNonNegative(h, 0);
    } else if runs != [] {
      var now := After(w, runs[0]);
      RunKeepsCopy(w, runs[0], rid, c, h);
      assert Resolves(now.undo, c.link);
      FetchedCopy(now, rid, c, h);
      var log := LogAt(now.undo, c.link);
      CopyVerdictAcross(now, runs[1..], rid, Down(c, log), Older(h), r, q);
      VerdictStep(w, runs, c, h, r, q);
    }
  }

  /** One fetch of the walk: the verdict on the copy is the verdict on the older version, or false here. */
  lemma VerdictStep(w: World, runs: seq<seq<Step>>, c: Slot, h: History, r: int, q: Query)
    requires Moments(w, runs) && runs != [] && c.ts > r && c.link.Link? && |h| > 1
    requires c.ts == Last(h).ts && Content(c) == Last(h).row
    requires var now := After(w, runs[0]);
      && Resolves(now.undo, c.link) && WellFormed(LogAt(now.undo, c.link), |c.row|)
      && var d := Down(c, LogAt(now.undo, c.link));
      && Content(d) == Last(Older(h)).row
      && var rest := VerdictAcross(now, runs[1..], d, r, q);
      && (rest.Some? ==> (rest.value <==> UnchangedSince(Older(h), r, q)))
      && (|h| <= |runs| + 1 ==> rest.Some?)
    ensures var result := VerdictAcross(w, runs, c, r, q);
      && (result.Some? ==> (result.value <==> UnchangedSince(h, r, q)))
      && (|h| <= |runs| + 1 ==> result.Some?)
  {
    RestoreTombstone(c.row, LogAt(After(w, runs[0]).undo, c.link));
    UnchangedSinceSplit(h, r, q);
  }

  /**
   * Validating a row log by log, with any steps of other transactions between its copy and each of its
   * fetches, gives the verdict the whole walk would have given at the moment of the copy.
   */
  lemma InFlightVerdict(w: World, t: TxnId, rid: Rid, runs: seq<seq<Step>>)
    requires Inv(w) && t in w.txns && w.txns[t].phase.Verifying? && rid in w.heap && Moments(w, runs)
    ensures var r, q := w.txns[t].readTs, Query(w.txns[t].scans, rid.table);
            var result := VerdictAcross(w, runs, w.heap[rid], r, q);
            && (result.Some? ==> (result.value <==> Unchanged(w.undo, w.heap[rid], r, q)))
            && (|w.hist[rid]| <= |runs| ==> result.Some?)
  {
    assert TxnOk(w, t);
    var r, q := w.txns[t].readTs, Query(w.txns[t].scans, rid.table);
    CopyIsOk(w, rid);
    var h := CopiedHistory(w, rid);
    CopyVerdictAcross(w, runs, rid, w.heap[rid], h, r, q);
    UnchangedIsUnchangedSince(w.undo, w.floor, w.heap[rid], h, r, q);
  }
}
