/**
 * The transaction manager as a program: the maps it holds, the loops of `VerifyTxn`, `Commit`, `Abort`
 * and `GarbageCollection`, and the read path. Every method is a run of the step system, so all that
 * is proved of runs holds of it.
 */
module TransactionManagers {
  import opened Sql
  import opened Undo
  import opened Chain
  import opened Watermarks
  import opened Mvcc
  import opened MvccRuns
  import opened MvccTheorems
  import opened MvccFinish
  import opened MvccExact

  datatype ModifyResult = Modified | WriteConflict

  datatype CommitResult = CommitDone | ValidationFailed | NotRunning

  // ----- traces --------------------------------------------------------------------------------------

  lemma {:induction false} RunAppend(w: World, steps: seq<Step>, step: Step)
    requires IsRun(w, steps) && After(w, steps).undo.Keys == After(w, steps).txns.Keys && Enabled(After(w, steps), step)
    ensures IsRun(w, steps + [step]) && After(w, steps + [step]) == Next(After(w, steps), step)
    decreases |steps|
  {
    if steps == [] {
      assert steps + [step] == [step];
    } else {
      RunAppend(Next(w, steps[0]), steps[1..], step);
      assert (steps + [step])[1..] == steps[1..] + [step];
    }
  }

  lemma {:induction false} RunConcat(w: World, a: seq<Step>, b: seq<Step>)
    requires IsRun(w, a) && IsRun(After(w, a), b)
    ensures IsRun(w, a + b) && After(w, a + b) == After(After(w, a), b)
    decreases |a|
  {
    if a == [] {
      assert a + b == b;
    } else {
      assert (a + b)[1..] == a[1..] + b;
      RunConcat(Next(w, a[0]), a[1..], b);
    }
  }

  lemma RunOne(w: World, step: Step)
    requires w.undo.Keys == w.txns.Keys && Enabled(w, step)
    ensures IsRun(w, [step]) && After(w, [step]) == Next(w, step)
  {
    RunAppend(w, [], step);
    assert [] + [step] == [step];
  }

  lemma InitReachable(w: World)
    requires Init(w)
    ensures Reachable(w)
  {
    assert IsRun(w, []) && After(w, []) == w;
  }

  lemma StepReachable(w: World, step: Step)
    requires Reachable(w) && w.undo.Keys == w.txns.Keys && Enabled(w, step)
    ensures Reachable(Next(w, step)) && Next(w, step).undo.Keys == Next(w, step).txns.Keys
  {
    var start, steps :| Init(start) && IsRun(start, steps) && After(start, steps) == w;
    RunAppend(start, steps, step);
    ReachableInv(Next(w, step));
  }

  // ----- what the invariant says about one row ---------------------------------------------------------

  /** The undo log of a row the transaction has written before is there and fits the row. */
  lemma OwnLogFits(w: World, t: TxnId, rid: Rid)
    requires Reachable(w) && t in w.txns && rid in w.heap && w.heap[rid].ts == t && w.heap[rid].link.Link?
    ensures w.heap[rid].link.txn == t && t in w.undo && w.heap[rid].link.idx < |w.undo[t]|
    ensures Fits(w.undo[t][w.heap[rid].link.idx], w.heap[rid])
  {
    ReachableInv(w);
    assert SlotOk(w, w.heap[rid], w.hist[rid]);
  }

  lemma OwnLogReady(w: World, t: TxnId, rid: Rid)
    requires Reachable(w) && t in w.txns && rid in w.heap
    ensures var v := w.heap[rid];
      v.ts == t && v.link.Link? ==>
        t in w.undo && v.link.idx < |w.undo[t]| && WellFormed(w.undo[t][v.link.idx], |v.row|)
  {
    if w.heap[rid].ts == t && w.heap[rid].link.Link? {
      OwnLogFits(w, t, rid);
    }
  }

  /** The history a slot stands for, pending version included. */
  ghost function FullHistory(w: World, rid: Rid): (h: History)
    requires Reachable(w) && rid in w.heap
    ensures Represents(w.undo, w.floor, w.heap[rid], h) && Ordered(h)
  {
    FullHistoryOk(w, rid);
    var v := w.heap[rid];
    if v.ts <= w.last then w.hist[rid]
    else Pending(w.hist[rid], v, WriterOf(w, v.ts), w.txns[WriterOf(w, v.ts)].readTs)
  }

  lemma FullHistoryOk(w: World, rid: Rid)
    requires Reachable(w) && rid in w.heap
    ensures rid in w.hist && StampOk(w, w.heap[rid].ts) && SlotOk(w, w.heap[rid], w.hist[rid]) && Ordered(w.hist[rid])
    ensures w.heap[rid].ts > w.last ==>
              WriterOf(w, w.heap[rid].ts) in w.txns && w.txns[WriterOf(w, w.heap[rid].ts)].readTs < w.heap[rid].ts
  {
    ReachableInv(w);
    assert StampOk(w, w.heap[rid].ts) && SlotOk(w, w.heap[rid], w.hist[rid]) && HistOk(w, w.hist[rid]);
    if w.heap[rid].ts > w.last {
      assert TxnOk(w, WriterOf(w, w.heap[rid].ts));
    }
  }

  /** A transaction still at work has its snapshot above the collection floor and its rows in the heap. */
  lemma InsideBounds(w: World, t: TxnId)
    requires Reachable(w) && t in w.txns && w.txns[t].phase != Done
    ensures Live(w.txns[t]) && w.floor <= w.txns[t].readTs && 0 <= w.txns[t].readTs
    ensures w.txns[t].writes <= w.heap.Keys
    ensures w.txns[t].phase != Active ==> w.txns[t].phase.todo <= w.heap.Keys
  {
    ReachableInv(w);
    assert TxnOk(w, t);
  }

  lemma ReadableBy(w: World, t: TxnId, rid: Rid)
    requires Reachable(w) && t in w.txns && Live(w.txns[t]) && rid in w.heap
    ensures w.floor <= w.txns[t].readTs && 0 <= w.txns[t].readTs
    ensures w.heap[rid].ts != t ==> Visible(ReadBy(w, t, rid)) == SnapshotOf(w, rid, w.txns[t].readTs)
  {
    ReachableInv(w);
    assert TxnOk(w, t);
    SnapshotRead(w, t, rid);
  }

  // ----- walks over one chain -----------------------------------------------------------------------------

  /** `CollectUndoLogs` below the base: the logs down to `r`, or nothing if the row did not exist then. */
  method CollectUndoLogs(undo: Buffers, base: Slot, r: int, ghost floor: int, ghost h: History)
    returns (logs: Option<seq<UndoLog>>)
    requires Represents(undo, floor, base, h) && Ordered(h) && floor <= r && 0 <= r
    ensures logs.None? <==> Read(undo, base, r).NeverExisted?
    ensures logs.Some? ==> forall k :: 0 <= k < |logs.value| ==> WellFormed(logs.value[k], |base.row|)
    ensures logs.Some? ==> Read(undo, base, r) == Seen(Reconstruct(base.row, base.deleted, logs.value))
  {
    var list: seq<UndoLog> := [];
    if base.ts <= r {
      return Some(list);
    }
    var link := base.link;
    ghost var c, g := base, h;
    while link.Link?
      invariant c.link == link && c.ts > r && |c.row| == |base.row|
      invariant Represents(undo, floor, c, g) && Ordered(g)
      invariant forall k :: 0 <= k < |list| ==> WellFormed(list[k], |base.row|)
      invariant Applied(base.row, base.deleted, list) == (c.row, c.deleted)
      invariant Read(undo, base, r) == Read(undo, c, r)
      decreases |g|
    {
      ChainDecreases(undo, floor, c, g);
      var log := undo[link.txn][link.idx];
      ReconstructSplit(base.row, base.deleted, list, c.row, c.deleted, log);
      list := list + [log];
      c, g := Down(c, log), g[..|g| - 1];
      if log.ts <= r {
        return Some(list);
      }
      link := log.prev;
    }
    return None;
  }

  /** The validation walk over one row, with the base row, its metadata and the link reassigned as it descends. */
  method RowUnchanged(undo: Buffers, slot: Slot, r: int, q: Query, ghost floor: int, ghost h: History)
    returns (ok: bool)
    requires Represents(undo, floor, slot, h) && Ordered(h) && floor <= r && 0 <= r
    ensures ok <==> Unchanged(undo, slot, r, q)
  {
    var ts, deleted, base, link := slot.ts, slot.deleted, slot.row, slot.link;
    var current: Option<Row> := if slot.deleted then None else Some(slot.row);
    ghost var c, g := slot, h;
    while ts > r
      invariant c.ts == ts && c.deleted == deleted && c.row == base && c.link == link && current == Content(c)
      invariant Represents(undo, floor, c, g) && Ordered(g)
      invariant Unchanged(undo, slot, r, q) <==> Unchanged(undo, c, r, q)
      decreases |g|
    {
      var before: Option<Row> := None;
      if link.Link? {
        ChainDecreases(undo, floor, c, g);
        before := ReconstructTuple(base, deleted, [undo[link.txn][link.idx]]);
        ReconstructOne(base, deleted, undo[link.txn][link.idx]);
        RestoreTombstone(base, undo[link.txn][link.idx]);
        assert before == Content(Down(c, undo[link.txn][link.idx]));
      }
      if ts < TXN_START_ID && (Matches(q, current) || Matches(q, before)) {
        return false;
      }
      if link.NoLink? {
        return true;
      }
      var log := undo[link.txn][link.idx];
      c, g := Down(c, log), g[..|g| - 1];
      base := if before.Some? then before.value else base;
      ts, deleted, current, link := log.ts, log.deleted, before, log.prev;
    }
    return true;
  }

  /** The collection's walk over one row: buffers its readers at or above the watermark may enter. */
  method ChainNeeds(undo: Buffers, slot: Slot, mark: int, ghost floor: int, ghost h: History)
    returns (needed: set<TxnId>)
    requires Represents(undo, floor, slot, h) && Ordered(h) && floor <= mark
    ensures needed == Needed(undo, slot, mark)
  {
    needed := {};
    if slot.ts <= mark {
      return;
    }
    var link := slot.link;
    ghost var c, g := slot, h;
    while link.Link?
      invariant c.link == link && c.ts > mark
      invariant Represents(undo, floor, c, g) && Ordered(g)
      invariant Needed(undo, slot, mark) == needed + Needed(undo, c, mark)
      decreases |g|
    {
      ChainDecreases(undo, floor, c, g);
      var log := undo[link.txn][link.idx];
      needed := needed + {link.txn};
      if log.ts <= mark {
        return;
      }
      c, g := Down(c, log), g[..|g| - 1];
      link := log.prev;
    }
  }

  /** Remember what an edit of `v` destroys: extend the transaction's log of the row, or append a new one. */
  method LogEdit(buffer: seq<UndoLog>, t: TxnId, v: Slot, target: Option<Row>) returns (logs: seq<UndoLog>, link: Link)
    requires target.Some? ==> |target.value| == |v.row|
    requires v.ts == t && v.link.Link? && v.link.txn == t ==>
               v.link.idx < |buffer| && WellFormed(buffer[v.link.idx], |v.row|)
    ensures (logs, link) == Logged(buffer, t, v, target)
  {
    logs, link := buffer, v.link;
    var before := if v.deleted then None else Some(v.row);
    if v.ts == t {
      if link.Link? && link.txn == t {
        var log := GenerateUpdatedUndoLog(before, target, logs[link.idx]);
        logs := logs[link.idx := log];
      }
    } else {
      var log := GenerateNewUndoLog(|v.row|, before, target, v.ts, link);
      logs := logs + [log];
      link := Link(t, |logs| - 1);
    }
  }

  /** The new slot, buffer and record when `t` edits the row `v`: a conflict only taints the transaction. */
  method EditRow(v: Slot, buffer: seq<UndoLog>, x: Txn, t: TxnId, rid: Rid, target: Option<Row>, requireDeleted: bool)
    returns (v': Slot, logs: seq<UndoLog>, x': Txn, result: ModifyResult)
    requires target.Some? ==> |target.value| == |v.row|
    requires v.ts == t && v.link.Link? && v.link.txn == t ==>
               v.link.idx < |buffer| && WellFormed(buffer[v.link.idx], |v.row|)
    ensures result.WriteConflict? <==> (v.ts != t && v.ts > x.readTs) || (requireDeleted && !v.deleted)
    ensures result.WriteConflict? ==> v' == v && logs == buffer && x' == x.(state := Tainted)
    ensures result.Modified? ==>
              && logs == Logged(buffer, t, v, target).0
              && v' == Edited(t, v, target, Logged(buffer, t, v, target).1)
              && x' == x.(writes := x.writes + {rid})
  {
    if (v.ts != t && v.ts > x.readTs) || (requireDeleted && !v.deleted) {
      return v, buffer, x.(state := Tainted), WriteConflict;
    }
    var link;
    logs, link := LogEdit(buffer, t, v, target);
    v' := Slot(t, target.None?, Written(v.row, target), link);
    return v', logs, x.(writes := x.writes + {rid}), Modified;
  }

  lemma EditedState(w: World, t: TxnId, rid: Rid, target: Option<Row>, requireDeleted: bool,
                    v: Slot, logs: seq<UndoLog>, x: Txn)
    requires Enabled(w, Modify(t, rid, target, requireDeleted)) && w.undo.Keys == w.txns.Keys
    requires Conflicts(w, t, rid, requireDeleted) ==>
               v == w.heap[rid] && logs == w.undo[t] && x == w.txns[t].(state := Tainted)
    requires !Conflicts(w, t, rid, requireDeleted) ==>
              && logs == Logged(w.undo[t], t, w.heap[rid], target).0
              && v == Edited(t, w.heap[rid], target, Logged(w.undo[t], t, w.heap[rid], target).1)
              && x == w.txns[t].(writes := w.txns[t].writes + {rid})
    ensures Next(w, Modify(t, rid, target, requireDeleted)) ==
            w.(heap := w.heap[rid := v], undo := w.undo[t := logs], txns := w.txns[t := x])
  {
    if Conflicts(w, t, rid, requireDeleted) {
      assert w.heap[rid := v] == w.heap && w.undo[t := logs] == w.undo;
    }
  }

  /** Undo the edit of one row from its log, or leave a tombstone of a row that never existed. */
  method TakeBack(undo: Buffers, t: TxnId, v: Slot) returns (r: Slot)
    requires v.link.Link? && v.link.txn == t ==> Resolves(undo, v.link) && WellFormed(LogAt(undo, v.link), |v.row|)
    ensures r == Reverted(undo, t, v)
  {
    if v.link.Link? && v.link.txn == t {
      var log := undo[t][v.link.idx];
      var restored := ReconstructTuple(v.row, v.deleted, [log]);
      ReconstructOne(v.row, v.deleted, log);
      return Slot(log.ts, log.deleted, if restored.Some? then restored.value else v.row, log.prev);
    }
    return Slot(0, true, v.row, v.link);
  }

  /** Rows written by transactions committed after `x` began, in tables that `x` scanned. */
  method CollectChangedRows(txns: map<TxnId, Txn>, x: Txn) returns (changed: set<Rid>)
    ensures changed == ChangedRows(txns, x)
  {
    changed := {};
    var rest := txns.Keys;
    while rest != {}
      invariant rest <= txns.Keys
      invariant changed == ChangedRows(map o | o in txns && o !in rest :: txns[o], x)
    {
      ghost var some := Sets.Pick(rest);
      var o :| o in rest;
      ghost var seen := map p | p in txns && p !in rest :: txns[p];
      rest := rest - {o};
      ghost var now := map p | p in txns && p !in rest :: txns[p];
      assert now == seen[o := txns[o]];
      ChangedRowsAdd(seen, o, txns[o], x);
      if txns[o].state == Committed && txns[o].commitTs > x.readTs {
        changed := changed + ScannedRows(txns[o].writes, x);
      }
    }
    assert (map o | o in txns && o !in rest :: txns[o]) == txns;
  }

  function ScannedRows(writes: set<Rid>, x: Txn): set<Rid> {
    set rid | rid in writes && exists k :: 0 <= k < |x.scans| && x.scans[k].table == rid.table
  }

  lemma ChangedRowsAdd(txns: map<TxnId, Txn>, o: TxnId, y: Txn, x: Txn)
    requires o !in txns
    ensures ChangedRows(txns[o := y], x) ==
            ChangedRows(txns, x) +
            (if y.state == Committed && y.commitTs > x.readTs then ScannedRows(y.writes, x) else {})
  {
    var all := txns[o := y];
    forall rid | rid in ChangedRows(txns, x)
      ensures rid in ChangedRows(all, x)
    {
      var p :| p in txns && rid in txns[p].writes && txns[p].state == Committed && txns[p].commitTs > x.readTs;
      assert p in all && all[p] == txns[p];
    }
    forall rid | rid in ChangedRows(all, x)
      ensures rid in ChangedRows(txns, x)
        || (y.state == Committed && y.commitTs > x.readTs && rid in ScannedRows(y.writes, x))
    {
      var p :| p in all && rid in all[p].writes && all[p].state == Committed && all[p].commitTs > x.readTs;
    }
    if y.state == Committed && y.commitTs > x.readTs {
      forall rid | rid in ScannedRows(y.writes, x)
        ensures rid in ChangedRows(all, x)
      {
        assert o in all && rid in all[o].writes;
      }
    }
  }

  // ----- what the histories decide ------------------------------------------------------------------------

  lemma EditDecided(w: World, t: TxnId, rid: Rid, target: Option<Row>, requireDeleted: bool)
    requires Reachable(w) && w.undo.Keys == w.txns.Keys && Enabled(w, Modify(t, rid, target, requireDeleted))
    ensures !Conflicts(w, t, rid, requireDeleted) <==>
      MayEdit(w, t, rid) && (requireDeleted ==> Visible(ReadBy(w, t, rid)) == None)
    ensures var w' := Next(w, Modify(t, rid, target, requireDeleted));
      && t in w'.txns
      && if Conflicts(w, t, rid, requireDeleted) then w'.txns[t].state == Tainted && w'.heap == w.heap
         else w'.heap[rid].ts == t && Content(w'.heap[rid]) == target
  {
    ReachableInv(w);
    ConflictsExactly(w, t, rid, requireDeleted);
    EditTakes(w, t, rid, target, requireDeleted);
  }

  /** While `t` validates, a row's walk fails exactly if a later commit disturbed one of its scans there. */
  lemma VerdictsDecided(w: World, t: TxnId)
    requires Reachable(w) && t in w.txns && w.txns[t].phase.Verifying?
    ensures forall rid :: rid in w.heap ==>
      var x := w.txns[t];
      (Unchanged(w.undo, w.heap[rid], x.readTs, Query(x.scans, rid.table)) <==> !RowDisturbed(w, x, rid))
  {
    ReachableInv(w);
    forall rid | rid in w.heap
      ensures var x := w.txns[t];
        Unchanged(w.undo, w.heap[rid], x.readTs, Query(x.scans, rid.table)) <==> !RowDisturbed(w, x, rid)
    {
      VerifierAlone(w, t, rid);
      VerdictExactly(w, rid, w.txns[t]);
    }
  }

  lemma VerifierAlone(w: World, t: TxnId, rid: Rid)
    requires Books(w) && t in w.txns && w.txns[t].phase.Verifying? && rid in w.heap
    ensures w.floor <= w.txns[t].readTs && 0 <= w.txns[t].readTs
    ensures w.heap[rid].ts <= w.last || w.heap[rid].ts >= TXN_START_ID
  {
    assert TxnOk(w, t) && StampOk(w, w.heap[rid].ts);
  }

  /** A serializable writer's commit is in danger exactly from the commits that disturbed one of its scans. */
  lemma CommitDecided(w: World, t: TxnId)
    requires Reachable(w) && IsActive(w, t) && w.committer == None && w.txns[t].isolation == Serializable
    ensures var x := w.txns[t];
      (exists rid :: rid in ChangedRows(w.txns, x)
         && !(rid in w.heap && Unchanged(w.undo, w.heap[rid], x.readTs, Query(x.scans, rid.table))))
      <==> exists rid :: RowDisturbed(w, x, rid)
  {
    ReachableInv(w);
    var x := w.txns[t];
    assert TxnOk(w, t);
    forall rid | rid in w.heap
      ensures Unchanged(w.undo, w.heap[rid], x.readTs, Query(x.scans, rid.table)) <==> !RowDisturbed(w, x, rid)
    {
      NobodyStamping(w, rid);
      VerdictExactly(w, rid, x);
    }
    forall rid | RowDisturbed(w, x, rid)
      ensures rid in ChangedRows(w.txns, x)
    {
      DisturbedIsChanged(w, t, rid);
    }
    ChangedInHeap(w, x);
  }

  lemma NobodyStamping(w: World, rid: Rid)
    requires StampsOk(w) && rid in w.heap && w.committer == None
    ensures w.heap[rid].ts <= w.last || w.heap[rid].ts >= TXN_START_ID
  {
    assert StampOk(w, w.heap[rid].ts);
  }

  lemma ChangedInHeap(w: World, x: Txn)
    requires TxnsOk(w)
    ensures ChangedRows(w.txns, x) <= w.heap.Keys
  {
    forall rid | rid in ChangedRows(w.txns, x)
      ensures rid in w.heap
    {
      var o :| o in w.txns && rid in w.txns[o].writes;
      assert TxnOk(w, o);
    }
  }

  // ----- garbage collection ------------------------------------------------------------------------------

  const MAX_TIMESTAMP: int := 0x7FFF_FFFF_FFFF_FFFF

  /** Visit every row and gather the transactions whose undo logs must stay. */
  method CollectNeeded(heap: map<Rid, Slot>, undo: Buffers, mark: int, ghost w: World) returns (needed: set<TxnId>)
    requires Reachable(w) && heap == w.heap && undo == w.undo && w.floor <= mark
    ensures needed == NeededBy(w, mark)
  {
    needed := {};
    var rest := heap.Keys;
    while rest != {}
      invariant rest <= heap.Keys
      invariant needed == NeededIn(heap, undo, mark, heap.Keys - rest)
    {
      ghost var some := Sets.Pick(rest);
      var rid :| rid in rest;
      var ids := ChainNeeds(undo, heap[rid], mark, w.floor, FullHistory(w, rid));
      NeededAdd(heap, undo, mark, heap.Keys - rest, rid);
      rest := rest - {rid};
      assert heap.Keys - rest == heap.Keys - (rest + {rid}) + {rid};
      needed := needed + ids;
    }
    assert NeededIn(heap, undo, mark, heap.Keys) == NeededBy(w, mark);
  }

  ghost function NeededIn(heap: map<Rid, Slot>, undo: Buffers, mark: int, rows: set<Rid>): set<TxnId>
    requires rows <= heap.Keys
  {
    set rid, t | rid in rows && t in Needed(undo, heap[rid], mark) :: t
  }

  lemma NeededAdd(heap: map<Rid, Slot>, undo: Buffers, mark: int, rows: set<Rid>, rid: Rid)
    requires rows <= heap.Keys && rid in heap
    ensures NeededIn(heap, undo, mark, rows + {rid}) == NeededIn(heap, undo, mark, rows) + Needed(undo, heap[rid], mark)
  {
    var more := NeededIn(heap, undo, mark, rows + {rid});
    forall t | t in NeededIn(heap, undo, mark, rows)
      ensures t in more
    {
      var r :| r in rows && t in Needed(undo, heap[r], mark);
      assert r in rows + {rid};
    }
    forall t | t in Needed(undo, heap[rid], mark)
      ensures t in more
    {
      assert rid in rows + {rid};
    }
  }

  /** `ts` is the least snapshot of a running serializable transaction, or the largest timestamp. */
  ghost predicate IsSerialReadTs(txns: map<TxnId, Txn>, ts: int) {
    && (forall s :: s in txns && Live(txns[s]) && txns[s].isolation == Serializable ==> ts <= txns[s].readTs)
    && (ts == MAX_TIMESTAMP ||
        exists s :: s in txns && Live(txns[s]) && txns[s].isolation == Serializable && txns[s].readTs == ts)
  }

  method SerialReadTs(txns: map<TxnId, Txn>) returns (ts: int)
    requires forall t :: t in txns ==> txns[t].readTs <= MAX_TIMESTAMP
    ensures IsSerialReadTs(txns, ts)
  {
    ts := MAX_TIMESTAMP;
    var rest := txns.Keys;
    while rest != {}
      invariant rest <= txns.Keys
      invariant forall s :: s in txns && s !in rest && Live(txns[s]) && txns[s].isolation == Serializable ==>
                  ts <= txns[s].readTs
      invariant ts == MAX_TIMESTAMP ||
                exists s :: s in txns && Live(txns[s]) && txns[s].isolation == Serializable && txns[s].readTs == ts
    {
      ghost var some := Sets.Pick(rest);
      var s :| s in rest;
      rest := rest - {s};
      if txns[s].isolation == Serializable && Live(txns[s]) && txns[s].readTs < ts {
        ts := txns[s].readTs;
      }
    }
  }

  predicate Erasable(x: Txn, needed: bool, serialReadTs: int) {
    (x.state == Committed || x.state == Aborted) && !needed && (x.state != Committed || x.commitTs <= serialReadTs)
  }

  /** Walk the transaction map and erase what may go. */
  method EraseFinished(txns: map<TxnId, Txn>, needed: set<TxnId>, serialReadTs: int) returns (kept: map<TxnId, Txn>)
    ensures kept == map t | t in txns && !Erasable(txns[t], t in needed, serialReadTs) :: txns[t]
    ensures forall t :: t in kept <==>
      t in txns && (Live(txns[t]) || t in needed || (txns[t].state == Committed && txns[t].commitTs > serialReadTs))
  {
    kept := txns;
    var rest := txns.Keys;
    while rest != {}
      invariant rest <= txns.Keys
      invariant kept == map t | t in txns && (t in rest || !Erasable(txns[t], t in needed, serialReadTs)) :: txns[t]
    {
      ghost var some := Sets.Pick(rest);
      var t :| t in rest;
      rest := rest - {t};
      if Erasable(txns[t], t in needed, serialReadTs) {
        kept := kept - {t};
      }
    }
  }

  lemma ErasableIsCollectable(w: World, mark: int, t: TxnId, serialReadTs: int)
    requires t in w.txns && IsSerialReadTs(w.txns, serialReadTs)
    requires w.txns[t].state == Committed ==> w.txns[t].commitTs <= MAX_TIMESTAMP
    ensures Erasable(w.txns[t], t in NeededBy(w, mark), serialReadTs) <==> Collectable(w, mark, t)
  {
  }

  lemma CollectedState(w: World, mark: int, serialReadTs: int, kept: map<TxnId, Txn>)
    requires Reachable(w) && mark == WatermarkOf(w.running, w.last) && IsSerialReadTs(w.txns, serialReadTs)
    requires kept == map t | t in w.txns && !Erasable(w.txns[t], t in NeededBy(w, mark), serialReadTs) :: w.txns[t]
    ensures DoCollect(w).txns == kept
    ensures DoCollect(w).undo == map t | t in w.undo && t in kept :: w.undo[t]
  {
    ReachableInv(w);
    forall t | t in w.txns && w.txns[t].state == Committed
      ensures w.txns[t].commitTs <= MAX_TIMESTAMP
    {
      assert TxnOk(w, t);
    }
    KeptTxns(w, mark, serialReadTs, kept);
  }

  lemma KeptTxns(w: World, mark: int, serialReadTs: int, kept: map<TxnId, Txn>)
    requires mark == WatermarkOf(w.running, w.last) && IsSerialReadTs(w.txns, serialReadTs)
    requires forall t :: t in w.txns && w.txns[t].state == Committed ==> w.txns[t].commitTs <= MAX_TIMESTAMP
    requires kept == map t | t in w.txns && !Erasable(w.txns[t], t in NeededBy(w, mark), serialReadTs) :: w.txns[t]
    ensures DoCollect(w).txns == kept
    ensures DoCollect(w).undo == map t | t in w.undo && t in kept :: w.undo[t]
  {
    forall t | t in w.txns
      ensures Erasable(w.txns[t], t in NeededBy(w, mark), serialReadTs) <==> Collectable(w, mark, t)
    {
      ErasableIsCollectable(w, mark, t, serialReadTs);
    }
  }

  /** The facts about the state that a collection starts from. */
  lemma CollectionBounds(w: World)
    requires Reachable(w)
    ensures w.floor <= WatermarkOf(w.running, w.last)
    ensures forall t :: t in w.txns ==> w.txns[t].readTs <= MAX_TIMESTAMP
  {
    ReachableInv(w);
    WatermarkBounds(w);
    forall t | t in w.txns
      ensures w.txns[t].readTs <= MAX_TIMESTAMP
    {
      assert TxnOk(w, t);
    }
  }

  /** The commit record of a transaction that publishes the rows it has in `heap`. */
  ghost function RecordOf(t: TxnId, x: Txn, heap: map<Rid, Slot>): CommitRecord
    requires x.writes <= heap.Keys
  {
    CommitRecord(t, x.readTs, x.isolation, x.scans, map rid | rid in x.writes :: Content(heap[rid]))
  }

  /** Stamping changes timestamps only. */
  ghost predicate SameContents(a: map<Rid, Slot>, b: map<Rid, Slot>)
    requires a.Keys == b.Keys
  {
    forall rid :: rid in a ==> Content(a[rid]) == Content(b[rid])
  }

  lemma RecordPublished(w: World, t: TxnId, heap: map<Rid, Slot>)
    requires Enabled(w, Publish(t)) && w.undo.Keys == w.txns.Keys
    requires w.heap.Keys == heap.Keys && SameContents(w.heap, heap)
    ensures Next(w, Publish(t)).commits == w.commits + [RecordOf(t, w.txns[t], heap)]
  {
    assert RecordOf(t, w.txns[t], heap).images == map rid | rid in w.txns[t].writes :: Content(w.heap[rid]);
  }

  lemma PublishedState(w: World, t: TxnId)
    requires Enabled(w, Publish(t)) && w.undo.Keys == w.txns.Keys
    ensures var w', x := Next(w, Publish(t)), w.txns[t];
      w' == w.(txns := w.txns[t := x.(state := Committed, commitTs := w.last + 1, phase := Done)],
               last := w.last + 1, committer := None, running := RemoveRead(w.running, x.readTs),
               hist := w'.hist, commits := w'.commits)
  {
  }

  class TransactionManager {
    var heap: map<Rid, Slot>
    var undo: Buffers
    var txns: map<TxnId, Txn>
    var lastCommitTs: int
    var nextTxnId: TxnId
    const runningTxns: Watermark
    var commitHolder: Option<TxnId>
    ghost var hist: map<Rid, History>
    ghost var commits: seq<CommitRecord>
    ghost var floor: int

    ghost function State(): World
      reads this, runningTxns
    {
      World(heap, undo, txns, lastCommitTs, nextTxnId, runningTxns.currentReads, commitHolder, hist, commits, floor)
    }

    ghost predicate Valid()
      reads this, runningTxns
    {
      && runningTxns.Valid()
      && runningTxns.commitTs == lastCommitTs
      && undo.Keys == txns.Keys
      && Reachable(State())
    }

    constructor (rows: map<Rid, (Row, bool)>)
      ensures Valid() && Init(State()) && fresh(runningTxns)
      ensures heap == map rid | rid in rows :: Slot(0, rows[rid].1, rows[rid].0, NoLink)
    {
      heap := map rid | rid in rows :: Slot(0, rows[rid].1, rows[rid].0, NoLink);
      undo, txns := map[], map[];
      lastCommitTs, nextTxnId := 0, TXN_START_ID;
      runningTxns := new Watermark(0);
      commitHolder := None;
      hist := map rid | rid in rows :: [Version(0, if rows[rid].1 then None else Some(rows[rid].0), -1, 0)];
      commits, floor := [], 0;
      new;
      InitReachable(State());
    }

    method Begin(isolation: Isolation) returns (t: TxnId)
      requires Valid()
      modifies this, runningTxns
      ensures Valid() && t == old(nextTxnId)
      ensures State() == Next(old(State()), Mvcc.Begin(isolation))
      ensures t in txns && txns[t] == Txn(isolation, Running, lastCommitTs, -1, {}, [], Active)
    {
      ghost var w := State();
      StepReachable(w, Mvcc.Begin(isolation));
      t := nextTxnId;
      nextTxnId := nextTxnId + 1;
      var _ := runningTxns.AddTxn(lastCommitTs);
      txns := txns[t := Txn(isolation, Running, lastCommitTs, -1, {}, [], Active)];
      undo := undo[t := []];
      assert State() == Next(w, Mvcc.Begin(isolation));
    }

    method AppendScanPredicate(t: TxnId, scan: Scan)
      requires Valid() && Enabled(State(), RecordScan(t, scan))
      modifies this
      ensures Valid() && State() == Next(old(State()), RecordScan(t, scan))
      ensures t in txns && txns[t].scans == old(txns[t].scans) + [scan]
    {
      ghost var w := State();
      StepReachable(w, RecordScan(t, scan));
      txns := txns[t := txns[t].(scans := txns[t].scans + [scan])];
      assert State() == Next(w, RecordScan(t, scan));
    }

    /** Edit, delete or re-insert one row under its page latch. */
    method ModifyTuple(t: TxnId, rid: Rid, target: Option<Row>, requireDeleted: bool) returns (result: ModifyResult)
      requires Valid() && Enabled(State(), Modify(t, rid, target, requireDeleted))
      modifies this
      ensures Valid() && State() == Next(old(State()), Modify(t, rid, target, requireDeleted))
      ensures result.WriteConflict? <==> old(Conflicts(State(), t, rid, requireDeleted))
      ensures result.Modified? <==>
        old(MayEdit(State(), t, rid) && (requireDeleted ==> Visible(ReadBy(State(), t, rid)) == None))
      ensures result.Modified? ==> rid in heap && heap[rid].ts == t && Content(heap[rid]) == target
      ensures result.WriteConflict? ==> t in txns && txns[t].state == Tainted && heap == old(heap)
    {
      ghost var w := State();
      EditDecided(w, t, rid, target, requireDeleted);
      StepReachable(w, Modify(t, rid, target, requireDeleted));
      var v, x := heap[rid], txns[t];
      OwnLogReady(w, t, rid);
      var v', logs, x';
      v', logs, x', result := EditRow(v, undo[t], x, t, rid, target, requireDeleted);
      EditedState(w, t, rid, target, requireDeleted, v', logs, x');
      heap, undo, txns := heap[rid := v'], undo[t := logs], txns[t := x'];
      assert State() == w.(heap := w.heap[rid := v'], undo := w.undo[t := logs], txns := w.txns[t := x']);
    }

    /** A new row: `rid` is the slot the table heap has just handed out. */
    method InsertTuple(t: TxnId, rid: Rid, row: Row)
      requires Valid() && Enabled(State(), Insert(t, rid, row))
      modifies this
      ensures Valid() && State() == Next(old(State()), Insert(t, rid, row))
    {
      ghost var w, step := State(), Insert(t, rid, row);
      StepReachable(w, step);
      heap := heap[rid := Slot(t, false, row, NoLink)];
      txns := txns[t := txns[t].(writes := txns[t].writes + {rid})];
      hist := hist[rid := [Version(0, None, -1, 0)]];
      assert State() == Next(w, step);
    }

    /** The read path of the scans: copy the row and its link, collect undo logs, reconstruct. */
    method ReadTuple(t: TxnId, rid: Rid) returns (row: Option<Row>)
      requires Valid() && t in txns && Live(txns[t]) && rid in heap
      ensures row == Visible(ReadBy(State(), t, rid))
      ensures heap[rid].ts != t ==> row == SnapshotOf(State(), rid, txns[t].readTs)
    {
      ReadableBy(State(), t, rid);
      var base := heap[rid];
      if base.ts == t {
        row := ReconstructTuple(base.row, base.deleted, []);
        return;
      }
      var logs := CollectUndoLogs(undo, base, txns[t].readTs, floor, FullHistory(State(), rid));
      if logs.None? {
        return None;
      }
      row := ReconstructTuple(base.row, base.deleted, logs.value);
    }

    // ----- Commit ------------------------------------------------------------------------------------

    /** Take the commit mutex; a serializable writer finds out which rows it must check. */
    method StartCommit(t: TxnId)
      requires Valid() && Enabled(State(), Mvcc.StartCommit(t))
      modifies this
      ensures Valid() && State() == Next(old(State()), Mvcc.StartCommit(t))
    {
      ghost var w := State();
      StepReachable(w, Mvcc.StartCommit(t));
      var x := txns[t];
      commitHolder := Some(t);
      if x.isolation == Serializable && x.writes != {} {
        var changed := CollectChangedRows(txns, x);
        txns := txns[t := x.(phase := Verifying(changed))];
      } else {
        txns := txns[t := x.(phase := Stamping(x.writes))];
      }
      assert State() == Next(w, Mvcc.StartCommit(t));
    }

    method VerifyRow(t: TxnId, rid: Rid) returns (ok: bool)
      requires Valid() && Enabled(State(), Mvcc.VerifyRow(t, rid))
      modifies this
      ensures Valid() && State() == Next(old(State()), Mvcc.VerifyRow(t, rid))
      ensures ok <==> txns[t].phase.Verifying?
      ensures !ok ==> txns[t].phase == Aborting(txns[t].writes)
      ensures ok ==> txns[t].phase.todo == old(txns[t].phase.todo) - {rid}
      ensures heap == old(heap) && undo == old(undo) && hist == old(hist) && commits == old(commits)
      ensures lastCommitTs == old(lastCommitTs) && t in txns && txns[t] == old(txns[t]).(phase := txns[t].phase)
      ensures ok ==> commitHolder == old(commitHolder)
    {
      ghost var w := State();
      StepReachable(w, Mvcc.VerifyRow(t, rid));
      var x := txns[t];
      InsideBounds(w, t);
      ok := RowUnchanged(undo, heap[rid], x.readTs, Query(x.scans, rid.table), floor, FullHistory(w, rid));
      if ok {
        txns := txns[t := x.(phase := Verifying(x.phase.todo - {rid}))];
      } else {
        txns := txns[t := x.(phase := Aborting(x.writes))];
        commitHolder := None;
      }
      assert State() == Next(w, Mvcc.VerifyRow(t, rid));
    }

    method FinishVerify(t: TxnId)
      requires Valid() && Enabled(State(), Mvcc.FinishVerify(t))
      modifies this
      ensures Valid() && State() == Next(old(State()), Mvcc.FinishVerify(t))
    {
      ghost var w := State();
      StepReachable(w, Mvcc.FinishVerify(t));
      txns := txns[t := txns[t].(phase := Stamping(txns[t].writes))];
      assert State() == Next(w, Mvcc.FinishVerify(t));
    }

    method StampRow(t: TxnId, rid: Rid)
      requires Valid() && Enabled(State(), Mvcc.StampRow(t, rid))
      modifies this
      ensures Valid() && State() == Next(old(State()), Mvcc.StampRow(t, rid))
      ensures t in txns && txns[t] == old(txns[t]).(phase := Stamping(old(txns[t].phase.todo) - {rid}))
      ensures commits == old(commits) && lastCommitTs == old(lastCommitTs)
      ensures heap.Keys == old(heap.Keys) && SameContents(heap, old(heap))
    {
      ghost var w := State();
      StepReachable(w, Mvcc.StampRow(t, rid));
      var v, x := heap[rid], txns[t];
      if v.ts == t {
        heap := heap[rid := v.(ts := lastCommitTs + 1)];
      }
      txns := txns[t := x.(phase := Stamping(x.phase.todo - {rid}))];
      assert State() == Next(w, Mvcc.StampRow(t, rid));
    }

    method Publish(t: TxnId)
      requires Valid() && Enabled(State(), Mvcc.Publish(t))
      modifies this, runningTxns
      ensures Valid() && State() == Next(old(State()), Mvcc.Publish(t))
    {
      ghost var w := State();
      StepReachable(w, Mvcc.Publish(t));
      var x := txns[t];
      var commitTs := lastCommitTs + 1;
      runningTxns.UpdateCommitTs(commitTs);
      runningTxns.RemoveTxn(x.readTs);
      PublishedState(w, t);
      ghost var w' := Next(w, Mvcc.Publish(t));
      txns, lastCommitTs, commitHolder, hist, commits :=
        txns[t := x.(state := Committed, commitTs := commitTs, phase := Done)], commitTs, None, w'.hist, w'.commits;
      assert State() == w';
    }

    // ----- Abort ---------------------------------------------------------------------------------------

    method StartAbort(t: TxnId)
      requires Valid() && Enabled(State(), Mvcc.StartAbort(t))
      modifies this
      ensures Valid() && State() == Next(old(State()), Mvcc.StartAbort(t))
    {
      ghost var w := State();
      StepReachable(w, Mvcc.StartAbort(t));
      txns := txns[t := txns[t].(phase := Aborting(txns[t].writes))];
      assert State() == Next(w, Mvcc.StartAbort(t));
    }

    method AbortRow(t: TxnId, rid: Rid)
      requires Valid() && Enabled(State(), Mvcc.AbortRow(t, rid))
      modifies this
      ensures Valid() && State() == Next(old(State()), Mvcc.AbortRow(t, rid))
    {
      ghost var w := State();
      StepReachable(w, Mvcc.AbortRow(t, rid));
      var v, x := heap[rid], txns[t];
      if v.ts == t {
        if v.link.Link? {
          OwnLogFits(w, t, rid);
        }
        var back := TakeBack(undo, t, v);
        heap := heap[rid := back];
      }
      txns := txns[t := x.(phase := Aborting(x.phase.todo - {rid}))];
      assert State() == Next(w, Mvcc.AbortRow(t, rid));
    }

    method FinishAbort(t: TxnId)
      requires Valid() && Enabled(State(), Mvcc.FinishAbort(t))
      modifies this, runningTxns
      ensures Valid() && State() == Next(old(State()), Mvcc.FinishAbort(t))
    {
      ghost var w := State();
      StepReachable(w, Mvcc.FinishAbort(t));
      var x := txns[t];
      txns := txns[t := x.(state := Aborted, phase := Done)];
      runningTxns.RemoveTxn(x.readTs);
      assert State() == Next(w, Mvcc.FinishAbort(t));
    }

    // ----- whole calls -----------------------------------------------------------------------------------

    /** The row loop and the last step of `Abort`. */
    method RollBack(t: TxnId) returns (ghost trace: seq<Step>)
      requires Valid() && t in txns && txns[t].phase.Aborting?
      modifies this, runningTxns
      ensures Valid() && IsRun(old(State()), trace) && State() == After(old(State()), trace)
      ensures t in txns && txns[t].state == Aborted
      ensures hist == old(hist) && commits == old(commits) && lastCommitTs == old(lastCommitTs)
    {
      ghost var start := State();
      trace := [];
      while txns[t].phase.todo != {}
        invariant Valid() && IsRun(start, trace) && State() == After(start, trace)
        invariant t in txns && txns[t].phase.Aborting?
        invariant hist == old(hist) && commits == old(commits) && lastCommitTs == old(lastCommitTs)
        decreases txns[t].phase.todo
      {
        InsideBounds(State(), t);
        ghost var some := Sets.Pick(txns[t].phase.todo);
        var rid :| rid in txns[t].phase.todo;
        RunAppend(start, trace, Mvcc.AbortRow(t, rid));
        trace := trace + [Mvcc.AbortRow(t, rid)];
        AbortRow(t, rid);
      }
      RunAppend(start, trace, Mvcc.FinishAbort(t));
      trace := trace + [Mvcc.FinishAbort(t)];
      FinishAbort(t);
    }

    /** Abort: nothing is published, and the transaction has left the running set. */
    method Abort(t: TxnId) returns (done: bool, ghost trace: seq<Step>)
      requires Valid() && IsActive(State(), t)
      modifies this, runningTxns
      ensures Valid() && IsRun(old(State()), trace) && State() == After(old(State()), trace)
      ensures done <==> old(Live(txns[t]))
      ensures done ==> t in txns && txns[t].state == Aborted
      ensures hist == old(hist) && commits == old(commits) && lastCommitTs == old(lastCommitTs)
    {
      trace := [];
      if txns[t].state != Running && txns[t].state != Tainted {
        return false, trace;
      }
      ghost var start := State();
      StartAbort(t);
      ghost var rest := RollBack(t);
      trace := [Mvcc.StartAbort(t)] + rest;
      assert trace[1..] == rest;
      return true, trace;
    }

    /** Validation: every changed row of a scanned table is walked; the first bad one turns into an abort. */
    method VerifyTxn(t: TxnId) returns (ok: bool, ghost trace: seq<Step>)
      requires Valid() && t in txns && txns[t].phase.Verifying?
      modifies this
      ensures Valid() && IsRun(old(State()), trace) && State() == After(old(State()), trace)
      ensures heap == old(heap) && undo == old(undo) && hist == old(hist) && commits == old(commits)
      ensures lastCommitTs == old(lastCommitTs) && t in txns
      ensures ok ==> txns[t] == old(txns[t]).(phase := Verifying({})) && commitHolder == old(commitHolder)
      ensures !ok ==> txns[t] == old(txns[t]).(phase := Aborting(old(txns[t].writes)))
      ensures ok <==> forall rid :: rid in old(txns[t].phase.todo) ==> old(PassesScans(txns[t], rid))
      ensures ok <==> forall rid :: rid in old(txns[t].phase.todo) ==> !RowDisturbed(old(State()), old(txns[t]), rid)
    {
      ghost var start, todo := State(), txns[t].phase.todo;
      VerdictsDecided(start, t);
      ghost var x := txns[t];
      trace := [];
      InsideBounds(start, t);
      while txns[t].phase.todo != {}
        invariant Valid() && IsRun(start, trace) && State() == After(start, trace)
        invariant heap == start.heap && undo == start.undo && hist == start.hist && commits == start.commits
        invariant lastCommitTs == start.last && commitHolder == start.committer
        invariant t in txns && txns[t].phase.Verifying? && txns[t] == x.(phase := txns[t].phase)
        invariant txns[t].phase.todo <= todo
        invariant forall rid :: rid in todo && rid !in txns[t].phase.todo ==>
                    rid in heap && Unchanged(undo, heap[rid], x.readTs, Query(x.scans, rid.table))
        decreases txns[t].phase.todo
      {
        ghost var some := Sets.Pick(txns[t].phase.todo);
        var rid :| rid in txns[t].phase.todo;
        RunAppend(start, trace, Mvcc.VerifyRow(t, rid));
        trace := trace + [Mvcc.VerifyRow(t, rid)];
        ok := VerifyRow(t, rid);
        if !ok {
          return;
        }
      }
      ok := true;
    }

    ghost predicate PassesScans(x: Txn, rid: Rid)
      reads this
    {
      rid in heap && Unchanged(undo, heap[rid], x.readTs, Query(x.scans, rid.table))
    }

    /** Give every written row the commit timestamp, then publish. */
    method StampAndPublish(t: TxnId) returns (ghost trace: seq<Step>)
      requires Valid() && t in txns && txns[t].phase == Stamping(txns[t].writes)
      modifies this, runningTxns
      ensures Valid() && IsRun(old(State()), trace) && State() == After(old(State()), trace)
      ensures t in txns && txns[t].state == Committed && lastCommitTs == old(lastCommitTs) + 1
      ensures old(txns[t].writes <= heap.Keys)
      ensures commits == old(commits + [RecordOf(t, txns[t], heap)])
    {
      ghost var start := State();
      InsideBounds(start, t);
      trace := StampRows(t);
      RunAppend(start, trace, Mvcc.Publish(t));
      trace := trace + [Mvcc.Publish(t)];
      RecordPublished(State(), t, start.heap);
      Publish(t);
    }

    /** Every row of the write set gets the commit timestamp. */
    method StampRows(t: TxnId) returns (ghost trace: seq<Step>)
      requires Valid() && t in txns && txns[t].phase.Stamping?
      modifies this
      ensures Valid() && IsRun(old(State()), trace) && State() == After(old(State()), trace)
      ensures t in txns && txns[t] == old(txns[t]).(phase := Stamping({})) && txns[t].writes <= heap.Keys
      ensures commits == old(commits) && lastCommitTs == old(lastCommitTs)
      ensures heap.Keys == old(heap.Keys) && SameContents(heap, old(heap))
    {
      ghost var start, x := State(), txns[t];
      trace := [];
      InsideBounds(start, t);
      while txns[t].phase.todo != {}
        invariant Valid() && IsRun(start, trace) && State() == After(start, trace)
        invariant t in txns && txns[t].phase.Stamping? && txns[t] == x.(phase := txns[t].phase)
        invariant commits == start.commits && lastCommitTs == start.last
        invariant heap.Keys == start.heap.Keys && SameContents(heap, start.heap)
        decreases txns[t].phase.todo
      {
        InsideBounds(State(), t);
        ghost var some := Sets.Pick(txns[t].phase.todo);
        var rid :| rid in txns[t].phase.todo;
        RunAppend(start, trace, Mvcc.StampRow(t, rid));
        trace := trace + [Mvcc.StampRow(t, rid)];
        StampRow(t, rid);
      }
    }

    /**
     * Commit. A transaction that is not running is refused. A serializable writer whose validation
     * fails is aborted; anybody else's writes are published whole, as the next commit.
     */
    method Commit(t: TxnId) returns (result: CommitResult, ghost trace: seq<Step>)
      requires Valid() && IsActive(State(), t) && commitHolder == None && lastCommitTs + 1 < TXN_START_ID
      modifies this, runningTxns
      ensures Valid() && IsRun(old(State()), trace) && State() == After(old(State()), trace)
      ensures result.NotRunning? <==> old(txns[t].state) != Running
      ensures result.NotRunning? ==> State() == old(State())
      ensures result.CommitDone? ==>
        && t in txns && txns[t].state == Committed && lastCommitTs == old(lastCommitTs) + 1
        && old(txns[t].writes <= heap.Keys) && commits == old(commits + [RecordOf(t, txns[t], heap)])
      ensures result.ValidationFailed? ==>
        t in txns && txns[t].state == Aborted && hist == old(hist) && commits == old(commits)
      ensures result.ValidationFailed? <==>
        && old(txns[t].state) == Running && old(txns[t].isolation) == Serializable && old(txns[t].writes) != {}
        && exists rid :: rid in old(ChangedRows(txns, txns[t])) && !old(PassesScans(txns[t], rid))
      ensures result.ValidationFailed? <==>
        && old(txns[t].state) == Running && old(txns[t].isolation) == Serializable && old(txns[t].writes) != {}
        && exists rid :: RowDisturbed(old(State()), old(txns[t]), rid)
    {
      trace := [];
      if txns[t].state != Running {
        return NotRunning, trace;
      }
      ghost var start := State();
      if txns[t].isolation == Serializable { CommitDecided(start, t); }
      StartCommit(t);
      RunOne(start, Mvcc.StartCommit(t));
      ghost var one, two, three := [Mvcc.StartCommit(t)], [], [];
      if txns[t].phase.Verifying? {
        var ok;
        ok, two := Validate(t);
        RunConcat(start, one, two);
        if !ok {
          return ValidationFailed, one + two;
        }
      } else {
        assert one + two == one;
      }
      three := StampAndPublish(t);
      RunConcat(start, one + two, three);
      return CommitDone, one + two + three;
    }

    /** Check the rows; abort when one fails, else go on to stamping. */
    method Validate(t: TxnId) returns (ok: bool, ghost trace: seq<Step>)
      requires Valid() && t in txns && txns[t].phase.Verifying?
      modifies this, runningTxns
      ensures Valid() && IsRun(old(State()), trace) && State() == After(old(State()), trace)
      ensures hist == old(hist) && commits == old(commits) && lastCommitTs == old(lastCommitTs) && t in txns
      ensures ok ==> heap == old(heap) && txns[t] == old(txns[t]).(phase := Stamping(old(txns[t].writes)))
      ensures !ok ==> txns[t].state == Aborted
      ensures ok <==> forall rid :: rid in old(txns[t].phase.todo) ==> old(PassesScans(txns[t], rid))
    {
      ghost var start := State();
      ok, trace := VerifyTxn(t);
      if !ok {
        ghost var rest := RollBack(t);
        RunConcat(start, trace, rest);
        trace := trace + rest;
        return;
      }
      RunAppend(start, trace, Mvcc.FinishVerify(t));
      trace := trace + [Mvcc.FinishVerify(t)];
      FinishVerify(t);
    }

    /** Stop-the-world collection: no undo log that a reader may still need is dropped. */
    method GarbageCollection()
      requires Valid() && Enabled(State(), Collect)
      modifies this
      ensures Valid() && State() == Next(old(State()), Collect)
    {
      ghost var w := State();
      StepReachable(w, Collect);
      CollectionBounds(w);
      var mark := runningTxns.GetWatermark();
      var needed := CollectNeeded(heap, undo, mark, w);
      var serialReadTs := SerialReadTs(txns);
      var kept := EraseFinished(txns, needed, serialReadTs);
      CollectedState(w, mark, serialReadTs, kept);
      txns := kept;
      undo := map t | t in undo && t in kept :: undo[t];
      floor := mark;
      assert State() == Next(w, Collect);
    }
  }
}
