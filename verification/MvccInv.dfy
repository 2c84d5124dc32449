/** The rest of the invariant, and the theorem that every step keeps all of it. */
module MvccInv {
  import opened Sql
  import opened Chain
  import opened Watermarks
  import opened Mvcc
  import opened MvccCore
  import opened MvccEdit
  import opened MvccFinish

  // ----- Core ------------------------------------------------------------------------------------------

  lemma ModifyConflictFree(w: World, t: TxnId, rid: Rid, target: Option<Row>, requireDeleted: bool)
    requires t in w.txns && t in w.undo && rid in w.heap && (target.Some? ==> |target.value| == |w.heap[rid].row|)
    requires !Conflicts(w, t, rid, requireDeleted)
    ensures !Conflicts(w, t, rid, false)
    ensures DoModify(w, t, rid, target, requireDeleted) == DoModify(w, t, rid, target, false)
  {
  }

  lemma ModifyCore(w: World, t: TxnId, rid: Rid, target: Option<Row>, requireDeleted: bool)
    requires Core(w) && Enabled(w, Modify(t, rid, target, requireDeleted))
    ensures Core(Next(w, Modify(t, rid, target, requireDeleted)))
  {
    assert TxnOk(w, t) && StampOk(w, w.heap[rid].ts);
    if Conflicts(w, t, rid, requireDeleted) {
      TaintBooks(w, t);
      OnlyTxnCore(w, SetTxn(w, t, w.txns[t].(state := Tainted)), t);
    } else {
      ModifyConflictFree(w, t, rid, target, requireDeleted);
      ModifyBooks(w, t, rid, target);
      ModifyChains(w, t, rid, target);
    }
  }

  lemma InsertCore(w: World, t: TxnId, rid: Rid, row: Row)
    requires Core(w) && Enabled(w, Insert(t, rid, row))
    ensures Core(Next(w, Insert(t, rid, row)))
  {
    assert TxnOk(w, t);
    InsertBooks(w, t, rid, row);
    InsertChains(w, t, rid, row);
  }

  lemma StampRowCore(w: World, t: TxnId, rid: Rid)
    requires Core(w) && Enabled(w, StampRow(t, rid))
    ensures Core(Next(w, StampRow(t, rid)))
  {
    assert TxnOk(w, t);
    StampRowBooks(w, t, rid);
    StampRowChains(w, t, rid);
  }

  lemma AbortRowCore(w: World, t: TxnId, rid: Rid)
    requires Core(w) && Enabled(w, AbortRow(t, rid))
    ensures Core(Next(w, AbortRow(t, rid)))
  {
    AbortRowOwned(w, t, rid);
    RevertedSlot(w, t, rid);
    AbortRowBooks(w, t, rid);
    AbortRowChains(w, t, rid);
  }

  lemma PublishCore(w: World, t: TxnId)
    requires Core(w) && Enabled(w, Publish(t))
    ensures Core(Next(w, Publish(t)))
  {
    assert TxnOk(w, t);
    PublishBooks(w, t);
    PublishChains(w, t);
  }

  lemma CollectCore(w: World)
    requires Core(w) && RunningOk(w) && Enabled(w, Collect)
    ensures Core(Next(w, Collect))
  {
    CollectTxns(w);
    CollectOwns(w);
    CollectChains(w);
  }

  lemma RecordScanCore(w: World, t: TxnId, scan: Scan)
    requires Core(w) && Enabled(w, RecordScan(t, scan))
    ensures Core(Next(w, RecordScan(t, scan)))
  {
    assert TxnOk(w, t);
    RecordScanBooks(w, t, scan);
    OnlyTxnCore(w, Next(w, RecordScan(t, scan)), t);
  }

  lemma StartCommitCore(w: World, t: TxnId)
    requires Core(w) && Enabled(w, StartCommit(t))
    ensures Core(Next(w, StartCommit(t)))
  {
    assert TxnOk(w, t);
    StartCommitBooks(w, t);
    OnlyTxnCore(w, Next(w, StartCommit(t)), t);
  }

  lemma VerifyRowCore(w: World, t: TxnId, rid: Rid)
    requires Core(w) && Enabled(w, VerifyRow(t, rid))
    ensures Core(Next(w, VerifyRow(t, rid)))
  {
    VerifyRowBooks(w, t, rid);
    VerifyRowOnlyTxn(w, t, rid);
    OnlyTxnCore(w, Next(w, VerifyRow(t, rid)), t);
  }

  lemma VerifyRowOnlyTxn(w: World, t: TxnId, rid: Rid)
    requires Shape(w) && TxnsOk(w) && Enabled(w, VerifyRow(t, rid))
    ensures OnlyTxn(w, Next(w, VerifyRow(t, rid)), t)
  {
    assert TxnOk(w, t);
  }

  lemma FinishVerifyCore(w: World, t: TxnId)
    requires Core(w) && Enabled(w, FinishVerify(t))
    ensures Core(Next(w, FinishVerify(t)))
  {
    assert TxnOk(w, t);
    FinishVerifyBooks(w, t);
    OnlyTxnCore(w, Next(w, FinishVerify(t)), t);
  }

  lemma StartAbortCore(w: World, t: TxnId)
    requires Core(w) && Enabled(w, StartAbort(t))
    ensures Core(Next(w, StartAbort(t)))
  {
    assert TxnOk(w, t);
    StartAbortBooks(w, t);
    OnlyTxnCore(w, Next(w, StartAbort(t)), t);
  }

  lemma FinishAbortCore(w: World, t: TxnId)
    requires Core(w) && Enabled(w, FinishAbort(t))
    ensures Core(Next(w, FinishAbort(t)))
  {
    assert TxnOk(w, t);
    FinishAbortBooks(w, t);
    OnlyTxnCore(w, Next(w, FinishAbort(t)), t);
  }

  lemma StepCore(w: World, step: Step)
    requires Core(w) && RunningOk(w) && Enabled(w, step)
    ensures Core(Next(w, step))
  {
    match step
    case Begin(isolation) => BeginBooks(w, isolation); BeginChains(w, isolation);
    case Modify(t, rid, target, requireDeleted) => ModifyCore(w, t, rid, target, requireDeleted);
    case Insert(t, rid, row) => InsertCore(w, t, rid, row);
    case StampRow(t, rid) => StampRowCore(w, t, rid);
    case Publish(t) => PublishCore(w, t);
    case AbortRow(t, rid) => AbortRowCore(w, t, rid);
    case Collect => CollectCore(w);
    case RecordScan(t, scan) => RecordScanCore(w, t, scan);
    case StartCommit(t) => StartCommitCore(w, t);
    case VerifyRow(t, rid) => VerifyRowCore(w, t, rid);
    case FinishVerify(t) => FinishVerifyCore(w, t);
    case StartAbort(t) => StartAbortCore(w, t);
    case FinishAbort(t) => FinishAbortCore(w, t);
  }

  // ----- the watermark structure ---------------------------------------------------------------------

  /** Nobody starts or stops running. */
  ghost predicate SameRunning(w: World, w': World) {
    && w'.running == w.running
    && (forall t :: t in w.txns && Live(w.txns[t]) ==> t in w'.txns)
    && (forall t :: t in w'.txns ==> t in w.txns && w'.txns[t].readTs == w.txns[t].readTs
                                      && (Live(w'.txns[t]) <==> Live(w.txns[t])))
  }

  lemma SameRunningOk(w: World, w': World)
    requires RunningOk(w) && SameRunning(w, w')
    ensures RunningOk(w')
  {
    forall r
      ensures Readers(w'.txns, r) == Readers(w.txns, r)
    {
      assert forall t :: t in Readers(w'.txns, r) ==> t in Readers(w.txns, r);
      assert forall t :: t in Readers(w.txns, r) ==> t in Readers(w'.txns, r);
    }
  }

  lemma BeginRunning(w: World, isolation: Isolation)
    requires RunningOk(w) && w.next !in w.txns
    ensures RunningOk(DoBegin(w, isolation))
  {
    NewReader(w.txns, w.next, DoBegin(w, isolation).txns[w.next]);
    if w.last !in w.running {
      NoReaders(w, w.last);
    }
  }

  lemma NewReader(txns: map<TxnId, Txn>, t: TxnId, x: Txn)
    requires t !in txns && Live(x)
    ensures forall r :: r != x.readTs ==> Readers(txns[t := x], r) == Readers(txns, r)
    ensures |Readers(txns[t := x], x.readTs)| == |Readers(txns, x.readTs)| + 1
  {
    assert Readers(txns[t := x], x.readTs) == Readers(txns, x.readTs) + {t};
  }

  lemma NoReaders(w: World, r: int)
    requires RunningOk(w) && r !in w.running
    ensures Readers(w.txns, r) == {}
  {
    forall t
      ensures t !in Readers(w.txns, r)
    {
    }
    Sets.NoElements(Readers(w.txns, r));
  }

  lemma StopRunning(w: World, w': World, t: TxnId)
    requires RunningOk(w) && t in w.txns && t in w'.txns && Live(w.txns[t]) && !Live(w'.txns[t])
    requires w'.txns == w.txns[t := w'.txns[t]] && w'.running == RemoveRead(w.running, w.txns[t].readTs)
    ensures RunningOk(w')
  {
    var q := w.txns[t].readTs;
    forall r
      ensures r != q ==> Readers(w'.txns, r) == Readers(w.txns, r)
      ensures r == q ==> Readers(w'.txns, r) == Readers(w.txns, r) - {t}
    {
    }
    assert t in Readers(w.txns, q);
    forall s | s in w'.txns && Live(w'.txns[s])
      ensures w'.txns[s].readTs in w'.running
    {
      if w'.txns[s].readTs == q {
        assert s in Readers(w.txns, q) - {t};
        Sets.SubsetSize({s, t}, Readers(w.txns, q));
      }
    }
  }

  lemma StepRunning(w: World, step: Step)
    requires Books(w) && RunningOk(w) && Enabled(w, step)
    ensures RunningOk(Next(w, step))
  {
    match step
    case Begin(isolation) => BeginRunning(w, isolation);
    case Publish(t) => assert TxnOk(w, t); StopRunning(w, Next(w, step), t);
    case FinishAbort(t) => assert TxnOk(w, t); StopRunning(w, Next(w, step), t);
    case _ => OtherRunning(w, step);
  }

  lemma OtherRunning(w: World, step: Step)
    requires w.undo.Keys == w.txns.Keys && RunningOk(w) && Enabled(w, step)
    requires !step.Begin? && !step.Publish? && !step.FinishAbort?
    requires step.Modify? ==> Live(w.txns[step.t])
    ensures RunningOk(Next(w, step))
  {
    SameRunningOk(w, Next(w, step));
  }
}
