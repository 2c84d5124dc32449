/** The invariant holds in every state of every run. */
module MvccRuns {
  import opened Sql
  import opened Chain
  import opened Mvcc
  import opened MvccInv
  import opened MvccSerial

  /** Steps that begin, create and publish nothing. */
  predicate Quiet(step: Step) {
    step.RecordScan? || step.Modify? || step.StampRow? || step.StartAbort? || step.AbortRow? || step.FinishAbort?
  }

  lemma QuietSpec(w: World, step: Step)
    requires w.undo.Keys == w.txns.Keys && Enabled(w, step) && Quiet(step)
    ensures SameSpec(w, Next(w, step))
  {
  }

  lemma QuietWitnesses(w: World, step: Step)
    requires w.undo.Keys == w.txns.Keys && Enabled(w, step) && Quiet(step) && TxnOk(w, step.t)
    ensures WitnessesStay(w, Next(w, step))
  {
    QuietRecord(w, step);
  }

  lemma QuietRecord(w: World, step: Step)
    requires w.undo.Keys == w.txns.Keys && Enabled(w, step) && Quiet(step) && TxnOk(w, step.t)
    ensures var t, w' := step.t, Next(w, step);
      && t in w.txns && t in w'.txns && w'.txns == w.txns[t := w'.txns[t]] && w.txns[t].state != Committed
      && w'.txns[t].isolation == w.txns[t].isolation && w'.txns[t].readTs == w.txns[t].readTs
      && (Live(w'.txns[t]) ==> Live(w.txns[t]))
  {
  }

  lemma QuietCommitter(w: World, step: Step)
    requires w.undo.Keys == w.txns.Keys && Enabled(w, step) && Quiet(step) && TxnOk(w, step.t)
    ensures CommitterStays(w, Next(w, step))
  {
  }

  lemma QuietRest(w: World, step: Step)
    requires Inv(w) && Enabled(w, step) && Quiet(step)
    ensures Rest(Next(w, step))
  {
    assert TxnOk(w, step.t);
    QuietSpec(w, step);
    QuietWitnesses(w, step);
    QuietCommitter(w, step);
    RestFrame(w, Next(w, step));
  }

  lemma RestFrame(w: World, w': World)
    requires Rest(w) && SameSpec(w, w') && WitnessesStay(w, w') && CommitterStays(w, w')
    ensures Rest(w')
  {
    SameSpecCommits(w, w');
    WitnessesFrame(w, w');
    ValidationFrame(w, w');
  }

  ghost predicate Rest(w: World) {
    && WitnessesOk(w)
    && ValidationOk(w)
    && CommitsOk(w)
    && CertificatesOk(w)
  }

  lemma BeginRest(w: World, isolation: Isolation)
    requires Inv(w)
    ensures Rest(DoBegin(w, isolation))
  {
    assert w.next !in w.txns;
    SameSpecCommits(w, DoBegin(w, isolation));
    BeginWitnesses(w, isolation);
    ValidationFrame(w, DoBegin(w, isolation));
  }

  lemma InsertRest(w: World, t: TxnId, rid: Rid, row: Row)
    requires Inv(w) && Enabled(w, Insert(t, rid, row))
    ensures Rest(DoInsert(w, t, rid, row))
  {
    InsertWitnesses(w, t, rid, row);
    NewRowValidation(w, t, rid, row);
    InsertCommits(w, t, rid, row);
  }

  lemma StartCommitRest(w: World, t: TxnId)
    requires Inv(w) && Enabled(w, StartCommit(t))
    ensures Rest(DoStartCommit(w, t))
  {
    SameSpecCommits(w, DoStartCommit(w, t));
    WitnessesFrame(w, DoStartCommit(w, t));
    StartCommitValidation(w, t);
  }

  lemma VerifyRowStays(w: World, t: TxnId, rid: Rid)
    requires Enabled(w, VerifyRow(t, rid)) && TxnOk(w, t)
    ensures SameSpec(w, DoVerifyRow(w, t, rid)) && WitnessesStay(w, DoVerifyRow(w, t, rid))
  {
  }

  lemma VerifyRowRest(w: World, t: TxnId, rid: Rid)
    requires Inv(w) && Enabled(w, VerifyRow(t, rid))
    ensures Rest(DoVerifyRow(w, t, rid))
  {
    assert TxnOk(w, t);
    VerifyRowStays(w, t, rid);
    SameSpecCommits(w, DoVerifyRow(w, t, rid));
    WitnessesFrame(w, DoVerifyRow(w, t, rid));
    VerifyRowValidation(w, t, rid);
  }

  lemma FinishVerifyRest(w: World, t: TxnId)
    requires Inv(w) && Enabled(w, FinishVerify(t))
    ensures Rest(Next(w, FinishVerify(t)))
  {
    assert TxnOk(w, t);
    SameSpecCommits(w, Next(w, FinishVerify(t)));
    WitnessesFrame(w, Next(w, FinishVerify(t)));
    FinishVerifyValidation(w, t);
  }

  lemma PublishRest(w: World, t: TxnId)
    requires Inv(w) && Enabled(w, Publish(t))
    ensures Rest(DoPublish(w, t))
  {
    assert TxnOk(w, t);
    PublishWitnesses(w, t);
    PublishValidation(w, t);
    PublishCommits(w, t);
    PublishCertificates(w, t);
  }

  lemma CollectRest(w: World)
    requires Inv(w) && Enabled(w, Collect)
    ensures Rest(DoCollect(w))
  {
    SameSpecCommits(w, DoCollect(w));
    CollectWitnesses(w);
    ValidationFrame(w, DoCollect(w));
  }

  lemma StepRest(w: World, step: Step)
    requires Inv(w) && Enabled(w, step)
    ensures Rest(Next(w, step))
  {
    match step
    case Begin(isolation) => BeginRest(w, isolation);
    case Insert(t, rid, row) => InsertRest(w, t, rid, row);
    case StartCommit(t) => StartCommitRest(w, t);
    case VerifyRow(t, rid) => VerifyRowRest(w, t, rid);
    case FinishVerify(t) => FinishVerifyRest(w, t);
    case Publish(t) => PublishRest(w, t);
    case Collect => CollectRest(w);
    case _ => QuietRest(w, step);
  }

  /** Every step keeps the whole invariant. */
  lemma StepInv(w: World, step: Step)
    requires Inv(w) && Enabled(w, step)
    ensures Inv(Next(w, step))
  {
    StepCore(w, step);
    StepRunning(w, step);
    StepRest(w, step);
  }

  lemma InitInv(w: World)
    requires Init(w)
    ensures Inv(w)
  {
    forall rid | rid in w.heap
      ensures SlotOk(w, w.heap[rid], w.hist[rid]) && HistOk(w, w.hist[rid])
    {
    }
  }

  // ----- runs -----------------------------------------------------------------------------------------

  /** `steps` can be taken one after another from `w`. */
  ghost predicate IsRun(w: World, steps: seq<Step>)
    decreases |steps|
  {
    steps == [] ||
    (w.undo.Keys == w.txns.Keys && Enabled(w, steps[0]) && IsRun(Next(w, steps[0]), steps[1..]))
  }

  ghost function After(w: World, steps: seq<Step>): World
    requires IsRun(w, steps)
    decreases |steps|
  {
    if steps == [] then w else After(Next(w, steps[0]), steps[1..])
  }

  ghost predicate Reachable(w: World) {
    exists start, steps :: Init(start) && IsRun(start, steps) && After(start, steps) == w
  }

  lemma {:induction false} RunInv(w: World, steps: seq<Step>)
    requires Inv(w) && IsRun(w, steps)
    ensures Inv(After(w, steps))
    decreases |steps|
  {
    if steps != [] {
      StepInv(w, steps[0]);
      RunInv(Next(w, steps[0]), steps[1..]);
    }
  }

  lemma ReachableInv(w: World)
    requires Reachable(w)
    ensures Inv(w)
  {
    var start, steps :| Init(start) && IsRun(start, steps) && After(start, steps) == w;
    InitInv(start);
    RunInv(start, steps);
  }
}
