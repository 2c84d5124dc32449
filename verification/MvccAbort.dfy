/** Abort is a no-op: everybody else finds the database as if the aborted transaction had edited nothing. */
module MvccAbort {
  import opened Sql
  import opened Undo
  import opened Chain
  import opened Mvcc
  import opened MvccInv
  import opened MvccRuns
  import opened MvccTheorems
  import opened MvccErase
  import opened MvccEraseSteps

  // ----- the run without `t`'s work ----------------------------------------------------------------------------------

  /**
   * What is left of a step. Of `t`'s steps only its beginning and its end: begun, and aborted at once when the
   * run with its work has finished aborting it. Somebody who ran into an uncommitted row of `t` does not try.
   */
  ghost function EraseStep(w: World, step: Step, t: TxnId): seq<Step> {
    if step == FinishAbort(t) then [StartAbort(t), FinishAbort(t)]
    else if StepOf(step, t) || Collides(w, step, t) then []
    else [step]
  }

  /** Somebody else tries to edit a row that `t` has not released. */
  ghost predicate Collides(w: World, step: Step, t: TxnId) {
    step.Modify? && step.t != t && step.rid in w.heap && w.heap[step.rid].ts == t
  }

  ghost function Erased(w: World, steps: seq<Step>, t: TxnId): seq<Step>
    requires IsRun(w, steps)
    decreases |steps|
  {
    if steps == [] then [] else EraseStep(w, steps[0], t) + Erased(Next(w, steps[0]), steps[1..], t)
  }

  /** The slots `t` creates in a run, with their first bytes. */
  ghost function Created(steps: seq<Step>, t: TxnId): map<Rid, Row> {
    if steps == [] then map[]
    else if steps[0].Insert? && steps[0].t == t then Created(steps[1..], t)[steps[0].rid := steps[0].row]
    else Created(steps[1..], t)
  }

  /** The database with more empty slots in it. */
  ghost function WithSlots(w: World, d: map<Rid, Row>): World {
    w.(heap := w.heap + (map rid | rid in d :: Slot(0, true, d[rid], NoLink)),
       hist := w.hist + (map rid | rid in d :: [Version(0, None, -1, 0)]))
  }

  lemma {:induction false} CreatedFresh(w: World, steps: seq<Step>, t: TxnId)
    requires IsRun(w, steps)
    ensures w.heap.Keys !! Created(steps, t).Keys
    decreases |steps|
  {
    if steps != [] {
      CreatedFresh(Next(w, steps[0]), steps[1..], t);
      HeapKept(w, steps[0]);
    }
  }

  lemma HeapKept(w: World, step: Step)
    requires w.undo.Keys == w.txns.Keys && Enabled(w, step)
    ensures w.heap.Keys <= Next(w, step).heap.Keys
    ensures step.Insert? ==> step.rid in Next(w, step).heap && step.rid !in w.heap
  {
  }

  // ----- one step in both runs ---------------------------------------------------------------------------------------

  ghost function StillToCreate(d: map<Rid, Row>, step: Step, t: TxnId): map<Rid, Row> {
    if step.Insert? && step.t == t then d - {step.rid} else d
  }

  /** The slots that insertions take: those of `t` are in `d`, those of others are not. */
  ghost predicate SlotsPlanned(d: map<Rid, Row>, step: Step, t: TxnId) {
    step.Insert? ==> if step.t == t then step.rid in d && d[step.rid] == step.row else step.rid !in d
  }

  lemma OwnTaint(w: World, v: World, t: TxnId, d: map<Rid, Row>)
    requires Alike(w, v, t, d) && t in w.txns && w.txns[t].state == Running && w.undo.Keys == w.txns.Keys
    ensures Alike(SetTxn(w, t, w.txns[t].(state := Tainted)), v, t, d)
  {
    var w' := SetTxn(w, t, w.txns[t].(state := Tainted));
    SameRowsAlike(w, w', v, t, d);
    OwnStepTxns(w, w', v, t);
  }

  lemma OwnModifyAlike(
      w: World, v: World, t: TxnId, d: map<Rid, Row>, rid: Rid, target: Option<Row>, requireDeleted: bool)
    requires Chains(w) && Shape(w) && LinksDistinct(w) && Alike(w, v, t, d)
    requires Enabled(w, Modify(t, rid, target, requireDeleted))
    ensures Alike(Next(w, Modify(t, rid, target, requireDeleted)), v, t, d)
  {
    if Conflicts(w, t, rid, requireDeleted) {
      OwnTaint(w, v, t, d);
    } else {
      ModifyConflictFree(w, t, rid, target, requireDeleted);
      OwnEditAlike(w, v, t, d, rid, target);
    }
  }

  lemma OwnAbortAlike(w: World, v: World, t: TxnId, d: map<Rid, Row>, rid: Rid)
    requires Chains(w) && Shape(w) && OwnsOk(w) && Alike(w, v, t, d) && Enabled(w, AbortRow(t, rid))
    ensures Alike(Next(w, AbortRow(t, rid)), v, t, d)
  {
    assert Owns(w.txns[t], t, rid, w.heap[rid].ts, w.last);
    OwnAbortRowAlike(w, v, t, d, rid);
  }

  lemma OwnStepAlike(w: World, v: World, t: TxnId, d: map<Rid, Row>, step: Step)
    requires Chains(w) && Shape(w) && TxnsOk(w) && OwnsOk(w) && LinksDistinct(w) && Alike(w, v, t, d)
      && Enabled(w, step)
    requires StepOf(step, t) && step != FinishAbort(t)
    requires t >= TXN_START_ID && !IsStamping(w, t) && SlotsPlanned(d, step, t)
    ensures Alike(Next(w, step), v, t, StillToCreate(d, step, t))
  {
    if step.Modify? {
      OwnModifyAlike(w, v, t, d, step.rid, step.target, step.requireDeleted);
    } else if step.Insert? {
      OwnInsertAlike(w, v, t, d, step.rid, step.row);
    } else if step.AbortRow? {
      OwnAbortAlike(w, v, t, d, step.rid);
    } else {
      BookkeepingAlike(w, v, t, d, step);
    }
  }

  lemma OtherEditsAlike(w: World, v: World, t: TxnId, d: map<Rid, Row>, step: Step)
    requires Books(w) && Shape(v) && Alike(w, v, t, d) && Enabled(w, step) && !StepOf(step, t) && !Collides(w, step, t)
    requires (step.Modify? || step.Insert?) && t >= TXN_START_ID && SlotsPlanned(d, step, t)
    ensures Enabled(v, step) && Alike(Next(w, step), Next(v, step), t, d)
  {
    match step
    case Modify(s, rid, target, requireDeleted) => OtherModifyAlike(w, v, t, d, s, rid, target, requireDeleted);
    case Insert(s, rid, row) => OtherInsertAlike(w, v, t, d, s, rid, row);
  }

  /** Steps of others that do not look at chains. */
  lemma OtherPlainAlike(w: World, v: World, t: TxnId, d: map<Rid, Row>, step: Step)
    requires Books(w) && Books(v) && Alike(w, v, t, d) && Enabled(w, step) && !StepOf(step, t) && t >= TXN_START_ID
    requires step.Begin? || step.StartCommit? || step.StampRow? || step.Publish? || OtherBookkeeping(step)
    ensures Enabled(v, step) && Alike(Next(w, step), Next(v, step), t, d)
  {
    if step.Begin? {
      BeginAlike(w, v, t, d, step.isolation);
    } else if step.StartCommit? {
      StartCommitAlike(w, v, t, d, step.t);
    } else if step.StampRow? {
      OtherStampAlike(w, v, t, d, step.t, step.rid);
    } else if step.Publish? {
      OtherPublishAlike(w, v, t, d, step.t);
    } else {
      OtherBookkeepingAlike(w, v, t, d, step);
    }
  }

  lemma OtherStepAlike(w: World, v: World, t: TxnId, d: map<Rid, Row>, step: Step)
    requires Core(w) && RunningOk(w) && Core(v) && Alike(w, v, t, d) && Enabled(w, step)
    requires !StepOf(step, t) && !Collides(w, step, t)
    requires t >= TXN_START_ID && !IsStamping(w, t) && SlotsPlanned(d, step, t)
    ensures Enabled(v, step) && Alike(Next(w, step), Next(v, step), t, d)
  {
    if step.Modify? || step.Insert? {
      OtherEditsAlike(w, v, t, d, step);
    } else if step.VerifyRow? {
      OtherVerifyRowAlike(w, v, t, d, step.t, step.rid);
    } else if step.AbortRow? {
      OtherAbortRowAlike(w, v, t, d, step.t, step.rid);
    } else if step.Collect? {
      CollectAlike(w, v, t, d);
    } else {
      OtherPlainAlike(w, v, t, d, step);
    }
  }

  lemma OtherStepErased(w: World, v: World, t: TxnId, d: map<Rid, Row>, step: Step)
    requires w.undo.Keys == w.txns.Keys && v.undo.Keys == v.txns.Keys && Enabled(w, step) && Enabled(v, step)
    requires !StepOf(step, t) && !Collides(w, step, t) && Alike(Next(w, step), Next(v, step), t, d)
    ensures IsRun(v, EraseStep(w, step, t))
    ensures Alike(Next(w, step), After(v, EraseStep(w, step, t)), t, StillToCreate(d, step, t))
  {
    RunOfOne(v, step);
  }

  lemma NothingErased(w: World, v: World, t: TxnId, d: map<Rid, Row>, step: Step)
    requires w.undo.Keys == w.txns.Keys && Enabled(w, step) && step != FinishAbort(t)
    requires StepOf(step, t) || Collides(w, step, t)
    requires Alike(Next(w, step), v, t, StillToCreate(d, step, t))
    ensures IsRun(v, EraseStep(w, step, t))
    ensures Alike(Next(w, step), After(v, EraseStep(w, step, t)), t, StillToCreate(d, step, t))
  {
  }

  lemma FinishStepAlike(w: World, v: World, t: TxnId, d: map<Rid, Row>)
    requires Shape(w) && Shape(v) && TxnsOk(w) && OwnsOk(w) && Alike(w, v, t, d) && Enabled(w, FinishAbort(t))
    ensures IsRun(v, [StartAbort(t), FinishAbort(t)])
    ensures Alike(Next(w, FinishAbort(t)), After(v, [StartAbort(t), FinishAbort(t)]), t, d)
  {
    OwnFinishAlike(w, v, t, d);
    RunOfTwo(v, StartAbort(t), FinishAbort(t));
  }

  lemma OwnSide(w: World, v: World, t: TxnId, d: map<Rid, Row>, step: Step)
    requires Chains(w) && Shape(w) && TxnsOk(w) && OwnsOk(w) && LinksDistinct(w) && Shape(v)
    requires Alike(w, v, t, d) && Enabled(w, step) && StepOf(step, t)
    requires t >= TXN_START_ID && !IsStamping(w, t) && SlotsPlanned(d, step, t)
    ensures IsRun(v, EraseStep(w, step, t))
    ensures Alike(Next(w, step), After(v, EraseStep(w, step, t)), t, StillToCreate(d, step, t))
  {
    if step == FinishAbort(t) {
      FinishStepAlike(w, v, t, d);
    } else {
      OwnStepAlike(w, v, t, d, step);
      NothingErased(w, v, t, d, step);
    }
  }

  lemma CollidingSide(w: World, v: World, t: TxnId, d: map<Rid, Row>, step: Step)
    requires Shape(w) && Shape(v) && TxnsOk(w) && Alike(w, v, t, d) && t >= TXN_START_ID
    requires Enabled(w, step) && Collides(w, step, t)
    ensures IsRun(v, EraseStep(w, step, t))
    ensures Alike(Next(w, step), After(v, EraseStep(w, step, t)), t, StillToCreate(d, step, t))
  {
    CollisionAlike(w, v, t, d, step.t, step.rid, step.target, step.requireDeleted);
    NothingErased(w, v, t, d, step);
  }

  lemma OtherSide(w: World, v: World, t: TxnId, d: map<Rid, Row>, step: Step)
    requires Core(w) && RunningOk(w) && Core(v) && Alike(w, v, t, d) && Enabled(w, step)
    requires !StepOf(step, t) && !Collides(w, step, t)
    requires t >= TXN_START_ID && !IsStamping(w, t) && SlotsPlanned(d, step, t)
    ensures IsRun(v, EraseStep(w, step, t))
    ensures Alike(Next(w, step), After(v, EraseStep(w, step, t)), t, StillToCreate(d, step, t))
  {
    OtherStepAlike(w, v, t, d, step);
    OtherStepErased(w, v, t, d, step);
  }

  lemma StepAlike(w: World, v: World, t: TxnId, d: map<Rid, Row>, step: Step)
    requires Core(w) && RunningOk(w) && Core(v) && Alike(w, v, t, d) && Enabled(w, step)
    requires t >= TXN_START_ID && !IsStamping(w, t) && SlotsPlanned(d, step, t)
    ensures IsRun(v, EraseStep(w, step, t))
    ensures Alike(Next(w, step), After(v, EraseStep(w, step, t)), t, StillToCreate(d, step, t))
  {
    if StepOf(step, t) {
      OwnSide(w, v, t, d, step);
    } else if Collides(w, step, t) {
      CollidingSide(w, v, t, d, step);
    } else {
      OtherSide(w, v, t, d, step);
    }
  }

  lemma RunOfOne(w: World, step: Step)
    requires w.undo.Keys == w.txns.Keys && Enabled(w, step)
    ensures IsRun(w, [step]) && After(w, [step]) == Next(w, step)
  {
    assert [step][1..] == [];
    assert IsRun(Next(w, step), []) && After(Next(w, step), []) == Next(w, step);
  }

  lemma RunOfTwo(w: World, first: Step, second: Step)
    requires w.undo.Keys == w.txns.Keys && Enabled(w, first)
    requires Next(w, first).undo.Keys == Next(w, first).txns.Keys && Enabled(Next(w, first), second)
    ensures IsRun(w, [first, second]) && After(w, [first, second]) == Next(Next(w, first), second)
  {
    assert [first, second][1..] == [second];
    RunOfOne(Next(w, first), second);
  }

  // ----- whole runs --------------------------------------------------------------------------------------------------

  ghost predicate NeverStamps(w: World, steps: seq<Step>, t: TxnId)
    requires IsRun(w, steps)
    decreases |steps|
  {
    !IsStamping(w, t) && (steps == [] || NeverStamps(Next(w, steps[0]), steps[1..], t))
  }

  lemma {:induction false} RunsConcat(w: World, a: seq<Step>, b: seq<Step>)
    requires IsRun(w, a) && IsRun(After(w, a), b)
    ensures IsRun(w, a + b) && After(w, a + b) == After(After(w, a), b)
    decreases |a|
  {
    if a == [] {
      assert a + b == b;
    } else {
      assert (a + b)[1..] == a[1..] + b;
      RunsConcat(Next(w, a[0]), a[1..], b);
    }
  }

  lemma CreatedStep(w: World, steps: seq<Step>, t: TxnId)
    requires IsRun(w, steps) && steps != []
    ensures SlotsPlanned(Created(steps, t), steps[0], t)
    ensures Created(steps[1..], t) == StillToCreate(Created(steps, t), steps[0], t)
  {
    HeapKept(w, steps[0]);
    CreatedFresh(Next(w, steps[0]), steps[1..], t);
  }

  lemma {:induction false} RunAlike(w: World, v: World, steps: seq<Step>, t: TxnId)
    requires Inv(w) && Inv(v) && IsRun(w, steps) && Alike(w, v, t, Created(steps, t))
    requires t >= TXN_START_ID && NeverStamps(w, steps, t)
    ensures IsRun(v, Erased(w, steps, t))
    ensures Inv(After(w, steps)) && Inv(After(v, Erased(w, steps, t)))
    ensures Alike(After(w, steps), After(v, Erased(w, steps, t)), t, map[])
    decreases |steps|
  {
    if steps != [] {
      var first := EraseStep(w, steps[0], t);
      CreatedStep(w, steps, t);
      StepAlike(w, v, t, Created(steps, t), steps[0]);
      StepInv(w, steps[0]);
      RunInv(v, first);
      RunAlike(Next(w, steps[0]), After(v, first), steps[1..], t);
      RunsConcat(v, first, Erased(Next(w, steps[0]), steps[1..], t));
    }
  }

  // ----- a transaction that aborts never stamps ----------------------------------------------------------------------

  /** Too late to abort: stamping, committed, or committed and collected. */
  ghost predicate Gone(w: World, t: TxnId) {
    t < w.next && (t in w.txns ==> w.txns[t].phase.Stamping? || w.txns[t].state == Committed)
  }

  /** Aborted, or aborted and collected. */
  ghost predicate Past(w: World, t: TxnId) {
    t < w.next && (t in w.txns ==> w.txns[t].state == Aborted)
  }

  lemma GoneStays(w: World, step: Step, t: TxnId)
    requires Shape(w) && TxnsOk(w) && Enabled(w, step) && Gone(w, t)
    ensures Gone(Next(w, step), t) && step != FinishAbort(t)
  {
    if t in w.txns { assert TxnOk(w, t); }
  }

  lemma PastStays(w: World, step: Step, t: TxnId)
    requires Shape(w) && TxnsOk(w) && Enabled(w, step) && (Past(w, t) || step == FinishAbort(t))
    ensures Past(Next(w, step), t)
  {
    if t in w.txns { assert TxnOk(w, t); }
  }

  lemma {:induction false} GoneNeverAborts(w: World, steps: seq<Step>, t: TxnId)
    requires Inv(w) && IsRun(w, steps) && Gone(w, t)
    ensures FinishAbort(t) !in steps
    decreases |steps|
  {
    if steps != [] {
      StepInv(w, steps[0]);
      GoneStays(w, steps[0], t);
      GoneNeverAborts(Next(w, steps[0]), steps[1..], t);
    }
  }

  lemma {:induction false} AbortedNeverStamps(w: World, steps: seq<Step>, t: TxnId)
    requires Inv(w) && IsRun(w, steps) && (FinishAbort(t) in steps || Past(w, t))
    ensures NeverStamps(w, steps, t)
    decreases |steps|
  {
    if IsStamping(w, t) {
      assert TxnOk(w, t);
      GoneNeverAborts(w, steps, t);
    }
    if steps != [] {
      StepInv(w, steps[0]);
      if Past(w, t) || steps[0] == FinishAbort(t) { PastStays(w, steps[0], t); }
      AbortedNeverStamps(Next(w, steps[0]), steps[1..], t);
    }
  }

  lemma {:induction false} AborterBegan(w: World, steps: seq<Step>, t: TxnId)
    requires Inv(w) && IsRun(w, steps) && FinishAbort(t) in steps
    ensures t >= TXN_START_ID
    decreases |steps|
  {
    if steps[0] != FinishAbort(t) {
      StepInv(w, steps[0]);
      AborterBegan(Next(w, steps[0]), steps[1..], t);
    }
  }

  // ----- the theorem -------------------------------------------------------------------------------------------------

  lemma InitAlike(start: World, d: map<Rid, Row>, t: TxnId)
    requires Init(start) && start.heap.Keys !! d.Keys && t >= TXN_START_ID
    ensures Init(WithSlots(start, d)) && Alike(start, WithSlots(start, d), t, d)
  {
    var v := WithSlots(start, d);
    forall rid | rid in start.heap
      ensures RowAlike(start, v, t, rid)
    {
    }
    forall rid | rid in d
      ensures Waiting(v, rid, d[rid])
    {
    }
  }

  lemma SameViews(w: World, v: World, t: TxnId, s: TxnId, rid: Rid)
    requires Inv(w) && Inv(v) && Alike(w, v, t, map[]) && s != t && LiveIn(w, s) && rid in w.heap && t >= TXN_START_ID
    ensures LiveIn(v, s) && rid in v.heap && Visible(ReadBy(v, s, rid)) == Visible(ReadBy(w, s, rid))
  {
    assert OtherAlike(w, v, s) && RowAlike(w, v, t, rid) && TxnOk(w, s);
    SnapshotRead(w, s, rid);
    SnapshotRead(v, s, rid);
    if w.heap[rid].ts == t {
      OwnerInMap(w, t);
      UnderCommitted(w, t, rid);
    }
  }

  /** None of `t`'s edits are left. */
  lemma {:induction false} NothingLeft(w: World, steps: seq<Step>, t: TxnId)
    requires IsRun(w, steps)
    ensures forall step :: step in Erased(w, steps, t) && StepOf(step, t) ==>
              step == StartAbort(t) || step == FinishAbort(t)
    decreases |steps|
  {
    if steps != [] {
      NothingLeft(Next(w, steps[0]), steps[1..], t);
    }
  }

  /**
   * To everybody but `t` the two states are the same: commits, histories, their own records (but for the taint of
   * having run into a row of `t`), and what each running transaction sees of every row.
   */
  ghost predicate SameToOthers(a: World, b: World, t: TxnId) {
    && b.last == a.last && b.commits == a.commits && b.hist == a.hist
    && (forall s :: s != t ==> OtherAlike(a, b, s))
    && (forall s, rid :: s != t && LiveIn(a, s) && rid in a.heap ==>
          LiveIn(b, s) && rid in b.heap && Visible(ReadBy(b, s, rid)) == Visible(ReadBy(a, s, rid)))
  }

  lemma AlikeToOthers(a: World, b: World, t: TxnId)
    requires Inv(a) && Inv(b) && Alike(a, b, t, map[]) && t >= TXN_START_ID
    ensures SameToOthers(a, b, t)
  {
    SameHistories(a, b, t);
    forall s, rid | s != t && LiveIn(a, s) && rid in a.heap
      ensures LiveIn(b, s) && rid in b.heap && Visible(ReadBy(b, s, rid)) == Visible(ReadBy(a, s, rid))
    {
      SameViews(a, b, t, s, rid);
    }
  }

  /**
   * A run in which `t` aborts, against the same run without `t`'s work, from the same database with the slots `t`
   * would have created standing empty: the states at the end are the same to everybody else.
   */
  lemma AbortIsNoOp(start: World, steps: seq<Step>, t: TxnId)
    requires Init(start) && IsRun(start, steps) && FinishAbort(t) in steps
    ensures var other, without := WithSlots(start, Created(steps, t)), Erased(start, steps, t);
      && Init(other) && IsRun(other, without)
      && (forall step :: step in without && StepOf(step, t) ==> step == StartAbort(t) || step == FinishAbort(t))
      && SameToOthers(After(start, steps), After(other, without), t)
  {
    InitInv(start);
    AborterBegan(start, steps, t);
    CreatedFresh(start, steps, t);
    InitAlike(start, Created(steps, t), t);
    var other := WithSlots(start, Created(steps, t));
    InitInv(other);
    AbortedNeverStamps(start, steps, t);
    RunAlike(start, other, steps, t);
    NothingLeft(start, steps, t);
    AlikeToOthers(After(start, steps), After(other, Erased(start, steps, t)), t);
  }

  lemma SameHistories(a: World, b: World, t: TxnId)
    requires Alike(a, b, t, map[]) && a.hist.Keys == a.heap.Keys
    ensures b.hist == a.hist
  {
    assert b.heap.Keys == a.heap.Keys;
    forall rid | rid in a.hist
      ensures rid in b.hist && b.hist[rid] == a.hist[rid]
    {
      assert RowAlike(a, b, t, rid);
    }
    assert b.hist.Keys == a.hist.Keys;
  }

  // ----- when nobody collides ----------------------------------------------------------------------------------------

  /** The steps that are not `t`'s, in order. */
  ghost function OthersSteps(steps: seq<Step>, t: TxnId): seq<Step> {
    if steps == [] then []
    else (if StepOf(steps[0], t) then [] else [steps[0]]) + OthersSteps(steps[1..], t)
  }

  ghost predicate NobodyCollides(w: World, steps: seq<Step>, t: TxnId)
    requires IsRun(w, steps)
    decreases |steps|
  {
    steps == [] || (!Collides(w, steps[0], t) && NobodyCollides(Next(w, steps[0]), steps[1..], t))
  }

  lemma {:induction false} OthersConcat(a: seq<Step>, b: seq<Step>, t: TxnId)
    ensures OthersSteps(a + b, t) == OthersSteps(a, t) + OthersSteps(b, t)
    decreases |a|
  {
    if a == [] {
      assert a + b == b;
    } else {
      assert (a + b)[1..] == a[1..] + b;
      OthersConcat(a[1..], b, t);
    }
  }

  /** If nobody runs into a row of `t`, the others take exactly the steps they took. */
  lemma {:induction false} OthersTakeTheirSteps(w: World, steps: seq<Step>, t: TxnId)
    requires IsRun(w, steps) && NobodyCollides(w, steps, t)
    ensures OthersSteps(Erased(w, steps, t), t) == OthersSteps(steps, t)
    decreases |steps|
  {
    if steps != [] {
      OthersTakeTheirSteps(Next(w, steps[0]), steps[1..], t);
      OthersConcat(EraseStep(w, steps[0], t), Erased(Next(w, steps[0]), steps[1..], t), t);
    }
  }
}
