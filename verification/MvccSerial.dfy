/** Serializable validation: every step keeps what it needs and what it has established. */
module MvccSerial {
  import opened Sql
  import opened Chain
  import opened Mvcc
  import opened MvccCore

  /** Nothing is published and no row is created. */
  ghost predicate SameSpec(w: World, w': World) {
    w'.hist == w.hist && w'.last == w.last && w'.commits == w.commits
  }

  lemma SameSpecCommits(w: World, w': World)
    requires SameSpec(w, w') && CommitsOk(w) && CertificatesOk(w)
    ensures CommitsOk(w') && CertificatesOk(w')
  {
    forall i | 0 <= i < |w'.commits|
      ensures Certified(w', i)
    {
      assert Certified(w, i);
    }
  }

  // ----- witnesses --------------------------------------------------------------------------------------

  /** Nobody begins, and committed transactions keep their record. */
  ghost predicate WitnessesStay(w: World, w': World) {
    && (forall s :: s in w'.txns && Live(w'.txns[s]) ==>
          s in w.txns && Live(w.txns[s]) && w'.txns[s].isolation == w.txns[s].isolation
          && w'.txns[s].readTs == w.txns[s].readTs)
    && (forall o :: o in w.txns && w.txns[o].state == Committed ==> o in w'.txns && w'.txns[o] == w.txns[o])
  }

  lemma WitnessesFrame(w: World, w': World)
    requires WitnessesOk(w) && WitnessesStay(w, w') && w'.hist == w.hist
    ensures WitnessesOk(w')
  {
  }

  lemma BeginWitnesses(w: World, isolation: Isolation)
    requires WitnessesOk(w) && HistsOk(w) && w.next !in w.txns
    ensures WitnessesOk(DoBegin(w, isolation))
  {
    var w' := DoBegin(w, isolation);
    forall s, rid, k | s in w'.txns && Live(w'.txns[s]) && w'.txns[s].isolation == Serializable
                       && rid in w'.hist && 0 <= k < |w'.hist[rid]| && w'.hist[rid][k].ts > w'.txns[s].readTs
      ensures Witnessed(w'.txns, rid, w'.hist[rid][k])
    {
      assert HistOk(w, w.hist[rid]);
      if k < |w.hist[rid]| - 1 { OrderedTs(w.hist[rid], k, |w.hist[rid]| - 1); }
      assert s != w.next;
    }
  }

  lemma InsertWitnesses(w: World, t: TxnId, rid: Rid, row: Row)
    requires WitnessesOk(w) && Enabled(w, Insert(t, rid, row)) && TxnsOk(w)
    ensures WitnessesOk(DoInsert(w, t, rid, row))
  {
    var w' := DoInsert(w, t, rid, row);
    assert TxnOk(w, t);
    forall s, r, k | s in w'.txns && Live(w'.txns[s]) && w'.txns[s].isolation == Serializable
                     && r in w'.hist && 0 <= k < |w'.hist[r]| && w'.hist[r][k].ts > w'.txns[s].readTs
      ensures Witnessed(w'.txns, r, w'.hist[r][k])
    {
      assert TxnOk(w, s);
      assert r != rid;
      assert Witnessed(w.txns, r, w.hist[r][k]);
    }
  }

  lemma PublishWitnesses(w: World, t: TxnId)
    requires WitnessesOk(w) && Enabled(w, Publish(t)) && TxnsOk(w)
    ensures WitnessesOk(DoPublish(w, t))
  {
    var w' := DoPublish(w, t);
    assert TxnOk(w, t);
    forall s, rid, k | s in w'.txns && Live(w'.txns[s]) && w'.txns[s].isolation == Serializable
                       && rid in w'.hist && 0 <= k < |w'.hist[rid]| && w'.hist[rid][k].ts > w'.txns[s].readTs
      ensures Witnessed(w'.txns, rid, w'.hist[rid][k])
    {
      if k < |w.hist[rid]| {
        assert w'.hist[rid][k] == w.hist[rid][k];
        assert Witnessed(w.txns, rid, w.hist[rid][k]);
      }
    }
  }

  lemma CollectWitnesses(w: World)
    requires WitnessesOk(w)
    ensures WitnessesOk(DoCollect(w))
  {
    var w' := DoCollect(w);
    forall s, rid, k | s in w'.txns && Live(w'.txns[s]) && w'.txns[s].isolation == Serializable
                       && rid in w'.hist && 0 <= k < |w'.hist[rid]| && w'.hist[rid][k].ts > w'.txns[s].readTs
      ensures Witnessed(w'.txns, rid, w'.hist[rid][k])
    {
      assert Witnessed(w.txns, rid, w.hist[rid][k]);
    }
  }

  // ----- validation -----------------------------------------------------------------------------------------

  /** Whoever is inside `Commit` was there before, at the same point of validation. */
  ghost predicate CommitterStays(w: World, w': World) {
    forall t :: t in w'.txns && (w'.txns[t].phase.Verifying? || w'.txns[t].phase.Stamping?) ==>
      && t in w.txns
      && w'.txns[t].isolation == w.txns[t].isolation && w'.txns[t].readTs == w.txns[t].readTs
      && w'.txns[t].scans == w.txns[t].scans && w'.txns[t].writes == w.txns[t].writes
      && (w'.txns[t].phase.Verifying? ==> w'.txns[t].phase == w.txns[t].phase)
      && (w'.txns[t].phase.Stamping? ==> w.txns[t].phase.Stamping?)
  }

  lemma ValidationFrame(w: World, w': World)
    requires ValidationOk(w) && CommitterStays(w, w') && w'.hist == w.hist && w'.last == w.last
    ensures ValidationOk(w')
  {
  }

  /** A row no recent commit has touched selects the same as before. */
  lemma UntouchedRow(w: World, t: TxnId, rid: Rid)
    requires WitnessesOk(w) && t in w.txns && Live(w.txns[t]) && w.txns[t].isolation == Serializable
    requires rid in w.hist && HistOk(w, w.hist[rid]) && rid !in ChangedRows(w.txns, w.txns[t])
    requires w.txns[t].readTs <= w.last
    ensures ValidatedRow(w, w.txns[t], rid)
  {
    var x, h := w.txns[t], w.hist[rid];
    if exists k :: 0 <= k < |x.scans| && x.scans[k].table == rid.table {
      var newest := w.hist[rid][|h| - 1];
      assert newest.ts > x.readTs ==> Witnessed(w.txns, rid, newest);
    }
  }

  lemma StartCommitValidation(w: World, t: TxnId)
    requires ValidationOk(w) && WitnessesOk(w) && HistsOk(w) && TxnsOk(w) && Enabled(w, StartCommit(t))
    ensures ValidationOk(DoStartCommit(w, t))
  {
    var w' := DoStartCommit(w, t);
    assert TxnOk(w, t);
    forall s, rid | s in w'.txns && rid in w'.hist
      ensures w'.txns[s].phase.Verifying? && rid !in w'.txns[s].phase.todo ==> ValidatedRow(w', w'.txns[s], rid)
      ensures w'.txns[s].phase.Stamping? && w'.txns[s].isolation == Serializable && w'.txns[s].writes != {} ==>
                ValidatedRow(w', w'.txns[s], rid)
    {
      if s == t && w'.txns[t].phase.Verifying? && rid !in w'.txns[t].phase.todo {
        assert HistOk(w, w.hist[rid]);
        UntouchedRow(w, t, rid);
        assert ValidatedRow(w, w.txns[t], rid);
      }
    }
  }

  /** The walk over a row's chain gives the verdict that its committed history gives. */
  lemma VerdictOfRow(w: World, rid: Rid, r: int, q: Query)
    requires Core(w) && rid in w.heap && w.floor <= r && 0 <= r
    requires w.heap[rid].ts <= w.last || w.heap[rid].ts >= TXN_START_ID
    ensures Unchanged(w.undo, w.heap[rid], r, q) <==> UnchangedSince(w.hist[rid], r, q)
  {
    var v, h := w.heap[rid], w.hist[rid];
    assert SlotOk(w, v, h) && HistOk(w, h);
    if v.ts > w.last {
      assert TxnOk(w, v.ts);
    }
    VerdictOfSlot(w, v, h, r, q);
  }

  lemma VerdictOfSlot(w: World, v: Slot, h: History, r: int, q: Query)
    requires SlotOk(w, v, h) && Ordered(h) && w.floor <= r && 0 <= r && w.last < TXN_START_ID
    requires v.ts <= w.last || (v.ts >= TXN_START_ID && w.txns[v.ts].readTs <= w.last)
    ensures Unchanged(w.undo, v, r, q) <==> UnchangedSince(h, r, q)
  {
    if v.ts <= w.last {
      UnchangedIsUnchangedSince(w.undo, w.floor, v, h, r, q);
    } else {
      var p := Pending(h, v, v.ts, w.txns[v.ts].readTs);
      UnchangedIsUnchangedSince(w.undo, w.floor, v, p, r, q);
      UnchangedSinceSplit(p, r, q);
      assert p[..|p| - 1] == h;
    }
  }

  lemma VerifyRowValidation(w: World, t: TxnId, rid: Rid)
    requires Core(w) && ValidationOk(w) && Enabled(w, VerifyRow(t, rid))
    ensures ValidationOk(DoVerifyRow(w, t, rid))
  {
    assert TxnOk(w, t);
    NothingStamped(w, rid);
    var x := w.txns[t];
    VerdictOfRow(w, rid, x.readTs, Query(x.scans, rid.table));
    assert HistOk(w, w.hist[rid]);
    if Unchanged(w.undo, w.heap[rid], x.readTs, Query(x.scans, rid.table)) {
      UnchangedMatches(w.hist[rid], x.readTs, w.last, Query(x.scans, rid.table));
    }
    VerifiedRow(w, t, rid);
  }

  lemma VerifiedRow(w: World, t: TxnId, rid: Rid)
    requires ValidationOk(w) && Enabled(w, VerifyRow(t, rid)) && rid in w.hist
    requires Unchanged(w.undo, w.heap[rid], w.txns[t].readTs, Query(w.txns[t].scans, rid.table)) ==>
               ValidatedRow(w, w.txns[t], rid)
    ensures ValidationOk(DoVerifyRow(w, t, rid))
  {
    var w' := DoVerifyRow(w, t, rid);
    forall s, r | s in w'.txns && r in w'.hist
      ensures w'.txns[s].phase.Verifying? && r !in w'.txns[s].phase.todo ==> ValidatedRow(w', w'.txns[s], r)
      ensures w'.txns[s].phase.Stamping? && w'.txns[s].isolation == Serializable && w'.txns[s].writes != {} ==>
                ValidatedRow(w', w'.txns[s], r)
    {
      assert ValidatedRow(w', w'.txns[s], r) <==> ValidatedRow(w, w.txns[s], r);
    }
  }

  lemma FinishVerifyValidation(w: World, t: TxnId)
    requires ValidationOk(w) && w.undo.Keys == w.txns.Keys && Enabled(w, FinishVerify(t))
    ensures ValidationOk(Next(w, FinishVerify(t)))
  {
    var w' := Next(w, FinishVerify(t));
    forall s, r | s in w'.txns && r in w'.hist
      ensures w'.txns[s].phase.Verifying? && r !in w'.txns[s].phase.todo ==> ValidatedRow(w', w'.txns[s], r)
      ensures w'.txns[s].phase.Stamping? && w'.txns[s].isolation == Serializable && w'.txns[s].writes != {} ==>
                ValidatedRow(w', w'.txns[s], r)
    {
      assert ValidatedRow(w', w'.txns[s], r) <==> ValidatedRow(w, w.txns[s], r);
    }
  }

  lemma NewRowValidation(w: World, t: TxnId, rid: Rid, row: Row)
    requires ValidationOk(w) && Enabled(w, Insert(t, rid, row))
    ensures ValidationOk(DoInsert(w, t, rid, row))
  {
    var w' := DoInsert(w, t, rid, row);
    forall s, r | s in w'.txns && r in w'.hist
      ensures w'.txns[s].phase.Verifying? && r !in w'.txns[s].phase.todo ==> ValidatedRow(w', w'.txns[s], r)
      ensures w'.txns[s].phase.Stamping? && w'.txns[s].isolation == Serializable && w'.txns[s].writes != {} ==>
                ValidatedRow(w', w'.txns[s], r)
    {
      if r != rid {
        assert ValidatedRow(w', w'.txns[s], r) <==> ValidatedRow(w, w.txns[s], r);
      } else {
        assert ValidatedRow(w', w'.txns[s], r);
      }
    }
  }

  /** Only the committing transaction was inside `Commit`, and it has left. */
  lemma PublishValidation(w: World, t: TxnId)
    requires TxnsOk(w) && Enabled(w, Publish(t))
    ensures ValidationOk(DoPublish(w, t))
  {
    var w' := DoPublish(w, t);
    assert TxnOk(w, t);
    forall s | s in w'.txns
      ensures !w'.txns[s].phase.Verifying? && !w'.txns[s].phase.Stamping?
    {
      assert TxnOk(w, s);
    }
  }

  // ----- commits ------------------------------------------------------------------------------------------------

  lemma PublishedVersion(w: World, t: TxnId, rid: Rid)
    requires Enabled(w, Publish(t)) && rid in w.hist && Shape(w)
    ensures var h, h' := w.hist[rid], DoPublish(w, t).hist[rid];
            && h <= h'
            && (rid !in w.txns[t].writes ==> h' == h)
            && (rid in w.txns[t].writes ==>
                  h' == h + [Version(w.last + 1, Content(w.heap[rid]), t, w.txns[t].readTs)])
  {
  }

  lemma PublishFromCommit(w: World, t: TxnId)
    requires Shape(w) && CommitsOk(w) && Enabled(w, Publish(t))
    ensures var w' := DoPublish(w, t);
            forall rid, k :: rid in w'.hist && 0 < k < |w'.hist[rid]| ==> FromCommit(w'.commits, rid, w'.hist[rid][k])
  {
    var w' := DoPublish(w, t);
    forall rid, k | rid in w'.hist && 0 < k < |w'.hist[rid]|
      ensures FromCommit(w'.commits, rid, w'.hist[rid][k])
    {
      PublishedVersion(w, t, rid);
      if k < |w.hist[rid]| {
        assert FromCommit(w.commits, rid, w.hist[rid][k]);
      }
    }
  }

  lemma PublishHasVersions(w: World, t: TxnId)
    requires Shape(w) && CommitsOk(w) && Enabled(w, Publish(t))
    ensures var w' := DoPublish(w, t);
            forall rid, i :: 0 <= i < |w'.commits| && rid in w'.commits[i].images ==>
              HasVersionOf(w'.hist, rid, i)
  {
    var w' := DoPublish(w, t);
    forall rid, i | 0 <= i < |w'.commits| && rid in w'.commits[i].images
      ensures HasVersionOf(w'.hist, rid, i)
    {
      if i < |w.commits| {
        assert HasVersionOf(w.hist, rid, i);
        var k :| 0 < k < |w.hist[rid]| && w.hist[rid][k].ts == i + 1;
        PublishedVersion(w, t, rid);
        assert w'.hist[rid][k].ts == i + 1;
      } else {
        PublishedVersion(w, t, rid);
        assert w'.hist[rid][|w.hist[rid]|].ts == i + 1;
      }
    }
  }

  lemma PublishCommits(w: World, t: TxnId)
    requires Shape(w) && CommitsOk(w) && Enabled(w, Publish(t)) && 0 <= w.txns[t].readTs <= w.last
    ensures CommitsOk(DoPublish(w, t))
  {
    PublishFromCommit(w, t);
    PublishHasVersions(w, t);
  }

  /** A certificate outlives later commits: they only add versions after it. */
  lemma OldCertificate(w: World, t: TxnId, i: nat)
    requires Shape(w) && Enabled(w, Publish(t)) && i < |w.commits| && Certified(w, i) && w.commits[i].readTs <= i
    ensures Certified(DoPublish(w, t), i)
  {
    var w' := DoPublish(w, t);
    var c := w.commits[i];
    if c.isolation == Serializable && c.images != map[] {
      forall rid | rid in w'.hist
        ensures SameForScans(w'.hist[rid], c.readTs, i, Query(c.scans, rid.table))
      {
        PublishedVersion(w, t, rid);
        if rid in w.txns[t].writes {
          var v := Version(w.last + 1, Content(w.heap[rid]), t, w.txns[t].readTs);
          AsOfAppend(w.hist[rid], v, c.readTs);
          AsOfAppend(w.hist[rid], v, i);
        }
      }
    }
  }

  lemma NewCertificate(w: World, t: TxnId)
    requires Shape(w) && ValidationOk(w) && Enabled(w, Publish(t)) && w.txns[t].readTs <= w.last
    ensures Certified(DoPublish(w, t), w.last)
  {
    var w' := DoPublish(w, t);
    var x := w.txns[t];
    if x.isolation == Serializable && w'.commits[w.last].images != map[] {
      forall rid | rid in w'.hist
        ensures SameForScans(w'.hist[rid], x.readTs, w.last, Query(x.scans, rid.table))
      {
        assert ValidatedRow(w, x, rid);
        PublishedVersion(w, t, rid);
        if rid in x.writes {
          var v := Version(w.last + 1, Content(w.heap[rid]), t, x.readTs);
          AsOfAppend(w.hist[rid], v, x.readTs);
          AsOfAppend(w.hist[rid], v, w.last);
        }
      }
    }
  }

  lemma OldCertificates(w: World, t: TxnId)
    requires Shape(w) && CertificatesOk(w) && Enabled(w, Publish(t))
    requires forall i :: 0 <= i < |w.commits| ==> w.commits[i].readTs <= i
    ensures forall i :: 0 <= i < |w.commits| ==> Certified(DoPublish(w, t), i)
  {
    forall i | 0 <= i < |w.commits|
      ensures Certified(DoPublish(w, t), i)
    {
      assert Certified(w, i);
      OldCertificate(w, t, i);
    }
  }

  lemma PublishCertificates(w: World, t: TxnId)
    requires Shape(w) && ValidationOk(w) && CertificatesOk(w) && Enabled(w, Publish(t)) && w.txns[t].readTs <= w.last
    requires forall i :: 0 <= i < |w.commits| ==> w.commits[i].readTs <= i
    ensures CertificatesOk(DoPublish(w, t))
  {
    OldCertificates(w, t);
    NewCertificate(w, t);
    assert |DoPublish(w, t).commits| == |w.commits| + 1;
  }

  lemma InsertCommits(w: World, t: TxnId, rid: Rid, row: Row)
    requires CommitsOk(w) && CertificatesOk(w) && Enabled(w, Insert(t, rid, row)) && w.hist.Keys == w.heap.Keys
    ensures CommitsOk(DoInsert(w, t, rid, row)) && CertificatesOk(DoInsert(w, t, rid, row))
  {
    var w' := DoInsert(w, t, rid, row);
    forall i | 0 <= i < |w'.commits|
      ensures Certified(w', i)
    {
      assert Certified(w, i);
    }
    forall r, i | 0 <= i < |w.commits| && r in w.commits[i].images
      ensures HasVersionOf(w'.hist, r, i)
    {
      assert HasVersionOf(w.hist, r, i);
      var k :| 0 < k < |w.hist[r]| && w.hist[r][k].ts == i + 1;
      assert w'.hist[r][k].ts == i + 1;
    }
  }
}
