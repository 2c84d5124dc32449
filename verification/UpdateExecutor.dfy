/** `UPDATE`: rows whose key stays are changed in place; the others are all deleted first and then inserted anew. */
module UpdateExecutors {
  import opened Sql
  import opened Chain
  import opened Mvcc
  import opened PkIndex
  import opened PkViews
  import opened IndexedTables
  import opened ScanExecutors
  import opened Plans
  import opened Bags
  import opened Joins

  datatype UpdateResult = Updated(count: nat) | NoMore | UpdateConflict

  /** The new rows among the first `n` that stay in place, or that move. */
  function Targets(rids: seq<Rid>, targets: seq<Row>, moved: set<Rid>, moving: bool, n: nat): multiset<Row>
    requires n <= |rids| == |targets|
  {
    if n == 0 then multiset{}
    else
      Targets(rids, targets, moved, moving, n - 1)
      + if (rids[n - 1] in moved) == moving then multiset{targets[n - 1]} else multiset{}
  }

  lemma {:induction false} TargetsSplit(rids: seq<Rid>, targets: seq<Row>, moved: set<Rid>, n: nat)
    requires n <= |rids| == |targets|
    ensures Targets(rids, targets, moved, false, n) + Targets(rids, targets, moved, true, n) == multiset(targets[..n])
  {
    if n > 0 {
      TargetsSplit(rids, targets, moved, n - 1);
      assert targets[..n] == targets[..n - 1] + [targets[n - 1]];
    }
  }

  /** The child's rows are what the transaction sees at their slots. */
  ghost predicate InSight(view: seq<Option<Row>>, table: nat, rids: seq<Rid>, rows: seq<Row>, from: nat)
    requires |rids| == |rows|
  {
    forall i :: from <= i < |rids| ==>
      rids[i].table == table && rids[i].slot < |view| && view[rids[i].slot] == Some(rows[i])
  }

  lemma InSightAfter(view: seq<Option<Row>>, table: nat, rids: seq<Rid>, rows: seq<Row>, i: nat, o: Option<Row>)
    requires |rids| == |rows| && i < |rids| && Distinct(rids) && InSight(view, table, rids, rows, i)
    ensures InSight(view[rids[i].slot := o], table, rids, rows, i + 1)
  {
    forall j | i + 1 <= j < |rids|
      ensures rids[j].slot != rids[i].slot
    {
      assert rids[i] != rids[j];
    }
  }

  /** The bag after some of the rows have been traded for their targets. */
  ghost predicate Traded(start: seq<Option<Row>>, view: seq<Option<Row>>, gone: seq<Row>, come: multiset<Row>) {
    multiset(Present(view)) + multiset(gone) == multiset(Present(start)) + come
  }

  /** More empty slots change neither. */
  lemma PadInSight(view: seq<Option<Row>>, n: nat, table: nat, rids: seq<Rid>, rows: seq<Row>, from: nat)
    requires |view| <= n && |rids| == |rows| && InSight(view, table, rids, rows, from)
    ensures InSight(Pad(view, n), table, rids, rows, from)
  {
    forall i | from <= i < |rids|
      ensures Pad(view, n)[rids[i].slot] == view[rids[i].slot]
    {
      assert Pad(view, n)[..|view|][rids[i].slot] == view[rids[i].slot];
    }
  }

  lemma PadTraded(start: seq<Option<Row>>, view: seq<Option<Row>>, n: nat, gone: seq<Row>, come: multiset<Row>)
    requires |view| <= n && Traded(start, view, gone, come)
    ensures Traded(start, Pad(view, n), gone, come)
  {
    PresentPad(view, n);
  }

  lemma PadStart(start: seq<Option<Row>>, padded: seq<Option<Row>>)
    requires |start| <= |padded| && padded == Pad(start, |padded|)
    ensures Present(padded) == Present(start)
  {
    PresentPad(start, |padded|);
  }

  lemma TradeOne(start: seq<Option<Row>>, view: seq<Option<Row>>, rows: seq<Row>, i: nat, come: multiset<Row>,
    slot: nat, o: Option<Row>)
    requires i < |rows| && slot < |view| && view[slot] == Some(rows[i]) && Traded(start, view, rows[..i], come)
    ensures Traded(start, view[slot := o], rows[..i + 1], come + multiset(Rows(o)))
  {
    PresentUpdate(view, slot, o);
    assert rows[..i + 1] == rows[..i] + [rows[i]];
    TradeBags(multiset(Present(view)), multiset(Present(view[slot := o])), multiset(Present(start)),
              multiset(rows[..i]), multiset{rows[i]}, come, multiset(Rows(o)));
  }

  lemma TradeBags(before: multiset<Row>, after: multiset<Row>, start: multiset<Row>, gone: multiset<Row>,
    out: multiset<Row>, come: multiset<Row>, inn: multiset<Row>)
    requires before + gone == start + come && after + out == before + inn
    ensures after + (gone + out) == start + (come + inn)
  {
    assert after + (gone + out) == (after + out) + gone;
    assert (before + inn) + gone == (before + gone) + inn;
  }

  /** The same in the second pass, once the first `n` of the moving rows have come back. */
  ghost predicate Returned(start: seq<Option<Row>>, view: seq<Option<Row>>, gone: seq<Row>, rids: seq<Rid>,
    targets: seq<Row>, moved: set<Rid>, n: nat)
    requires n <= |rids| == |targets|
  {
    Traded(start, view, gone,
           Targets(rids, targets, moved, false, |rids|) + Targets(rids, targets, moved, true, n))
  }

  lemma NoneReturned(start: seq<Option<Row>>, view: seq<Option<Row>>, gone: seq<Row>, rids: seq<Rid>,
    targets: seq<Row>, moved: set<Rid>)
    requires |rids| == |targets| && Traded(start, view, gone, Targets(rids, targets, moved, false, |rids|))
    ensures Returned(start, view, gone, rids, targets, moved, 0)
  {
  }

  lemma ReturnOne(start: seq<Option<Row>>, view: seq<Option<Row>>, view': seq<Option<Row>>, gone: seq<Row>,
                  rids: seq<Rid>, targets: seq<Row>, moved: set<Rid>, n: nat, slot: nat)
    requires n < |rids| == |targets| && Returned(start, view, gone, rids, targets, moved, n)
    requires if rids[n] in moved then SeesInserted(view, view', slot, targets[n]) else view' == view
    ensures Returned(start, view', gone, rids, targets, moved, n + 1)
  {
    if rids[n] in moved {
      var come := Targets(rids, targets, moved, false, |rids|) + Targets(rids, targets, moved, true, n);
      InsertedBag(view, view', slot, targets[n]);
      TradeBags(multiset(Present(view)), multiset(Present(view')), multiset(Present(start)),
                multiset(gone), multiset{}, come, multiset{targets[n]});
    }
  }

  lemma AllReturned(start: seq<Option<Row>>, view: seq<Option<Row>>, gone: seq<Row>, rids: seq<Rid>,
    targets: seq<Row>, moved: set<Rid>)
    requires |rids| == |targets| && Returned(start, view, gone, rids, targets, moved, |rids|)
    ensures Traded(start, view, gone, multiset(targets))
  {
    TargetsSplit(rids, targets, moved, |rids|);
    assert targets[..|rids|] == targets;
  }

  /** The view that others have padded, and what it becomes with the next row deleted or changed. */
  lemma RowAfterOthers(
      start: seq<Option<Row>>, before: seq<Option<Row>>, view: seq<Option<Row>>, table: nat,
      rids: seq<Rid>, rows: seq<Row>, targets: seq<Row>, moved: set<Rid>, i: nat)
    requires i < |rids| == |rows| == |targets| && Distinct(rids) && InSight(before, table, rids, rows, i)
    requires Traded(start, before, rows[..i], Targets(rids, targets, moved, false, i))
    requires |before| <= |view| && view == Pad(before, |view|)
    ensures rids[i].table == table && rids[i].slot < |view| && view[rids[i].slot] == Some(rows[i])
    ensures var next := view[rids[i].slot := if rids[i] in moved then None else Some(targets[i])];
      && InSight(next, table, rids, rows, i + 1)
      && Traded(start, next, rows[..i + 1], Targets(rids, targets, moved, false, i + 1))
  {
    var target := if rids[i] in moved then None else Some(targets[i]);
    PadInSight(before, |view|, table, rids, rows, i);
    PadTraded(start, before, |view|, rows[..i], Targets(rids, targets, moved, false, i));
    InSightAfter(view, table, rids, rows, i, target);
    TradeOne(start, view, rows, i, Targets(rids, targets, moved, false, i), rids[i].slot, target);
  }

  // ----- when an update goes through ----------------------------------------------------------------------------

  function NewRows(exprs: seq<Expr>, rows: seq<Row>): (targets: seq<Row>)
    ensures |targets| == |rows|
    ensures forall i, j :: 0 <= i < |rows| && 0 <= j < |exprs| ==>
      |targets[i]| == |exprs| && targets[i][j] == Evaluate(exprs[j], rows[i])
  {
    seq(|rows|, i requires 0 <= i < |rows| => MakeKey(exprs, rows[i]))
  }

  /** The rows whose key changes. */
  ghost function Moved(info: TableInfo, rids: seq<Rid>, rows: seq<Row>, targets: seq<Row>): set<Rid>
    requires |rids| == |rows| == |targets|
  {
    set i | 0 <= i < |rids| && Key(info, rows[i]) != Key(info, targets[i]) :: rids[i]
  }

  /** The key may be inserted once the first `n` rows have been changed or deleted. */
  ghost predicate FreeOnceVacated(p: Pk, t: TxnId, rids: seq<Rid>, moved: set<Rid>, n: nat, key: Value)
    requires n <= |rids|
  {
    if key in p.index && p.index[key] in rids[..n] then p.index[key] in moved else Free(p, t, key)
  }

  /** The keys that the first `n` of the moving rows take. */
  ghost function Taken(info: TableInfo, rids: seq<Rid>, targets: seq<Row>, moved: set<Rid>, n: nat): set<Value>
    requires n <= |rids| == |targets|
  {
    set i | 0 <= i < n && rids[i] in moved :: Key(info, targets[i])
  }

  /**
   * The update goes through: nobody else has changed the rows, and each new key is free, or is given up by a row
   * that itself moves, and is not claimed twice.
   */
  ghost predicate Accepted(p: Pk, t: TxnId, rids: seq<Rid>, targets: seq<Row>, moved: set<Rid>)
    requires |rids| == |targets|
  {
    && (forall i :: 0 <= i < |rids| ==> Editable(p, t, rids[i]))
    && (forall i :: 0 <= i < |rids| && rids[i] in moved ==>
          && FreeOnceVacated(p, t, rids, moved, |rids|, Key(p.info, targets[i]))
          && Key(p.info, targets[i]) !in Taken(p.info, rids, targets, moved, i))
  }

  /** Where the first pass stands after `n` rows, seen from the state `p` it started in. */
  ghost predicate FirstDone(p: Pk, now: Pk, t: TxnId, rids: seq<Rid>, moved: set<Rid>, n: nat)
    requires n <= |rids|
  {
    && now.index == p.index
    && (forall i :: 0 <= i < n ==> Editable(p, t, rids[i]))
    && (forall i :: n <= i < |rids| ==> (Editable(now, t, rids[i]) <==> Editable(p, t, rids[i])))
    && (forall key :: Free(now, t, key) <==> FreeOnceVacated(p, t, rids, moved, n, key))
  }

  lemma FirstStep(p: Pk, now: Pk, next: Pk, t: TxnId, rids: seq<Rid>, moved: set<Rid>, n: nat)
    requires n < |rids| && Distinct(rids) && FirstDone(p, now, t, rids, moved, n)
    requires Editable(now, t, rids[n]) && Frees(now, next, t, rids[n], rids[n] in moved)
    ensures FirstDone(p, next, t, rids, moved, n + 1)
  {
    assert rids[..n + 1] == rids[..n] + [rids[n]];
    forall key
      ensures Free(next, t, key) <==> FreeOnceVacated(p, t, rids, moved, n + 1, key)
    {
      assert Free(now, t, key) <==> FreeOnceVacated(p, t, rids, moved, n, key);
    }
    forall i | n < i < |rids|
      ensures Editable(next, t, rids[i]) <==> Editable(p, t, rids[i])
    {
      assert rids[i] != rids[n];
    }
  }

  /** Where the second pass stands after `n` rows, seen from the state `p` it started in. */
  ghost predicate SecondDone(p: Pk, now: Pk, t: TxnId, rids: seq<Rid>, targets: seq<Row>, moved: set<Rid>, n: nat)
    requires n <= |rids| == |targets|
  {
    && now.info == p.info
    && (forall i :: 0 <= i < n && rids[i] in moved ==> Insertable(p, t, rids, targets, moved, i))
    && (forall key :: Free(now, t, key) <==> Free(p, t, key) && key !in Taken(p.info, rids, targets, moved, n))
  }

  ghost predicate Insertable(p: Pk, t: TxnId, rids: seq<Rid>, targets: seq<Row>, moved: set<Rid>, i: nat)
    requires i < |rids| == |targets|
  {
    Free(p, t, Key(p.info, targets[i])) && Key(p.info, targets[i]) !in Taken(p.info, rids, targets, moved, i)
  }

  lemma SecondStart(p: Pk, t: TxnId, rids: seq<Rid>, targets: seq<Row>, moved: set<Rid>)
    requires |rids| == |targets|
    ensures SecondDone(p, p, t, rids, targets, moved, 0)
  {
  }

  lemma SecondStep(p: Pk, now: Pk, next: Pk, t: TxnId, rids: seq<Rid>, targets: seq<Row>, moved: set<Rid>, n: nat)
    requires n < |rids| == |targets| && SecondDone(p, now, t, rids, targets, moved, n) && next.info == p.info
    requires if rids[n] in moved then Free(now, t, Key(p.info, targets[n]))
      && Takes(now, next, t, Key(p.info, targets[n]))
             else next == now
    ensures SecondDone(p, next, t, rids, targets, moved, n + 1)
  {
    var before, after := Taken(p.info, rids, targets, moved, n), Taken(p.info, rids, targets, moved, n + 1);
    assert after == if rids[n] in moved then before + {Key(p.info, targets[n])} else before;
  }

  /** The two passes go through exactly when the update is accepted. */
  lemma PassesAccept(p: Pk, now: Pk, t: TxnId, rids: seq<Rid>, targets: seq<Row>, moved: set<Rid>)
    requires |rids| == |targets| && FirstDone(p, now, t, rids, moved, |rids|) && now.info == p.info
    ensures Accepted(p, t, rids, targets, moved) <==>
      forall i :: 0 <= i < |rids| && rids[i] in moved ==> Insertable(now, t, rids, targets, moved, i)
  {
  }

  class UpdateExecutor {
    const table: IndexedTable
    const t: TxnId
    const exprs: seq<Expr>
    var done: bool

    constructor (table: IndexedTable, t: TxnId, exprs: seq<Expr>)
      ensures this.table == table && this.t == t && this.exprs == exprs && !done
    {
      this.table, this.t, this.exprs, this.done := table, t, exprs, false;
    }

    /** Evaluate the target expressions, and note which rows get a new key. */
    method CollectUpdates(rids: seq<Rid>, rows: seq<Row>) returns (targets: seq<Row>, moved: set<Rid>)
      requires |rids| == |rows| && Distinct(rids)
      ensures targets == NewRows(exprs, rows) && moved == Moved(table.info, rids, rows, targets)
      ensures forall i :: 0 <= i < |rows| ==>
        (rids[i] in moved <==> Key(table.info, rows[i]) != Key(table.info, targets[i]))
    {
      targets, moved := [], {};
      for n := 0 to |rows|
        invariant |targets| == n && forall i :: 0 <= i < n ==> targets[i] == MakeKey(exprs, rows[i])
        invariant moved == Moved(table.info, rids[..n], rows[..n], targets)
        invariant forall i :: 0 <= i < n ==>
                    (rids[i] in moved <==> Key(table.info, rows[i]) != Key(table.info, targets[i]))
      {
        var target := MakeKey(exprs, rows[n]);
        if Key(table.info, rows[n]) != Key(table.info, target) {
          moved := moved + {rids[n]};
        }
        targets := targets + [target];
        assert forall i :: 0 <= i < n ==> rids[i] != rids[n];
      }
      assert rids[..|rows|] == rids && rows[..|rows|] == rows;
    }

    /** First pass: change rows in place, delete those that move; others may run before each edit. */
    method FirstPass(rids: seq<Rid>, ghost rows: seq<Row>, targets: seq<Row>, moved: set<Rid>, ghost alone: bool)
        returns (ok: bool)
      requires table.Valid() && table.Ready(t) && |rids| == |rows| == |targets| && Distinct(rids)
      requires InSight(table.Sight(t), table.info.table, rids, rows, 0) && AllWide(targets, table.info.width)
      requires forall i :: 0 <= i < |rows| ==>
        (rids[i] in moved <==> Key(table.info, rows[i]) != Key(table.info, targets[i]))
      modifies table, table.tm, table.tm.runningTxns
      ensures table.Valid()
      ensures alone ==> (ok <==> old(forall i :: 0 <= i < |rids| ==> Editable(table.Value(), t, rids[i])))
      ensures alone && ok ==> FirstDone(old(table.Value()), table.Value(), t, rids, moved, |rids|)
      ensures !ok ==> t in table.tm.txns && table.tm.txns[t].state == Tainted
      ensures ok ==>
        && table.Ready(t)
        && Traded(old(table.Sight(t)), table.Sight(t), rows, Targets(rids, targets, moved, false, |rids|))
    {
      ghost var start, p := table.Sight(t), table.Value();
      for i := 0 to |rids|
        invariant table.Valid() && table.Ready(t) && (alone ==> FirstDone(p, table.Value(), t, rids, moved, i))
        invariant InSight(table.Sight(t), table.info.table, rids, rows, i)
        invariant Traded(start, table.Sight(t), rows[..i], Targets(rids, targets, moved, false, i))
      {
        ghost var now := table.Value();
        var done := EditNext(rids, rows, targets, moved, i, start, alone);
        if !done {
          return false;
        }
        if alone { FirstStep(p, now, table.Value(), t, rids, moved, i); }
      }
      assert rows[..|rids|] == rows;
      return true;
    }

    /** One turn of the first pass. */
    method EditNext(rids: seq<Rid>, ghost rows: seq<Row>, targets: seq<Row>, moved: set<Rid>, i: nat,
                    ghost start: seq<Option<Row>>, ghost alone: bool)
        returns (ok: bool)
      requires table.Valid() && table.Ready(t) && i < |rids| == |rows| == |targets| && Distinct(rids)
      requires InSight(table.Sight(t), table.info.table, rids, rows, i) && AllWide(targets, table.info.width)
      requires rids[i] in moved <==> Key(table.info, rows[i]) != Key(table.info, targets[i])
      requires Traded(start, table.Sight(t), rows[..i], Targets(rids, targets, moved, false, i))
      modifies table, table.tm, table.tm.runningTxns
      ensures table.Valid()
      ensures alone ==> (ok <==> old(Editable(table.Value(), t, rids[i])))
      ensures alone && ok ==> Frees(old(table.Value()), table.Value(), t, rids[i], rids[i] in moved)
      ensures !ok ==> t in table.tm.txns && table.tm.txns[t].state == Tainted
      ensures ok ==>
        && table.Ready(t) && InSight(table.Sight(t), table.info.table, rids, rows, i + 1)
        && Traded(start, table.Sight(t), rows[..i + 1], Targets(rids, targets, moved, false, i + 1))
    {
      ghost var before := table.Sight(t);
      table.LetOthersRun(t, alone);
      ghost var view := table.Sight(t);
      ghost var target := if rids[i] in moved then None else Some(targets[i]);
      RowAfterOthers(start, before, view, table.info.table, rids, rows, targets, moved, i);
      assert targets[i] in targets;
      ok := EditOne(rids[i], targets[i], moved, Key(table.info, rows[i]), targets);
    }

    /** Delete a row that moves, change in place one that does not. */
    method EditOne(rid: Rid, target: Row, moved: set<Rid>, ghost key: Value, ghost targets: seq<Row>) returns (ok: bool)
      requires table.Valid() && table.Ready(t) && rid.table == table.info.table && rid.slot < table.slots
      requires table.Sight(t)[rid.slot].Some? && key == Key(table.info, table.Sight(t)[rid.slot].value)
      requires (rid in moved <==> key != Key(table.info, target)) && AllWide(targets, table.info.width)
        && target in targets
      modifies table.tm
      ensures table.Valid() && (ok <==> old(Editable(table.Value(), t, rid)))
      ensures !ok ==> t in table.tm.txns && table.tm.txns[t].state == Tainted
      ensures ok ==>
        && table.Ready(t) && Frees(old(table.Value()), table.Value(), t, rid, rid in moved)
        && table.Sight(t) == old(table.Sight(t))[rid.slot := if rid in moved then None else Some(target)]
    {
      var result;
      if rid in moved {
        result := table.DeleteRow(t, rid);
      } else {
        result := table.UpdateRow(t, rid, target);
      }
      return result.Modified?;
    }

    /** Second pass: insert the rows that move, now that all their old keys are free. */
    method SecondPass(rids: seq<Rid>, targets: seq<Row>, moved: set<Rid>, ghost start: seq<Option<Row>>,
                      ghost gone: seq<Row>, ghost alone: bool)
        returns (ok: bool)
      requires table.Valid() && table.Ready(t) && |rids| == |targets| && AllWide(targets, table.info.width)
      requires Returned(start, table.Sight(t), gone, rids, targets, moved, 0)
      modifies table, table.tm, table.tm.runningTxns
      ensures table.Valid()
      ensures alone ==> (ok <==> old(forall i :: 0 <= i < |rids| && rids[i] in moved ==>
                                       Insertable(table.Value(), t, rids, targets, moved, i)))
      ensures !ok ==> t in table.tm.txns && table.tm.txns[t].state == Tainted
      ensures ok ==> table.Ready(t) && Traded(start, table.Sight(t), gone, multiset(targets))
    {
      ghost var p := table.Value();
      SecondStart(p, t, rids, targets, moved);
      for i := 0 to |rids|
        invariant table.Valid() && table.Ready(t)
        invariant alone ==> SecondDone(p, table.Value(), t, rids, targets, moved, i)
        invariant Returned(start, table.Sight(t), gone, rids, targets, moved, i)
      {
        ghost var view, now, slot := table.Sight(t), table.Value(), 0;
        if rids[i] in moved {
          assert targets[i] in targets;
          var result := table.InsertTupleMvcc(t, targets[i], alone);
          if result.InsertConflict? {
            return false;
          }
          slot := result.rid.slot;
        }
        ReturnOne(start, view, table.Sight(t), gone, rids, targets, moved, i, slot);
        if alone { SecondStep(p, now, table.Value(), t, rids, targets, moved, i); }
      }
      AllReturned(start, table.Sight(t), gone, rids, targets, moved);
      return true;
    }

    /**
     * `rids` and `rows` are what the child has yielded. On success, whatever other transactions do meanwhile, the
     * rows the transaction sees are the old ones with each of the child's rows traded for its target, whatever
     * keys pass from one row to another. Undisturbed, it succeeds exactly when the update is accepted.
     */
    method Apply(rids: seq<Rid>, rows: seq<Row>, ghost alone: bool) returns (result: UpdateResult)
      requires table.Valid() && table.Ready(t) && |exprs| == table.info.width
      requires |rids| == |rows| && Distinct(rids) && InSight(table.Sight(t), table.info.table, rids, rows, 0)
      modifies table, table.tm, table.tm.runningTxns
      ensures table.Valid() && !result.NoMore?
      ensures alone ==>
        (result.Updated? <==> old(Accepted(table.Value(), t, rids, NewRows(exprs, rows),
                                           Moved(table.info, rids, rows, NewRows(exprs, rows)))))
      ensures result.UpdateConflict? ==> t in table.tm.txns && table.tm.txns[t].state == Tainted
      ensures result.Updated? ==>
        && result.count == |rows| && table.Ready(t)
        && Traded(old(table.Sight(t)), table.Sight(t), rows, multiset(NewRows(exprs, rows)))
    {
      var targets, moved := CollectUpdates(rids, rows);
      ghost var start, p := table.Sight(t), table.Value();
      var ok := FirstPass(rids, rows, targets, moved, alone);
      if !ok {
        return UpdateConflict;
      }
      if alone { PassesAccept(p, table.Value(), t, rids, targets, moved); }
      NoneReturned(start, table.Sight(t), rows, rids, targets, moved);
      ok := SecondPass(rids, targets, moved, start, rows, alone);
      return if ok then Updated(|rids|) else UpdateConflict;
    }

    method Init(child: TableScan)
      requires child.Table() == table && child.Txn() == t && table.Valid() && table.Ready(t) && child.Suits()
      modifies this, child.Executor(), table.tm
      ensures !done && child.Fresh() && table.Sight(t) == old(table.Sight(t))
    {
      done := false;
      child.Init();
      child.BeginsFresh();
    }

    /**
     * Drain the child scan, batch by batch, then update: the rows in sight are those of before, with every row
     * that the scan selects traded for its target. Undisturbed, it succeeds exactly when the update is accepted.
     */
    method Next(child: TableScan, batchSize: nat, ghost alone: bool) returns (result: UpdateResult)
      requires child.Table() == table && child.Txn() == t && child.Fresh()
      requires |exprs| == table.info.width && batchSize > 0
      modifies this, child.Executor(), table, table.tm, table.tm.runningTxns
      ensures table.Valid()
      ensures result.NoMore? <==> old(done)
      ensures alone && !old(done) ==>
        (result.Updated? <==> old(AcceptedHits(table.Value(), t, child.Remaining(), exprs)))
      ensures result.UpdateConflict? ==> t in table.tm.txns && table.tm.txns[t].state == Tainted
      ensures result.Updated? ==>
        && done && table.Ready(t)
        && var selected := old(RowsOf(child.Remaining()));
           && multiset(selected) == old(multiset(SeqScanRows(child.Viewed(), child.Predicate())))
           && result.count == |selected|
           && Traded(old(table.Sight(t)), table.Sight(t), selected, multiset(NewRows(exprs, selected)))
    {
      if done {
        return NoMore;
      }
      result := DrainAndApply(child, batchSize, alone);
      done := result.Updated?;
    }

    method DrainAndApply(child: TableScan, batchSize: nat, ghost alone: bool) returns (result: UpdateResult)
      requires child.Table() == table && child.Txn() == t && child.Fresh()
      requires |exprs| == table.info.width && batchSize > 0
      modifies child.Executor(), table, table.tm, table.tm.runningTxns
      ensures table.Valid() && !result.NoMore?
      ensures alone ==> (result.Updated? <==> old(AcceptedHits(table.Value(), t, child.Remaining(), exprs)))
      ensures result.UpdateConflict? ==> t in table.tm.txns && table.tm.txns[t].state == Tainted
      ensures result.Updated? ==>
        && table.Ready(t)
        && var selected := old(RowsOf(child.Remaining()));
           && multiset(selected) == old(multiset(SeqScanRows(child.Viewed(), child.Predicate())))
           && result.count == |selected|
           && Traded(old(table.Sight(t)), table.Sight(t), selected, multiset(NewRows(exprs, selected)))
    {
      var rids, rows := Drain(child, batchSize, alone);
      result := Apply(rids, rows, alone);
    }
  }

  /** All rows of the child, which are still in sight when the last of them has come. */
  method Drain(child: TableScan, batchSize: nat, ghost alone: bool) returns (rids: seq<Rid>, rows: seq<Row>)
    requires child.Fresh() && batchSize > 0
    modifies child.Executor(), child.Table(), child.Table().tm, child.Table().tm.runningTxns
    ensures child.Table().Valid() && child.Table().Ready(child.Txn())
    ensures Present(child.Sight()) == old(Present(child.Sight()))
    ensures alone ==> child.Table().Value() == old(child.Table().Value())
    ensures rids == old(RidsOf(child.Remaining())) && rows == old(RowsOf(child.Remaining())) && |rids| == |rows|
    ensures multiset(rows) == old(multiset(SeqScanRows(child.Viewed(), child.Predicate())))
    ensures Distinct(rids) && InSight(child.Sight(), child.Table().info.table, rids, rows, 0)
  {
    ghost var sight, view, slots := child.Sight(), child.Viewed(), child.Ahead();
    FreshHits(child.Table().info.table, view, child.Predicate(), slots);
    var hits := PollExecutor(child, _ => batchSize, alone);
    rids, rows := Split(hits);
    PadTwice(view, |sight|, child.Table().slots);
    PadStart(sight, child.Sight());
    HitsAreChildRows(hits, child.Table().info.table, view, slots, child.Sight());
  }

  /** The update of the rows that a scan has found is accepted. */
  ghost predicate AcceptedHits(p: Pk, t: TxnId, hits: seq<Hit>, exprs: seq<Expr>) {
    var rids, rows := RidsOf(hits), RowsOf(hits);
    |rids| == |rows| &&
    var targets := NewRows(exprs, rows);
    Accepted(p, t, rids, targets, Moved(p.info, rids, rows, targets))
  }

  /** Hits as the two parallel lists of rows and record ids. */
  method Split(hits: seq<Hit>) returns (rids: seq<Rid>, rows: seq<Row>)
    ensures rids == RidsOf(hits) && rows == RowsOf(hits) && |rids| == |rows|
    ensures forall i :: 0 <= i < |hits| ==> rows[i] == hits[i].row
  {
    rids, rows := [], [];
    for i := 0 to |hits|
      invariant |rids| == |rows| == i && rows == RowsOf(hits[..i])
      invariant forall k :: 0 <= k < i ==> rids[k] == hits[k].rid && rows[k] == hits[k].row
    {
      assert hits[..i + 1] == hits[..i] + [hits[i]];
      FlatMapAppend(RowOf(), hits[..i], [hits[i]]);
      FlatMapSingle(RowOf(), hits[i]);
      rids, rows := rids + [hits[i].rid], rows + [hits[i].row];
    }
    assert hits[..|hits|] == hits;
  }

  /** What a scan found in a view is in sight in the view as it has become since. */
  lemma HitsAreChildRows(hits: seq<Hit>, table: nat, view: seq<Option<Row>>, slots: seq<nat>, now: seq<Option<Row>>)
    requires AllShown(hits, table, view, slots) && DistinctRids(hits) && |view| <= |now| && now == Pad(view, |now|)
    requires |RowsOf(hits)| == |hits| && forall i :: 0 <= i < |hits| ==> RowsOf(hits)[i] == hits[i].row
    ensures Distinct(RidsOf(hits)) && InSight(now, table, RidsOf(hits), RowsOf(hits), 0)
  {
    forall i | 0 <= i < |hits|
      ensures hits[i].rid.table == table && hits[i].rid.slot < |now| && now[hits[i].rid.slot] == Some(hits[i].row)
    {
      assert hits[i] in hits;
      assert now[..|view|][hits[i].rid.slot] == view[hits[i].rid.slot];
    }
  }
}
