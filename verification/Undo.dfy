/**
 * Column-delta undo logs. An undo log stores only the columns that the writer changed, packed
 * side by side, with one flag per column that says which columns are present.
 */
module Undo {
  import opened Sql

  /** Where the previous version of a row lives: log `idx` in the buffer of transaction `txn`. */
  datatype Link = NoLink | Link(txn: int, idx: nat)

  datatype UndoLog = UndoLog(deleted: bool, fields: seq<bool>, packed: Row, ts: int, prev: Link)

  /** The number of columns present among the first `i`. */
  function Rank(fields: seq<bool>, i: nat): (r: nat)
    requires i <= |fields|
    ensures r <= i
  {
    if i == 0 then 0 else Rank(fields, i - 1) + (if fields[i - 1] then 1 else 0)
  }

  lemma {:induction false} RankMonotone(fields: seq<bool>, i: nat, j: nat)
    requires i <= j <= |fields|
    ensures Rank(fields, i) <= Rank(fields, j)
  {
    if i < j {
      RankMonotone(fields, i, j - 1);
    }
  }

  /** Well formed for a table of `width` columns; a tombstone image carries no column. */
  ghost predicate WellFormed(log: UndoLog, width: nat) {
    && |log.fields| == width
    && |log.packed| == Rank(log.fields, width)
    && (log.deleted ==> forall i :: 0 <= i < width ==> !log.fields[i])
  }

  /** The log carries every column, so it can be applied to any row bytes. */
  ghost predicate Full(log: UndoLog) {
    forall i :: 0 <= i < |log.fields| ==> log.fields[i]
  }

  /** The value the log carries for column `i`. */
  function Field(log: UndoLog, i: nat): Value
    requires i < |log.fields| && |log.packed| == Rank(log.fields, |log.fields|) && log.fields[i]
  {
    RankMonotone(log.fields, i + 1, |log.fields|);
    log.packed[Rank(log.fields, i)]
  }

  /** The row one version back: carried columns come from the log, the others stay. */
  function Restore(row: Row, log: UndoLog): (r: Row)
    requires |log.fields| == |row| && |log.packed| == Rank(log.fields, |row|)
    ensures |r| == |row|
  {
    seq(|row|, i requires 0 <= i < |row| => if log.fields[i] then Field(log, i) else row[i])
  }

  // ----- building logs -----------------------------------------------------------------------

  /** The columns of `row` picked by `fields`, packed in column order. */
  function Pack(row: Row, fields: seq<bool>, n: nat): (p: Row)
    requires n <= |fields| == |row|
    ensures |p| == Rank(fields, n)
  {
    if n == 0 then []
    else Pack(row, fields, n - 1) + (if fields[n - 1] then [row[n - 1]] else [])
  }

  lemma {:induction false} PackAt(row: Row, fields: seq<bool>, n: nat, i: nat)
    requires i < n <= |fields| == |row| && fields[i]
    ensures Rank(fields, i) < |Pack(row, fields, n)|
    ensures Pack(row, fields, n)[Rank(fields, i)] == row[i]
  {
    RankMonotone(fields, i + 1, n);
    if i < n - 1 {
      PackAt(row, fields, n - 1, i);
    }
  }

  /** Which columns the first edit of a row must remember. */
  function Changed(base: Row, target: Option<Row>): (f: seq<bool>)
    requires target.Some? ==> |target.value| == |base|
    ensures |f| == |base|
  {
    seq(|base|, i requires 0 <= i < |base| => target.None? || !ExactlyEquals(base[i], target.value[i]))
  }

  /** The undo log of a transaction's first edit of a row; `None` stands for a deleted row. */
  function NewLog(width: nat, base: Option<Row>, target: Option<Row>, ts: int, prev: Link): (log: UndoLog)
    requires base.Some? ==> |base.value| == width
    requires target.Some? ==> |target.value| == width
    ensures WellFormed(log, width)
  {
    match base
    case None =>
      var none := seq(width, _ => false);
      RankOfNone(none, width);
      UndoLog(true, none, [], ts, prev)
    case Some(b) =>
      var fields := Changed(b, target);
      UndoLog(false, fields, Pack(b, fields, width), ts, prev)
  }

  lemma {:induction false} RankOfNone(fields: seq<bool>, i: nat)
    requires i <= |fields| && forall k :: 0 <= k < |fields| ==> !fields[k]
    ensures Rank(fields, i) == 0
  {
    if i > 0 {
      RankOfNone(fields, i - 1);
    }
  }

  /** Which columns the log must carry after one more edit by the same transaction. */
  function Widened(log: UndoLog, base: Option<Row>, target: Option<Row>): (f: seq<bool>)
    requires base.Some? ==> |base.value| == |log.fields|
    requires target.Some? ==> |target.value| == |log.fields|
    ensures |f| == |log.fields|
  {
    seq(|log.fields|, i requires 0 <= i < |log.fields| =>
      log.fields[i] || (base.Some? && (target.None? || !ExactlyEquals(base.value[i], target.value[i]))))
  }

  /** The log that replaces `log` when its own transaction edits the row again. */
  function UpdatedLog(log: UndoLog, base: Option<Row>, target: Option<Row>): (r: UndoLog)
    requires WellFormed(log, |log.fields|)
    requires base.Some? ==> |base.value| == |log.fields|
    requires target.Some? ==> |target.value| == |log.fields|
    ensures WellFormed(r, |log.fields|)
  {
    if log.deleted then log
    else
      var fields := Widened(log, base, target);
      // with no live base the flags do not grow, and any row of the right width will do
      var source := if base.Some? then base.value else seq(|log.fields|, _ => Null);
      UndoLog(false, fields, Pack(Restore(source, log), fields, |fields|), log.ts, log.prev)
  }

  // ----- the round trip ----------------------------------------------------------------------

  lemma ExactlyEqualsIsEquality(a: Value, b: Value)
    ensures ExactlyEquals(a, b) <==> a == b
  {
  }

  /** Undoing a first edit gives back the base row, whatever the edit left in the heap. */
  lemma NewLogRestores(base: Row, target: Option<Row>, heapRow: Row, ts: int, prev: Link)
    requires |heapRow| == |base|
    requires target.Some? ==> target.value == heapRow
    ensures Restore(heapRow, NewLog(|base|, Some(base), target, ts, prev)) == base
    ensures target.None? ==> Full(NewLog(|base|, Some(base), target, ts, prev))
  {
    var log := NewLog(|base|, Some(base), target, ts, prev);
    forall i | 0 <= i < |base|
      ensures Restore(heapRow, log)[i] == base[i]
    {
      if log.fields[i] {
        PackAt(base, log.fields, |base|, i);
      } else {
        ExactlyEqualsIsEquality(base[i], heapRow[i]);
      }
    }
  }

  /** A full log restores the same row from any bytes. */
  lemma FullRestores(log: UndoLog, a: Row, b: Row)
    requires WellFormed(log, |a|) && |a| == |b| && Full(log)
    ensures Restore(a, log) == Restore(b, log)
  {
    forall i | 0 <= i < |a|
      ensures Restore(a, log)[i] == Restore(b, log)[i]
    {
    }
  }

  /** What one more edit does to a live log: flags only grow, and every carried column is the original's. */
  lemma UpdatedLogCarries(log: UndoLog, base: Option<Row>, target: Option<Row>, original: Row, i: nat)
    requires WellFormed(log, |original|) && !log.deleted
    requires base.Some? ==> |base.value| == |original| && Restore(base.value, log) == original
    requires base.None? ==> Full(log) && forall r: Row :: |r| == |original| ==> Restore(r, log) == original
    requires target.Some? ==> |target.value| == |original|
    requires i < |original|
    ensures log.fields[i] ==> UpdatedLog(log, base, target).fields[i]
    ensures UpdatedLog(log, base, target).fields[i] ==> Field(UpdatedLog(log, base, target), i) == original[i]
    ensures !UpdatedLog(log, base, target).fields[i] && base.Some? && target.Some? ==>
              target.value[i] == base.value[i] == original[i]
  {
    var fields := Widened(log, base, target);
    if fields[i] {
      PackAt(original, fields, |fields|, i);
    } else if base.Some? && target.Some? {
      ExactlyEqualsIsEquality(base.value[i], target.value[i]);
      assert Restore(base.value, log)[i] == base.value[i];
    }
  }

  /**
   * The replaced log still restores the original row from the new heap row, and from every stale
   * copy of the heap row from which the old log restored it. `heapRow` is what the edit leaves in
   * the heap: the target, or on deletion the bytes that were there.
   */
  lemma UpdatedLogRestores(log: UndoLog, base: Option<Row>, target: Option<Row>, heapRow: Row, original: Row)
    requires WellFormed(log, |original|) && !log.deleted && |heapRow| == |original|
    requires base.Some? ==> |base.value| == |original| && Restore(base.value, log) == original
    requires base.None? ==> Full(log) && Restore(heapRow, log) == original
    requires target.Some? ==> |target.value| == |original|
    requires Restore(heapRow, log) == original || target == Some(heapRow)
    ensures Restore(heapRow, UpdatedLog(log, base, target)) == original
    ensures Full(log) || (target.None? && base.Some?) ==> Full(UpdatedLog(log, base, target))
  {
    var up := UpdatedLog(log, base, target);
    if base.None? {
      forall r: Row | |r| == |original|
        ensures Restore(r, log) == original
      {
        FullRestores(log, r, heapRow);
      }
    }
    forall i | 0 <= i < |original|
      ensures Restore(heapRow, up)[i] == original[i]
    {
      UpdatedLogCarries(log, base, target, original, i);
      if !up.fields[i] && target != Some(heapRow) {
        assert Restore(heapRow, log)[i] == heapRow[i];
      }
    }
  }

  // ----- the loops of the source ---------------------------------------------------------------

  /** Apply every log in turn; the last one decides whether the row exists. */
  function Reconstruct(base: Row, deleted: bool, logs: seq<UndoLog>): Option<Row>
    requires forall k :: 0 <= k < |logs| ==> WellFormed(logs[k], |base|)
  {
    var (row, gone) := Applied(base, deleted, logs);
    if gone then None else Some(row)
  }

  /** Reconstruction from one more log starts where the others left off. */
  lemma {:induction false} ReconstructSplit(base: Row, deleted: bool, logs: seq<UndoLog>, row: Row, gone: bool,
    log: UndoLog)
    requires forall k :: 0 <= k < |logs| ==> WellFormed(logs[k], |base|)
    requires WellFormed(log, |base|)
    requires Applied(base, deleted, logs) == (row, gone)
    ensures Applied(base, deleted, logs + [log]) == (Restore(row, log), log.deleted)
    decreases |logs|
  {
    if logs != [] {
      assert WellFormed(logs[0], |base|);
      assert (logs + [log])[1..] == logs[1..] + [log];
      ReconstructSplit(Restore(base, logs[0]), logs[0].deleted, logs[1..], row, gone, log);
    }
  }

  /** The row bytes and the tombstone flag after applying every log. */
  function Applied(base: Row, deleted: bool, logs: seq<UndoLog>): (r: (Row, bool))
    requires forall k :: 0 <= k < |logs| ==> WellFormed(logs[k], |base|)
    ensures |r.0| == |base|
    decreases |logs|
  {
    if logs == [] then (base, deleted)
    else
      assert WellFormed(logs[0], |base|);
      Applied(Restore(base, logs[0]), logs[0].deleted, logs[1..])
  }

  lemma ReconstructOne(base: Row, deleted: bool, log: UndoLog)
    requires WellFormed(log, |base|)
    ensures Reconstruct(base, deleted, [log]) == if log.deleted then None else Some(Restore(base, log))
  {
    assert [log][1..] == [];
    assert Applied(base, deleted, [log]) == Applied(Restore(base, log), log.deleted, []);
  }

  /** One pass over the columns: unpack the carried columns of `log` into `row`. */
  method ApplyLog(row: Row, log: UndoLog) returns (values: Row)
    requires WellFormed(log, |row|)
    ensures values == Restore(row, log)
  {
    values := row;
    var index := 0;
    for i := 0 to |row|
      invariant |values| == |row| && index == Rank(log.fields, i)
      invariant forall k :: 0 <= k < i ==> values[k] == Restore(row, log)[k]
      invariant forall k :: i <= k < |row| ==> values[k] == row[k]
    {
      if log.fields[i] {
        RankMonotone(log.fields, i + 1, |row|);
        values := values[i := log.packed[index]];
        index := index + 1;
      }
    }
  }

  method ReconstructTuple(base: Row, deleted: bool, logs: seq<UndoLog>) returns (tuple: Option<Row>)
    requires forall k :: 0 <= k < |logs| ==> WellFormed(logs[k], |base|)
    ensures tuple == Reconstruct(base, deleted, logs)
  {
    var values, gone := base, deleted;
    for n := 0 to |logs|
      invariant |values| == |base|
      invariant Applied(base, deleted, logs) == Applied(values, gone, logs[n..])
    {
      assert logs[n..][1..] == logs[n + 1..];
      values := ApplyLog(values, logs[n]);
      gone := logs[n].deleted;
    }
    tuple := if gone then None else Some(values);
  }

  method GenerateNewUndoLog(width: nat, base: Option<Row>, target: Option<Row>, ts: int, prev: Link)
    returns (log: UndoLog)
    requires base.Some? ==> |base.value| == width
    requires target.Some? ==> |target.value| == width
    ensures log == NewLog(width, base, target, ts, prev)
  {
    var modified: seq<bool> := seq(width, _ => false);
    var values: Row := [];
    if base.Some? {
      ghost var fields := Changed(base.value, target);
      for i := 0 to width
        invariant |modified| == width
        invariant forall k :: 0 <= k < i ==> modified[k] == fields[k]
        invariant forall k :: i <= k < width ==> !modified[k]
        invariant values == Pack(base.value, fields, i)
      {
        if target.None? || !ExactlyEquals(base.value[i], target.value[i]) {
          modified := modified[i := true];
          values := values + [base.value[i]];
        }
      }
      assert modified == fields;
    }
    log := UndoLog(base.None?, modified, values, ts, prev);
  }

  method GenerateUpdatedUndoLog(base: Option<Row>, target: Option<Row>, log: UndoLog) returns (updated: UndoLog)
    requires WellFormed(log, |log.fields|)
    requires base.Some? ==> |base.value| == |log.fields|
    requires target.Some? ==> |target.value| == |log.fields|
    ensures updated == UpdatedLog(log, base, target)
  {
    if log.deleted {
      return log;
    }
    var modified := log.fields;
    var values: Row := [];
    var oldIndex := 0;
    ghost var fields := Widened(log, base, target);
    ghost var source := if base.Some? then base.value else seq(|log.fields|, _ => Null);
    for i := 0 to |log.fields|
      invariant |modified| == |log.fields|
      invariant oldIndex == Rank(log.fields, i)
      invariant forall k :: 0 <= k < i ==> modified[k] == fields[k]
      invariant forall k :: i <= k < |modified| ==> modified[k] == log.fields[k]
      invariant values == Pack(Restore(source, log), fields, i)
    {
      if log.fields[i] {
        RankMonotone(log.fields, i + 1, |log.fields|);
        values := values + [log.packed[oldIndex]];
        oldIndex := oldIndex + 1;
      } else if base.Some? && (target.None? || !ExactlyEquals(base.value[i], target.value[i])) {
        modified := modified[i := true];
        values := values + [base.value[i]];
      }
    }
    assert modified == fields;
    updated := UndoLog(false, modified, values, log.ts, log.prev);
  }

  // ----- any number of edits by one transaction ------------------------------------------------

  /** One edit: the row to write, or nothing for a deletion. */
  type Edit = Option<Row>

  /** The heap row after an edit: a deletion leaves the old bytes behind a tombstone. */
  function Written(row: Row, edit: Edit): Row {
    if edit.Some? then edit.value else row
  }

  /** The single log left by a transaction that edits one row again and again. */
  function LogAfter(log: UndoLog, row: Row, deleted: bool, edits: seq<Edit>): UndoLog
    requires WellFormed(log, |row|)
    requires forall k :: 0 <= k < |edits| && edits[k].Some? ==> |edits[k].value| == |row|
    decreases |edits|
  {
    if edits == [] then log
    else
      LogAfter(UpdatedLog(log, if deleted then None else Some(row), edits[0]),
               Written(row, edits[0]), edits[0].None?, edits[1..])
  }

  /** The heap row left by the same edits. */
  function RowAfter(row: Row, edits: seq<Edit>): Row
    decreases |edits|
  {
    if edits == [] then row else RowAfter(Written(row, edits[0]), edits[1..])
  }

  /**
   * Undo round trip. Whatever a transaction does to a live row after its first edit, its one log
   * gives back the original from the final heap bytes, and carries every column if the row ended deleted.
   */
  lemma {:induction false} EditsRoundTrip(log: UndoLog, row: Row, deleted: bool, edits: seq<Edit>, original: Row)
    requires WellFormed(log, |row|) && |original| == |row|
    requires forall k :: 0 <= k < |edits| && edits[k].Some? ==> |edits[k].value| == |row|
    requires !log.deleted && Restore(row, log) == original && (deleted ==> Full(log))
    ensures var last := LogAfter(log, row, deleted, edits);
            var bytes := RowAfter(row, edits);
            && WellFormed(last, |row|) && !last.deleted && last.ts == log.ts && last.prev == log.prev
            && |bytes| == |row| && Restore(bytes, last) == original
            && (edits != [] && edits[|edits| - 1].None? ==> Full(last))
    decreases |edits|
  {
    if edits != [] {
      var base := if deleted then None else Some(row);
      var next := UpdatedLog(log, base, edits[0]);
      var bytes := Written(row, edits[0]);
      if deleted {
        FullRestores(log, bytes, row);
      }
      UpdatedLogRestores(log, base, edits[0], bytes, original);
      EditsRoundTrip(next, bytes, edits[0].None?, edits[1..], original);
    }
  }

  /** The whole life of one row inside one transaction, from its first edit on. */
  lemma FirstEditRoundTrip(original: Row, edits: seq<Edit>, ts: int, prev: Link)
    requires edits != [] && forall k :: 0 <= k < |edits| && edits[k].Some? ==> |edits[k].value| == |original|
    ensures var first := NewLog(|original|, Some(original), edits[0], ts, prev);
            var bytes := Written(original, edits[0]);
            var last := LogAfter(first, bytes, edits[0].None?, edits[1..]);
            && last.ts == ts && last.prev == prev
            && WellFormed(last, |original|) && |RowAfter(bytes, edits[1..])| == |original|
            && Reconstruct(RowAfter(bytes, edits[1..]), edits[|edits| - 1].None?, [last]) == Some(original)
  {
    var bytes := Written(original, edits[0]);
    NewLogRestores(original, edits[0], bytes, ts, prev);
    var first := NewLog(|original|, Some(original), edits[0], ts, prev);
    EditsRoundTrip(first, bytes, edits[0].None?, edits[1..], original);
    ReconstructOne(RowAfter(bytes, edits[1..]), edits[|edits| - 1].None?,
      LogAfter(first, bytes, edits[0].None?, edits[1..]));
  }

  // ----- no more than needed -------------------------------------------------------------------------

  /** A first log carries a column exactly if the edit changed it or deleted the row, and over a deletion none. */
  lemma NewLogCarries(width: nat, base: Option<Row>, target: Option<Row>, ts: int, prev: Link, i: nat)
    requires (base.Some? ==> |base.value| == width) && (target.Some? ==> |target.value| == width) && i < width
    ensures var log := NewLog(width, base, target, ts, prev);
      && log.deleted == base.None? && log.ts == ts && log.prev == prev
      && (log.fields[i] <==> base.Some? && (target.None? || base.value[i] != target.value[i]))
      && (log.fields[i] ==> Field(log, i) == base.value[i])
  {
    if base.Some? {
      if target.Some? { ExactlyEqualsIsEquality(base.value[i], target.value[i]); }
      var fields := Changed(base.value, target);
      if fields[i] { PackAt(base.value, fields, width, i); }
    }
  }

  /** The edit changes the column, or deletes the row from under it. */
  predicate Touches(row: Row, deleted: bool, edit: Edit, i: nat)
    requires i < |row| && (edit.Some? ==> |edit.value| == |row|)
  {
    !deleted && (edit.None? || edit.value[i] != row[i])
  }

  lemma UpdatedLogAdds(log: UndoLog, row: Row, deleted: bool, edit: Edit, i: nat)
    requires WellFormed(log, |row|) && i < |row| && (edit.Some? ==> |edit.value| == |row|) && !log.deleted
    ensures var next := UpdatedLog(log, if deleted then None else Some(row), edit);
      next.fields[i] <==> log.fields[i] || Touches(row, deleted, edit, i)
  {
    if edit.Some? { ExactlyEqualsIsEquality(row[i], edit.value[i]); }
  }

  predicate EverTouched(row: Row, deleted: bool, edits: seq<Edit>, i: nat)
    requires i < |row| && forall k :: 0 <= k < |edits| && edits[k].Some? ==> |edits[k].value| == |row|
    decreases |edits|
  {
    edits != []
    && (Touches(row, deleted, edits[0], i) || EverTouched(Written(row, edits[0]), edits[0].None?, edits[1..], i))
  }

  /** After any edits the log carries a column exactly if it did so before or one of the edits touched it. */
  lemma {:induction false} EditsCarry(log: UndoLog, row: Row, deleted: bool, edits: seq<Edit>, i: nat)
    requires WellFormed(log, |row|) && !log.deleted && i < |row|
    requires forall k :: 0 <= k < |edits| && edits[k].Some? ==> |edits[k].value| == |row|
    ensures |LogAfter(log, row, deleted, edits).fields| == |row|
    ensures LogAfter(log, row, deleted, edits).fields[i] <==> log.fields[i] || EverTouched(row, deleted, edits, i)
    decreases |edits|
  {
    if edits != [] {
      UpdatedLogAdds(log, row, deleted, edits[0], i);
      var next := UpdatedLog(log, if deleted then None else Some(row), edits[0]);
      EditsCarry(next, Written(row, edits[0]), edits[0].None?, edits[1..], i);
    }
  }
}
