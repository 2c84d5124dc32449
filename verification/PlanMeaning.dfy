/** How many times each row comes out of a filter, a projection, a scan and a join, counted the plain way. */
module PlanMeaning {
  import opened Sql
  import opened Bags
  import opened Joins
  import opened Plans

  /** A filter keeps a row, as often as it comes in, exactly if the condition is true of it. */
  lemma {:induction false} FilteredCount(condition: Expr, rows: seq<Row>, x: Row)
    ensures multiset(Filtered(condition, rows))[x] ==
            if Evaluate(condition, x) == Bool(true) then multiset(rows)[x] else 0
    decreases |rows|
  {
    if rows != [] {
      FilteredCount(condition, rows[1..], x);
      assert rows == [rows[0]] + rows[1..];
    }
  }

  lemma {:induction false} ProjectedEach(exprs: seq<Expr>, rows: seq<Row>)
    ensures var out := FlatMap(Projecting(exprs), rows);
      |out| == |rows| && forall i :: 0 <= i < |rows| ==> out[i] == MakeKey(exprs, rows[i])
    decreases |rows|
  {
    if rows != [] {
      ProjectedEach(exprs, rows[1..]);
      assert FlatMap(Projecting(exprs), rows) == [MakeKey(exprs, rows[0])] + FlatMap(Projecting(exprs), rows[1..]);
    }
  }

  /** A projection gives one row for each, in order, with the value of each expression in its column. */
  lemma ProjectedRows(exprs: seq<Expr>, rows: seq<Row>, i: nat, j: nat)
    requires i < |rows| && j < |exprs|
    ensures var out := FlatMap(Projecting(exprs), rows);
      |out| == |rows| && |out[i]| == |exprs| && out[i][j] == Evaluate(exprs[j], rows[i])
  {
    ProjectedEach(exprs, rows);
  }

  /** In how many of the first `n` slots the row is. */
  function SlotCount(slots: seq<Option<Row>>, n: nat, x: Row): nat
    requires n <= |slots|
  {
    if n == 0 then 0 else SlotCount(slots, n - 1, x) + if slots[n - 1] == Some(x) then 1 else 0
  }

  /** A scan returns a row once for each slot that shows it, exactly if there is no filter or it is true of the row. */
  lemma ScannedCount(slots: seq<Option<Row>>, filter: Option<Expr>, x: Row)
    ensures multiset(SeqScanRows(slots, filter))[x] ==
            if filter.None? || Evaluate(filter.value, x) == Bool(true) then SlotCount(slots, |slots|, x) else 0
  {
    ScannedTo(slots, filter, |slots|, x);
  }

  /** The rows that a scan finds in the first `n` slots. */
  ghost function FirstRows(slots: seq<Option<Row>>, filter: Option<Expr>, n: nat): seq<Row> {
    FlatMap(Scanning(slots, filter), UpTo(n))
  }

  lemma {:induction false} ScannedTo(slots: seq<Option<Row>>, filter: Option<Expr>, n: nat, x: Row)
    requires n <= |slots|
    ensures multiset(FirstRows(slots, filter, n))[x] ==
            if filter.None? || Evaluate(filter.value, x) == Bool(true) then SlotCount(slots, n, x) else 0
  {
    if n > 0 {
      ScannedTo(slots, filter, n - 1, x);
      ScanNextCount(slots, filter, n - 1, x);
    } else {
      assert UpTo(0) == [];
    }
  }

  lemma ScanNextCount(slots: seq<Option<Row>>, filter: Option<Expr>, n: nat, x: Row)
    requires n < |slots|
    ensures multiset(FirstRows(slots, filter, n + 1))[x] ==
            multiset(FirstRows(slots, filter, n))[x]
            + if (filter.None? || Evaluate(filter.value, x) == Bool(true)) && slots[n] == Some(x) then 1 else 0
  {
    ScanNext(slots, filter, n);
    OneSlot(slots, filter, n, x);
  }

  lemma ScanNext(slots: seq<Option<Row>>, filter: Option<Expr>, n: nat)
    requires n < |slots|
    ensures FirstRows(slots, filter, n + 1) == FirstRows(slots, filter, n) + Scanning(slots, filter)(n)
  {
    assert UpTo(n + 1) == UpTo(n) + [n];
    FlatMapAppend<nat, Row>(Scanning(slots, filter), UpTo(n), [n]);
    FlatMapSingle<nat, Row>(Scanning(slots, filter), n);
  }

  lemma OneSlot(slots: seq<Option<Row>>, filter: Option<Expr>, n: nat, x: Row)
    requires n < |slots|
    ensures multiset(Scanning(slots, filter)(n))[x] ==
            if (filter.None? || Evaluate(filter.value, x) == Bool(true)) && slots[n] == Some(x) then 1 else 0
  {
  }

  // ----- joins -----------------------------------------------------------------------------------------------

  /** Over how many right rows the left row and its match make `x`. */
  function PairCount(m: Matcher, l: Row, right: seq<Row>, x: Row): nat {
    if right == [] then 0
    else (if m(l, right[0]) && x == l + right[0] then 1 else 0) + PairCount(m, l, right[1..], x)
  }

  function Partnered(m: Matcher, l: Row, right: seq<Row>): bool {
    exists i :: 0 <= i < |right| && m(l, right[i])
  }

  /** Over how many pairs, and for a left join partnerless left rows, the join's row is `x`. */
  function JoinCount(kind: JoinType, m: Matcher, width: nat, left: seq<Row>, right: seq<Row>, x: Row): nat {
    if left == [] then 0
    else
      PairCount(m, left[0], right, x)
      + (if kind == LeftOuter && !Partnered(m, left[0], right) && x == left[0] + NullRow(width) then 1 else 0)
      + JoinCount(kind, m, width, left[1..], right, x)
  }

  lemma {:induction false} PairsCount(m: Matcher, l: Row, right: seq<Row>, x: Row)
    ensures multiset(Pairs(m, l, right))[x] == PairCount(m, l, right, x)
    decreases |right|
  {
    if right != [] { PairsCount(m, l, right[1..], x); }
  }

  lemma FinishCount(kind: JoinType, m: Matcher, width: nat, l: Row, right: seq<Row>, x: Row)
    ensures multiset(Finish(kind, m, width, l, right, false))[x] ==
            PairCount(m, l, right, x)
            + if kind == LeftOuter && !Partnered(m, l, right) && x == l + NullRow(width) then 1 else 0
  {
    PairsCount(m, l, right, x);
    PairsEmpty(m, l, right);
    if Partnered(m, l, right) {
      var i :| 0 <= i < |right| && m(l, right[i]);
      assert right[i] in right;
    }
  }

  /** A join emits each row as often as the pairs that make it, and partnerless left rows padded with NULLs. */
  lemma {:induction false} JoinedCount(
      kind: JoinType, m: Matcher, width: nat, left: seq<Row>, right: seq<Row>, x: Row)
    ensures multiset(Joined(kind, m, width, left, right))[x] == JoinCount(kind, m, width, left, right, x)
    decreases |left|
  {
    if left != [] {
      JoinedCount(kind, m, width, left[1..], right, x);
      FinishCount(kind, m, width, left[0], right, x);
    }
  }
}
