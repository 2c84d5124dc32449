/** The batch-at-a-time join executors. Between calls they owe a sequence of rows; each call pays its front. */
module JoinExecutors {
  import opened Sql
  import opened Bags
  import opened Joins

  /** A child executor: it hands out its rows in order, in non-empty batches of any size, and can start over. */
  class Source {
    const width: nat
    const rows: seq<Row>
    var rest: seq<Row>

    ghost predicate Valid()
      reads this
    {
      && AllWide(rows, width)
      && AllWide(rest, width)
    }

    constructor (width: nat, rows: seq<Row>)
      requires AllWide(rows, width)
      ensures Valid() && this.width == width && this.rows == rows && rest == rows
    {
      this.width, this.rows, this.rest := width, rows, rows;
    }

    method Init()
      requires Valid()
      modifies this
      ensures Valid() && rest == rows
    {
      rest := rows;
    }

    method Next() returns (batch: seq<Row>, ok: bool)
      requires Valid()
      modifies this
      ensures Valid() && ok == (batch != []) && batch + rest == old(rest)
      ensures !ok ==> rest == []
      ensures AllWide(batch, width)
    {
      if rest == [] {
        return [], false;
      }
      assert 1 <= |rest|;
      var n :| 1 <= n <= |rest|;
      batch, ok := rest[..n], true;
      rest := rest[n..];
    }
  }

  /** Copy the columns of both sides, NULLs where there is no right row. */
  method BuildJoinTuple(leftWidth: nat, rightWidth: nat, left: Row, right: Option<Row>) returns (row: Row)
    requires |left| == leftWidth && (right.Some? ==> |right.value| == rightWidth)
    ensures row == left + if right.Some? then right.value else NullRow(rightWidth)
  {
    row := [];
    for i := 0 to leftWidth
      invariant row == left[..i]
    {
      row := row + [left[i]];
    }
    for i := 0 to rightWidth
      invariant row == left + (if right.Some? then right.value else NullRow(rightWidth))[..i]
    {
      row := row + [if right.Some? then right.value[i] else Null];
    }
  }

  lemma Associates(a: seq<Row>, b: seq<Row>, c: seq<Row>)
    ensures a + (b + c) == (a + b) + c
  {
  }

  lemma TakeLeft(kind: JoinType, m: Matcher, width: nat, l: Row, leftRest: seq<Row>, right: seq<Row>)
    ensures Joined(kind, m, width, [l] + leftRest, right) ==
            Finish(kind, m, width, l, right, false) + Joined(kind, m, width, leftRest, right)
  {
    FlatMapAppend(JoinRow(kind, m, width, right), [l], leftRest);
  }

  lemma TakeRight(kind: JoinType, m: Matcher, width: nat, l: Row, r: Row, rightRest: seq<Row>, found: bool)
    ensures m(l, r) ==> Finish(kind, m, width, l, [r] + rightRest, found) ==
                        [l + r] + Finish(kind, m, width, l, rightRest, true)
    ensures !m(l, r) ==> Finish(kind, m, width, l, [r] + rightRest, found) ==
                         Finish(kind, m, width, l, rightRest, found)
  {
    FlatMapAppend(Pair(m, l), [r], rightRest);
    FlatMapSingle(Pair(m, l), r);
  }

  /** Nothing more on the right: the padded row of an unmatched left row, or nothing. */
  lemma EndRight(kind: JoinType, m: Matcher, width: nat, l: Row, found: bool)
    ensures Finish(kind, m, width, l, [], found) == if !found && kind == LeftOuter then [l + NullRow(width)] else []
  {
  }

  // ----- nested-loop join -----------------------------------------------------------------------------

  class NestedLoopJoinExecutor {
    const left: Source
    const right: Source
    const condition: Option<Expr>
    const kind: JoinType
    var leftTuples: seq<Row>
    var leftIdx: nat
    var rightTuples: seq<Row>
    var rightIdx: nat
    var hasCurrentLeft: bool
    var currentLeft: Row
    var currentMatchFound: bool

    ghost predicate Valid()
      reads this, left, right
    {
      && left != right && left.Valid() && right.Valid()
      && leftIdx <= |leftTuples| && rightIdx <= |rightTuples|
      && AllWide(leftTuples, left.width)
      && AllWide(rightTuples, right.width)
      && (hasCurrentLeft ==> |currentLeft| == left.width)
    }

    ghost function LeftRest(): seq<Row>
      requires Valid()
      reads this, left, right
    {
      leftTuples[leftIdx..] + left.rest
    }

    ghost function RightRest(): seq<Row>
      requires Valid()
      reads this, left, right
    {
      rightTuples[rightIdx..] + right.rest
    }

    /** Owed for the current left row. */
    ghost function Current(): seq<Row>
      requires Valid()
      reads this, left, right
    {
      if hasCurrentLeft then Finish(kind, PredicateMatch(condition), right.width, currentLeft, RightRest(),
        currentMatchFound)
      else []
    }

    /** Owed for the left rows to come. */
    ghost function Later(): seq<Row>
      requires Valid()
      reads this, left, right
    {
      Joined(kind, PredicateMatch(condition), right.width, LeftRest(), right.rows)
    }

    ghost function Remaining(): seq<Row>
      requires Valid()
      reads this, left, right
    {
      Current() + Later()
    }

    constructor (kind: JoinType, condition: Option<Expr>, left: Source, right: Source)
      requires left != right && left.Valid() && right.Valid()
      ensures Valid() && this.kind == kind && this.condition == condition && this.left == left && this.right == right
    {
      this.kind, this.condition, this.left, this.right := kind, condition, left, right;
      leftTuples, leftIdx, rightTuples, rightIdx := [], 0, [], 0;
      hasCurrentLeft, currentLeft, currentMatchFound := false, [], false;
    }

    method Init()
      requires Valid()
      modifies this, left
      ensures Valid()
      ensures Remaining() == Joined(kind, PredicateMatch(condition), right.width, left.rows, right.rows)
    {
      left.Init();
      leftTuples, leftIdx, hasCurrentLeft := [], 0, false;
      assert LeftRest() == left.rows;
    }

    method FetchNextRightTuple() returns (r: Option<Row>)
      requires Valid()
      modifies this`rightTuples, this`rightIdx, right
      ensures Valid()
      ensures r.None? ==> old(RightRest()) == [] && RightRest() == []
      ensures r.Some? ==> old(RightRest()) == [r.value] + RightRest() && |r.value| == right.width
    {
      while rightIdx >= |rightTuples|
        invariant Valid() && RightRest() == old(RightRest())
        decreases |right.rest|
      {
        var batch, ok := right.Next();
        rightTuples, rightIdx := batch, 0;
        if !ok {
          return None;
        }
      }
      r := Some(rightTuples[rightIdx]);
      rightIdx := rightIdx + 1;
    }

    /** Take the next left row, from the next batch if need be; false when there is none. */
    method FetchNextLeftTuple() returns (ok: bool)
      requires Valid() && !hasCurrentLeft
      modifies this`leftTuples, this`leftIdx, this`currentLeft, left
      ensures Valid()
      ensures ok ==> old(LeftRest()) == [currentLeft] + LeftRest() && |currentLeft| == left.width
      ensures !ok ==> old(LeftRest()) == [] && LeftRest() == []
    {
      if leftIdx >= |leftTuples| {
        var batch, more := left.Next();
        leftTuples, leftIdx := batch, 0;
        if !more {
          return false;
        }
      }
      assert old(LeftRest()) == LeftRest();
      currentLeft := leftTuples[leftIdx];
      assert leftTuples[leftIdx..] == [currentLeft] + leftTuples[leftIdx + 1..];
      Associates([currentLeft], leftTuples[leftIdx + 1..], left.rest);
      leftIdx := leftIdx + 1;
      return true;
    }

    /** Move to the next left row and start the right side over; false when there is none. */
    method AdvanceLeft() returns (ok: bool)
      requires Valid() && !hasCurrentLeft
      modifies this, left, right
      ensures Valid() && old(Later()) == Current() + Later()
      ensures !ok ==> Later() == [] && Current() == []
      ensures ok ==> hasCurrentLeft && |LeftRest()| < |old(LeftRest())|
    {
      ok := FetchNextLeftTuple();
      if !ok {
        return;
      }
      RestartRight();
      TakeLeft(kind, PredicateMatch(condition), right.width, currentLeft, LeftRest(), right.rows);
      return true;
    }

    method RestartRight()
      requires Valid() && !hasCurrentLeft && |currentLeft| == left.width
      modifies this`rightTuples, this`rightIdx, this`currentMatchFound, this`hasCurrentLeft, right
      ensures Valid() && RightRest() == right.rows && !currentMatchFound && hasCurrentLeft
    {
      right.Init();
      rightTuples, rightIdx, currentMatchFound, hasCurrentLeft := [], 0, false, true;
      assert RightRest() == right.rows;
    }

    /** One right row, or the end of the right side, for the current left row. */
    method StepRight() returns (out: seq<Row>)
      requires Valid() && hasCurrentLeft
      modifies this, right
      ensures Valid() && out + Current() == old(Current()) && |out| <= 1
      ensures LeftRest() == old(LeftRest())
      ensures !hasCurrentLeft || |RightRest()| < |old(RightRest())|
    {
      ghost var m := PredicateMatch(condition);
      ghost var found := currentMatchFound;
      var next := FetchNextRightTuple();
      out := [];
      if next.None? {
        EndRight(kind, m, right.width, currentLeft, currentMatchFound);
        if !currentMatchFound && kind == LeftOuter {
          var row := BuildJoinTuple(left.width, right.width, currentLeft, None);
          out := [row];
        }
        hasCurrentLeft := false;
        return;
      }
      TakeRight(kind, m, right.width, currentLeft, next.value, RightRest(), found);
      var matches := true;
      if condition.Some? {
        matches := IsTrue(EvaluateJoin(condition.value, currentLeft, next.value));
      }
      if matches {
        var row := BuildJoinTuple(left.width, right.width, currentLeft, Some(next.value));
        out := [row];
        currentMatchFound := true;
      }
    }

    /** The right rows the current left row has yet to meet, plus one for its end. */
    ghost function RightWork(): nat
      requires Valid()
      reads this, left, right
    {
      if hasCurrentLeft then 1 + |RightRest()| else 0
    }

    /** One turn of the loop: at most one row, or the end. */
    method Turn() returns (out: seq<Row>, more: bool)
      requires Valid()
      modifies this, left, right
      ensures Valid() && out + Remaining() == old(Remaining()) && |out| <= 1
      ensures !more ==> out == [] && Remaining() == []
      ensures more ==>
        || |LeftRest()| < |old(LeftRest())|
        || (|LeftRest()| == |old(LeftRest())| && RightWork() < old(RightWork()))
    {
      ghost var owed := Remaining();
      if !hasCurrentLeft {
        more := AdvanceLeft();
        if !more {
          return [], false;
        }
      }
      assert Remaining() == owed;
      ghost var current, later := Current(), Later();
      out := StepRight();
      assert Later() == later;
      Associates(out, Current(), later);
      return out, true;
    }

    /** The next rows owed, as many as asked for, or all that is left. */
    method Next(batchSize: nat) returns (batch: seq<Row>, ok: bool)
      requires Valid()
      modifies this, left, right
      ensures Valid() && batch + Remaining() == old(Remaining())
      ensures |batch| == batchSize || (|batch| < batchSize && Remaining() == [])
      ensures ok <==> batch != []
    {
      batch := [];
      while |batch| < batchSize
        invariant Valid() && batch + Remaining() == old(Remaining()) && |batch| <= batchSize
        decreases |LeftRest()|, RightWork()
      {
        ghost var owed := Remaining();
        var out, more := Turn();
        Associates(batch, out, Remaining());
        batch := batch + out;
        if !more {
          break;
        }
      }
      return batch, batch != [];
    }

    /** Poll to the end, with whatever batch sizes the caller asks for. */
    method Poll(sizes: nat -> nat) returns (result: seq<Row>)
      requires Valid() && forall i :: sizes(i) > 0
      modifies this, left, right
      ensures Valid()
      ensures result == Joined(kind, PredicateMatch(condition), right.width, left.rows, right.rows)
    {
      Init();
      result := [];
      var calls, ok := 0, true;
      while ok
        invariant Valid() && (!ok ==> Remaining() == [])
        invariant result + Remaining() == Joined(kind, PredicateMatch(condition), right.width, left.rows, right.rows)
        decreases ok, |Remaining()|
      {
        var batch;
        ghost var owed := Remaining();
        batch, ok := Next(sizes(calls));
        Associates(result, batch, Remaining());
        result, calls := result + batch, calls + 1;
      }
    }
  }

  // ----- hash join ------------------------------------------------------------------------------------

  /** The right rows stored under one key. */
  datatype Entry = Entry(key: seq<Value>, rows: seq<Row>)

  /** The hash of one value and how hashes combine; the join is right for any choice of the two. */
  datatype Hasher = Hasher(hashValue: Value -> nat, combine: (nat, nat) -> nat)

  function HashKey(h: Hasher, key: seq<Value>): nat {
    if key == [] then 0
    else
      var before := HashKey(h, key[..|key| - 1]);
      var v := key[|key| - 1];
      if v.Null? then before else h.combine(before, h.hashValue(v))
  }

  /** The entry whose key has the same hash and is equal; past the end when there is none. */
  function Find(h: Hasher, table: seq<Entry>, key: seq<Value>): (i: nat)
    ensures i <= |table|
  {
    if table == [] || (HashKey(h, table[0].key) == HashKey(h, key) && KeyEqual(table[0].key, key)) then 0
    else 1 + Find(h, table[1..], key)
  }

  function Stored(h: Hasher, table: seq<Entry>, key: seq<Value>): seq<Row> {
    var i := Find(h, table, key);
    if i < |table| then table[i].rows else []
  }

  function Add(h: Hasher, table: seq<Entry>, key: seq<Value>, row: Row): seq<Entry> {
    var i := Find(h, table, key);
    if i < |table| then table[i := Entry(table[i].key, table[i].rows + [row])] else table + [Entry(key, [row])]
  }

  /** Adding a row shows up under the keys equal to its own, and under no others: a NULL key is never found again. */
  lemma {:induction false} AddStored(h: Hasher, table: seq<Entry>, key: seq<Value>, row: Row, probe: seq<Value>)
    ensures Stored(h, Add(h, table, key, row), probe) ==
            Stored(h, table, probe) + if KeyEqual(probe, key) then [row] else []
    decreases |table|
  {
    KeyEqualIs(probe, key);
    KeyEqualIs(key, probe);
    if table != [] {
      KeyEqualIs(table[0].key, key);
      KeyEqualIs(table[0].key, probe);
      AddStored(h, table[1..], key, row, probe);
      assert Find(h, table, key) != 0 ==> Add(h, table, key, row)[1..] == Add(h, table[1..], key, row);
    }
  }

  function Select(keys: seq<Expr>, probe: seq<Value>): Row -> seq<Row> {
    r => if KeyEqual(probe, MakeKey(keys, r)) then [r] else []
  }

  /** The table after adding these rows one after another. */
  function Build(h: Hasher, keys: seq<Expr>, rows: seq<Row>): seq<Entry> {
    if rows == [] then []
    else
      var last := rows[|rows| - 1];
      Add(h, Build(h, keys, rows[..|rows| - 1]), MakeKey(keys, last), last)
  }

  lemma BuildAdd(h: Hasher, keys: seq<Expr>, rows: seq<Row>, row: Row)
    ensures Build(h, keys, rows + [row]) == Add(h, Build(h, keys, rows), MakeKey(keys, row), row)
  {
    assert (rows + [row])[..|rows|] == rows;
  }

  lemma BuildNext(h: Hasher, keys: seq<Expr>, done: seq<Row>, batch: seq<Row>, i: nat)
    requires i < |batch|
    ensures Build(h, keys, done + batch[..i + 1]) ==
            Add(h, Build(h, keys, done + batch[..i]), MakeKey(keys, batch[i]), batch[i])
  {
    assert done + batch[..i + 1] == done + batch[..i] + [batch[i]];
    BuildAdd(h, keys, done + batch[..i], batch[i]);
  }

  /** Under every key the table holds exactly the rows with an equal key, in order. */
  lemma {:induction false} BuiltRows(h: Hasher, keys: seq<Expr>, rows: seq<Row>, probe: seq<Value>)
    ensures Stored(h, Build(h, keys, rows), probe) == FlatMap(Select(keys, probe), rows)
    decreases |rows|
  {
    if rows != [] {
      var before, row := rows[..|rows| - 1], rows[|rows| - 1];
      assert rows == before + [row];
      BuiltRows(h, keys, before, probe);
      BuiltSnoc(h, keys, before, row, probe);
    }
  }

  lemma BuiltSnoc(h: Hasher, keys: seq<Expr>, before: seq<Row>, row: Row, probe: seq<Value>)
    requires Stored(h, Build(h, keys, before), probe) == FlatMap(Select(keys, probe), before)
    ensures Stored(h, Build(h, keys, before + [row]), probe) == FlatMap(Select(keys, probe), before + [row])
  {
    BuildAdd(h, keys, before, row);
    StoredAfterAdd(h, Build(h, keys, before), keys, before, row, probe);
  }

  lemma StoredAfterAdd(h: Hasher, table: seq<Entry>, keys: seq<Expr>, before: seq<Row>, row: Row, probe: seq<Value>)
    requires Stored(h, table, probe) == FlatMap(Select(keys, probe), before)
    ensures Stored(h, Add(h, table, MakeKey(keys, row), row), probe) == FlatMap(Select(keys, probe), before + [row])
  {
    AddStored(h, table, MakeKey(keys, row), row, probe);
    SelectLast(keys, probe, before, row);
  }

  lemma SelectLast(keys: seq<Expr>, probe: seq<Value>, before: seq<Row>, row: Row)
    ensures FlatMap(Select(keys, probe), before + [row]) ==
            FlatMap(Select(keys, probe), before) + if KeyEqual(probe, MakeKey(keys, row)) then [row] else []
  {
    FlatMapAppend(Select(keys, probe), before, [row]);
    FlatMapSingle(Select(keys, probe), row);
  }

  const ANY: Matcher := (l: Row, r: Row) => true

  lemma {:induction false} FoundPairs(leftKeys: seq<Expr>, rightKeys: seq<Expr>, l: Row, right: seq<Row>)
    ensures Pairs(ANY, l, FlatMap(Select(rightKeys, MakeKey(leftKeys, l)), right)) ==
            Pairs(KeyMatch(leftKeys, rightKeys), l, right)
    decreases |right|
  {
    if right != [] {
      var f := Select(rightKeys, MakeKey(leftKeys, l));
      FoundPairs(leftKeys, rightKeys, l, right[1..]);
      FlatMapAppend(Pair(ANY, l), f(right[0]), FlatMap(f, right[1..]));
      assert f(right[0]) == [right[0]] || f(right[0]) == [];
    }
  }

  /** Emitting every row found under the left row's key is emitting its matches. */
  lemma FoundAreMatches(kind: JoinType, leftKeys: seq<Expr>, rightKeys: seq<Expr>, width: nat, l: Row, right: seq<Row>)
    ensures Finish(kind, ANY, width, l, FlatMap(Select(rightKeys, MakeKey(leftKeys, l)), right), false) ==
            Finish(kind, KeyMatch(leftKeys, rightKeys), width, l, right, false)
  {
    FoundPairs(leftKeys, rightKeys, l, right);
  }

  lemma {:induction false} FilteredWide(f: Row -> seq<Row>, rows: seq<Row>, width: nat)
    requires AllWide(rows, width) && forall r :: f(r) == [r] || f(r) == []
    ensures AllWide(FlatMap(f, rows), width)
    decreases |rows|
  {
    if rows != [] {
      FilteredWide(f, rows[1..], width);
    }
  }

  /** Looking up a left row's key finds what it has to be joined with. */
  lemma FoundUnderKey(
      kind: JoinType, h: Hasher, leftKeys: seq<Expr>, rightKeys: seq<Expr>, width: nat, l: Row, right: seq<Row>)
    requires AllWide(right, width)
    ensures var found := Stored(h, Build(h, rightKeys, right), MakeKey(leftKeys, l));
      && AllWide(found, width)
      && Finish(kind, ANY, width, l, found, false) ==
        Finish(kind, KeyMatch(leftKeys, rightKeys), width, l, right, false)
  {
    BuiltRows(h, rightKeys, right, MakeKey(leftKeys, l));
    FilteredWide(Select(rightKeys, MakeKey(leftKeys, l)), right, width);
    FoundAreMatches(kind, leftKeys, rightKeys, width, l, right);
  }

  class HashJoinExecutor {
    const left: Source
    const right: Source
    const leftKeys: seq<Expr>
    const rightKeys: seq<Expr>
    const kind: JoinType
    const hasher: Hasher
    var hashTable: seq<Entry>
    var leftTuples: seq<Row>
    var leftIdx: nat
    var hasCurrentLeft: bool
    var currentLeft: Row
    var currentMatches: Option<seq<Row>>
    var matchIdx: nat
    var currentMatchFound: bool

    ghost predicate Valid()
      reads this, left, right
    {
      && left != right && left.Valid() && right.Valid()
      && leftIdx <= |leftTuples|
      && AllWide(leftTuples, left.width)
      && (hasCurrentLeft ==>
            && |currentLeft| == left.width
            && (currentMatches.Some?
              ==> matchIdx <= |currentMatches.value| && AllWide(currentMatches.value, right.width)))
    }

    /** The build phase is over. */
    ghost predicate Ready()
      reads this
    {
      hashTable == Build(hasher, rightKeys, right.rows)
    }

    ghost function LeftRest(): seq<Row>
      requires Valid()
      reads this, left, right
    {
      leftTuples[leftIdx..] + left.rest
    }

    ghost function MatchRest(): seq<Row>
      requires Valid() && hasCurrentLeft
      reads this, left, right
    {
      if currentMatches.Some? then currentMatches.value[matchIdx..] else []
    }

    /** Owed for the current left row. */
    ghost function Current(): seq<Row>
      requires Valid()
      reads this, left, right
    {
      if hasCurrentLeft then Finish(kind, ANY, right.width, currentLeft, MatchRest(), currentMatchFound) else []
    }

    /** Owed for the left rows to come. */
    ghost function Later(): seq<Row>
      requires Valid()
      reads this, left, right
    {
      Joined(kind, KeyMatch(leftKeys, rightKeys), right.width, LeftRest(), right.rows)
    }

    ghost function Remaining(): seq<Row>
      requires Valid()
      reads this, left, right
    {
      Current() + Later()
    }

    constructor (kind: JoinType, leftKeys: seq<Expr>, rightKeys: seq<Expr>, left: Source, right: Source, hasher: Hasher)
      requires left != right && left.Valid() && right.Valid()
      ensures Valid() && this.kind == kind && this.left == left && this.right == right
      ensures this.leftKeys == leftKeys && this.rightKeys == rightKeys
    {
      this.kind, this.left, this.right, this.hasher := kind, left, right, hasher;
      this.leftKeys, this.rightKeys := leftKeys, rightKeys;
      hashTable, leftTuples, leftIdx := [], [], 0;
      hasCurrentLeft, currentLeft, currentMatches, matchIdx, currentMatchFound := false, [], None, 0, false;
    }

    method Init()
      requires Valid()
      modifies this, left, right
      ensures Valid() && Ready()
      ensures Remaining() == Joined(kind, KeyMatch(leftKeys, rightKeys), right.width, left.rows, right.rows)
    {
      left.Init();
      right.Init();
      BuildTable();
      leftTuples, leftIdx, hasCurrentLeft := [], 0, false;
      assert LeftRest() == left.rows;
    }

    /** Build phase: every right row goes into the table under its key. */
    method BuildTable()
      requires right.Valid() && right.rest == right.rows
      modifies this`hashTable, right
      ensures right.Valid() && Ready()
    {
      hashTable := [];
      ghost var done: seq<Row> := [];
      var batch, ok := right.Next();
      while ok
        invariant right.Valid() && done + batch + right.rest == right.rows
        invariant ok == (batch != []) && (!ok ==> right.rest == [])
        invariant hashTable == Build(hasher, rightKeys, done)
        decreases |batch| + |right.rest|
      {
        BuildBatch(batch, done);
        done := done + batch;
        batch, ok := right.Next();
        Associates(done, batch, right.rest);
      }
      assert done == right.rows;
    }

    method BuildBatch(batch: seq<Row>, ghost done: seq<Row>)
      requires hashTable == Build(hasher, rightKeys, done)
      modifies this`hashTable
      ensures hashTable == Build(hasher, rightKeys, done + batch)
    {
      assert done + batch[..0] == done;
      for i := 0 to |batch|
        invariant hashTable == Build(hasher, rightKeys, done + batch[..i])
      {
        BuildNext(hasher, rightKeys, done, batch, i);
        hashTable := Add(hasher, hashTable, MakeKey(rightKeys, batch[i]), batch[i]);
      }
      assert batch[..|batch|] == batch;
    }

    /** Take the next left row, from the next batch if need be; false when there is none. */
    method FetchNextLeftTuple() returns (ok: bool)
      requires Valid() && !hasCurrentLeft
      modifies this`leftTuples, this`leftIdx, this`currentLeft, left
      ensures Valid()
      ensures ok ==> old(LeftRest()) == [currentLeft] + LeftRest() && |currentLeft| == left.width
      ensures !ok ==> old(LeftRest()) == [] && LeftRest() == []
    {
      if leftIdx >= |leftTuples| {
        var batch, more := left.Next();
        leftTuples, leftIdx := batch, 0;
        if !more {
          return false;
        }
      }
      assert old(LeftRest()) == LeftRest();
      currentLeft := leftTuples[leftIdx];
      assert leftTuples[leftIdx..] == [currentLeft] + leftTuples[leftIdx + 1..];
      Associates([currentLeft], leftTuples[leftIdx + 1..], left.rest);
      leftIdx := leftIdx + 1;
      return true;
    }

    /** Move to the next left row and look its key up; false when there is none. */
    method AdvanceLeft() returns (ok: bool)
      requires Valid() && Ready() && !hasCurrentLeft
      modifies this, left
      ensures Valid() && Ready() && Remaining() == old(Remaining())
      ensures !ok ==> Later() == [] && Current() == []
      ensures ok ==> hasCurrentLeft && |LeftRest()| < |old(LeftRest())|
    {
      ghost var later := Later();
      assert Remaining() == later;
      ok := FetchNextLeftTuple();
      if !ok {
        return;
      }
      LookUp();
      TakeLeft(kind, KeyMatch(leftKeys, rightKeys), right.width, currentLeft, LeftRest(), right.rows);
      return true;
    }

    method LookUp()
      requires Valid() && Ready() && |currentLeft| == left.width
      modifies this`currentMatches, this`matchIdx, this`currentMatchFound, this`hasCurrentLeft
      ensures Valid() && hasCurrentLeft
      ensures Current() == Finish(kind, KeyMatch(leftKeys, rightKeys), right.width, currentLeft, right.rows, false)
    {
      var key := MakeKey(leftKeys, currentLeft);
      var i := Find(hasher, hashTable, key);
      ghost var found := Stored(hasher, hashTable, key);
      FoundUnderKey(kind, hasher, leftKeys, rightKeys, right.width, currentLeft, right.rows);
      currentMatches := if i < |hashTable| then Some(hashTable[i].rows) else None;
      matchIdx, currentMatchFound, hasCurrentLeft := 0, false, true;
      assert MatchRest() == found;
    }

    /** One match, or the end of the matches, of the current left row. */
    method StepMatch() returns (out: seq<Row>)
      requires Valid() && hasCurrentLeft
      modifies this`matchIdx, this`currentMatchFound, this`hasCurrentLeft
      ensures Valid() && out + Current() == old(Current()) && |out| <= 1
      ensures LeftRest() == old(LeftRest()) && Later() == old(Later())
      ensures !hasCurrentLeft || |MatchRest()| < |old(MatchRest())|
    {
      out := [];
      if currentMatches.Some? && matchIdx < |currentMatches.value| {
        out := TakeMatch();
        return;
      }
      assert MatchRest() == [];
      EndRight(kind, ANY, right.width, currentLeft, currentMatchFound);
      if !currentMatchFound && kind == LeftOuter {
        var row := BuildJoinTuple(left.width, right.width, currentLeft, None);
        out := [row];
      }
      hasCurrentLeft := false;
    }

    method TakeMatch() returns (out: seq<Row>)
      requires Valid() && hasCurrentLeft && currentMatches.Some? && matchIdx < |currentMatches.value|
      modifies this`matchIdx, this`currentMatchFound
      ensures Valid() && out + Current() == old(Current()) && |out| <= 1
      ensures LeftRest() == old(LeftRest()) && Later() == old(Later()) && |MatchRest()| < |old(MatchRest())|
    {
      var r := currentMatches.value[matchIdx];
      matchIdx := matchIdx + 1;
      assert old(MatchRest()) == [r] + MatchRest();
      TakeRight(kind, ANY, right.width, currentLeft, r, MatchRest(), currentMatchFound);
      var row := BuildJoinTuple(left.width, right.width, currentLeft, Some(r));
      out := [row];
      currentMatchFound := true;
    }

    /** The matches the current left row has yet to emit, plus one for their end. */
    ghost function MatchWork(): nat
      requires Valid()
      reads this, left, right
    {
      if hasCurrentLeft then 1 + |MatchRest()| else 0
    }

    /** One turn of the loop: at most one row, or the end. */
    method Turn() returns (out: seq<Row>, more: bool)
      requires Valid() && Ready()
      modifies this, left
      ensures Valid() && Ready() && out + Remaining() == old(Remaining()) && |out| <= 1
      ensures !more ==> out == [] && Remaining() == []
      ensures more ==>
        || |LeftRest()| < |old(LeftRest())|
        || (|LeftRest()| == |old(LeftRest())| && MatchWork() < old(MatchWork()))
    {
      if !hasCurrentLeft {
        more := AdvanceLeft();
        if !more {
          return [], false;
        }
      }
      out := StepMatch();
      Associates(out, Current(), Later());
      return out, true;
    }

    /** The next rows owed, as many as asked for, or all that is left. */
    method Next(batchSize: nat) returns (batch: seq<Row>, ok: bool)
      requires Valid() && Ready()
      modifies this, left
      ensures Valid() && Ready() && batch + Remaining() == old(Remaining())
      ensures |batch| == batchSize || (|batch| < batchSize && Remaining() == [])
      ensures ok <==> batch != []
    {
      batch := [];
      while |batch| < batchSize
        invariant Valid() && Ready() && batch + Remaining() == old(Remaining()) && |batch| <= batchSize
        decreases |LeftRest()|, MatchWork()
      {
        var out, more := Turn();
        Associates(batch, out, Remaining());
        batch := batch + out;
        if !more {
          break;
        }
      }
      return batch, batch != [];
    }

    /** Poll to the end, with whatever batch sizes the caller asks for. */
    method Poll(sizes: nat -> nat) returns (result: seq<Row>)
      requires Valid() && forall i :: sizes(i) > 0
      modifies this, left, right
      ensures Valid()
      ensures result == Joined(kind, KeyMatch(leftKeys, rightKeys), right.width, left.rows, right.rows)
    {
      Init();
      result := [];
      var calls, ok := 0, true;
      while ok
        invariant Valid() && Ready() && (!ok ==> Remaining() == [])
        invariant result + Remaining() ==
          Joined(kind, KeyMatch(leftKeys, rightKeys), right.width, left.rows, right.rows)
        decreases ok, |Remaining()|
      {
        var batch;
        batch, ok := Next(sizes(calls));
        Associates(result, batch, Remaining());
        result, calls := result + batch, calls + 1;
      }
    }
  }

  /** The two executors, given the same children and a predicate that is all equi-conditions, emit the same rows. */
  method BothJoins(
      kind: JoinType, e: Expr, leftWidth: nat, rightWidth: nat, left: seq<Row>, right: seq<Row>, hasher: Hasher,
      sizes: nat -> nat, otherSizes: nat -> nat) returns (nested: seq<Row>, hashed: seq<Row>)
    requires AllWide(left, leftWidth) && AllWide(right, rightWidth)
    requires TwoSided(e) && ExtractEquiConditions(e, Keys([], [])).Some?
    requires (forall i :: sizes(i) > 0) && (forall i :: otherSizes(i) > 0)
    ensures nested == hashed == Joined(kind, PredicateMatch(Some(e)), rightWidth, left, right)
  {
    var keys := ExtractEquiConditions(e, Keys([], [])).value;
    var l1 := new Source(leftWidth, left);
    var r1 := new Source(rightWidth, right);
    var nlj := new NestedLoopJoinExecutor(kind, Some(e), l1, r1);
    nested := nlj.Poll(sizes);
    var l2 := new Source(leftWidth, left);
    var r2 := new Source(rightWidth, right);
    var hj := new HashJoinExecutor(kind, keys.left, keys.right, l2, r2, hasher);
    hashed := hj.Poll(otherSizes);
    HashJoinIsNestedLoopJoin(kind, e, rightWidth, left, right);
  }
}
