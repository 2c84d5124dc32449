/** The filter and the projection, batch at a time, with what a call leaves over from its child's batch. */
module RowExecutors {
  import opened Sql
  import opened Bags
  import opened Joins
  import opened Plans
  import opened JoinExecutors

  lemma MapNext(f: Row -> seq<Row>, tuples: seq<Row>, i: nat)
    requires i < |tuples|
    ensures FlatMap(f, tuples[i..]) == f(tuples[i]) + FlatMap(f, tuples[i + 1..])
  {
    assert tuples[i..] == [tuples[i]] + tuples[i + 1..];
    FlatMapAppend(f, [tuples[i]], tuples[i + 1..]);
    FlatMapSingle(f, tuples[i]);
  }

  /** A child batch of which some rows have been put out and some are left over. */
  lemma MapBatch(
      f: Row -> seq<Row>, tuples: seq<Row>, rest: seq<Row>, before: seq<Row>, batch: seq<Row>, left: seq<Row>)
    requires batch + FlatMap(f, left) == before + FlatMap(f, tuples)
    ensures batch + (FlatMap(f, left) + FlatMap(f, rest)) == before + FlatMap(f, tuples + rest)
  {
    FlatMapAppend(f, tuples, rest);
    Associates(batch, FlatMap(f, left), FlatMap(f, rest));
    Associates(before, FlatMap(f, tuples), FlatMap(f, rest));
  }

  /** What is left of a child batch; offset zero stands for nothing. */
  function LeftOver(tuples: seq<Row>, offset: nat): seq<Row> {
    if 0 < offset <= |tuples| then tuples[offset..] else []
  }

  class FilterExecutor {
    const child: Source
    const condition: Expr
    var childTuples: seq<Row>
    var childOffset: nat

    constructor (child: Source, condition: Expr)
      requires child.Valid()
      ensures Valid() && this.child == child && this.condition == condition
    {
      this.child, this.condition, childTuples, childOffset := child, condition, [], 0;
    }

    ghost predicate Valid()
      reads this, child
    {
      child.Valid() && childOffset <= |childTuples|
    }

    /** The rows still to come. */
    ghost function Remaining(): seq<Row>
      reads this, child
    {
      Filtered(condition, LeftOver(childTuples, childOffset)) + Filtered(condition, child.rest)
    }

    method Init()
      requires Valid()
      modifies this, child
      ensures Valid() && Remaining() == Filtered(condition, child.rows)
    {
      child.Init();
      childTuples, childOffset := [], 0;
    }

    /** The row, if the condition is true of it. */
    method Test(row: Row) returns (out: seq<Row>)
      ensures out == Passing(condition)(row)
    {
      out := if IsTrue(Evaluate(condition, row)) then [row] else [];
    }

    /** What is left of the last batch, without regard to the batch size. */
    method TakeLeft() returns (batch: seq<Row>)
      requires childOffset <= |childTuples|
      ensures batch == Filtered(condition, LeftOver(childTuples, childOffset))
    {
      batch := [];
      if childOffset != 0 {
        for i := childOffset to |childTuples|
          invariant batch + FlatMap(Passing(condition), childTuples[i..]) ==
                    FlatMap(Passing(condition), childTuples[childOffset..])
        {
          MapNext(Passing(condition), childTuples, i);
          var out := Test(childTuples[i]);
          Associates(batch, out, FlatMap(Passing(condition), childTuples[i + 1..]));
          batch := batch + out;
        }
      }
    }

    /** Add to the batch from a new child batch until it is full; say where to go on, zero if with the next one. */
    method Fill(start: seq<Row>, batchSize: nat) returns (batch: seq<Row>, offset: nat, full: bool)
      ensures offset <= |childTuples| && (!full ==> offset == 0)
      ensures batch + FlatMap(Passing(condition), LeftOver(childTuples, offset)) ==
              start + FlatMap(Passing(condition), childTuples)
      ensures full ==> batch != [] && |batch| >= batchSize
    {
      batch := start;
      assert childTuples[0..] == childTuples;
      for i := 0 to |childTuples|
        invariant batch + FlatMap(Passing(condition), childTuples[i..]) ==
                  start + FlatMap(Passing(condition), childTuples)
      {
        MapNext(Passing(condition), childTuples, i);
        var out := Test(childTuples[i]);
        Associates(batch, out, FlatMap(Passing(condition), childTuples[i + 1..]));
        batch := batch + out;
        if out != [] && |batch| >= batchSize {
          offset := if i + 1 < |childTuples| then i + 1 else 0;
          return batch, offset, true;
        }
      }
      return batch, 0, false;
    }

    lemma NothingLeft()
      requires childOffset == 0
      ensures Remaining() == Filtered(condition, child.rest)
    {
    }

    /** Fetch one child batch and add to the batch what fits of it. */
    method FillOnce(start: seq<Row>, batchSize: nat) returns (batch: seq<Row>, full: bool, more: bool)
      requires Valid()
      modifies this, child
      ensures Valid() && batch + Remaining() == start + Filtered(condition, old(child.rest))
      ensures full ==> batch != [] && |batch| >= batchSize
      ensures !full ==> childOffset == 0
      ensures if more then |child.rest| < |old(child.rest)| else !full && batch == start && Remaining() == []
    {
      childTuples, more := child.Next();
      childOffset := 0;
      if !more {
        return start, false, false;
      }
      batch, childOffset, full := Fill(start, batchSize);
      MapBatch(Passing(condition), childTuples, child.rest, start, batch, LeftOver(childTuples, childOffset));
    }

    /** The next rows, at least as many as asked for, or all that is left. */
    method Next(batchSize: nat) returns (batch: seq<Row>, ok: bool)
      requires Valid()
      modifies this, child
      ensures Valid() && batch + Remaining() == old(Remaining()) && (ok <==> batch != [])
      ensures |batch| >= batchSize || Remaining() == []
      ensures !ok ==> Remaining() == []
    {
      batch := TakeLeft();
      childOffset := 0;
      NothingLeft();
      var full, more := false, true;
      while !full && more
        invariant Valid() && batch + Remaining() == old(Remaining())
        invariant if full then batch != [] && |batch| >= batchSize
                  else childOffset == 0 && (!more ==> Remaining() == [])
        decreases more, |child.rest|
      {
        NothingLeft();
        batch, full, more := FillOnce(batch, batchSize);
      }
      return batch, batch != [];
    }

    /** Poll to the end, with whatever batch sizes the caller asks for. */
    method Poll(sizes: nat -> nat) returns (result: seq<Row>)
      requires Valid()
      modifies this, child
      ensures Valid() && result == Filtered(condition, child.rows)
    {
      Init();
      result := [];
      var calls, ok := 0, true;
      while ok
        invariant Valid() && (!ok ==> Remaining() == [])
        invariant result + Remaining() == Filtered(condition, child.rows)
        decreases ok, |Remaining()|
      {
        var batch;
        batch, ok := Next(sizes(calls));
        Associates(result, batch, Remaining());
        result, calls := result + batch, calls + 1;
      }
    }
  }

  class ProjectionExecutor {
    const child: Source
    const exprs: seq<Expr>
    var childTuples: seq<Row>
    var childOffset: nat

    constructor (child: Source, exprs: seq<Expr>)
      requires child.Valid()
      ensures Valid() && this.child == child && this.exprs == exprs
    {
      this.child, this.exprs, childTuples, childOffset := child, exprs, [], 0;
    }

    ghost predicate Valid()
      reads this, child
    {
      child.Valid() && childOffset <= |childTuples|
    }

    /** The rows still to come. */
    ghost function Remaining(): seq<Row>
      reads this, child
    {
      FlatMap(Projecting(exprs), LeftOver(childTuples, childOffset)) + FlatMap(Projecting(exprs), child.rest)
    }

    method Init()
      requires Valid()
      modifies this, child
      ensures Valid() && Remaining() == FlatMap(Projecting(exprs), child.rows)
    {
      child.Init();
      childTuples, childOffset := [], 0;
    }

    method TakeLeft() returns (batch: seq<Row>)
      requires childOffset <= |childTuples|
      ensures batch == FlatMap(Projecting(exprs), LeftOver(childTuples, childOffset))
    {
      batch := [];
      if childOffset != 0 {
        for i := childOffset to |childTuples|
          invariant batch + FlatMap(Projecting(exprs), childTuples[i..]) ==
                    FlatMap(Projecting(exprs), childTuples[childOffset..])
        {
          MapNext(Projecting(exprs), childTuples, i);
          batch := batch + [MakeKey(exprs, childTuples[i])];
        }
      }
    }

    method Fill(start: seq<Row>, batchSize: nat) returns (batch: seq<Row>, offset: nat)
      requires childTuples != []
      ensures offset <= |childTuples| && batch != []
      ensures batch + FlatMap(Projecting(exprs), LeftOver(childTuples, offset)) ==
              start + FlatMap(Projecting(exprs), childTuples)
    {
      batch, offset := start, 0;
      assert childTuples[0..] == childTuples;
      for i := 0 to |childTuples|
        invariant batch + FlatMap(Projecting(exprs), childTuples[i..]) ==
                  start + FlatMap(Projecting(exprs), childTuples)
        invariant i > 0 ==> batch != []
      {
        MapNext(Projecting(exprs), childTuples, i);
        batch := batch + [MakeKey(exprs, childTuples[i])];
        if |batch| >= batchSize {
          offset := if i + 1 < |childTuples| then i + 1 else 0;
          return;
        }
      }
    }

    /** The next rows: what is left of the last child batch, and what fits of the next. */
    method Next(batchSize: nat) returns (batch: seq<Row>, ok: bool)
      requires Valid()
      modifies this, child
      ensures Valid() && batch + Remaining() == old(Remaining()) && (ok <==> batch != [])
      ensures !ok ==> Remaining() == []
    {
      batch := TakeLeft();
      ghost var before := batch;
      var status;
      childTuples, status := child.Next();
      childOffset := 0;
      if !status {
        return batch, batch != [];
      }
      batch, childOffset := Fill(batch, batchSize);
      MapBatch(Projecting(exprs), childTuples, child.rest, before, batch, LeftOver(childTuples, childOffset));
      return batch, true;
    }

    /** Poll to the end, with whatever batch sizes the caller asks for. */
    method Poll(sizes: nat -> nat) returns (result: seq<Row>)
      requires Valid()
      modifies this, child
      ensures Valid() && result == FlatMap(Projecting(exprs), child.rows)
    {
      Init();
      result := [];
      var calls, ok := 0, true;
      while ok
        invariant Valid() && (!ok ==> Remaining() == [])
        invariant result + Remaining() == FlatMap(Projecting(exprs), child.rows)
        decreases ok, |Remaining()|
      {
        var batch;
        batch, ok := Next(sizes(calls));
        Associates(result, batch, Remaining());
        result, calls := result + batch, calls + 1;
      }
    }
  }
}
