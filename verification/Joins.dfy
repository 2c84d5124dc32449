/** What a join means, and why a hash join computes the same sequence as a nested-loop join. */
module Joins {
  import opened Sql
  import opened Bags

  datatype JoinType = Inner | LeftOuter

  /** Which pairs of rows belong together. */
  type Matcher = (Row, Row) -> bool

  ghost predicate AllWide(rows: seq<Row>, width: nat) {
    forall r :: r in rows ==> |r| == width
  }

  function NullRow(width: nat): (r: Row)
    ensures |r| == width && forall v :: v in r ==> v == Null
  {
    seq(width, _ => Null)
  }

  function Pair(m: Matcher, l: Row): Row -> seq<Row> {
    r => if m(l, r) then [l + r] else []
  }

  /** The left row next to each of the right rows that match it. */
  function Pairs(m: Matcher, l: Row, right: seq<Row>): seq<Row> {
    FlatMap(Pair(m, l), right)
  }

  /** What is left to emit for `l` once part of the right side has been seen, with or without a match there. */
  function Finish(kind: JoinType, m: Matcher, width: nat, l: Row, right: seq<Row>, found: bool): seq<Row> {
    var pairs := Pairs(m, l, right);
    if pairs == [] && !found && kind == LeftOuter then [l + NullRow(width)] else pairs
  }

  function JoinRow(kind: JoinType, m: Matcher, width: nat, right: seq<Row>): Row -> seq<Row> {
    l => Finish(kind, m, width, l, right, false)
  }

  /** The join: left rows in order, each next to its matches in right order, or padded with NULLs. */
  function Joined(kind: JoinType, m: Matcher, width: nat, left: seq<Row>, right: seq<Row>): seq<Row> {
    FlatMap(JoinRow(kind, m, width, right), left)
  }

  /** Exactly the matching pairs, and for a left join the unmatched left rows with NULLs. */
  lemma JoinedRows(kind: JoinType, m: Matcher, width: nat, left: seq<Row>, right: seq<Row>, x: Row)
    ensures x in Joined(kind, m, width, left, right) <==>
      || (exists l, r :: l in left && r in right && m(l, r) && x == l + r)
      || (kind == LeftOuter
          && exists l :: l in left && (forall r :: r in right ==> !m(l, r)) && x == l + NullRow(width))
  {
    var f := JoinRow(kind, m, width, right);
    FlatMapIn(f, left, x);
    forall l | l in left
      ensures x in f(l) <==>
        || (exists r :: r in right && m(l, r) && x == l + r)
        || (kind == LeftOuter && (forall r :: r in right ==> !m(l, r)) && x == l + NullRow(width))
    {
      FinishRows(kind, m, width, l, right, x);
    }
  }

  lemma FinishRows(kind: JoinType, m: Matcher, width: nat, l: Row, right: seq<Row>, x: Row)
    ensures x in Finish(kind, m, width, l, right, false) <==>
      || (exists r :: r in right && m(l, r) && x == l + r)
      || (kind == LeftOuter && (forall r :: r in right ==> !m(l, r)) && x == l + NullRow(width))
  {
    PairsEmpty(m, l, right);
    FlatMapIn(Pair(m, l), right, x);
    forall r | r in right
      ensures x in Pair(m, l)(r) <==> m(l, r) && x == l + r
    {
    }
  }

  lemma {:induction false} PairsEmpty(m: Matcher, l: Row, right: seq<Row>)
    ensures Pairs(m, l, right) == [] <==> forall r :: r in right ==> !m(l, r)
    decreases |right|
  {
    if right != [] {
      PairsEmpty(m, l, right[1..]);
      assert forall r :: r in right <==> r == right[0] || r in right[1..];
    }
  }

  /** Only the answers of the matcher matter, not how it finds them. */
  lemma JoinedSame(kind: JoinType, m: Matcher, n: Matcher, width: nat, left: seq<Row>, right: seq<Row>)
    requires forall l, r :: l in left && r in right ==> m(l, r) == n(l, r)
    ensures Joined(kind, m, width, left, right) == Joined(kind, n, width, left, right)
  {
    var f, g := JoinRow(kind, m, width, right), JoinRow(kind, n, width, right);
    forall l | l in left
      ensures f(l) == g(l)
    {
      FlatMapSame(Pair(m, l), Pair(n, l), right);
    }
    FlatMapSame(f, g, left);
  }

  /** The bag of a join depends on the bags of its inputs only. */
  lemma JoinedBag(
      kind: JoinType, m: Matcher, width: nat, left: seq<Row>, left': seq<Row>, right: seq<Row>, right': seq<Row>)
    requires multiset(left) == multiset(left') && multiset(right) == multiset(right')
    ensures multiset(Joined(kind, m, width, left, right)) == multiset(Joined(kind, m, width, left', right'))
  {
    var f, g := JoinRow(kind, m, width, right), JoinRow(kind, m, width, right');
    forall l | l in left
      ensures multiset(f(l)) == multiset(g(l))
    {
      FlatMapBag(Pair(m, l), Pair(m, l), right, right');
      BagIn(Pairs(m, l, right), Pairs(m, l, right'));
    }
    FlatMapBag(f, g, left, left');
  }

  // ----- the two matchers -------------------------------------------------------------------------

  function PredicateMatch(condition: Option<Expr>): Matcher {
    (l: Row, r: Row) => condition.None? || IsTrue(EvaluateJoin(condition.value, l, r))
  }

  function MakeKey(exprs: seq<Expr>, row: Row): (key: seq<Value>)
    ensures |key| == |exprs| && forall i :: 0 <= i < |exprs| ==> key[i] == Evaluate(exprs[i], row)
  {
    seq(|exprs|, i requires 0 <= i < |exprs| => Evaluate(exprs[i], row))
  }

  /** Hash keys are equal when every component compares true; a NULL makes a key unequal even to itself. */
  predicate KeyEqual(a: seq<Value>, b: seq<Value>) {
    |a| == |b| && forall i :: 0 <= i < |a| ==> CompareValues(Equal, a[i], b[i]) == CmpTrue
  }

  lemma KeyEqualIs(a: seq<Value>, b: seq<Value>)
    ensures KeyEqual(a, b) <==> a == b && Null !in a
  {
    if KeyEqual(a, b) {
      forall i | 0 <= i < |a|
        ensures a[i] == b[i] && a[i] != Null
      {
        assert CompareValues(Equal, a[i], b[i]) == CmpTrue;
      }
      assert a == b;
    }
  }

  function KeyMatch(leftKeys: seq<Expr>, rightKeys: seq<Expr>): Matcher {
    (l: Row, r: Row) => KeyEqual(MakeKey(leftKeys, l), MakeKey(rightKeys, r))
  }

  // ----- equi-conditions ------------------------------------------------------------------------------

  datatype Keys = Keys(left: seq<Expr>, right: seq<Expr>)

  /** Walk a conjunction of column equalities across the join, adding to the keys found so far. */
  function ExtractEquiConditions(e: Expr, keys: Keys): Option<Keys> {
    match e
    case Logic(op, a, b) =>
      if op != And then None
      else
        var first := ExtractEquiConditions(a, keys);
        if first.None? then None else ExtractEquiConditions(b, first.value)
    case Compare(op, a, b) =>
      if op != Equal || !a.Column? || !b.Column? || a.tupleIdx == b.tupleIdx then None
      else if a.tupleIdx == 0 then Some(Keys(keys.left + [a], keys.right + [b]))
      else Some(Keys(keys.left + [b], keys.right + [a]))
    case _ => None
  }

  /** A join predicate names the left row as 0 and the right row as 1. */
  predicate TwoSided(e: Expr) {
    match e
    case Column(t, _) => t <= 1
    case Const(_) => true
    case Compare(_, a, b) => TwoSided(a) && TwoSided(b)
    case Logic(_, a, b) => TwoSided(a) && TwoSided(b)
    case Arith(_, a, b) => TwoSided(a) && TwoSided(b)
  }

  lemma KeyMatchAppend(keys: Keys, a: Expr, b: Expr, l: Row, r: Row)
    requires |keys.left| == |keys.right|
    ensures KeyMatch(keys.left + [a], keys.right + [b])(l, r) <==>
      KeyMatch(keys.left, keys.right)(l, r) && CompareValues(Equal, Evaluate(a, l), Evaluate(b, r)) == CmpTrue
  {
    assert MakeKey(keys.left + [a], l) == MakeKey(keys.left, l) + [Evaluate(a, l)];
    assert MakeKey(keys.right + [b], r) == MakeKey(keys.right, r) + [Evaluate(b, r)];
    var x, y := MakeKey(keys.left, l), MakeKey(keys.right, r);
    var p, q := Evaluate(a, l), Evaluate(b, r);
    if KeyEqual(x + [p], y + [q]) {
      assert (x + [p])[|x|] == p && (y + [q])[|x|] == q;
      forall i | 0 <= i < |x|
        ensures CompareValues(Equal, x[i], y[i]) == CmpTrue
      {
        assert (x + [p])[i] == x[i] && (y + [q])[i] == y[i];
      }
    }
  }

  lemma CompareSymmetric(a: Value, b: Value)
    ensures CompareValues(Equal, a, b) == CompareValues(Equal, b, a)
  {
  }

  /** The extracted keys match exactly where the conjunction, and the keys found before it, are true. */
  lemma {:induction false} ExtractedMatch(e: Expr, keys: Keys, l: Row, r: Row)
    requires TwoSided(e) && |keys.left| == |keys.right| && ExtractEquiConditions(e, keys).Some?
    ensures var found := ExtractEquiConditions(e, keys).value;
      && |found.left| == |found.right|
      && (KeyMatch(found.left, found.right)(l, r) <==>
            KeyMatch(keys.left, keys.right)(l, r) && IsTrue(EvaluateJoin(e, l, r)))
  {
    match e
    case Logic(_, a, b) =>
      ExtractedMatch(a, keys, l, r);
      ExtractedMatch(b, ExtractEquiConditions(a, keys).value, l, r);
    case Compare(_, a, b) =>
      CompareSymmetric(Evaluate(a, l), Evaluate(b, r));
      CompareSymmetric(Evaluate(a, r), Evaluate(b, l));
      if a.tupleIdx == 0 {
        KeyMatchAppend(keys, a, b, l, r);
      } else {
        KeyMatchAppend(keys, b, a, l, r);
      }
    case _ =>
  }

  /** Joining on the extracted keys is joining on the predicate: the same rows in the same order. */
  lemma HashJoinIsNestedLoopJoin(kind: JoinType, e: Expr, width: nat, left: seq<Row>, right: seq<Row>)
    requires TwoSided(e) && ExtractEquiConditions(e, Keys([], [])).Some?
    ensures var keys := ExtractEquiConditions(e, Keys([], [])).value;
      Joined(kind, KeyMatch(keys.left, keys.right), width, left, right) ==
      Joined(kind, PredicateMatch(Some(e)), width, left, right)
  {
    var keys := ExtractEquiConditions(e, Keys([], [])).value;
    forall l, r | l in left && r in right
      ensures KeyMatch(keys.left, keys.right)(l, r) == PredicateMatch(Some(e))(l, r)
    {
      ExtractedMatch(e, Keys([], []), l, r);
    }
    JoinedSame(kind, KeyMatch(keys.left, keys.right), PredicateMatch(Some(e)), width, left, right);
  }
}
