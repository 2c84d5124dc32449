/** What expressions evaluate to, against Dafny's own integers, booleans and character order. */
module SqlMeaning {
  import opened Sql

  // ----- comparisons -----------------------------------------------------------------------------------------

  /** Comparing two integers. */
  lemma IntComparison(op: CompareOp, l: Expr, r: Expr, row: Row, a: int, b: int)
    requires Evaluate(l, row) == Int(a) && Evaluate(r, row) == Int(b)
    ensures Evaluate(Compare(op, l, r), row) == Bool(
      match op
      case Equal => a == b
      case NotEqual => a != b
      case Less => a < b
      case LessEqual => a <= b
      case Greater => a > b
      case GreaterEqual => a >= b)
  {
    assert LessThan(Int(a), Int(b)) <==> a < b;
  }

  /** A row passes `WHERE column op b` exactly if its column holds an integer that stands so to `b`. */
  lemma ColumnComparison(op: CompareOp, i: nat, row: Row, b: int)
    requires i < |row| && (row[i].Int? || row[i].Null?)
    ensures IsTrue(Evaluate(Compare(op, Column(0, i), Const(Int(b))), row)) <==>
      row[i].Int? && match op
                     case Equal => row[i].n == b
                     case NotEqual => row[i].n != b
                     case Less => row[i].n < b
                     case LessEqual => row[i].n <= b
                     case Greater => row[i].n > b
                     case GreaterEqual => row[i].n >= b
    ensures row[i].Null? ==> Evaluate(Compare(op, Column(0, i), Const(Int(b))), row) == Null
  {
    if row[i].Int? { IntComparison(op, Column(0, i), Const(Int(b)), row, row[i].n, b); }
  }

  /** False is less than true. */
  lemma BoolComparison(op: CompareOp, l: Expr, r: Expr, row: Row, a: bool, b: bool)
    requires Evaluate(l, row) == Bool(a) && Evaluate(r, row) == Bool(b)
    ensures Evaluate(Compare(op, l, r), row) == Bool(
      match op
      case Equal => a == b
      case NotEqual => a != b
      case Less => !a && b
      case LessEqual => a ==> b
      case Greater => a && !b
      case GreaterEqual => b ==> a)
  {
    assert LessThan(Bool(a), Bool(b)) <==> !a && b;
  }

  /** `x` comes before `y`: a proper prefix, or smaller at the first character where they differ. */
  ghost predicate Before(x: string, y: string) {
    exists k: nat :: BeforeAt(x, y, k)
  }

  ghost predicate BeforeAt(x: string, y: string, k: nat) {
    k <= |x| && k < |y| && x[..k] == y[..k] && (k == |x| || x[k] < y[k])
  }

  lemma {:induction false} TextOrder(x: string, y: string)
    ensures TextLess(x, y) <==> Before(x, y)
    decreases |x|
  {
    if y != [] && x != [] && x[0] == y[0] {
      TextOrder(x[1..], y[1..]);
      assert forall k: nat :: k < |x| && k < |y| ==>
          x[..k + 1] == [x[0]] + x[1..][..k] && y[..k + 1] == [y[0]] + y[1..][..k];
      if k: nat :| BeforeAt(x[1..], y[1..], k) {
        assert BeforeAt(x, y, k + 1);
      }
      if k: nat :| BeforeAt(x, y, k) {
        assert k > 0;
        assert BeforeAt(x[1..], y[1..], k - 1);
      }
    } else if y != [] {
      if TextLess(x, y) { assert BeforeAt(x, y, 0); }
      if k: nat :| BeforeAt(x, y, k) {
        assert k > 0 ==> x[..k][0] == y[..k][0];
      }
    }
  }

  /** Comparing two texts. */
  lemma TextComparison(op: CompareOp, l: Expr, r: Expr, row: Row, a: string, b: string)
    requires Evaluate(l, row) == Text(a) && Evaluate(r, row) == Text(b)
    ensures Evaluate(Compare(op, l, r), row) == Bool(
      match op
      case Equal => a == b
      case NotEqual => a != b
      case Less => Before(a, b)
      case LessEqual => Before(a, b) || a == b
      case Greater => Before(b, a)
      case GreaterEqual => Before(b, a) || a == b)
  {
    TextOrder(a, b);
    TextOrder(b, a);
  }

  /** NULL on either side leaves a comparison undecided. */
  lemma NullComparison(op: CompareOp, l: Expr, r: Expr, row: Row)
    requires Evaluate(l, row) == Null || Evaluate(r, row) == Null
    ensures Evaluate(Compare(op, l, r), row) == Null
  {
  }

  // ----- logic -------------------------------------------------------------------------------------------------

  /** Three-valued conjunction and disjunction of booleans and NULLs. */
  lemma LogicMeaning(l: Expr, r: Expr, row: Row)
    requires Evaluate(l, row).Bool? || Evaluate(l, row).Null?
    requires Evaluate(r, row).Bool? || Evaluate(r, row).Null?
    ensures var a, b, both := Evaluate(l, row), Evaluate(r, row), Evaluate(Logic(And, l, r), row);
      && (both == Bool(true) <==> a == Bool(true) && b == Bool(true))
      && (both == Bool(false) <==> a == Bool(false) || b == Bool(false))
      && (both == Null <==> (a == Null && b != Bool(false)) || (b == Null && a != Bool(false)))
    ensures var a, b, either := Evaluate(l, row), Evaluate(r, row), Evaluate(Logic(Or, l, r), row);
      && (either == Bool(true) <==> a == Bool(true) || b == Bool(true))
      && (either == Bool(false) <==> a == Bool(false) && b == Bool(false))
      && (either == Null <==> (a == Null && b != Bool(true)) || (b == Null && a != Bool(true)))
  {
  }

  // ----- arithmetic --------------------------------------------------------------------------------------------

  const TWO_32: int := 0x1_0000_0000

  /** The 32-bit integer that differs from `exact` by a multiple of 2^32. */
  predicate WrapsTo(exact: int, n: int) {
    -0x8000_0000 <= n < 0x8000_0000 && (n - exact) % TWO_32 == 0
  }

  /** A sum or difference is the 32-bit integer it wraps to; where that is the least of them, it is NULL. */
  lemma ArithMeaning(op: ArithOp, l: Expr, r: Expr, row: Row, a: int, b: int)
    requires Evaluate(l, row) == Int(a) && Evaluate(r, row) == Int(b)
    ensures var exact, result := if op == Plus then a + b else a - b, Evaluate(Arith(op, l, r), row);
      && (result.Int? || result == Null)
      && (result.Int? ==> WrapsTo(exact, result.n) && result.n > -0x8000_0000)
      && (result == Null ==> WrapsTo(exact, -0x8000_0000))
      && (-0x8000_0000 < exact < 0x8000_0000 ==> result == Int(exact))
  {
    var exact := if op == Plus then a + b else a - b;
    var n := Wrap32(exact);
    assert n - exact == -((exact + 0x8000_0000) / TWO_32) * TWO_32;
    assert WrapsTo(exact, n);
    assert Evaluate(Arith(op, l, r), row) == if n == -0x8000_0000 then Null else Int(n);
  }

  lemma NullArith(op: ArithOp, l: Expr, r: Expr, row: Row)
    requires Evaluate(l, row) == Null || Evaluate(r, row) == Null
    ensures Evaluate(Arith(op, l, r), row) == Null
  {
  }
}
