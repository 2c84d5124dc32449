/** SQL values, three-valued comparison and the expression trees that executors evaluate. */
module Sql {

  /** One column value. `Null` is the SQL NULL of any column type. */
  datatype Value = Null | Bool(b: bool) | Int(n: int) | Text(s: string)

  type Row = seq<Value>

  datatype Option<+T> = None | Some(value: T)

  /** The result of a comparison: NULL on either side makes the answer unknown. */
  datatype CmpBool = CmpFalse | CmpTrue | CmpNull

  datatype CompareOp = Equal | NotEqual | Less | LessEqual | Greater | GreaterEqual

  datatype LogicOp = And | Or

  datatype ArithOp = Plus | Minus

  /** `Column(0, i)` is a column of the only (or left) input row, `Column(1, i)` of the right one. */
  datatype Expr =
    | Column(tupleIdx: nat, colIdx: nat)
    | Const(value: Value)
    | Compare(cmp: CompareOp, left: Expr, right: Expr)
    | Logic(op: LogicOp, left: Expr, right: Expr)
    | Arith(arith: ArithOp, left: Expr, right: Expr)

  function FromBool(b: bool): CmpBool {
    if b then CmpTrue else CmpFalse
  }

  /** Strict order on values of one column type. */
  predicate LessThan(a: Value, b: Value) {
    match (a, b)
    case (Int(x), Int(y)) => x < y
    case (Bool(x), Bool(y)) => !x && y
    case (Text(x), Text(y)) => TextLess(x, y)
    case _ => false
  }

  predicate TextLess(x: string, y: string) {
    if y == [] then false
    else if x == [] then true
    else x[0] < y[0] || (x[0] == y[0] && TextLess(x[1..], y[1..]))
  }

  function CompareValues(op: CompareOp, a: Value, b: Value): CmpBool {
    if a.Null? || b.Null? then CmpNull
    else
      match op
      case Equal => FromBool(a == b)
      case NotEqual => FromBool(a != b)
      case Less => FromBool(LessThan(a, b))
      case LessEqual => FromBool(LessThan(a, b) || a == b)
      case Greater => FromBool(LessThan(b, a))
      case GreaterEqual => FromBool(LessThan(b, a) || a == b)
  }

  /** The equality used to decide which columns an undo log must carry: NULL is exactly equal to NULL. */
  predicate ExactlyEquals(a: Value, b: Value) {
    (a.Null? && b.Null?) || CompareValues(Equal, a, b) == CmpTrue
  }

  function BoolValue(c: CmpBool): Value {
    match c
    case CmpTrue => Bool(true)
    case CmpFalse => Bool(false)
    case CmpNull => Null
  }

  function AsCmpBool(v: Value): CmpBool {
    match v
    case Null => CmpNull
    case Bool(b) => FromBool(b)
    case _ => CmpFalse
  }

  function PerformLogic(op: LogicOp, l: CmpBool, r: CmpBool): CmpBool {
    match op
    case And =>
      if l == CmpFalse || r == CmpFalse then CmpFalse
      else if l == CmpTrue && r == CmpTrue then CmpTrue
      else CmpNull
    case Or =>
      if l == CmpFalse && r == CmpFalse then CmpFalse
      else if l == CmpTrue || r == CmpTrue then CmpTrue
      else CmpNull
  }

  /** A 32-bit signed result, wrapped around on overflow. */
  function Wrap32(n: int): int {
    (n + 0x8000_0000) % 0x1_0000_0000 - 0x8000_0000
  }

  /** The least 32-bit integer stands for NULL. */
  const INT32_NULL: int := -0x8000_0000

  function PerformArith(op: ArithOp, l: Value, r: Value): Value {
    if l.Int? && r.Int? then
      var n := Wrap32(if op == Plus then l.n + r.n else l.n - r.n);
      if n == INT32_NULL then Null else Int(n)
    else Null
  }

  function GetColumn(row: Row, i: nat): Value {
    if i < |row| then row[i] else Null
  }

  /** Evaluation over one row: the tuple index of a column is ignored. */
  function Evaluate(e: Expr, row: Row): Value {
    match e
    case Column(_, i) => GetColumn(row, i)
    case Const(v) => v
    case Compare(op, l, r) => BoolValue(CompareValues(op, Evaluate(l, row), Evaluate(r, row)))
    case Logic(op, l, r) => BoolValue(PerformLogic(op, AsCmpBool(Evaluate(l, row)), AsCmpBool(Evaluate(r, row))))
    case Arith(op, l, r) => PerformArith(op, Evaluate(l, row), Evaluate(r, row))
  }

  /** Evaluation over a pair of rows: tuple index 0 is the left row, any other index the right row. */
  function EvaluateJoin(e: Expr, left: Row, right: Row): Value {
    match e
    case Column(t, i) => if t == 0 then GetColumn(left, i) else GetColumn(right, i)
    case Const(v) => v
    case Compare(op, l, r) =>
      BoolValue(CompareValues(op, EvaluateJoin(l, left, right), EvaluateJoin(r, left, right)))
    case Logic(op, l, r) =>
      BoolValue(PerformLogic(op, AsCmpBool(EvaluateJoin(l, left, right)), AsCmpBool(EvaluateJoin(r, left, right))))
    case Arith(op, l, r) => PerformArith(op, EvaluateJoin(l, left, right), EvaluateJoin(r, left, right))
  }

  /** The filter test of every executor: a row passes when the value is neither NULL nor false. */
  predicate IsTrue(v: Value) {
    v == Bool(true)
  }

  /** A scan's test: without a filter every row passes. */
  predicate Passes(filter: Option<Expr>, row: Row) {
    filter.None? || IsTrue(Evaluate(filter.value, row))
  }
}
