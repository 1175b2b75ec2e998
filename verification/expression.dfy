/**
 * The expression evaluator (src/expression.h): a tree-walking interpreter
 * over constants, column references, binary operators and NOT.
 *
 * Numbers are mathematical: `int` for int and `real` for float, so the
 * double/float conversions of the source are exact here.
 */
module Expressions {
  import opened Errors
  import opened Types

  datatype Expr =
    | Constant(value: Value)
    | ColumnRef(name: string)
    | Binary(op: string, left: Expr, right: Expr)
    | Not(operand: Expr)

  const ArithmeticOps: set<string> := {"ADD", "SUB", "MUL", "DIV"}
  const EqualityOps: set<string> := {"EQ", "NEQ"}
  const OrderingOps: set<string> := {"GT", "GTE", "LT", "LTE"}
  const KnownOps: set<string> := ArithmeticOps + EqualityOps + OrderingOps

  /** is_numeric: int or float. */
  predicate IsNumeric(v: Value) {
    v.IntV? || v.FloatV?
  }

  /** to_double: the numeric value of an int or a float. */
  function ToReal(v: Value): real
    requires IsNumeric(v)
  {
    if v.IntV? then v.i as real else v.f
  }

  /** The numeric comparison an ordering tag names. */
  function Compare(op: string, x: real, y: real): bool
    requires op in OrderingOps
  {
    if op == "GT" then x > y
    else if op == "GTE" then x >= y
    else if op == "LT" then x < y
    else x <= y
  }

  /** An arithmetic tag applied to two operands already converted to double. */
  function Arithmetic(op: string, x: real, y: real): Result<Value>
    requires op in ArithmeticOps
  {
    if op == "ADD" then Ok(FloatV(x + y))
    else if op == "SUB" then Ok(FloatV(x - y))
    else if op == "MUL" then Ok(FloatV(x * y))
    else if y == 0.0 then Err(DivisionByZero)
    else Ok(FloatV(x / y))
  }

  /**
   * BinaryExpression::evaluate once both operands have been evaluated:
   * dispatch on the operator tag.
   */
  function ApplyBinary(op: string, a: Value, b: Value): Result<Value> {
    if op in ArithmeticOps then
      if !IsNumeric(a) || !IsNumeric(b) then Err(NonNumericArithmetic(op))
      else Arithmetic(op, ToReal(a), ToReal(b))
    else if op == "EQ" then Ok(BoolV(a == b))
    else if op == "NEQ" then Ok(BoolV(a != b))
    else if op in OrderingOps then
      if !IsNumeric(a) || !IsNumeric(b) then Err(NonNumericComparison(op))
      else Ok(BoolV(Compare(op, ToReal(a), ToReal(b))))
    else Err(UnsupportedOperator(op))
  }

  /** What each family of operator tags does, and where each fails. */
  lemma ApplyBinaryMeaning(op: string, a: Value, b: Value)
    // arithmetic: defined exactly on two numbers with a non-zero divisor, always float-kind
    ensures op in ArithmeticOps ==>
      (ApplyBinary(op, a, b).Ok? <==> IsNumeric(a) && IsNumeric(b) && !(op == "DIV" && ToReal(b) == 0.0))
    ensures op in ArithmeticOps && ApplyBinary(op, a, b).Ok? ==> ApplyBinary(op, a, b).value.FloatV?
    ensures op in ArithmeticOps && !(IsNumeric(a) && IsNumeric(b)) ==> ApplyBinary(op, a, b) == Err(NonNumericArithmetic(op))
    ensures op == "DIV" && IsNumeric(a) && IsNumeric(b) && ToReal(b) == 0.0 ==> ApplyBinary(op, a, b) == Err(DivisionByZero)
    // equality: variant equality, never an error; values of different kinds are unequal
    ensures op in EqualityOps ==> ApplyBinary(op, a, b).Ok? && ApplyBinary(op, a, b).value.BoolV?
    ensures op == "EQ" ==> (ApplyBinary(op, a, b).value.b <==> a == b)
    ensures op == "EQ" && KindOf(a) != KindOf(b) ==> ApplyBinary(op, a, b) == Ok(BoolV(false))
    ensures op == "NEQ" ==> (ApplyBinary(op, a, b).value.b <==> a != b)
    // ordering: defined exactly on two numbers, compares numeric values
    ensures op in OrderingOps ==> (ApplyBinary(op, a, b).Ok? <==> IsNumeric(a) && IsNumeric(b))
    ensures op in OrderingOps && !(IsNumeric(a) && IsNumeric(b)) ==> ApplyBinary(op, a, b) == Err(NonNumericComparison(op))
    ensures op in OrderingOps && ApplyBinary(op, a, b).Ok? ==>
      ApplyBinary(op, a, b) == Ok(BoolV(Compare(op, ToReal(a), ToReal(b))))
    // anything else
    ensures op !in KnownOps ==> ApplyBinary(op, a, b) == Err(UnsupportedOperator(op))
  {
  }

  /** The value each arithmetic tag computes, on two numbers. */
  lemma ArithmeticResults(a: Value, b: Value)
    requires IsNumeric(a) && IsNumeric(b)
    ensures ApplyBinary("ADD", a, b) == Ok(FloatV(ToReal(a) + ToReal(b)))
    ensures ApplyBinary("SUB", a, b) == Ok(FloatV(ToReal(a) - ToReal(b)))
    ensures ApplyBinary("MUL", a, b) == Ok(FloatV(ToReal(a) * ToReal(b)))
    ensures ToReal(b) != 0.0 ==> ApplyBinary("DIV", a, b) == Ok(FloatV(ToReal(a) / ToReal(b)))
  {
    assert ApplyBinary("MUL", a, b) == Arithmetic("MUL", ToReal(a), ToReal(b));
  }

  /**
   * NEQ is the negation of EQ, and on numbers the ordering tags are each
   * other's mirror images and complements (on other operands they differ in
   * the operator named by the error).
   */
  lemma ComparisonDualities(a: Value, b: Value)
    ensures ApplyBinary("NEQ", a, b).value.b == !ApplyBinary("EQ", a, b).value.b
    ensures IsNumeric(a) && IsNumeric(b) ==> ApplyBinary("GT", a, b) == ApplyBinary("LT", b, a)
    ensures IsNumeric(a) && IsNumeric(b) ==> ApplyBinary("GTE", a, b) == ApplyBinary("LTE", b, a)
    ensures IsNumeric(a) && IsNumeric(b) ==>
      ApplyBinary("LT", a, b).value.b == !ApplyBinary("GTE", a, b).value.b
  {
  }

  /**
   * Expression::evaluate against a tuple and the schema that describes it.
   */
  function Evaluate(e: Expr, t: Tuple, s: Schema): Result<Value> {
    match e
    case Constant(v) => Ok(v)
    case ColumnRef(name) =>
      var col :- GetColumn(s, name);
      if col.index < |t| then Ok(t[col.index]) else Err(TupleIndexOutOfRange(name))
    case Binary(op, left, right) =>
      var lv :- Evaluate(left, t, s);
      var rv :- Evaluate(right, t, s);
      ApplyBinary(op, lv, rv)
    case Not(operand) =>
      var v :- Evaluate(operand, t, s);
      if v.BoolV? then Ok(BoolV(!v.b)) else Err(NotABool)
  }

  /** How each node kind evaluates, and where evaluation fails. */
  lemma EvaluateMeaning(e: Expr, t: Tuple, s: Schema)
    // a constant ignores the tuple and the schema
    ensures e.Constant? ==> Evaluate(e, t, s) == Ok(e.value)
    // a column reference reads the tuple at the position the schema gives the name
    ensures e.ColumnRef? && WellFormed(s) && |t| == |s.columns| ==>
      (Evaluate(e, t, s).Ok? <==> HasColumn(s, e.name))
    ensures e.ColumnRef? && WellFormed(s) && Evaluate(e, t, s).Ok? ==>
      exists k: nat :: IsLastWithName(s.columns, e.name, k) && k < |t| && Evaluate(e, t, s).value == t[k]
    ensures e.ColumnRef? && Evaluate(e, t, s).Err? ==>
      Evaluate(e, t, s).error == UnknownColumn(e.name) || Evaluate(e, t, s).error == TupleIndexOutOfRange(e.name)
    // both operands are evaluated, left first, before the operator is looked at
    ensures e.Binary? && Evaluate(e.left, t, s).Err? ==> Evaluate(e, t, s) == Evaluate(e.left, t, s)
    ensures e.Binary? && Evaluate(e.left, t, s).Ok? && Evaluate(e.right, t, s).Err? ==>
      Evaluate(e, t, s) == Evaluate(e.right, t, s)
    ensures e.Binary? && Evaluate(e.left, t, s).Ok? && Evaluate(e.right, t, s).Ok? ==>
      Evaluate(e, t, s) == ApplyBinary(e.op, Evaluate(e.left, t, s).value, Evaluate(e.right, t, s).value)
    // NOT negates a bool and fails on anything else
    ensures e.Not? ==> (Evaluate(e, t, s).Ok? <==> Evaluate(e.operand, t, s).Ok? && Evaluate(e.operand, t, s).value.BoolV?)
    ensures e.Not? && Evaluate(e, t, s).Ok? ==> Evaluate(e, t, s).value == BoolV(!Evaluate(e.operand, t, s).value.b)
    ensures e.Not? && Evaluate(e.operand, t, s).Ok? && !Evaluate(e.operand, t, s).value.BoolV? ==>
      Evaluate(e, t, s) == Err(NotABool)
  {
    if e.ColumnRef? && WellFormed(s) && Evaluate(e, t, s).Ok? {
      var k := GetColumn(s, e.name).value.index;
      assert IsLastWithName(s.columns, e.name, k);
    }
  }

  /** The column names an expression refers to. */
  function ColumnsOf(e: Expr): set<string> {
    match e
    case Constant(_) => {}
    case ColumnRef(name) => {name}
    case Binary(_, left, right) => ColumnsOf(left) + ColumnsOf(right)
    case Not(operand) => ColumnsOf(operand)
  }

  /** A column reference whose name the schema resolves to `c` reads the tuple at `c`'s position. */
  lemma ColumnRefAt(name: string, t: Tuple, s: Schema, c: ColumnInfo)
    requires GetColumn(s, name) == Ok(c)
    ensures Evaluate(ColumnRef(name), t, s) == if c.index < |t| then Ok(t[c.index]) else Err(TupleIndexOutOfRange(name))
  {
  }

  /** A column reference to a left-hand name reads the same value from the joined row. */
  lemma ColumnOnMergedLeft(name: string, l: Tuple, r: Tuple, L: Schema, R: Schema)
    requires WellFormed(L) && WellFormed(R) && |l| == |L.columns| && !HasColumn(R, name)
    ensures Evaluate(ColumnRef(name), l + r, Merged(L, R)) == Evaluate(ColumnRef(name), l, L)
  {
    MergedLookupLeft(L, R, name);
    var c := GetColumn(L, name);
    if c.Ok? {
      assert c.value.index < |l| ==> (l + r)[c.value.index] == l[c.value.index];
    }
  }

  /** A column reference to a right-hand name reads the same value from the joined row. */
  lemma ColumnOnMergedRight(name: string, l: Tuple, r: Tuple, L: Schema, R: Schema)
    requires WellFormed(L) && WellFormed(R) && |l| == |L.columns| && HasColumn(R, name)
    ensures Evaluate(ColumnRef(name), l + r, Merged(L, R)) == Evaluate(ColumnRef(name), r, R)
  {
    GetColumnMeaning(R, name);
    MergedLookupRight(L, R, name);
    var c := GetColumn(R, name).value;
    ColumnRefAt(name, l + r, Merged(L, R), ColumnInfo(name, c.ty, |l| + c.index));
    ColumnRefAt(name, r, R, c);
    if c.index < |r| {
      assert (l + r)[|l| + c.index] == r[c.index];
    }
  }

  /**
   * An expression that names no right-hand column evaluates on a joined row
   * under the merged schema exactly as on the left row under the left schema.
   */
  lemma {:induction false} EvaluateOnMergedLeft(e: Expr, l: Tuple, r: Tuple, L: Schema, R: Schema)
    requires WellFormed(L) && WellFormed(R) && |l| == |L.columns|
    requires forall n :: n in ColumnsOf(e) ==> !HasColumn(R, n)
    ensures Evaluate(e, l + r, Merged(L, R)) == Evaluate(e, l, L)
  {
    match e
    case Constant(_) =>
    case ColumnRef(name) =>
      ColumnOnMergedLeft(name, l, r, L, R);
    case Binary(_, left, right) =>
      EvaluateOnMergedLeft(left, l, r, L, R);
      EvaluateOnMergedLeft(right, l, r, L, R);
    case Not(operand) =>
      EvaluateOnMergedLeft(operand, l, r, L, R);
  }

  /**
   * An expression all of whose columns belong to the right schema evaluates
   * on a joined row under the merged schema exactly as on the right row
   * under the right schema.
   */
  lemma {:induction false} EvaluateOnMergedRight(e: Expr, l: Tuple, r: Tuple, L: Schema, R: Schema)
    requires WellFormed(L) && WellFormed(R) && |l| == |L.columns|
    requires forall n :: n in ColumnsOf(e) ==> HasColumn(R, n)
    ensures Evaluate(e, l + r, Merged(L, R)) == Evaluate(e, r, R)
  {
    match e
    case Constant(_) =>
    case ColumnRef(name) =>
      ColumnOnMergedRight(name, l, r, L, R);
    case Binary(_, left, right) =>
      EvaluateOnMergedRight(left, l, r, L, R);
      EvaluateOnMergedRight(right, l, r, L, R);
    case Not(operand) =>
      EvaluateOnMergedRight(operand, l, r, L, R);
  }
}
