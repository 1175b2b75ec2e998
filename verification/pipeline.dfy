/**
 * The single-input operators of src/operator.h: Select, Project and Limit,
 * each over an abstract child stream.
 */
module PipelineOperators {
  import opened Errors
  import opened Types
  import opened Expressions
  import opened Iterators

  predicate IsBool(r: Result<Value>) {
    r.Ok? && r.value.BoolV?
  }

  // ---------------------------------------------------------------- Select

  /**
   * What Select emits over `rows`: the rows whose predicate is true, in
   * order; it stops with the error of the first row whose predicate fails
   * or is not a bool.
   */
  function Selected(pred: Expr, s: Schema, rows: seq<Tuple>): Trace
    decreases |rows|
  {
    if rows == [] then Finished
    else
      var rest := Selected(pred, s, rows[1..]);
      match Evaluate(pred, rows[0], s)
      case Err(e) => Failing(e)
      case Ok(v) =>
        if !v.BoolV? then Failing(NotABool)
        else if v.b then Cons(rows[0], rest)
        else rest
  }

  /** `out` is `rows` read at the strictly increasing positions `idx`. */
  ghost predicate Picks(rows: seq<Tuple>, idx: seq<int>, out: seq<Tuple>) {
    && |idx| == |out|
    && (forall k :: 0 <= k < |idx| ==> 0 <= idx[k] < |rows| && out[k] == rows[idx[k]])
    && (forall k, m :: 0 <= k < m < |idx| ==> idx[k] < idx[m])
  }

  /** Row `i` is emitted: its predicate is true and every earlier predicate gave a bool. */
  ghost predicate Emitted(pred: Expr, s: Schema, rows: seq<Tuple>, i: int) {
    && 0 <= i < |rows|
    && Evaluate(pred, rows[i], s) == Ok(BoolV(true))
    && forall k :: 0 <= k < i ==> IsBool(Evaluate(pred, rows[k], s))
  }

  /** Row `i` is the first whose predicate fails or is not a bool. */
  ghost predicate FailsAt(pred: Expr, s: Schema, rows: seq<Tuple>, i: int) {
    && 0 <= i < |rows|
    && !IsBool(Evaluate(pred, rows[i], s))
    && forall k :: 0 <= k < i ==> IsBool(Evaluate(pred, rows[k], s))
  }

  /** Positions shifted past one leading row. */
  function Shifted(idx: seq<int>): (r: seq<int>)
    ensures |r| == |idx| && forall k :: 0 <= k < |idx| ==> r[k] == idx[k] + 1
  {
    seq(|idx|, k requires 0 <= k < |idx| => idx[k] + 1)
  }

  /** Past one leading row, the same picks sit one position later. */
  lemma ShiftedPicks(row: Tuple, rows: seq<Tuple>, idx: seq<int>, out: seq<Tuple>)
    requires Picks(rows, idx, out)
    ensures Picks([row] + rows, Shifted(idx), out)
  {
    var all, sh := [row] + rows, Shifted(idx);
    forall k | 0 <= k < |idx|
      ensures 0 <= sh[k] < |all| && out[k] == all[sh[k]]
    {
      assert all[idx[k] + 1] == rows[idx[k]];
    }
  }

  /** Picking the leading row first, then the shifted picks. */
  lemma LeadingPick(row: Tuple, rows: seq<Tuple>, idx: seq<int>, out: seq<Tuple>)
    requires Picks([row] + rows, Shifted(idx), out)
    requires forall k :: 0 <= k < |idx| ==> 0 <= idx[k]
    ensures Picks([row] + rows, [0] + Shifted(idx), [row] + out)
  {
    var all, sh := [row] + rows, Shifted(idx);
    var idx', out' := [0] + sh, [row] + out;
    forall k | 0 <= k < |idx'|
      ensures 0 <= idx'[k] < |all| && out'[k] == all[idx'[k]]
    {
      if k > 0 {
        assert idx'[k] == sh[k - 1] && out'[k] == out[k - 1];
      }
    }
    forall k, m | 0 <= k < m < |idx'|
      ensures idx'[k] < idx'[m]
    {
      if k > 0 {
        assert idx'[k] == sh[k - 1] && idx'[m] == sh[m - 1];
      }
    }
  }

  /** A position is among the shifted picks exactly when the one before it is among the picks. */
  lemma ShiftedMember(idx: seq<int>, i: int)
    ensures i in Shifted(idx) <==> i - 1 in idx
  {
    var sh := Shifted(idx);
    if i in sh {
      var k :| 0 <= k < |sh| && sh[k] == i;
      assert idx[k] == i - 1;
    }
    if i - 1 in idx {
      var k :| 0 <= k < |idx| && idx[k] == i - 1;
      assert sh[k] == i;
    }
  }

  /** Past a leading row whose predicate gives a bool, positions shift by one. */
  lemma SelectedShift(pred: Expr, s: Schema, rows: seq<Tuple>, i: int)
    requires rows != [] && 1 <= i
    ensures Emitted(pred, s, rows, i) <==> IsBool(Evaluate(pred, rows[0], s)) && Emitted(pred, s, rows[1..], i - 1)
    ensures FailsAt(pred, s, rows, i) <==> IsBool(Evaluate(pred, rows[0], s)) && FailsAt(pred, s, rows[1..], i - 1)
  {
    var tail := rows[1..];
    assert forall k :: 0 <= k < i - 1 && k < |tail| ==> tail[k] == rows[k + 1];
    assert (forall k :: 0 <= k < i && k < |rows| ==> IsBool(Evaluate(pred, rows[k], s))) <==>
           IsBool(Evaluate(pred, rows[0], s)) && (forall k :: 0 <= k < i - 1 && k < |tail| ==> IsBool(Evaluate(pred, tail[k], s)));
  }

  /** The rows Select emits are the input rows at the emitted positions, in increasing order. */
  lemma {:induction false} SelectedPicks(pred: Expr, s: Schema, rows: seq<Tuple>)
    ensures exists idx :: Picks(rows, idx, Selected(pred, s, rows).rows) && forall i :: i in idx <==> Emitted(pred, s, rows, i)
    decreases |rows|
  {
    if rows == [] {
      assert Picks(rows, [], Selected(pred, s, rows).rows);
    } else {
      var tail := rows[1..];
      SelectedPicks(pred, s, tail);
      var idx :| Picks(tail, idx, Selected(pred, s, tail).rows) && forall i :: i in idx <==> Emitted(pred, s, tail, i);
      SelectedPicksStep(pred, s, rows, idx);
    }
  }

  /** One row in front of the emitted positions of the rest. */
  lemma SelectedPicksStep(pred: Expr, s: Schema, rows: seq<Tuple>, idx: seq<int>)
    requires rows != []
    requires Picks(rows[1..], idx, Selected(pred, s, rows[1..]).rows)
    requires forall i :: i in idx <==> Emitted(pred, s, rows[1..], i)
    ensures exists w :: Picks(rows, w, Selected(pred, s, rows).rows) && forall i :: i in w <==> Emitted(pred, s, rows, i)
  {
    var tail := rows[1..];
    var rest := Selected(pred, s, tail);
    assert rows == [rows[0]] + tail;
    ShiftedPicks(rows[0], tail, idx, rest.rows);
    var v := Evaluate(pred, rows[0], s);
    var w := if !IsBool(v) then [] else if v.value.b then [0] + Shifted(idx) else Shifted(idx);
    forall i
      ensures i in w <==> Emitted(pred, s, rows, i)
    {
      if i >= 1 {
        SelectedShift(pred, s, rows, i);
        ShiftedMember(idx, i);
      }
      if IsBool(v) && v.value.b {
        assert i in w <==> i == 0 || i in Shifted(idx);
      }
    }
    if !IsBool(v) {
      assert Picks(rows, w, Selected(pred, s, rows).rows);
    } else if v.value.b {
      assert forall k :: 0 <= k < |idx| ==> 0 <= idx[k];
      LeadingPick(rows[0], tail, idx, rest.rows);
    }
    assert Picks(rows, w, Selected(pred, s, rows).rows);
  }

  /** The first row whose predicate fails or is not a bool decides Select's error. */
  lemma {:induction false} SelectedFailsAt(pred: Expr, s: Schema, rows: seq<Tuple>)
    ensures forall i :: FailsAt(pred, s, rows, i) ==>
      Selected(pred, s, rows).failure == Some(if Evaluate(pred, rows[i], s).Err? then Evaluate(pred, rows[i], s).error else NotABool)
    decreases |rows|
  {
    if rows != [] {
      var tail := rows[1..];
      SelectedFailsAt(pred, s, tail);
      forall i | FailsAt(pred, s, rows, i)
        ensures Selected(pred, s, rows).failure ==
          Some(if Evaluate(pred, rows[i], s).Err? then Evaluate(pred, rows[i], s).error else NotABool)
      {
        if i > 0 {
          SelectedShift(pred, s, rows, i);
          assert tail[i - 1] == rows[i];
        }
      }
    }
  }

  /**
   * Select emits, in input order and once each, exactly the rows whose
   * predicate is true up to the first row whose predicate fails or is not
   * a bool; that first row decides the error, and without one there is no
   * failure.
   */
  lemma {:induction false} SelectedMeaning(pred: Expr, s: Schema, rows: seq<Tuple>)
    ensures var r := Selected(pred, s, rows);
      && |r.rows| <= |rows|
      && (forall t :: t in r.rows ==> t in rows && Evaluate(pred, t, s) == Ok(BoolV(true)))
      && (exists idx :: Picks(rows, idx, r.rows) && forall i :: i in idx <==> Emitted(pred, s, rows, i))
      && (r.failure.None? <==> forall i :: 0 <= i < |rows| ==> IsBool(Evaluate(pred, rows[i], s)))
      && (forall i :: FailsAt(pred, s, rows, i) ==>
            r.failure == Some(if Evaluate(pred, rows[i], s).Err? then Evaluate(pred, rows[i], s).error else NotABool))
      && (r.failure.None? ==>
            forall i :: 0 <= i < |rows| && Evaluate(pred, rows[i], s) == Ok(BoolV(true)) ==> rows[i] in r.rows)
    decreases |rows|
  {
    SelectedPicks(pred, s, rows);
    SelectedFailsAt(pred, s, rows);
    if rows != [] {
      SelectedMeaning(pred, s, rows[1..]);
      assert forall i :: 1 <= i < |rows| ==> rows[i] == rows[1..][i - 1];
    }
  }

  /** Selecting over a concatenation is selecting over each part in turn. */
  lemma {:induction false} SelectedAppend(pred: Expr, s: Schema, a: seq<Tuple>, b: seq<Tuple>)
    ensures Selected(pred, s, a + b) == Then(Selected(pred, s, a), Selected(pred, s, b))
    decreases |a|
  {
    if a == [] {
      assert a + b == b;
    } else {
      assert (a + b)[1..] == a[1..] + b;
      SelectedAppend(pred, s, a[1..], b);
      var rest := Selected(pred, s, a[1..]);
      ThenCons(a[0], rest, Selected(pred, s, b));
    }
  }

  /**
   * SelectOperator: passes its child's schema through and pulls child rows
   * until the predicate holds.
   */
  class Select {
    const input: Source
    const cond: Expr

    ghost predicate Valid()
      reads this, input
    {
      input.Valid()
    }

    ghost function Remaining(): Trace
      reads this, input
      requires Valid()
    {
      Selected(cond, input.schema, input.Remaining())
    }

    constructor (input: Source, cond: Expr)
      requires input.Valid()
      ensures Valid() && this.input == input && this.cond == cond
    {
      this.input := input;
      this.cond := cond;
    }

    method Open()
      requires Valid()
      modifies input
      ensures Valid() && input.isOpen
      ensures !old(input.isOpen) ==> Remaining() == Selected(cond, input.schema, input.rows)
    {
      input.Open();
    }

    method Close()
      requires Valid()
      modifies input
      ensures Valid() && !input.isOpen
    {
      input.Close();
    }

    method Next() returns (step: Step)
      requires Valid()
      modifies input
      ensures Valid()
      ensures Advances(old(Remaining()), step, Remaining())
    {
      var ok, t := input.Next();
      while ok
        invariant Valid()
        invariant ok ==> old(Remaining()) == Selected(cond, input.schema, [t] + input.Remaining())
        invariant !ok ==> input.Remaining() == [] && old(Remaining()) == Finished
        decreases |input.Remaining()| + (if ok then 1 else 0)
      {
        var v := Evaluate(cond, t, input.schema);
        assert ([t] + input.Remaining())[1..] == input.Remaining();
        if v.Err? {
          return Failed(v.error);
        }
        if !v.value.BoolV? {
          return Failed(NotABool);
        }
        if v.value.b {
          return Row(t);
        }
        ok, t := input.Next();
      }
      return Done;
    }
  }

  // ---------------------------------------------------------------- Project

  /** A projection item: an output alias and the expression computing it. */
  datatype ProjExpr = ProjExpr(alias: string, expr: Expr)

  /** Expression `j` is the first of `exprs` to fail on `t`. */
  predicate FirstFailure(exprs: seq<ProjExpr>, t: Tuple, s: Schema, j: nat)
    requires j < |exprs|
  {
    Evaluate(exprs[j].expr, t, s).Err? && forall k :: 0 <= k < j ==> Evaluate(exprs[k].expr, t, s).Ok?
  }

  /**
   * The values of all projection expressions on one row, in order; the
   * first failing expression's error otherwise.
   */
  function EvalList(exprs: seq<ProjExpr>, t: Tuple, s: Schema): Result<Tuple>
    decreases |exprs|
  {
    if exprs == [] then Ok([])
    else
      var n := |exprs| - 1;
      var init :- EvalList(exprs[..n], t, s);
      var v :- Evaluate(exprs[n].expr, t, s);
      Ok(init + [v])
  }

  /**
   * EvalList succeeds exactly when every expression evaluates, and then holds
   * their values in order; otherwise it carries the first failure.
   */
  lemma {:induction false} EvalListMeaning(exprs: seq<ProjExpr>, t: Tuple, s: Schema)
    ensures var r := EvalList(exprs, t, s);
      && (r.Ok? <==> forall j :: 0 <= j < |exprs| ==> Evaluate(exprs[j].expr, t, s).Ok?)
      && (r.Ok? ==> (|r.value| == |exprs| &&
          forall j :: 0 <= j < |exprs| ==> Evaluate(exprs[j].expr, t, s) == Ok(r.value[j])))
      && (r.Err? ==> exists j :: 0 <= j < |exprs| && FirstFailure(exprs, t, s, j) && Evaluate(exprs[j].expr, t, s) == Err(r.error))
    decreases |exprs|
  {
    if exprs != [] {
      var n := |exprs| - 1;
      assert forall j :: 0 <= j < n ==> exprs[..n][j] == exprs[j];
      EvalListMeaning(exprs[..n], t, s);
    }
  }

  /** Once a prefix of the expressions fails, the whole list fails with that error. */
  lemma {:induction false} EvalListFailedPrefix(exprs: seq<ProjExpr>, t: Tuple, s: Schema, i: nat)
    requires i <= |exprs| && EvalList(exprs[..i], t, s).Err?
    ensures EvalList(exprs, t, s) == EvalList(exprs[..i], t, s)
    decreases |exprs|
  {
    if i < |exprs| {
      var n := |exprs| - 1;
      assert exprs[..n][..i] == exprs[..i];
      EvalListFailedPrefix(exprs[..n], t, s, i);
      assert EvalList(exprs, t, s) == EvalList(exprs[..n], t, s);
    } else {
      assert exprs[..i] == exprs;
    }
  }

  /** The loop of ProjectOperator::next that builds one output row. */
  method EvalRow(exprs: seq<ProjExpr>, t: Tuple, s: Schema) returns (r: Result<Tuple>)
    ensures r == EvalList(exprs, t, s)
  {
    var out: Tuple := [];
    for i := 0 to |exprs|
      invariant EvalList(exprs[..i], t, s) == Ok(out)
    {
      assert exprs[..i + 1][..i] == exprs[..i];
      var v := Evaluate(exprs[i].expr, t, s);
      if v.Err? {
        EvalListFailedPrefix(exprs, t, s, i + 1);
        return Err(v.error);
      }
      out := out + [v.value];
    }
    assert exprs[..|exprs|] == exprs;
    return Ok(out);
  }

  /**
   * What Project emits over `rows`: one output row per input row, the
   * expression values in order; it stops at the first row on which an
   * expression fails.
   */
  function Projected(exprs: seq<ProjExpr>, s: Schema, rows: seq<Tuple>): (r: Trace)
    ensures r.failure.None? ==> |r.rows| == |rows|
    ensures r.failure.Some? ==> |r.rows| < |rows| && EvalList(exprs, rows[|r.rows|], s) == Err(r.failure.value)
    ensures forall i :: 0 <= i < |r.rows| ==> EvalList(exprs, rows[i], s) == Ok(r.rows[i])
    decreases |rows|
  {
    if rows == [] then Finished
    else
      match EvalList(exprs, rows[0], s)
      case Err(e) => Failing(e)
      case Ok(out) => Cons(out, Projected(exprs, s, rows[1..]))
  }

  /** The declared type of a projected column: FLOAT for a binary expression, STRING otherwise. */
  function ProjectedType(e: Expr): DataType {
    if e.Binary? then FLOAT else STRING
  }

  function ProjectColumns(exprs: seq<ProjExpr>): seq<ColumnInfo> {
    seq(|exprs|, i requires 0 <= i < |exprs| => ColumnInfo(exprs[i].alias, ProjectedType(exprs[i].expr), i))
  }

  /** Project's output schema: one column per expression, named by its alias. */
  function ProjectSchema(exprs: seq<ProjExpr>): (s: Types.Schema)
    ensures WellFormed(s)
    ensures |s.columns| == |exprs|
    ensures forall i :: 0 <= i < |exprs| ==>
      s.columns[i] == ColumnInfo(exprs[i].alias, if exprs[i].expr.Binary? then FLOAT else STRING, i)
  {
    AddColumnsColumns(EmptySchema, ProjectColumns(exprs));
    AddColumnsWellFormed(EmptySchema, ProjectColumns(exprs));
    AddColumns(EmptySchema, ProjectColumns(exprs))
  }

  /** The constructor loop of ProjectOperator: one addColumn per expression. */
  method BuildProjectSchema(exprs: seq<ProjExpr>) returns (s: Types.Schema)
    ensures s == ProjectSchema(exprs)
  {
    s := EmptySchema;
    ghost var cols := ProjectColumns(exprs);
    for i := 0 to |exprs|
      invariant s == AddColumns(EmptySchema, cols[..i])
    {
      assert cols[..i + 1][..i] == cols[..i];
      s := AddColumn(s, exprs[i].alias, ProjectedType(exprs[i].expr));
    }
    assert cols[..|exprs|] == cols;
  }

  /** ProjectOperator: evaluates its expressions against each child row and the child's schema. */
  class Project {
    const input: Source
    const expressions: seq<ProjExpr>
    const outputSchema: Types.Schema

    ghost predicate Valid()
      reads this, input
    {
      input.Valid()
    }

    ghost function Remaining(): Trace
      reads this, input
      requires Valid()
    {
      Projected(expressions, input.schema, input.Remaining())
    }

    constructor (input: Source, exprs: seq<ProjExpr>)
      requires input.Valid()
      ensures Valid() && this.input == input && expressions == exprs
      ensures outputSchema == ProjectSchema(exprs)
    {
      this.input := input;
      expressions := exprs;
      var s := BuildProjectSchema(exprs);
      outputSchema := s;
    }

    method Open()
      requires Valid()
      modifies input
      ensures Valid() && input.isOpen
      ensures !old(input.isOpen) ==> Remaining() == Projected(expressions, input.schema, input.rows)
    {
      input.Open();
    }

    method Close()
      requires Valid()
      modifies input
      ensures Valid() && !input.isOpen
    {
      input.Close();
    }

    method Next() returns (step: Step)
      requires Valid()
      modifies input
      ensures Valid()
      ensures Advances(old(Remaining()), step, Remaining())
    {
      var ok, t := input.Next();
      if !ok {
        return Done;
      }
      var out := EvalRow(expressions, t, input.schema);
      if out.Err? {
        return Failed(out.error);
      }
      return Row(out.value);
    }
  }

  // ---------------------------------------------------------------- Limit

  /** The first `limit` rows, or all of them if there are fewer; none for a limit <= 0. */
  function Take(rows: seq<Tuple>, limit: int): (r: seq<Tuple>)
    ensures |r| == if limit <= 0 then 0 else if limit < |rows| then limit else |rows|
    ensures r == rows[..|r|]
  {
    if limit <= 0 then [] else if limit < |rows| then rows[..limit] else rows
  }

  /** LimitOperator: forwards child rows while fewer than `limit` have been emitted since open. */
  class Limit {
    const input: Source
    const limit: int
    var count: int

    ghost predicate Valid()
      reads this, input
    {
      input.Valid() && 0 <= count
    }

    ghost function Remaining(): Trace
      reads this, input
      requires Valid()
    {
      Trace(Take(input.Remaining(), limit - count), None)
    }

    constructor (input: Source, limit: int)
      requires input.Valid()
      ensures Valid() && this.input == input && this.limit == limit && count == 0
    {
      this.input := input;
      this.limit := limit;
      count := 0;
    }

    method Open()
      requires Valid()
      modifies this, input
      ensures Valid() && input.isOpen && count == 0
      ensures !old(input.isOpen) ==> Remaining() == Trace(Take(input.rows, limit), None)
    {
      input.Open();
      count := 0;
    }

    method Close()
      requires Valid()
      modifies input
      ensures Valid() && !input.isOpen
    {
      input.Close();
    }

    method Next() returns (step: Step)
      requires Valid()
      modifies this, input
      ensures Valid()
      ensures Advances(old(Remaining()), step, Remaining())
      ensures count == if step.Row? then old(count) + 1 else old(count)
    {
      if count >= limit {
        return Done;
      }
      var ok, t := input.Next();
      if ok {
        count := count + 1;
        return Row(t);
      }
      return Done;
    }
  }
}
