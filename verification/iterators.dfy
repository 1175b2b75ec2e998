/**
 * The operator protocol of src/operator.h (open / next / close) and the
 * abstract child stream every operator is modelled over.
 *
 * Each operator class below exposes a ghost `Remaining()`: the trace it
 * will emit from its current state on. `Open` fixes it to the operator's
 * functional description, and every `Next` returns the head of it.
 */
module Iterators {
  import opened Errors
  import opened Types

  /** The rows an operator emits, then how it stops: end of input (None) or an error. */
  datatype Trace = Trace(rows: seq<Tuple>, failure: Option<Error>)

  const Finished: Trace := Trace([], None)

  function Failing(e: Error): Trace {
    Trace([], Some(e))
  }

  function Cons(t: Tuple, tr: Trace): Trace {
    Trace([t] + tr.rows, tr.failure)
  }

  /** Running one trace after another; an error stops everything after it. */
  function Then(a: Trace, b: Trace): Trace {
    if a.failure.Some? then a else Trace(a.rows + b.rows, b.failure)
  }

  lemma ThenAssociative(a: Trace, b: Trace, c: Trace)
    ensures Then(Then(a, b), c) == Then(a, Then(b, c))
  {
    if a.failure.None? && b.failure.None? {
      assert (a.rows + b.rows) + c.rows == a.rows + (b.rows + c.rows);
    }
  }

  lemma ThenCons(t: Tuple, a: Trace, b: Trace)
    ensures Then(Cons(t, a), b) == Cons(t, Then(a, b))
  {
    if a.failure.None? {
      assert ([t] + a.rows) + b.rows == [t] + (a.rows + b.rows);
    }
  }

  /** What one call of next produces: a row, the end of input, or a thrown error. */
  datatype Step = Row(tuple: Tuple) | Done | Failed(error: Error)

  /**
   * One call of next against the trace still to come: the first row is
   * returned and the rest remains; with no rows left the error or the end
   * is reported, and at the end nothing changes.
   */
  ghost predicate Advances(before: Trace, step: Step, after: Trace) {
    if before.rows != [] then
      step == Row(before.rows[0]) && after == Trace(before.rows[1..], before.failure)
    else if before.failure.Some? then
      step == Failed(before.failure.value)
    else
      step == Done && after == before
  }

  /**
   * An operator's child as an abstract, rewindable finite stream: its rows,
   * a cursor and an open flag. Like ScanOperator, `Open` does nothing on a
   * stream that is already open, and `Close` followed by `Open` rewinds it.
   */
  class Source {
    const rows: seq<Tuple>
    const schema: Schema
    var pos: nat
    var isOpen: bool

    ghost predicate Valid()
      reads this
    {
      pos <= |rows|
    }

    /** The rows that `Next` will still deliver. */
    ghost function Remaining(): seq<Tuple>
      reads this
      requires Valid()
    {
      if isOpen then rows[pos..] else []
    }

    constructor (rows: seq<Tuple>, schema: Schema)
      ensures Valid() && this.rows == rows && this.schema == schema && !isOpen
    {
      this.rows := rows;
      this.schema := schema;
      pos := 0;
      isOpen := false;
    }

    method Open()
      requires Valid()
      modifies this
      ensures Valid() && isOpen
      ensures old(isOpen) ==> pos == old(pos)
      ensures !old(isOpen) ==> Remaining() == rows
    {
      if !isOpen {
        isOpen := true;
        pos := 0;
      }
    }

    method Close()
      requires Valid()
      modifies this
      ensures Valid() && !isOpen && pos == old(pos)
    {
      isOpen := false;
    }

    method Next() returns (ok: bool, t: Tuple)
      requires Valid()
      modifies this
      ensures Valid() && isOpen == old(isOpen)
      ensures ok <==> old(Remaining()) != []
      ensures ok ==> t == old(Remaining())[0] && Remaining() == old(Remaining())[1..]
      ensures !ok ==> pos == old(pos)
    {
      if isOpen && pos < |rows| {
        ok, t := true, rows[pos];
        pos := pos + 1;
      } else {
        ok, t := false, [];
      }
    }
  }
}
