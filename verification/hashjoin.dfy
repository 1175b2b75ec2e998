/**
 * HashJoinOperator of src/operator.h: an equijoin that hashes the right
 * (build) input on one key expression and probes it with each row of the
 * left (probe) input.
 */
module HashJoinOperator {
  import opened Errors
  import opened Types
  import opened Expressions
  import opened Iterators
  import opened JoinOperators

  /** The hash table: key value to the build rows carrying it, in input order. */
  type Table = map<Value, seq<Tuple>>

  /** The rows stored under `k`; none when the key is absent. */
  function Bucket(table: Table, k: Value): seq<Tuple> {
    if k in table then table[k] else []
  }

  /** The rows of `rows` whose key evaluates to `k`, in order. */
  function KeyMatches(key: Expr, s: Schema, k: Value, rows: seq<Tuple>): seq<Tuple>
    decreases |rows|
  {
    if rows == [] then []
    else (if Evaluate(key, rows[0], s) == Ok(k) then [rows[0]] else []) + KeyMatches(key, s, k, rows[1..])
  }

  lemma {:induction false} KeyMatchesSnoc(key: Expr, s: Schema, k: Value, rows: seq<Tuple>, t: Tuple)
    ensures KeyMatches(key, s, k, rows + [t]) ==
      KeyMatches(key, s, k, rows) + (if Evaluate(key, t, s) == Ok(k) then [t] else [])
    decreases |rows|
  {
    if rows == [] {
      assert rows + [t] == [t];
    } else {
      assert (rows + [t])[1..] == rows[1..] + [t];
      KeyMatchesSnoc(key, s, k, rows[1..], t);
    }
  }

  /**
   * The build phase over `rows`: each row appended to the bucket of its key;
   * the first row whose key fails to evaluate aborts it.
   */
  function BuildTable(key: Expr, s: Schema, rows: seq<Tuple>): Result<Table>
    decreases |rows|
  {
    if rows == [] then Ok(map[])
    else
      var n := |rows| - 1;
      var table :- BuildTable(key, s, rows[..n]);
      var k :- Evaluate(key, rows[n], s);
      Ok(table[k := Bucket(table, k) + [rows[n]]])
  }

  /**
   * The build phase succeeds exactly when every key evaluates, and then
   * each bucket holds the rows with that key in input order, and no bucket
   * is empty.
   */
  lemma {:induction false} BuildTableBuckets(key: Expr, s: Schema, rows: seq<Tuple>)
    ensures BuildTable(key, s, rows).Ok? <==> forall i :: 0 <= i < |rows| ==> Evaluate(key, rows[i], s).Ok?
    ensures BuildTable(key, s, rows).Ok? ==>
      forall k :: Bucket(BuildTable(key, s, rows).value, k) == KeyMatches(key, s, k, rows)
    ensures BuildTable(key, s, rows).Ok? ==>
      forall k :: k in BuildTable(key, s, rows).value ==> BuildTable(key, s, rows).value[k] != []
    decreases |rows|
  {
    if rows != [] {
      var n := |rows| - 1;
      assert rows[..n] + [rows[n]] == rows;
      assert forall i :: 0 <= i < n ==> rows[..n][i] == rows[i];
      BuildTableBuckets(key, s, rows[..n]);
      if BuildTable(key, s, rows).Ok? {
        forall k ensures Bucket(BuildTable(key, s, rows).value, k) == KeyMatches(key, s, k, rows) {
          KeyMatchesSnoc(key, s, k, rows[..n], rows[n]);
        }
      }
    }
  }

  /** One more build row whose key evaluates is appended to its bucket. */
  lemma BuildTableSnoc(key: Expr, s: Schema, rows: seq<Tuple>, t: Tuple, table: Table, k: Value)
    requires BuildTable(key, s, rows) == Ok(table) && Evaluate(key, t, s) == Ok(k)
    ensures BuildTable(key, s, rows + [t]) == Ok(table[k := Bucket(table, k) + [t]])
  {
    assert (rows + [t])[..|rows|] == rows;
  }

  /** One more build row whose key fails aborts the build phase with that error. */
  lemma BuildTableSnocFails(key: Expr, s: Schema, rows: seq<Tuple>, t: Tuple, e: Error)
    requires BuildTable(key, s, rows).Ok? && Evaluate(key, t, s) == Err(e)
    ensures BuildTable(key, s, rows + [t]) == Err(e)
  {
    assert (rows + [t])[..|rows|] == rows;
  }

  /** Once a prefix of the build rows fails, the whole build phase fails with that error. */
  lemma {:induction false} BuildTableFailedPrefix(key: Expr, s: Schema, rows: seq<Tuple>, i: nat)
    requires i <= |rows| && BuildTable(key, s, rows[..i]).Err?
    ensures BuildTable(key, s, rows) == BuildTable(key, s, rows[..i])
    decreases |rows|
  {
    if i < |rows| {
      var n := |rows| - 1;
      assert rows[..n][..i] == rows[..i];
      BuildTableFailedPrefix(key, s, rows[..n], i);
    } else {
      assert rows[..i] == rows;
    }
  }

  /** One turn of the build loop: the next row's key fails the whole build, or extends the table. */
  lemma BuildStep(key: Expr, s: Schema, all: seq<Tuple>, consumed: seq<Tuple>, rest: seq<Tuple>, table: Table, k: Result<Value>)
    requires BuildTable(key, s, consumed) == Ok(table) && all == consumed + rest
    requires rest != [] && k == Evaluate(key, rest[0], s)
    ensures k.Err? ==> BuildTable(key, s, all) == Err(k.error)
    ensures k.Ok? ==> BuildTable(key, s, consumed + [rest[0]]) == Ok(table[k.value := Bucket(table, k.value) + [rest[0]]])
    ensures all == (consumed + [rest[0]]) + rest[1..]
  {
    var prefix := consumed + [rest[0]];
    assert all == prefix + rest[1..];
    assert all[..|prefix|] == prefix;
    if k.Err? {
      BuildTableSnocFails(key, s, consumed, rest[0], k.error);
      BuildTableFailedPrefix(key, s, all, |prefix|);
    } else {
      BuildTableSnoc(key, s, consumed, rest[0], table, k.value);
    }
  }

  /**
   * The probe phase over the left rows: each row joined with its bucket,
   * stopping at the first row whose key fails to evaluate.
   */
  function Probe(key: Expr, s: Schema, table: Table, ls: seq<Tuple>): Trace
    decreases |ls|
  {
    if ls == [] then Finished
    else
      match Evaluate(key, ls[0], s)
      case Err(e) => Failing(e)
      case Ok(k) => Then(Trace(Pairs(ls[0], Bucket(table, k)), None), Probe(key, s, table, ls[1..]))
  }

  /** Emitting the first row of the current bucket. */
  lemma BucketStep(l: Tuple, ms: seq<Tuple>, later: Trace)
    requires ms != []
    ensures Then(Trace(Pairs(l, ms), None), later) == Cons(l + ms[0], Then(Trace(Pairs(l, ms[1..]), None), later))
  {
    PairsCons(l, ms[0], ms[1..]);
    assert [ms[0]] + ms[1..] == ms;
    ThenCons(l + ms[0], Trace(Pairs(l, ms[1..]), None), later);
  }

  /** An exhausted bucket contributes nothing. */
  lemma BucketDone(l: Tuple, later: Trace)
    ensures Then(Trace(Pairs(l, []), None), later) == later
  {
    assert Pairs(l, []) == [];
  }

  /** What a hash join emits: the build phase, then the probe phase against its table. */
  function HashJoinTrace(probeKey: Expr, buildKey: Expr, sp: Schema, sb: Schema, ls: seq<Tuple>, rs: seq<Tuple>): Trace {
    match BuildTable(buildKey, sb, rs)
    case Err(e) => Failing(e)
    case Ok(table) => Probe(probeKey, sp, table, ls)
  }

  /** On a joined row, the equality condition compares the left row's probe key with the right row's build key. */
  lemma EquiCondition(probeKey: Expr, buildKey: Expr, sl: Schema, sr: Schema, l: Tuple, r: Tuple, k: Value)
    requires WellFormed(sl) && WellFormed(sr) && |l| == |sl.columns|
    requires forall n :: n in ColumnsOf(probeKey) ==> !HasColumn(sr, n)
    requires forall n :: n in ColumnsOf(buildKey) ==> HasColumn(sr, n)
    requires Evaluate(probeKey, l, sl) == Ok(k) && Evaluate(buildKey, r, sr).Ok?
    ensures Evaluate(Binary("EQ", probeKey, buildKey), l + r, Merged(sl, sr)) == Ok(BoolV(Evaluate(buildKey, r, sr) == Ok(k)))
  {
    var m := Merged(sl, sr);
    var e := Binary("EQ", probeKey, buildKey);
    var b := Evaluate(buildKey, r, sr).value;
    EvaluateOnMergedLeft(probeKey, l, r, sl, sr);
    EvaluateOnMergedRight(buildKey, l, r, sl, sr);
    EvaluateMeaning(e, l + r, m);
    assert Evaluate(e, l + r, m) == ApplyBinary("EQ", k, b);
    assert "EQ" !in ArithmeticOps;
  }

  /** Under matching keys, one left row's pass of a nested-loop equijoin is its bucket. */
  lemma {:induction false} EquiJoinRow(probeKey: Expr, buildKey: Expr, sl: Schema, sr: Schema, l: Tuple, rs: seq<Tuple>, k: Value)
    requires WellFormed(sl) && WellFormed(sr) && |l| == |sl.columns|
    requires forall n :: n in ColumnsOf(probeKey) ==> !HasColumn(sr, n)
    requires forall n :: n in ColumnsOf(buildKey) ==> HasColumn(sr, n)
    requires Evaluate(probeKey, l, sl) == Ok(k)
    requires forall j :: 0 <= j < |rs| ==> Evaluate(buildKey, rs[j], sr).Ok?
    ensures JoinRow(Binary("EQ", probeKey, buildKey), Merged(sl, sr), l, rs) ==
      Trace(Pairs(l, KeyMatches(buildKey, sr, k, rs)), None)
    decreases |rs|
  {
    if rs != [] {
      var rest := KeyMatches(buildKey, sr, k, rs[1..]);
      var matched := Evaluate(buildKey, rs[0], sr) == Ok(k);
      assert forall j :: 0 <= j < |rs[1..]| ==> rs[1..][j] == rs[j + 1];
      EquiJoinRow(probeKey, buildKey, sl, sr, l, rs[1..], k);
      EquiCondition(probeKey, buildKey, sl, sr, l, rs[0], k);
      JoinRowBool(Binary("EQ", probeKey, buildKey), Merged(sl, sr), l, rs, matched);
      var cond := Binary("EQ", probeKey, buildKey);
      if matched {
        assert KeyMatches(buildKey, sr, k, rs) == [rs[0]] + rest;
        PairsCons(l, rs[0], rest);
        calc {
          JoinRow(cond, Merged(sl, sr), l, rs);
          Cons(l + rs[0], JoinRow(cond, Merged(sl, sr), l, rs[1..]));
          Cons(l + rs[0], Trace(Pairs(l, rest), None));
          Trace(Pairs(l, [rs[0]] + rest), None);
        }
      } else {
        assert KeyMatches(buildKey, sr, k, rs) == [] + rest == rest;
      }
    }
  }

  /**
   * The hash join emits what the nested-loop join on the equality of the
   * two keys emits, when both keys evaluate on every row, the probe key
   * reads only left columns and the build key only right columns.
   */
  lemma {:induction false} HashJoinMatchesNestedLoop(probeKey: Expr, buildKey: Expr, sl: Schema, sr: Schema, ls: seq<Tuple>, rs: seq<Tuple>)
    requires WellFormed(sl) && WellFormed(sr)
    requires forall i :: 0 <= i < |ls| ==> |ls[i]| == |sl.columns| && Evaluate(probeKey, ls[i], sl).Ok?
    requires forall j :: 0 <= j < |rs| ==> Evaluate(buildKey, rs[j], sr).Ok?
    requires forall n :: n in ColumnsOf(probeKey) ==> !HasColumn(sr, n)
    requires forall n :: n in ColumnsOf(buildKey) ==> HasColumn(sr, n)
    ensures HashJoinTrace(probeKey, buildKey, sl, sr, ls, rs) ==
      NestedLoop(Binary("EQ", probeKey, buildKey), Merged(sl, sr), ls, rs)
    decreases |ls|
  {
    BuildTableBuckets(buildKey, sr, rs);
    var table := BuildTable(buildKey, sr, rs).value;
    if ls != [] {
      var k := Evaluate(probeKey, ls[0], sl).value;
      EquiJoinRow(probeKey, buildKey, sl, sr, ls[0], rs, k);
      HashJoinMatchesNestedLoop(probeKey, buildKey, sl, sr, ls[1..], rs);
    }
  }

  /**
   * The width hypothesis of HashJoinMatchesNestedLoop cannot be dropped. A
   * probe row shorter than its schema, as a scan emits for a line with too
   * few fields, finds its bucket in the hash join. The nested-loop join
   * instead reads the build key at its merged position, which the short row
   * has shifted onto another right value, and emits nothing.
   */
  lemma ShortProbeRowDiffers()
    ensures var sl := AddColumn(AddColumn(EmptySchema, "l.a", INT), "l.b", INT);
      var sr := AddColumn(AddColumn(EmptySchema, "r.c", INT), "r.d", INT);
      var ls: seq<Tuple> := [[IntV(1)]];
      var rs: seq<Tuple> := [[IntV(1), IntV(2)]];
      && HashJoinTrace(ColumnRef("l.a"), ColumnRef("r.c"), sl, sr, ls, rs) == Trace([[IntV(1), IntV(1), IntV(2)]], None)
      && NestedLoop(Binary("EQ", ColumnRef("l.a"), ColumnRef("r.c")), Merged(sl, sr), ls, rs) == Finished
  {
    var sl := AddColumn(AddColumn(EmptySchema, "l.a", INT), "l.b", INT);
    var sr := AddColumn(AddColumn(EmptySchema, "r.c", INT), "r.d", INT);
    var l: Tuple := [IntV(1)];
    var r: Tuple := [IntV(1), IntV(2)];
    var cols := sr.columns;
    assert cols == [ColumnInfo("r.c", INT, 0), ColumnInfo("r.d", INT, 1)];
    assert cols[..1][..0] == [] && cols[..1] == [cols[0]];
    assert AddColumns(sl, cols[..1]) == AddColumn(sl, "r.c", INT);
    var m := Merged(sl, sr);
    assert m == AddColumn(AddColumn(sl, "r.c", INT), "r.d", INT);
    assert m.columnIndex["r.c"] == 2 && m.columnIndex["l.a"] == 0;
    assert Evaluate(ColumnRef("r.c"), l + r, m) == Ok(IntV(2));
    assert Evaluate(ColumnRef("l.a"), l + r, m) == Ok(IntV(1));
    var rs: seq<Tuple> := [r];
    assert rs[..0] == [] && rs[0] == r;
    assert BuildTable(ColumnRef("r.c"), sr, rs[..0]) == Ok(map[]);
    assert sr.columnIndex["r.c"] == 0;
    assert Evaluate(ColumnRef("r.c"), r, sr) == Ok(IntV(1));
    assert Bucket(map[], IntV(1)) + [r] == [r];
    var table := map[IntV(1) := [r]];
    assert BuildTable(ColumnRef("r.c"), sr, rs) == Ok(table);
    var ls: seq<Tuple> := [l];
    assert ls[1..] == [] && ls[0] == l;
    assert sl.columnIndex["l.a"] == 0;
    assert Evaluate(ColumnRef("l.a"), l, sl) == Ok(IntV(1));
    assert Pairs(l, Bucket(table, IntV(1))) == [l + r];
    assert l + r == [IntV(1), IntV(1), IntV(2)];
    assert Probe(ColumnRef("l.a"), sl, table, ls[1..]) == Finished;
    assert Then(Trace([l + r], None), Finished) == Trace([l + r], None);
    assert Probe(ColumnRef("l.a"), sl, table, ls) == Trace([l + r], None);
    assert HashJoinTrace(ColumnRef("l.a"), ColumnRef("r.c"), sl, sr, ls, rs) == Trace([l + r], None);
    var cond := Binary("EQ", ColumnRef("l.a"), ColumnRef("r.c"));
    assert Evaluate(cond, l + r, m) == Ok(BoolV(false));
    assert Pairs(l, rs) == [l + r] && [l + r][1..] == [];
    JoinRowStep(cond, m, l, rs);
    assert rs[1..] == [] && Pairs(l, []) == [];
    assert JoinRow(cond, m, l, rs) == Finished;
    assert NestedLoop(cond, m, ls, rs) == Then(Finished, Finished);
  }

  /**
   * HashJoinOperator. `Open` runs the build phase over the right input;
   * `matches` and `matchPos` play the part of the iterator pair into the
   * current probe row's bucket.
   */
  class HashJoin {
    const probe: Source
    const build: Source
    const probeKey: Expr
    const buildKey: Expr
    const outputSchema: Schema
    var table: Table
    var probeTuple: Tuple
    var hasProbe: bool
    var matches: seq<Tuple>
    var matchPos: nat

    ghost predicate Valid()
      reads this, probe, build
    {
      probe.Valid() && build.Valid() && probe != build && matchPos <= |matches|
    }

    /** The trace still to come: the rest of the current bucket, then the remaining probe rows. */
    ghost function Remaining(): Trace
      reads this, probe, build
      requires Valid()
    {
      var later := Probe(probeKey, probe.schema, table, probe.Remaining());
      if hasProbe then Then(Trace(Pairs(probeTuple, matches[matchPos..]), None), later) else later
    }

    constructor (probe: Source, build: Source, probeKey: Expr, buildKey: Expr)
      requires probe.Valid() && build.Valid() && probe != build
      ensures Valid() && this.probe == probe && this.build == build
      ensures this.probeKey == probeKey && this.buildKey == buildKey
      ensures outputSchema == Merged(probe.schema, build.schema)
      ensures table == map[] && !hasProbe
    {
      this.probe := probe;
      this.build := build;
      this.probeKey := probeKey;
      this.buildKey := buildKey;
      var s := Merge(probe.schema, build.schema);
      outputSchema := s;
      table := map[];
      probeTuple := [];
      hasProbe := false;
      matches := [];
      matchPos := 0;
    }

    /** The build loop of open: every build row is added to its key's bucket. */
    method Drain() returns (r: Result<Table>)
      requires build.Valid() && build.isOpen
      modifies build
      ensures build.Valid() && build.isOpen
      ensures r == BuildTable(buildKey, build.schema, old(build.Remaining()))
    {
      var t: Table := map[];
      ghost var all := build.Remaining();
      ghost var consumed: seq<Tuple> := [];
      while true
        invariant build.Valid() && build.isOpen
        invariant BuildTable(buildKey, build.schema, consumed) == Ok(t)
        invariant all == consumed + build.Remaining()
        decreases |build.Remaining()|
      {
        ghost var rest := build.Remaining();
        var ok, buildTuple := build.Next();
        if !ok {
          assert all == consumed;
          return Ok(t);
        }
        var key := Evaluate(buildKey, buildTuple, build.schema);
        BuildStep(buildKey, build.schema, all, consumed, rest, t, key);
        if key.Err? {
          return Err(key.error);
        }
        t := t[key.value := Bucket(t, key.value) + [buildTuple]];
        consumed := consumed + [buildTuple];
      }
    }

    /** The build phase: drains the build input into the hash table. */
    method BuildPhase() returns (err: Option<Error>)
      requires Valid() && build.isOpen
      modifies this, build
      ensures Valid() && build.isOpen
      ensures match BuildTable(buildKey, build.schema, old(build.Remaining()))
        case Err(e) => err == Some(e)
        case Ok(t) => err == None && table == t
    {
      var r := Drain();
      match r
      case Err(e) =>
        err := Some(e);
      case Ok(t) =>
        table := t;
        err := None;
    }

    /**
     * The build phase, then opening the probe input. A build key that fails
     * to evaluate aborts it with that error.
     */
    method Open() returns (err: Option<Error>)
      requires Valid()
      modifies this, probe, build
      ensures Valid()
      ensures !old(build.isOpen) ==> match BuildTable(buildKey, build.schema, build.rows)
        case Err(e) => err == Some(e)
        case Ok(t) => err == None && table == t
      ensures err.None? ==> !build.isOpen && probe.isOpen && !hasProbe
      ensures err.None? && !old(build.isOpen) && !old(probe.isOpen) ==>
        Remaining() == HashJoinTrace(probeKey, buildKey, probe.schema, build.schema, probe.rows, build.rows)
    {
      build.Open();
      err := BuildPhase();
      if err.Some? {
        return;
      }
      build.Close();
      probe.Open();
      hasProbe := false;
    }

    method Close()
      requires Valid()
      modifies probe
      ensures Valid() && !probe.isOpen
    {
      probe.Close();
    }

    method Next() returns (step: Step)
      requires Valid()
      modifies this, probe
      ensures Valid()
      ensures Advances(old(Remaining()), step, Remaining())
    {
      while true
        invariant Valid()
        invariant Remaining() == old(Remaining())
        decreases |probe.Remaining()|
      {
        ghost var later := Probe(probeKey, probe.schema, table, probe.Remaining());
        if hasProbe && matchPos < |matches| {
          var t := probeTuple + matches[matchPos];
          BucketStep(probeTuple, matches[matchPos..], later);
          assert matches[matchPos..][1..] == matches[matchPos + 1..];
          matchPos := matchPos + 1;
          return Row(t);
        }
        if hasProbe {
          BucketDone(probeTuple, later);
        }
        assert old(Remaining()) == later;
        ghost var rest := probe.Remaining();
        hasProbe, probeTuple := probe.Next();
        if !hasProbe {
          return Done;
        }
        var key := Evaluate(probeKey, probeTuple, probe.schema);
        if key.Err? {
          return Failed(key.error);
        }
        matches := Bucket(table, key.value);
        matchPos := 0;
        assert matches[matchPos..] == matches;
      }
    }
  }
}
