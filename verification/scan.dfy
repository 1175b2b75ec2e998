/**
 * ScanOperator of src/operator.h: the leaf operator. Its output schema is
 * the catalog's base schema with every column qualified by the alias; it
 * reads a data file line by line, skipping the header, and parses each
 * field by its column's type.
 *
 * The data file is given as its sequence of lines. Splitting a line at
 * commas and the integer and float conversions are parameters
 * (`Parsers`): a conversion either yields a number, rejects the text
 * (the `invalid_argument` case) or finds it out of range.
 */
module ScanOperator {
  import opened Errors
  import opened Types
  import opened Iterators
  import opened Catalogs

  // ---------------------------------------------------------------- Schema

  /** The file name of a path: the text after its last '/'. */
  function BaseName(path: string): string
    decreases |path|
  {
    if path == [] then []
    else
      var n := |path| - 1;
      if path[n] == '/' then [] else BaseName(path[..n]) + [path[n]]
  }

  /** The file name is the longest suffix of the path that holds no '/'. */
  lemma {:induction false} BaseNameIsLastSegment(path: string)
    ensures '/' !in BaseName(path)
    ensures |BaseName(path)| <= |path| && BaseName(path) == path[|path| - |BaseName(path)|..]
    ensures |BaseName(path)| < |path| ==> path[|path| - |BaseName(path)| - 1] == '/'
    decreases |path|
  {
    if path != [] {
      var n := |path| - 1;
      if path[n] != '/' {
        var init := BaseName(path[..n]);
        BaseNameIsLastSegment(path[..n]);
        assert path[..n][n - |init|..] + [path[n]] == path[n - |init|..];
      }
    }
  }

  function QualifiedColumns(base: Schema, alias: string): seq<ColumnInfo> {
    seq(|base.columns|, i requires 0 <= i < |base.columns| =>
      ColumnInfo(alias + "." + base.columns[i].name, base.columns[i].ty, i))
  }

  /** The scan's output schema: the base columns in order, each named `alias.name`. */
  function Qualified(base: Schema, alias: string): (s: Schema)
    ensures WellFormed(s) && |s.columns| == |base.columns|
    ensures forall i :: 0 <= i < |base.columns| ==>
      s.columns[i] == ColumnInfo(alias + "." + base.columns[i].name, base.columns[i].ty, i)
  {
    AddColumnsColumns(EmptySchema, QualifiedColumns(base, alias));
    AddColumnsWellFormed(EmptySchema, QualifiedColumns(base, alias));
    AddColumns(EmptySchema, QualifiedColumns(base, alias))
  }

  /** The constructor loop of ScanOperator: one addColumn per base column. */
  method QualifySchema(base: Schema, alias: string) returns (s: Schema)
    ensures s == Qualified(base, alias)
  {
    s := EmptySchema;
    var cols := GetColumns(base);
    ghost var qualified := QualifiedColumns(base, alias);
    for i := 0 to |cols|
      invariant s == AddColumns(EmptySchema, qualified[..i])
    {
      assert qualified[..i + 1][..i] == qualified[..i];
      s := AddColumn(s, alias + "." + cols[i].name, cols[i].ty);
    }
    assert qualified[..|cols|] == qualified;
  }

  /** The schema of a scan of `path` as `alias`: looked up by the path's file name. */
  function ScanSchema(catalog: Catalog, path: string, alias: string): (r: Result<Schema>)
    reads catalog
    ensures r.Ok? <==> BaseName(path) in catalog.schemas
    ensures r.Ok? ==> r.value == Qualified(catalog.schemas[BaseName(path)], alias)
    ensures r.Err? ==> r.error == UnknownTable(BaseName(path))
  {
    var base :- catalog.GetSchema(BaseName(path));
    Ok(Qualified(base, alias))
  }

  // ---------------------------------------------------------------- Rows

  /** The outcome of converting one field. */
  datatype FieldParse<T> = Parsed(value: T) | Invalid | OutOfRange

  /** The line splitter and the two numeric conversions. */
  datatype Parsers = Parsers(
    split: string -> seq<string>,
    parseInt: string -> FieldParse<int>,
    parseFloat: string -> FieldParse<real>)

  /** One field read as a value of type `ty`. */
  function ParseField(field: string, ty: DataType, p: Parsers): (r: FieldParse<Value>)
    ensures r.Parsed? ==> KindOf(r.value) == ty
    ensures ty == STRING ==> r == Parsed(StringV(field))
    ensures ty == BOOL ==> r == Parsed(BoolV(field == "true" || field == "1"))
    ensures ty == INT ==> (r.Parsed? <==> p.parseInt(field).Parsed?)
    ensures ty == FLOAT ==> (r.Parsed? <==> p.parseFloat(field).Parsed?)
  {
    match ty
    case INT =>
      (match p.parseInt(field)
       case Parsed(i) => Parsed(IntV(i))
       case Invalid => Invalid
       case OutOfRange => OutOfRange)
    case FLOAT =>
      (match p.parseFloat(field)
       case Parsed(f) => Parsed(FloatV(f))
       case Invalid => Invalid
       case OutOfRange => OutOfRange)
    case STRING => Parsed(StringV(field))
    case BOOL => Parsed(BoolV(field == "true" || field == "1"))
  }

  /** The outcome of reading one line: a row, a skipped line, or an uncaught conversion error. */
  datatype LineParse = Accepted(tuple: Tuple) | Skipped | Aborted(field: string)

  /** The fields of a line against the columns, left to right; surplus fields are ignored. */
  function ParseFields(fields: seq<string>, cols: seq<ColumnInfo>, p: Parsers): (r: LineParse)
    ensures r.Accepted? ==> |r.tuple| == (if |fields| < |cols| then |fields| else |cols|)
    ensures r.Accepted? ==> forall i :: 0 <= i < |r.tuple| ==>
      ParseField(fields[i], cols[i].ty, p) == Parsed(r.tuple[i]) && KindOf(r.tuple[i]) == cols[i].ty
    ensures r.Accepted? <==> forall i :: 0 <= i < |fields| && i < |cols| ==> ParseField(fields[i], cols[i].ty, p).Parsed?
    decreases |fields|
  {
    if fields == [] || cols == [] then Accepted([])
    else
      match ParseField(fields[0], cols[0].ty, p)
      case Invalid => Skipped
      case OutOfRange => Aborted(fields[0])
      case Parsed(v) =>
        var rest := ParseFields(fields[1..], cols[1..], p);
        assert forall i :: 1 <= i < |fields| && i < |cols| ==> fields[1..][i - 1] == fields[i] && cols[1..][i - 1] == cols[i];
        if rest.Accepted? then Accepted([v] + rest.tuple) else rest
  }

  /** Field `i` is the first field of the line, within the columns, that does not parse. */
  ghost predicate FirstUnparsed(fields: seq<string>, cols: seq<ColumnInfo>, p: Parsers, i: int) {
    && 0 <= i < |fields| && i < |cols|
    && !ParseField(fields[i], cols[i].ty, p).Parsed?
    && forall k :: 0 <= k < i ==> ParseField(fields[k], cols[k].ty, p).Parsed?
  }

  /**
   * The first field that does not parse decides the line: a rejected one
   * (invalid_argument) skips it, an out-of-range one aborts with that field.
   */
  lemma {:induction false} ParseFieldsOutcome(fields: seq<string>, cols: seq<ColumnInfo>, p: Parsers)
    ensures forall i :: FirstUnparsed(fields, cols, p, i) ==>
      ParseFields(fields, cols, p) == (if ParseField(fields[i], cols[i].ty, p).Invalid? then Skipped else Aborted(fields[i]))
    ensures ParseFields(fields, cols, p).Skipped? <==>
      exists i :: FirstUnparsed(fields, cols, p, i) && ParseField(fields[i], cols[i].ty, p).Invalid?
    ensures ParseFields(fields, cols, p).Aborted? <==>
      exists i :: FirstUnparsed(fields, cols, p, i) && ParseField(fields[i], cols[i].ty, p).OutOfRange?
    decreases |fields|
  {
    if fields == [] || cols == [] {
    } else if !ParseField(fields[0], cols[0].ty, p).Parsed? {
      assert FirstUnparsed(fields, cols, p, 0);
    } else {
      var fs, cs := fields[1..], cols[1..];
      ParseFieldsOutcome(fs, cs, p);
      forall i | 1 <= i
        ensures FirstUnparsed(fields, cols, p, i) <==> FirstUnparsed(fs, cs, p, i - 1)
      {
        if 1 <= i < |fields| && i < |cols| {
          assert fields[i] == fs[i - 1] && cols[i] == cs[i - 1];
          assert (forall k :: 0 <= k < i ==> ParseField(fields[k], cols[k].ty, p).Parsed?) <==>
                 (forall k :: 0 <= k < i - 1 ==> ParseField(fs[k], cs[k].ty, p).Parsed?) by {
            assert forall k :: 0 <= k < i - 1 ==> fs[k] == fields[k + 1] && cs[k] == cols[k + 1];
          }
        }
      }
      assert !FirstUnparsed(fields, cols, p, 0);
      if ParseFields(fields, cols, p).Skipped? {
        var j :| FirstUnparsed(fs, cs, p, j) && ParseField(fs[j], cs[j].ty, p).Invalid?;
        assert FirstUnparsed(fields, cols, p, j + 1);
      }
      if ParseFields(fields, cols, p).Aborted? {
        var j :| FirstUnparsed(fs, cs, p, j) && ParseField(fs[j], cs[j].ty, p).OutOfRange?;
        assert FirstUnparsed(fields, cols, p, j + 1);
      }
    }
  }

  /** A parsed prefix of a line in front of the outcome of the rest of it. */
  function After(prefix: Tuple, r: LineParse): LineParse {
    if r.Accepted? then Accepted(prefix + r.tuple) else r
  }

  /** The field loop of ScanOperator::next on one line. */
  method ParseLine(fields: seq<string>, cols: seq<ColumnInfo>, p: Parsers) returns (r: LineParse)
    ensures r == ParseFields(fields, cols, p)
  {
    var tuple: Tuple := [];
    var colIdx := 0;
    while colIdx < |fields|
      invariant 0 <= colIdx <= |fields| && colIdx <= |cols|
      invariant ParseFields(fields, cols, p) == After(tuple, ParseFields(fields[colIdx..], cols[colIdx..], p))
      decreases |fields| - colIdx
    {
      if colIdx >= |cols| {
        break;
      }
      var field := fields[colIdx];
      var col := cols[colIdx];
      assert fields[colIdx..][1..] == fields[colIdx + 1..] && cols[colIdx..][1..] == cols[colIdx + 1..];
      colIdx := colIdx + 1;
      match ParseField(field, col.ty, p)
      case Invalid =>
        return Skipped;
      case OutOfRange =>
        return Aborted(field);
      case Parsed(v) =>
        assert forall x: Tuple :: tuple + ([v] + x) == (tuple + [v]) + x;
        tuple := tuple + [v];
    }
    assert fields[colIdx..] == [] || cols[colIdx..] == [];
    assert tuple + [] == tuple;
    return Accepted(tuple);
  }

  /**
   * What a scan emits over the data lines after the header: each line that
   * parses, in order; lines with a rejected field are skipped; an
   * out-of-range field stops the scan with an error.
   */
  function ScanRows(lines: seq<string>, cols: seq<ColumnInfo>, p: Parsers): Trace
    decreases |lines|
  {
    if lines == [] then Finished
    else
      var rest := ScanRows(lines[1..], cols, p);
      match ParseFields(p.split(lines[0]), cols, p)
      case Accepted(t) => Cons(t, rest)
      case Skipped => rest
      case Aborted(f) => Failing(FieldOutOfRange(f))
  }

  /** A scan emits at most one row per line, each typed by the columns it covers. */
  lemma {:induction false} ScanRowsTyped(lines: seq<string>, cols: seq<ColumnInfo>, p: Parsers)
    ensures |ScanRows(lines, cols, p).rows| <= |lines|
    ensures forall t :: t in ScanRows(lines, cols, p).rows ==>
      |t| <= |cols| && forall i :: 0 <= i < |t| ==> KindOf(t[i]) == cols[i].ty
    decreases |lines|
  {
    if lines != [] {
      ScanRowsTyped(lines[1..], cols, p);
    }
  }

  /** Lines that all parse are emitted one row per line. */
  lemma {:induction false} ScanRowsAllParse(lines: seq<string>, cols: seq<ColumnInfo>, p: Parsers)
    requires forall i :: 0 <= i < |lines| ==> ParseFields(p.split(lines[i]), cols, p).Accepted?
    ensures ScanRows(lines, cols, p).failure.None?
    ensures |ScanRows(lines, cols, p).rows| == |lines|
    ensures forall i :: 0 <= i < |lines| ==> ScanRows(lines, cols, p).rows[i] == ParseFields(p.split(lines[i]), cols, p).tuple
    decreases |lines|
  {
    if lines != [] {
      var rest := ScanRows(lines[1..], cols, p);
      var t := ParseFields(p.split(lines[0]), cols, p).tuple;
      assert forall i :: 1 <= i < |lines| ==> lines[1..][i - 1] == lines[i];
      ScanRowsAllParse(lines[1..], cols, p);
      assert ScanRows(lines, cols, p) == Cons(t, rest);
      forall i | 0 <= i < |lines|
        ensures ScanRows(lines, cols, p).rows[i] == ParseFields(p.split(lines[i]), cols, p).tuple
      {
        if i > 0 {
          assert ScanRows(lines, cols, p).rows[i] == rest.rows[i - 1];
        }
      }
    }
  }

  /** A skipped line contributes nothing: the scan is the same without it. */
  lemma {:induction false} ScanRowsSkipsLine(lines: seq<string>, cols: seq<ColumnInfo>, p: Parsers, i: nat)
    requires i < |lines| && ParseFields(p.split(lines[i]), cols, p).Skipped?
    ensures ScanRows(lines, cols, p) == ScanRows(lines[..i] + lines[i + 1..], cols, p)
    decreases i
  {
    if i == 0 {
      assert lines[..0] + lines[1..] == lines[1..];
    } else {
      var without := lines[..i] + lines[i + 1..];
      assert without[0] == lines[0];
      assert without[1..] == lines[1..][..i - 1] + lines[1..][i..];
      ScanRowsSkipsLine(lines[1..], cols, p, i - 1);
    }
  }

  /**
   * An out-of-range field stops the scan: at the first aborting line the
   * scan has emitted the rows of the lines before it and ends with that
   * field's error.
   */
  lemma {:induction false} ScanRowsAbortsAt(lines: seq<string>, cols: seq<ColumnInfo>, p: Parsers, i: nat)
    requires i < |lines| && ParseFields(p.split(lines[i]), cols, p).Aborted?
    requires forall k :: 0 <= k < i ==> !ParseFields(p.split(lines[k]), cols, p).Aborted?
    ensures ScanRows(lines, cols, p) ==
      Trace(ScanRows(lines[..i], cols, p).rows, Some(FieldOutOfRange(ParseFields(p.split(lines[i]), cols, p).field)))
    decreases i
  {
    if i > 0 {
      assert lines[..i][1..] == lines[1..][..i - 1];
      assert forall k :: 0 <= k < i - 1 ==> lines[1..][k] == lines[k + 1];
      ScanRowsAbortsAt(lines[1..], cols, p, i - 1);
    }
  }

  /**
   * ScanOperator over a data file given as its lines. `pos` is the next
   * line to read; `Open` skips the header line.
   */
  class Scan {
    const lines: seq<string>
    const schema: Schema
    const parsers: Parsers
    var pos: nat
    var isOpen: bool

    ghost predicate Valid()
      reads this
    {
      pos <= |lines|
    }

    ghost function Remaining(): Trace
      reads this
      requires Valid()
    {
      if isOpen then ScanRows(lines[pos..], schema.columns, parsers) else Finished
    }

    /** Builds the qualified schema of `path` as `alias`; an unknown table fails. */
    static method Create(catalog: Catalog, path: string, alias: string, lines: seq<string>, parsers: Parsers)
      returns (r: Result<Scan>)
      ensures r.Ok? <==> ScanSchema(catalog, path, alias).Ok?
      ensures ScanSchema(catalog, path, alias).Err? ==> r == Err(ScanSchema(catalog, path, alias).error)
      ensures r.Ok? ==> ScanSchema(catalog, path, alias) == Ok(r.value.schema)
      ensures r.Ok? ==> fresh(r.value) && r.value.Valid() && !r.value.isOpen
      ensures r.Ok? ==> r.value.lines == lines && r.value.parsers == parsers
    {
      var base := catalog.GetSchema(BaseName(path));
      if base.Err? {
        return Err(base.error);
      }
      var s := QualifySchema(base.value, alias);
      var scan := new Scan(lines, s, parsers);
      return Ok(scan);
    }

    constructor (lines: seq<string>, schema: Schema, parsers: Parsers)
      ensures Valid() && !isOpen
      ensures this.lines == lines && this.schema == schema && this.parsers == parsers
    {
      this.lines := lines;
      this.schema := schema;
      this.parsers := parsers;
      pos := 0;
      isOpen := false;
    }

    /** Opens the file unless it is open already, and skips the header line. */
    method Open()
      requires Valid()
      modifies this
      ensures Valid() && isOpen
      ensures old(isOpen) ==> pos == old(pos)
      ensures !old(isOpen) ==> Remaining() == ScanRows(if lines == [] then [] else lines[1..], schema.columns, parsers)
    {
      if isOpen {
        return;
      }
      isOpen := true;
      pos := if |lines| > 0 then 1 else 0;
    }

    method Close()
      requires Valid()
      modifies this
      ensures Valid() && !isOpen && pos == old(pos)
    {
      isOpen := false;
    }

    method Next() returns (step: Step)
      requires Valid()
      modifies this
      ensures Valid() && isOpen == old(isOpen)
      ensures Advances(old(Remaining()), step, Remaining())
    {
      if !isOpen {
        return Done;
      }
      while pos < |lines|
        invariant Valid() && isOpen
        invariant Remaining() == old(Remaining())
        decreases |lines| - pos
      {
        var line := lines[pos];
        assert lines[pos..][1..] == lines[pos + 1..];
        pos := pos + 1;
        var parsed := ParseLine(parsers.split(line), schema.columns, parsers);
        match parsed
        case Accepted(t) =>
          return Row(t);
        case Skipped =>
        case Aborted(field) =>
          return Failed(FieldOutOfRange(field));
      }
      return Done;
    }
  }
}
