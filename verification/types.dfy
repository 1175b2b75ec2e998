/**
 * The row and schema model (src/types.h): values, tuples, column metadata
 * and schemas with their name index.
 *
 * Schema is a value type in the source (copied by `merge`, stored by value
 * in the catalog and in every operator), so it is a datatype here; the
 * in-place `addColumn` becomes a function returning the updated value,
 * and callers reassign it.
 */
module Types {
  import opened Errors

  /** One cell: the four-way variant int | float | string | bool. */
  datatype Value = IntV(i: int) | FloatV(f: real) | StringV(s: string) | BoolV(b: bool)

  /** A row is an ordered list of values; position binds it to its schema. */
  type Tuple = seq<Value>

  datatype DataType = INT | FLOAT | STRING | BOOL

  /** The variant alternative a value holds. */
  function KindOf(v: Value): DataType {
    match v
    case IntV(_) => INT
    case FloatV(_) => FLOAT
    case StringV(_) => STRING
    case BoolV(_) => BOOL
  }

  /** Column metadata: name, declared type and position in the tuple. */
  datatype ColumnInfo = ColumnInfo(name: string, ty: DataType, index: nat)

  /** An ordered column list plus a name -> position index. */
  datatype Schema = Schema(columns: seq<ColumnInfo>, columnIndex: map<string, nat>)

  const EmptySchema: Schema := Schema([], map[])

  /** Position k holds the last column named n. */
  ghost predicate IsLastWithName(cols: seq<ColumnInfo>, n: string, k: nat) {
    k < |cols| && cols[k].name == n && forall j :: k < j < |cols| ==> cols[j].name != n
  }

  ghost predicate HasColumn(s: Schema, n: string) {
    exists i :: 0 <= i < |s.columns| && s.columns[i].name == n
  }

  /**
   * The schema invariant: positions are dense and follow list order, every
   * column name is indexed, and the index sends a name to the last column
   * that carries it (a later addColumn overwrites an earlier entry).
   */
  ghost predicate WellFormed(s: Schema) {
    && (forall i :: 0 <= i < |s.columns| ==> s.columns[i].index == i)
    && (forall i :: 0 <= i < |s.columns| ==> s.columns[i].name in s.columnIndex)
    && (forall n :: n in s.columnIndex ==> IsLastWithName(s.columns, n, s.columnIndex[n]))
  }

  lemma LastWithNameUnique(cols: seq<ColumnInfo>, n: string, a: nat, b: nat)
    requires IsLastWithName(cols, n, a) && IsLastWithName(cols, n, b)
    ensures a == b
  {
  }

  /** Schema::getColumn: `schemaColumns.at(columnIndex.at(name))`. */
  function GetColumn(s: Schema, name: string): Result<ColumnInfo> {
    if name in s.columnIndex && s.columnIndex[name] < |s.columns|
    then Ok(s.columns[s.columnIndex[name]])
    else Err(UnknownColumn(name))
  }

  /**
   * In a well-formed schema, getColumn succeeds exactly on the names some
   * column carries, and returns the last column with that name.
   */
  lemma GetColumnMeaning(s: Schema, name: string)
    ensures GetColumn(s, name).Err? ==> GetColumn(s, name).error == UnknownColumn(name)
    ensures WellFormed(s) ==> (GetColumn(s, name).Ok? <==> HasColumn(s, name))
    ensures WellFormed(s) && GetColumn(s, name).Ok? ==>
      var c := GetColumn(s, name).value;
      c.name == name && IsLastWithName(s.columns, name, c.index) && c == s.columns[c.index]
  {
  }

  /** Schema::getColumns: the column list, whose positions are 0..n-1 in order. */
  function GetColumns(s: Schema): (cols: seq<ColumnInfo>)
    ensures |cols| == |s.columns|
    ensures WellFormed(s) ==> forall i :: 0 <= i < |cols| ==> cols[i].index == i && GetColumn(s, cols[i].name).Ok?
  {
    s.columns
  }

  /**
   * Schema::addColumn: append a column whose position is the previous
   * column count, and point the name's index entry at it.
   */
  function AddColumn(s: Schema, name: string, ty: DataType): (r: Schema)
    ensures r.columns == s.columns + [ColumnInfo(name, ty, |s.columns|)]
  {
    Schema(s.columns + [ColumnInfo(name, ty, |s.columns|)], s.columnIndex[name := |s.columns|])
  }

  /**
   * addColumn keeps a schema well-formed, makes the new column the one
   * its name finds, and leaves every other name's lookup alone.
   */
  lemma AddColumnMeaning(s: Schema, name: string, ty: DataType)
    ensures WellFormed(s) ==> WellFormed(AddColumn(s, name, ty))
    ensures GetColumn(AddColumn(s, name, ty), name) == Ok(ColumnInfo(name, ty, |s.columns|))
    ensures WellFormed(s) ==> forall n :: n != name ==> GetColumn(AddColumn(s, name, ty), n) == GetColumn(s, n)
  {
  }

  /** Columns with their names and types kept and positions renumbered from k. */
  function Renumbered(cols: seq<ColumnInfo>, k: nat): (r: seq<ColumnInfo>)
  {
    seq(|cols|, i requires 0 <= i < |cols| => ColumnInfo(cols[i].name, cols[i].ty, k + i))
  }

  /** A sequence of addColumn calls, one per column of `cols`, in order. */
  function AddColumns(s: Schema, cols: seq<ColumnInfo>): Schema
    decreases |cols|
  {
    if cols == [] then s
    else
      var last := cols[|cols| - 1];
      AddColumn(AddColumns(s, cols[..|cols| - 1]), last.name, last.ty)
  }

  lemma {:induction false} AddColumnsColumns(s: Schema, cols: seq<ColumnInfo>)
    ensures AddColumns(s, cols).columns == s.columns + Renumbered(cols, |s.columns|)
    decreases |cols|
  {
    if cols != [] {
      var init := cols[..|cols| - 1];
      AddColumnsColumns(s, init);
      assert Renumbered(cols, |s.columns|) == Renumbered(init, |s.columns|) + [ColumnInfo(cols[|cols| - 1].name, cols[|cols| - 1].ty, |s.columns| + |init|)];
    }
  }

  lemma {:induction false} AddColumnsWellFormed(s: Schema, cols: seq<ColumnInfo>)
    ensures WellFormed(s) ==> WellFormed(AddColumns(s, cols))
    decreases |cols|
  {
    if cols != [] {
      AddColumnsWellFormed(s, cols[..|cols| - 1]);
    }
  }

  /** Adding a + b is adding a, then b. */
  lemma {:induction false} AddColumnsAppend(s: Schema, a: seq<ColumnInfo>, b: seq<ColumnInfo>)
    ensures AddColumns(s, a + b) == AddColumns(AddColumns(s, a), b)
    decreases |b|
  {
    if b != [] {
      var b' := b[..|b| - 1];
      assert (a + b)[..|a + b| - 1] == a + b';
      AddColumnsAppend(s, a, b');
    } else {
      assert a + b == a;
    }
  }

  /** Only the names and types of the added columns matter, not their stored positions. */
  lemma {:induction false} AddColumnsIgnoresPositions(s: Schema, a: seq<ColumnInfo>, b: seq<ColumnInfo>)
    requires Renumbered(a, 0) == Renumbered(b, 0)
    ensures AddColumns(s, a) == AddColumns(s, b)
    decreases |a|
  {
    assert |a| == |Renumbered(a, 0)| == |b|;
    if a != [] {
      var n := |a| - 1;
      assert Renumbered(a[..n], 0) == Renumbered(b[..n], 0) by {
        forall i | 0 <= i < n
          ensures Renumbered(a[..n], 0)[i] == Renumbered(b[..n], 0)[i]
        {
          assert Renumbered(a, 0)[i] == Renumbered(b, 0)[i];
        }
      }
      assert Renumbered(a, 0)[n] == Renumbered(b, 0)[n];
      AddColumnsIgnoresPositions(s, a[..n], b[..n]);
    }
  }

  /**
   * The specification of Schema::merge: the left schema with every right
   * column added after it.
   */
  function Merged(left: Schema, right: Schema): Schema {
    AddColumns(left, right.columns)
  }

  /** The merged columns are the left ones then the right ones renumbered, and well-formedness is kept. */
  lemma MergedMeaning(left: Schema, right: Schema)
    ensures Merged(left, right).columns == left.columns + Renumbered(right.columns, |left.columns|)
    ensures WellFormed(left) ==> WellFormed(Merged(left, right))
  {
    AddColumnsColumns(left, right.columns);
    AddColumnsWellFormed(left, right.columns);
  }

  /**
   * Schema::merge: a copy of the left schema extended by one addColumn per
   * right column. The inputs are values, so neither is changed.
   */
  method Merge(left: Schema, right: Schema) returns (merged: Schema)
    ensures merged == Merged(left, right)
    ensures merged.columns == left.columns + Renumbered(right.columns, |left.columns|)
  {
    merged := left;
    var cols := GetColumns(right);
    for i := 0 to |cols|
      invariant merged == AddColumns(left, cols[..i])
    {
      assert cols[..i + 1][..i] == cols[..i];
      merged := AddColumn(merged, cols[i].name, cols[i].ty);
    }
    assert cols[..|cols|] == cols;
    MergedMeaning(left, right);
  }

  /** Merging is associative. */
  lemma MergeAssociative(a: Schema, b: Schema, c: Schema)
    ensures Merged(Merged(a, b), c) == Merged(a, Merged(b, c))
  {
    MergedMeaning(b, c);
    var bc := Merged(b, c).columns;
    var joined := b.columns + c.columns;
    assert Renumbered(bc, 0) == Renumbered(joined, 0) by {
      forall i | 0 <= i < |bc|
        ensures bc[i].name == joined[i].name && bc[i].ty == joined[i].ty
      {
        if i >= |b.columns| {
          assert bc[i] == Renumbered(c.columns, |b.columns|)[i - |b.columns|];
        }
      }
    }
    calc {
      Merged(Merged(a, b), c);
      AddColumns(AddColumns(a, b.columns), c.columns);
      { AddColumnsAppend(a, b.columns, c.columns); }
      AddColumns(a, joined);
      { AddColumnsIgnoresPositions(a, bc, joined); }
      AddColumns(a, bc);
      Merged(a, Merged(b, c));
    }
  }

  /** In a well-formed schema, getColumn finds the last column carrying the name. */
  lemma GetColumnFindsLast(s: Schema, n: string, k: nat)
    requires WellFormed(s) && IsLastWithName(s.columns, n, k)
    ensures GetColumn(s, n) == Ok(s.columns[k])
  {
    assert HasColumn(s, n);
    LastWithNameUnique(s.columns, n, k, GetColumn(s, n).value.index);
  }

  /** The right part of a concatenation keeps its names and types, shifted by the left length. */
  lemma RenumberedAt(left: seq<ColumnInfo>, right: seq<ColumnInfo>, j: nat)
    requires |left| <= j < |left| + |right|
    ensures (left + Renumbered(right, |left|))[j] == ColumnInfo(right[j - |left|].name, right[j - |left|].ty, j)
  {
  }

  /** The last right-hand column named `n` is still the last one after the left columns are put in front. */
  lemma ShiftedLast(left: seq<ColumnInfo>, right: seq<ColumnInfo>, n: string, k: nat)
    requires IsLastWithName(right, n, k)
    ensures IsLastWithName(left + Renumbered(right, |left|), n, |left| + k)
  {
    var cols := left + Renumbered(right, |left|);
    RenumberedAt(left, right, |left| + k);
    forall j | |left| + k < j < |cols| ensures cols[j].name != n {
      RenumberedAt(left, right, j);
    }
  }

  /** The last left-hand column named `n` stays the last one when no right-hand column is named `n`. */
  lemma PrefixLast(left: seq<ColumnInfo>, right: seq<ColumnInfo>, n: string, k: nat)
    requires IsLastWithName(left, n, k)
    requires forall i :: 0 <= i < |right| ==> right[i].name != n
    ensures IsLastWithName(left + Renumbered(right, |left|), n, k)
  {
    var cols := left + Renumbered(right, |left|);
    forall j | k < j < |cols| ensures cols[j].name != n {
      if j >= |left| {
        RenumberedAt(left, right, j);
      }
    }
  }

  /** No column of the concatenation is named `n` when neither part has one. */
  lemma NeitherHas(left: seq<ColumnInfo>, right: seq<ColumnInfo>, n: string)
    requires forall i :: 0 <= i < |left| ==> left[i].name != n
    requires forall i :: 0 <= i < |right| ==> right[i].name != n
    ensures forall i :: 0 <= i < |left| + |right| ==> (left + Renumbered(right, |left|))[i].name != n
  {
    forall i | |left| <= i < |left| + |right| ensures (left + Renumbered(right, |left|))[i].name != n {
      RenumberedAt(left, right, i);
    }
  }

  /** Lookup of a right-hand name in a schema whose columns are `left` followed by `right` renumbered. */
  lemma ConcatenatedLookupRight(m: Schema, left: Schema, right: Schema, n: string)
    requires WellFormed(m) && WellFormed(right)
    requires m.columns == left.columns + Renumbered(right.columns, |left.columns|)
    requires HasColumn(right, n)
    ensures GetColumn(m, n) == Ok(ColumnInfo(n, GetColumn(right, n).value.ty, |left.columns| + GetColumn(right, n).value.index))
  {
    GetColumnMeaning(right, n);
    var c := GetColumn(right, n).value;
    var j := |left.columns| + c.index;
    ShiftedLast(left.columns, right.columns, n, c.index);
    RenumberedAt(left.columns, right.columns, j);
    assert m.columns[j] == ColumnInfo(n, c.ty, j);
    GetColumnFindsLast(m, n, j);
  }

  /** Lookup of a name the right part lacks, in a schema whose columns are `left` followed by `right`. */
  lemma ConcatenatedLookupLeft(m: Schema, left: Schema, right: Schema, n: string)
    requires WellFormed(m) && WellFormed(left)
    requires m.columns == left.columns + Renumbered(right.columns, |left.columns|)
    requires !HasColumn(right, n)
    ensures GetColumn(m, n) == GetColumn(left, n)
  {
    GetColumnMeaning(left, n);
    GetColumnMeaning(m, n);
    if GetColumn(left, n).Ok? {
      var k := GetColumn(left, n).value.index;
      PrefixLast(left.columns, right.columns, n, k);
      GetColumnFindsLast(m, n, k);
    } else {
      NeitherHas(left.columns, right.columns, n);
    }
  }

  /** A name that only the left schema carries is looked up as in the left schema. */
  lemma MergedLookupLeft(left: Schema, right: Schema, n: string)
    requires WellFormed(left) && WellFormed(right)
    requires !HasColumn(right, n)
    ensures GetColumn(Merged(left, right), n) == GetColumn(left, n)
  {
    MergedMeaning(left, right);
    ConcatenatedLookupLeft(Merged(left, right), left, right, n);
  }

  /** A right-schema name is found at its right position shifted by the left column count. */
  lemma MergedLookupRight(left: Schema, right: Schema, n: string)
    requires WellFormed(left) && WellFormed(right)
    requires HasColumn(right, n)
    ensures GetColumn(Merged(left, right), n)
         == Ok(ColumnInfo(n, GetColumn(right, n).value.ty, |left.columns| + GetColumn(right, n).value.index))
  {
    MergedMeaning(left, right);
    ConcatenatedLookupRight(Merged(left, right), left, right, n);
  }
}
