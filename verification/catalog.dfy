/**
 * The schema catalog of src/catalog.h: the type-name mapping of schema
 * files and the table-file -> schema map with its insert and lookup.
 */
module Catalogs {
  import opened Errors
  import opened Types

  /** The type names a schema file may use. */
  function StringToType(typeName: string): (r: Result<DataType>)
    ensures r.Ok? <==> typeName in {"int", "float", "string", "bool"}
    ensures r.Err? ==> r.error == UnknownDataType(typeName)
  {
    if typeName == "int" then Ok(INT)
    else if typeName == "float" then Ok(FLOAT)
    else if typeName == "string" then Ok(STRING)
    else if typeName == "bool" then Ok(BOOL)
    else Err(UnknownDataType(typeName))
  }

  /** The name a schema file uses for each type. */
  function TypeName(t: DataType): string {
    match t
    case INT => "int"
    case FLOAT => "float"
    case STRING => "string"
    case BOOL => "bool"
  }

  /** Every type has exactly one name, and the mapping reads it back. */
  lemma TypeNameRoundTrip(t: DataType, typeName: string)
    ensures StringToType(TypeName(t)) == Ok(t)
    ensures StringToType(typeName) == Ok(t) ==> typeName == TypeName(t)
  {
  }

  /** One entry of a schema file's "columns" array. */
  datatype ColumnDecl = ColumnDecl(name: string, typeName: string)

  /**
   * The schema a schema file declares: its columns added in array order;
   * the first unknown type name fails it.
   */
  function DeclaredSchema(decls: seq<ColumnDecl>): Result<Schema>
    decreases |decls|
  {
    if decls == [] then Ok(EmptySchema)
    else
      var n := |decls| - 1;
      var s :- DeclaredSchema(decls[..n]);
      var ty :- StringToType(decls[n].typeName);
      Ok(AddColumn(s, decls[n].name, ty))
  }

  /** A declared schema exists exactly when every type name is known. */
  lemma {:induction false} DeclaredSchemaDefined(decls: seq<ColumnDecl>)
    ensures DeclaredSchema(decls).Ok? <==> forall i :: 0 <= i < |decls| ==> StringToType(decls[i].typeName).Ok?
    decreases |decls|
  {
    if decls != [] {
      var n := |decls| - 1;
      assert forall i :: 0 <= i < n ==> decls[..n][i] == decls[i];
      DeclaredSchemaDefined(decls[..n]);
    }
  }

  /**
   * A declared schema is well formed and its columns follow the array
   * order, with dense positions and the declared names and types.
   */
  lemma {:induction false} DeclaredSchemaColumns(decls: seq<ColumnDecl>)
    requires DeclaredSchema(decls).Ok?
    ensures WellFormed(DeclaredSchema(decls).value)
    ensures |DeclaredSchema(decls).value.columns| == |decls|
    ensures forall i :: 0 <= i < |decls| ==>
      var c := DeclaredSchema(decls).value.columns[i];
      c.name == decls[i].name && c.index == i && StringToType(decls[i].typeName) == Ok(c.ty)
    decreases |decls|
  {
    if decls != [] {
      var n := |decls| - 1;
      var s := DeclaredSchema(decls[..n]).value;
      var ty := StringToType(decls[n].typeName).value;
      DeclaredSchemaColumns(decls[..n]);
      var r := AddColumn(s, decls[n].name, ty);
      assert DeclaredSchema(decls).value == r;
      AddColumnMeaning(s, decls[n].name, ty);
      forall i | 0 <= i < |decls|
        ensures r.columns[i].name == decls[i].name && r.columns[i].index == i
        ensures StringToType(decls[i].typeName) == Ok(r.columns[i].ty)
      {
        if i < n {
          assert decls[..n][i] == decls[i];
        }
      }
    }
  }

  /** Once a prefix of the declarations fails, the whole schema fails with that error. */
  lemma {:induction false} DeclaredSchemaFailedPrefix(decls: seq<ColumnDecl>, i: nat)
    requires i <= |decls| && DeclaredSchema(decls[..i]).Err?
    ensures DeclaredSchema(decls) == DeclaredSchema(decls[..i])
    decreases |decls|
  {
    if i < |decls| {
      var n := |decls| - 1;
      assert decls[..n][..i] == decls[..i];
      DeclaredSchemaFailedPrefix(decls[..n], i);
    } else {
      assert decls[..i] == decls;
    }
  }

  /** The catalog: each registered table file's base schema. */
  class Catalog {
    var schemas: map<string, Schema>

    constructor ()
      ensures schemas == map[]
    {
      schemas := map[];
    }

    /** The schema registered for `table`; an unknown table fails. */
    function GetSchema(table: string): (r: Result<Schema>)
      reads this
      ensures r.Ok? <==> table in schemas
      ensures r.Ok? ==> r.value == schemas[table]
      ensures r.Err? ==> r.error == UnknownTable(table)
    {
      if table in schemas then Ok(schemas[table]) else Err(UnknownTable(table))
    }

    /**
     * Registers the schema a schema file declares for the table `file`,
     * replacing any earlier one; a declaration with an unknown type name
     * fails and registers nothing.
     */
    method LoadSchema(file: string, decls: seq<ColumnDecl>) returns (err: Option<Error>)
      modifies this
      ensures match DeclaredSchema(decls)
        case Ok(s) => err == None && schemas == old(schemas)[file := s]
        case Err(e) => err == Some(e) && schemas == old(schemas)
      ensures err.None? ==> GetSchema(file) == DeclaredSchema(decls)
      ensures forall t :: t != file ==> GetSchema(t) == old(GetSchema(t))
    {
      var schema := EmptySchema;
      for i := 0 to |decls|
        invariant DeclaredSchema(decls[..i]) == Ok(schema)
      {
        assert decls[..i + 1][..i] == decls[..i];
        var ty := StringToType(decls[i].typeName);
        if ty.Err? {
          DeclaredSchemaFailedPrefix(decls, i + 1);
          return Some(ty.error);
        }
        schema := AddColumn(schema, decls[i].name, ty.value);
      }
      assert decls[..|decls|] == decls;
      schemas := schemas[file := schema];
      return None;
    }
  }
}
