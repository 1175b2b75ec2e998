/**
 * The plan builder of src/plan_parser.h: recursive descent from a JSON
 * plan to an expression tree and an operator tree.
 */
module PlanParser {
  import opened Errors
  import opened Types
  import opened Expressions
  import opened PipelineOperators
  import opened Catalogs
  import opened ScanOperator
  import opened JsonValues

  // ---------------------------------------------------------------- Expressions

  /**
   * parseExpression. The "const", "col" and "op" keys are tried in that
   * order; a "const" whose "type" names none of the four types falls
   * through to the other two. An "op" other than "NOT" builds a binary node
   * whatever its tag.
   */
  function ParseExpression(j: Json): (r: Result<Expr>)
    ensures !Contains(j, "const") && !Contains(j, "col") && !Contains(j, "op") ==> r == Err(InvalidExpressionFormat)
    ensures r.Ok? && r.value.ColumnRef? ==> Contains(j, "col")
    ensures r.Ok? && (r.value.Not? || r.value.Binary?) ==> Contains(j, "op")
    ensures r.Ok? && r.value.Binary? ==> r.value.op != "NOT"
    decreases j
  {
    if Contains(j, "const") then
      var ty :- Field(j, "type");
      var c := Field(j, "const").value;
      if ty == JString("int") then
        var i :- AsInt(c, "const");
        Ok(Constant(IntV(i)))
      else if ty == JString("float") then
        var f :- AsReal(c, "const");
        Ok(Constant(FloatV(f)))
      else if ty == JString("string") then
        var s :- AsString(c, "const");
        Ok(Constant(StringV(s)))
      else if ty == JString("bool") then
        var b :- AsBool(c, "const");
        Ok(Constant(BoolV(b)))
      else ParseNonConstant(j)
    else ParseNonConstant(j)
  }

  /** The "col" and "op" branches of parseExpression. */
  function ParseNonConstant(j: Json): (r: Result<Expr>)
    ensures !Contains(j, "col") && !Contains(j, "op") ==> r == Err(InvalidExpressionFormat)
    ensures r.Ok? ==> !r.value.Constant?
    ensures r.Ok? && r.value.ColumnRef? ==> Contains(j, "col")
    ensures r.Ok? && (r.value.Not? || r.value.Binary?) ==> Contains(j, "op")
    ensures r.Ok? && r.value.Binary? ==> r.value.op != "NOT"
    decreases j, 0
  {
    if Contains(j, "col") then
      var name :- StringField(j, "col");
      Ok(ColumnRef(name))
    else if Contains(j, "op") then
      var op :- StringField(j, "op");
      if op == "NOT" then
        var e :- Field(j, "expr");
        var operand :- ParseExpression(e);
        Ok(Not(operand))
      else
        var l :- Field(j, "left");
        var left :- ParseExpression(l);
        var rj :- Field(j, "right");
        var right :- ParseExpression(rj);
        Ok(Binary(op, left, right))
    else Err(InvalidExpressionFormat)
  }

  /** The four type names a constant may carry. */
  const TypeTags: set<Json> := {JString("int"), JString("float"), JString("string"), JString("bool")}

  /**
   * Which branch parseExpression takes. Without "const" the object is read
   * as a column or an operator; a "const" with no "type" is an error; a
   * "type" naming none of the four types falls through to the column and
   * operator branches, so with neither "col" nor "op" the object is no
   * expression.
   */
  lemma ParseExpressionDispatch(j: Json)
    ensures !Contains(j, "const") ==> ParseExpression(j) == ParseNonConstant(j)
    ensures Contains(j, "const") && !Contains(j, "type") ==> ParseExpression(j) == Err(BadJson("type"))
    ensures Contains(j, "const") && Contains(j, "type") && Field(j, "type").value !in TypeTags
      ==> ParseExpression(j) == ParseNonConstant(j)
    ensures Contains(j, "const") && Contains(j, "type") && Field(j, "type").value !in TypeTags
      && !Contains(j, "col") && !Contains(j, "op")
      ==> ParseExpression(j) == Err(InvalidExpressionFormat)
  {
  }

  /**
   * A "const" of a named type becomes a constant of that type. "int"
   * accepts an integer, a float (truncated) or a bool; "float" accepts an
   * integer, a float or a bool; "string" and "bool" accept only their own
   * kind; anything else is an error naming "const".
   */
  lemma ParseConstantMeaning(j: Json)
    requires Contains(j, "const") && Contains(j, "type")
    ensures Field(j, "type").value == JString("int") ==> (ParseExpression(j) ==
      (var c := Field(j, "const").value;
       if c.JInt? || c.JFloat? || c.JBool? then Ok(Constant(IntV(AsInt(c, "const").value))) else Err(BadJson("const"))))
    ensures Field(j, "type").value == JString("int") && Field(j, "const").value.JInt?
      ==> ParseExpression(j) == Ok(Constant(IntV(Field(j, "const").value.i)))
    ensures Field(j, "type").value == JString("float") ==> (ParseExpression(j) ==
      (var c := Field(j, "const").value;
       if c.JInt? || c.JFloat? || c.JBool? then Ok(Constant(FloatV(AsReal(c, "const").value))) else Err(BadJson("const"))))
    ensures Field(j, "type").value == JString("float") && Field(j, "const").value.JFloat?
      ==> ParseExpression(j) == Ok(Constant(FloatV(Field(j, "const").value.f)))
    ensures Field(j, "type").value == JString("string") ==> (ParseExpression(j) ==
      (var c := Field(j, "const").value;
       if c.JString? then Ok(Constant(StringV(c.s))) else Err(BadJson("const"))))
    ensures Field(j, "type").value == JString("bool") ==> (ParseExpression(j) ==
      (var c := Field(j, "const").value;
       if c.JBool? then Ok(Constant(BoolV(c.b))) else Err(BadJson("const"))))
  {
  }

  /**
   * The column and operator branches. A "col" must be a string and names
   * the column. An "op" must be a string; "NOT" parses "expr" as its
   * operand, and any other tag parses "left" and then "right", the first
   * missing key or failing operand deciding the error.
   */
  lemma ParseNonConstantMeaning(j: Json)
    ensures Contains(j, "col") ==> (ParseNonConstant(j) ==
      if Field(j, "col").value.JString? then Ok(ColumnRef(Field(j, "col").value.s)) else Err(BadJson("col")))
    ensures !Contains(j, "col") && Contains(j, "op") && !Field(j, "op").value.JString?
      ==> ParseNonConstant(j) == Err(BadJson("op"))
    ensures !Contains(j, "col") && StringField(j, "op") == Ok("NOT") ==> (ParseNonConstant(j) ==
      if !Contains(j, "expr") then Err(BadJson("expr"))
      else
        var x := ParseExpression(Field(j, "expr").value);
        if x.Ok? then Ok(Not(x.value)) else Err(x.error))
    ensures !Contains(j, "col") && StringField(j, "op").Ok? && StringField(j, "op").value != "NOT" ==> (ParseNonConstant(j) ==
      if !Contains(j, "left") then Err(BadJson("left"))
      else
        var l := ParseExpression(Field(j, "left").value);
        if l.Err? then Err(l.error)
        else if !Contains(j, "right") then Err(BadJson("right"))
        else
          var r := ParseExpression(Field(j, "right").value);
          if r.Err? then Err(r.error) else Ok(Binary(StringField(j, "op").value, l.value, r.value)))
  {
  }

  /** The JSON form of an expression, as a plan file writes it. */
  function ExprToJson(e: Expr): Json {
    match e
    case Constant(v) =>
      (match v
       case IntV(i) => JObject([Member("const", JInt(i)), Member("type", JString("int"))])
       case FloatV(f) => JObject([Member("const", JFloat(f)), Member("type", JString("float"))])
       case StringV(s) => JObject([Member("const", JString(s)), Member("type", JString("string"))])
       case BoolV(b) => JObject([Member("const", JBool(b)), Member("type", JString("bool"))]))
    case ColumnRef(name) => JObject([Member("col", JString(name))])
    case Binary(op, l, r) => JObject([Member("op", JString(op)), Member("left", ExprToJson(l)), Member("right", ExprToJson(r))])
    case Not(x) => JObject([Member("op", JString("NOT")), Member("expr", ExprToJson(x))])
  }

  /** An expression the JSON form can carry: no binary node tagged "NOT". */
  predicate Expressible(e: Expr) {
    match e
    case Constant(_) => true
    case ColumnRef(_) => true
    case Binary(op, l, r) => op != "NOT" && Expressible(l) && Expressible(r)
    case Not(x) => Expressible(x)
  }

  lemma ConstantRoundTrip(v: Value)
    ensures ParseExpression(ExprToJson(Constant(v))) == Ok(Constant(v))
  {
    var j := ExprToJson(Constant(v));
    FieldAt(j, "const", 0);
    FieldAt(j, "type", 1);
  }

  lemma ColumnRoundTrip(name: string)
    ensures ParseExpression(ExprToJson(ColumnRef(name))) == Ok(ColumnRef(name))
  {
    var j := ExprToJson(ColumnRef(name));
    Absent(j, "const");
    FieldAt(j, "col", 0);
  }

  lemma NotRoundTrip(x: Expr)
    requires ParseExpression(ExprToJson(x)) == Ok(x)
    ensures ParseExpression(ExprToJson(Not(x))) == Ok(Not(x))
  {
    var j := ExprToJson(Not(x));
    Absent(j, "const");
    Absent(j, "col");
    FieldAt(j, "op", 0);
    FieldAt(j, "expr", 1);
  }

  /** parseExpression on an object holding an "op" tag other than "NOT" and two operands. */
  lemma ReadBinary(op: string, lj: Json, rj: Json, l: Expr, r: Expr)
    requires op != "NOT" && ParseExpression(lj) == Ok(l) && ParseExpression(rj) == Ok(r)
    ensures ParseExpression(JObject([Member("op", JString(op)), Member("left", lj), Member("right", rj)])) == Ok(Binary(op, l, r))
  {
    var j := JObject([Member("op", JString(op)), Member("left", lj), Member("right", rj)]);
    Absent(j, "const");
    Absent(j, "col");
    FieldAt(j, "op", 0);
    FieldAt(j, "left", 1);
    FieldAt(j, "right", 2);
    assert ParseExpression(j) == ParseNonConstant(j);
  }

  lemma BinaryRoundTrip(op: string, l: Expr, r: Expr)
    requires op != "NOT"
    requires ParseExpression(ExprToJson(l)) == Ok(l) && ParseExpression(ExprToJson(r)) == Ok(r)
    ensures ParseExpression(ExprToJson(Binary(op, l, r))) == Ok(Binary(op, l, r))
  {
    ReadBinary(op, ExprToJson(l), ExprToJson(r), l, r);
  }

  /** Reading back the JSON form of an expressible expression gives the expression. */
  lemma {:induction false} ExpressionRoundTrip(e: Expr)
    requires Expressible(e)
    ensures ParseExpression(ExprToJson(e)) == Ok(e)
  {
    match e
    case Constant(v) => ConstantRoundTrip(v);
    case ColumnRef(name) => ColumnRoundTrip(name);
    case Binary(op, l, r) =>
      ExpressionRoundTrip(l);
      ExpressionRoundTrip(r);
      BinaryRoundTrip(op, l, r);
    case Not(x) =>
      ExpressionRoundTrip(x);
      NotRoundTrip(x);
  }

  /** A binary node tagged "NOT" cannot be read back: its JSON form reads as a NOT node. */
  lemma BinaryNotIsNotExpressible(l: Expr, r: Expr)
    ensures ParseExpression(ExprToJson(Binary("NOT", l, r))) == Err(BadJson("expr"))
  {
    var j := ExprToJson(Binary("NOT", l, r));
    Absent(j, "const");
    Absent(j, "col");
    FieldAt(j, "op", 0);
    Absent(j, "expr");
  }

  // ---------------------------------------------------------------- Plans

  /** The operator tree a plan builds. */
  datatype Plan =
    | ScanNode(path: string, alias: string, schema: Schema)
    | SelectNode(input: Plan, cond: Expr)
    | ProjectNode(input: Plan, exprs: seq<ProjExpr>)
    | NestedLoopJoinNode(left: Plan, right: Plan, condition: Expr)
    | BlockNestedLoopJoinNode(left: Plan, right: Plan, condition: Expr, blockSize: nat)
    | HashJoinNode(left: Plan, right: Plan, probeKey: Expr, buildKey: Expr)
    | LimitNode(input: Plan, limit: int)

  /** Each operator's getSchema. */
  function OutputSchema(p: Plan): Schema {
    match p
    case ScanNode(_, _, s) => s
    case SelectNode(input, _) => OutputSchema(input)
    case ProjectNode(_, exprs) => ProjectSchema(exprs)
    case NestedLoopJoinNode(l, r, _) => Merged(OutputSchema(l), OutputSchema(r))
    case BlockNestedLoopJoinNode(l, r, _, _) => Merged(OutputSchema(l), OutputSchema(r))
    case HashJoinNode(l, r, _, _) => Merged(OutputSchema(l), OutputSchema(r))
    case LimitNode(input, _) => OutputSchema(input)
  }

  /** A tree whose joins are all nested-loop joins and whose scans have well-formed schemas. */
  ghost predicate Buildable(p: Plan) {
    match p
    case ScanNode(_, _, s) => WellFormed(s)
    case SelectNode(input, _) => Buildable(input)
    case ProjectNode(input, _) => Buildable(input)
    case NestedLoopJoinNode(l, r, _) => Buildable(l) && Buildable(r)
    case BlockNestedLoopJoinNode(_, _, _, _) => false
    case HashJoinNode(_, _, _, _) => false
    case LimitNode(input, _) => Buildable(input)
  }

  /** Every operator of a buildable tree has a well-formed output schema. */
  lemma {:induction false} BuildableSchemaWellFormed(p: Plan)
    requires Buildable(p)
    ensures WellFormed(OutputSchema(p))
  {
    match p
    case ScanNode(_, _, _) =>
    case SelectNode(input, _) => BuildableSchemaWellFormed(input);
    case ProjectNode(_, _) =>
    case NestedLoopJoinNode(l, r, _) =>
      BuildableSchemaWellFormed(l);
      MergedMeaning(OutputSchema(l), OutputSchema(r));
    case LimitNode(input, _) => BuildableSchemaWellFormed(input);
  }

  /** One item of a Project node's "exprs" array: its string "as" alias and its parsed "expr". */
  function ParseProjItem(item: Json): Result<ProjExpr> {
    var alias :- StringField(item, "as");
    var ej :- Field(item, "expr");
    var e :- ParseExpression(ej);
    Ok(ProjExpr(alias, e))
  }

  /** An item parses exactly when its alias is a string and its "expr" is present and parses. */
  lemma ParseProjItemMeaning(item: Json)
    ensures ParseProjItem(item).Ok? <==>
      StringField(item, "as").Ok? && Contains(item, "expr") && ParseExpression(Field(item, "expr").value).Ok?
    ensures ParseProjItem(item).Ok? ==>
      ParseProjItem(item).value == ProjExpr(StringField(item, "as").value, ParseExpression(Field(item, "expr").value).value)
    ensures !StringField(item, "as").Ok? ==> ParseProjItem(item) == Err(StringField(item, "as").error)
    ensures StringField(item, "as").Ok? && !Contains(item, "expr") ==> ParseProjItem(item) == Err(BadJson("expr"))
  {
  }

  /** The "exprs" array of a Project node, in array order; the first bad item fails it. */
  function ParseProjExprs(items: seq<Json>, ghost bound: Json): (r: Result<seq<ProjExpr>>)
    requires forall e :: e in items ==> e < bound || e == bound
    ensures r.Ok? ==> |r.value| == |items|
    decreases bound, |items|
  {
    if items == [] then Ok([])
    else
      var item :- ParseProjItem(items[0]);
      assert forall e :: e in items[1..] ==> e in items;
      var rest :- ParseProjExprs(items[1..], bound);
      Ok([item] + rest)
  }

  /** The list's first item, then the rest of it. */
  lemma ParseProjExprsCons(items: seq<Json>, bound: Json)
    requires forall e :: e in items ==> e < bound || e == bound
    requires items != []
    ensures forall e :: e in items[1..] ==> e < bound || e == bound
    ensures var head, rest := ParseProjItem(items[0]), ParseProjExprs(items[1..], bound);
      ParseProjExprs(items, bound) ==
        if head.Err? then Err(head.error)
        else if rest.Err? then Err(rest.error)
        else Ok([head.value] + rest.value)
  {
    assert forall e :: e in items[1..] ==> e in items;
  }

  /** The list parses exactly when every item does, and then item `i` is element `i` parsed. */
  lemma {:induction false} ParseProjExprsItems(items: seq<Json>, bound: Json)
    requires forall e :: e in items ==> e < bound || e == bound
    ensures ParseProjExprs(items, bound).Ok? <==> forall i :: 0 <= i < |items| ==> ParseProjItem(items[i]).Ok?
    ensures ParseProjExprs(items, bound).Ok? ==>
      forall i :: 0 <= i < |items| ==> ParseProjExprs(items, bound).value[i] == ParseProjItem(items[i]).value
    decreases |items|
  {
    if items != [] {
      var tail := items[1..];
      ParseProjExprsCons(items, bound);
      ParseProjExprsItems(tail, bound);
      var r, rest := ParseProjExprs(items, bound), ParseProjExprs(tail, bound);
      var head := ParseProjItem(items[0]);
      if forall i :: 0 <= i < |items| ==> ParseProjItem(items[i]).Ok? {
        forall i | 0 <= i < |tail|
          ensures ParseProjItem(tail[i]).Ok?
        {
          assert tail[i] == items[i + 1];
        }
      }
      if r.Ok? {
        forall i | 0 <= i < |items|
          ensures ParseProjItem(items[i]).Ok? && r.value[i] == ParseProjItem(items[i]).value
        {
          if i > 0 {
            assert items[i] == tail[i - 1] && r.value[i] == rest.value[i - 1];
          }
        }
      }
    }
  }

  /** The first item that does not parse decides the list's error. */
  lemma {:induction false} ParseProjExprsFirstError(items: seq<Json>, bound: Json, i: nat)
    requires forall e :: e in items ==> e < bound || e == bound
    requires i < |items| && ParseProjItem(items[i]).Err?
    requires forall k :: 0 <= k < i ==> ParseProjItem(items[k]).Ok?
    ensures ParseProjExprs(items, bound) == Err(ParseProjItem(items[i]).error)
    decreases i
  {
    ParseProjExprsCons(items, bound);
    if i > 0 {
      var tail := items[1..];
      forall k | 0 <= k < i - 1
        ensures ParseProjItem(tail[k]).Ok?
      {
        assert tail[k] == items[k + 1];
      }
      assert tail[i - 1] == items[i];
      ParseProjExprsFirstError(tail, bound, i - 1);
    }
  }

  /**
   * The list parses exactly when every item does, and then item `i` of the
   * result is item `i` of the array parsed; otherwise the first bad item's
   * error is the list's.
   */
  lemma ParseProjExprsMeaning(items: seq<Json>, bound: Json)
    requires forall e :: e in items ==> e < bound || e == bound
    ensures ParseProjExprs(items, bound).Ok? <==> forall i :: 0 <= i < |items| ==> ParseProjItem(items[i]).Ok?
    ensures ParseProjExprs(items, bound).Ok? ==>
      forall i :: 0 <= i < |items| ==> ParseProjExprs(items, bound).value[i] == ParseProjItem(items[i]).value
    ensures forall i :: 0 <= i < |items| && ParseProjItem(items[i]).Err? && (forall k :: 0 <= k < i ==> ParseProjItem(items[k]).Ok?) ==>
      ParseProjExprs(items, bound) == Err(ParseProjItem(items[i]).error)
  {
    ParseProjExprsItems(items, bound);
    forall i | 0 <= i < |items| && ParseProjItem(items[i]).Err? && (forall k :: 0 <= k < i ==> ParseProjItem(items[k]).Ok?)
      ensures ParseProjExprs(items, bound) == Err(ParseProjItem(items[i]).error)
    {
      ParseProjExprsFirstError(items, bound, i);
    }
  }

  /**
   * parsePlan. Every join is built as a nested-loop join; a Scan's table is
   * read from `dataDir/table` and its schema looked up by the file name.
   */
  function ParsePlan(j: Json, catalog: Catalog, dataDir: string): (r: Result<Plan>)
    reads catalog
    ensures r.Ok? ==> Buildable(r.value)
    ensures StringField(j, "op").Ok? && StringField(j, "op").value !in {"Scan", "Select", "Project", "Join", "Limit"} ==>
      r == Err(UnsupportedPlanOperator(StringField(j, "op").value))
    ensures StringField(j, "op").Err? ==> r == Err(BadJson("op"))
    decreases j
  {
    var op :- StringField(j, "op");
    if op == "Scan" then
      var table :- StringField(j, "table");
      var alias :- StringField(j, "as");
      var path := dataDir + "/" + table;
      var schema :- ScanSchema(catalog, path, alias);
      Ok(ScanNode(path, alias, schema))
    else if op == "Select" then
      var ij :- Field(j, "input");
      var input :- ParsePlan(ij, catalog, dataDir);
      var pj :- Field(j, "predicate");
      var cond :- ParseExpression(pj);
      Ok(SelectNode(input, cond))
    else if op == "Project" then
      var ij :- Field(j, "input");
      var input :- ParsePlan(ij, catalog, dataDir);
      var ej :- Field(j, "exprs");
      var exprs :- ParseProjExprs(Elements(ej), ej);
      Ok(ProjectNode(input, exprs))
    else if op == "Join" then
      var lj :- Field(j, "left");
      var left :- ParsePlan(lj, catalog, dataDir);
      var rj :- Field(j, "right");
      var right :- ParsePlan(rj, catalog, dataDir);
      var cj :- Field(j, "condition");
      var condition :- ParseExpression(cj);
      Ok(NestedLoopJoinNode(left, right, condition))
    else if op == "Limit" then
      var ij :- Field(j, "input");
      var input :- ParsePlan(ij, catalog, dataDir);
      var lj :- Field(j, "limit");
      var limit :- AsInt(lj, "limit");
      Ok(LimitNode(input, limit))
    else Err(UnsupportedPlanOperator(op))
  }

  // ---------------------------------------------------------------- Plan round trip

  /** A scan's catalog key is the table name itself when the name has no '/'. */
  lemma {:induction false} BaseNameOfTablePath(dataDir: string, table: string)
    requires '/' !in table
    ensures BaseName(dataDir + "/" + table) == table
    decreases |table|
  {
    var path := dataDir + "/" + table;
    if table != [] {
      var n := |table| - 1;
      assert path[..|path| - 1] == dataDir + "/" + table[..n];
      assert table[n] in table;
      BaseNameOfTablePath(dataDir, table[..n]);
      assert table[..n] + [table[n]] == table;
    }
  }

  /** The JSON form of a projection list. */
  function ProjExprsToJson(exprs: seq<ProjExpr>): (r: seq<Json>)
    ensures |r| == |exprs|
  {
    seq(|exprs|, i requires 0 <= i < |exprs| => ProjItemToJson(exprs[i]))
  }

  /** One item of a Project's expression list: an "as" alias and an "expr". */
  function ProjItemToJson(pe: ProjExpr): Json {
    JObject([Member("as", JString(pe.alias)), Member("expr", ExprToJson(pe.expr))])
  }

  /** The JSON form of a plan, as a plan file writes it; block and hash joins have none. */
  function PlanToJson(p: Plan): Json {
    match p
    case ScanNode(path, alias, _) =>
      JObject([Member("op", JString("Scan")), Member("table", JString(BaseName(path))), Member("as", JString(alias))])
    case SelectNode(input, c) =>
      JObject([Member("op", JString("Select")), Member("input", PlanToJson(input)), Member("predicate", ExprToJson(c))])
    case ProjectNode(input, exprs) =>
      JObject([Member("op", JString("Project")), Member("input", PlanToJson(input)), Member("exprs", JArray(ProjExprsToJson(exprs)))])
    case NestedLoopJoinNode(l, r, c) =>
      JObject([Member("op", JString("Join")), Member("left", PlanToJson(l)), Member("right", PlanToJson(r)), Member("condition", ExprToJson(c))])
    case BlockNestedLoopJoinNode(_, _, _, _) => JNull
    case HashJoinNode(_, _, _, _) => JNull
    case LimitNode(input, n) =>
      JObject([Member("op", JString("Limit")), Member("input", PlanToJson(input)), Member("limit", JInt(n))])
  }

  /**
   * A plan the builder can produce from `catalog` and `dataDir`: scans of
   * registered tables under `dataDir` with their qualified schemas,
   * expressible expressions, and nested-loop joins only.
   */
  ghost predicate Producible(p: Plan, catalog: Catalog, dataDir: string)
    reads catalog
  {
    match p
    case ScanNode(path, alias, s) =>
      var table := BaseName(path);
      path == dataDir + "/" + table && table in catalog.schemas && s == Qualified(catalog.schemas[table], alias)
    case SelectNode(input, c) => Producible(input, catalog, dataDir) && Expressible(c)
    case ProjectNode(input, exprs) =>
      Producible(input, catalog, dataDir) && forall i :: 0 <= i < |exprs| ==> Expressible(exprs[i].expr)
    case NestedLoopJoinNode(l, r, c) =>
      Producible(l, catalog, dataDir) && Producible(r, catalog, dataDir) && Expressible(c)
    case BlockNestedLoopJoinNode(_, _, _, _) => false
    case HashJoinNode(_, _, _, _) => false
    case LimitNode(input, _) => Producible(input, catalog, dataDir)
  }

  /** One item of a Project's list: its alias and its expression read back. */
  lemma ProjItemRoundTrip(pe: ProjExpr)
    requires Expressible(pe.expr)
    ensures StringField(ProjItemToJson(pe), "as") == Ok(pe.alias)
    ensures Field(ProjItemToJson(pe), "expr") == Ok(ExprToJson(pe.expr))
    ensures ParseExpression(ExprToJson(pe.expr)) == Ok(pe.expr)
    ensures ParseProjItem(ProjItemToJson(pe)) == Ok(pe)
  {
    FieldAt(ProjItemToJson(pe), "as", 0);
    FieldAt(ProjItemToJson(pe), "expr", 1);
    ExpressionRoundTrip(pe.expr);
  }

  /** Reading a list whose first item is the JSON form of `exprs[0]` and whose tail reads back as the rest. */
  lemma {:induction false} ReadProjItem(items: seq<Json>, bound: Json, exprs: seq<ProjExpr>)
    requires items != [] && exprs != [] && items[0] == ProjItemToJson(exprs[0]) && Expressible(exprs[0].expr)
    requires forall e :: e in items ==> e < bound || e == bound
    requires forall e :: e in items[1..] ==> e < bound || e == bound
    requires ParseProjExprs(items[1..], bound) == Ok(exprs[1..])
    ensures ParseProjExprs(items, bound) == Ok(exprs)
  {
    ProjItemRoundTrip(exprs[0]);
    assert [exprs[0]] + exprs[1..] == exprs;
  }

  lemma {:induction false} ProjExprsRoundTrip(exprs: seq<ProjExpr>, bound: Json)
    requires forall i :: 0 <= i < |exprs| ==> Expressible(exprs[i].expr)
    requires forall e :: e in ProjExprsToJson(exprs) ==> e < bound || e == bound
    ensures ParseProjExprs(ProjExprsToJson(exprs), bound) == Ok(exprs)
    decreases |exprs|
  {
    if exprs != [] {
      var items := ProjExprsToJson(exprs);
      assert items[1..] == ProjExprsToJson(exprs[1..]);
      assert forall e :: e in items[1..] ==> e in items;
      assert forall i :: 0 <= i < |exprs[1..]| ==> exprs[1..][i] == exprs[i + 1];
      ProjExprsRoundTrip(exprs[1..], bound);
      ReadProjItem(items, bound, exprs);
    }
  }

  lemma ScanRoundTrip(p: Plan, catalog: Catalog, dataDir: string)
    requires p.ScanNode? && Producible(p, catalog, dataDir)
    ensures ParsePlan(PlanToJson(p), catalog, dataDir) == Ok(p)
  {
    var j := PlanToJson(p);
    FieldAt(j, "op", 0);
    FieldAt(j, "table", 1);
    FieldAt(j, "as", 2);
  }

  /** A Select object whose input and predicate read back reads back as the Select node. */
  lemma ParseSelectObject(ij: Json, input: Plan, cj: Json, c: Expr, catalog: Catalog, dataDir: string)
    requires ParsePlan(ij, catalog, dataDir) == Ok(input) && ParseExpression(cj) == Ok(c)
    ensures ParsePlan(JObject([Member("op", JString("Select")), Member("input", ij), Member("predicate", cj)]), catalog, dataDir)
         == Ok(SelectNode(input, c))
  {
    var j := JObject([Member("op", JString("Select")), Member("input", ij), Member("predicate", cj)]);
    FieldAt(j, "op", 0);
    FieldAt(j, "input", 1);
    FieldAt(j, "predicate", 2);
  }

  /** A Project object whose input and items read back reads back as the Project node. */
  lemma ParseProjectObject(ij: Json, input: Plan, items: seq<Json>, exprs: seq<ProjExpr>, catalog: Catalog, dataDir: string)
    requires ParsePlan(ij, catalog, dataDir) == Ok(input) && ParseProjExprs(items, JArray(items)) == Ok(exprs)
    ensures ParsePlan(JObject([Member("op", JString("Project")), Member("input", ij), Member("exprs", JArray(items))]), catalog, dataDir)
         == Ok(ProjectNode(input, exprs))
  {
    var j := JObject([Member("op", JString("Project")), Member("input", ij), Member("exprs", JArray(items))]);
    FieldAt(j, "op", 0);
    FieldAt(j, "input", 1);
    FieldAt(j, "exprs", 2);
  }

  /** A Join object whose children and condition read back reads back as the nested-loop join node. */
  lemma ParseJoinObject(lj: Json, l: Plan, rj: Json, r: Plan, cj: Json, c: Expr, catalog: Catalog, dataDir: string)
    requires ParsePlan(lj, catalog, dataDir) == Ok(l) && ParsePlan(rj, catalog, dataDir) == Ok(r)
    requires ParseExpression(cj) == Ok(c)
    ensures ParsePlan(JObject([Member("op", JString("Join")), Member("left", lj), Member("right", rj), Member("condition", cj)]), catalog, dataDir)
         == Ok(NestedLoopJoinNode(l, r, c))
  {
    var j := JObject([Member("op", JString("Join")), Member("left", lj), Member("right", rj), Member("condition", cj)]);
    JoinFields(j);
  }

  lemma JoinFields(j: Json)
    requires j.JObject? && |j.members| == 4
    requires j.members[0] == Member("op", JString("Join")) && j.members[1].key == "left"
    requires j.members[2].key == "right" && j.members[3].key == "condition"
    ensures StringField(j, "op") == Ok("Join")
    ensures Field(j, "left") == Ok(j.members[1].value) && Field(j, "right") == Ok(j.members[2].value)
    ensures Field(j, "condition") == Ok(j.members[3].value)
  {
    FieldAt(j, "op", 0);
    FieldAt(j, "left", 1);
    FieldAt(j, "right", 2);
    FieldAt(j, "condition", 3);
  }

  /** A Limit object whose input reads back reads back as the Limit node. */
  lemma ParseLimitObject(ij: Json, input: Plan, n: int, catalog: Catalog, dataDir: string)
    requires ParsePlan(ij, catalog, dataDir) == Ok(input)
    ensures ParsePlan(JObject([Member("op", JString("Limit")), Member("input", ij), Member("limit", JInt(n))]), catalog, dataDir)
         == Ok(LimitNode(input, n))
  {
    var j := JObject([Member("op", JString("Limit")), Member("input", ij), Member("limit", JInt(n))]);
    FieldAt(j, "op", 0);
    FieldAt(j, "input", 1);
    FieldAt(j, "limit", 2);
  }

  /** Reading back the JSON form of a producible plan rebuilds the plan. */
  lemma {:induction false} PlanRoundTrip(p: Plan, catalog: Catalog, dataDir: string)
    requires Producible(p, catalog, dataDir)
    ensures ParsePlan(PlanToJson(p), catalog, dataDir) == Ok(p)
  {
    match p
    case ScanNode(_, _, _) => ScanRoundTrip(p, catalog, dataDir);
    case SelectNode(input, c) =>
      PlanRoundTrip(input, catalog, dataDir);
      ExpressionRoundTrip(c);
      ParseSelectObject(PlanToJson(input), input, ExprToJson(c), c, catalog, dataDir);
    case ProjectNode(input, exprs) =>
      PlanRoundTrip(input, catalog, dataDir);
      ProjExprsRoundTrip(exprs, JArray(ProjExprsToJson(exprs)));
      ParseProjectObject(PlanToJson(input), input, ProjExprsToJson(exprs), exprs, catalog, dataDir);
    case NestedLoopJoinNode(l, r, c) =>
      PlanRoundTrip(l, catalog, dataDir);
      PlanRoundTrip(r, catalog, dataDir);
      ExpressionRoundTrip(c);
      ParseJoinObject(PlanToJson(l), l, PlanToJson(r), r, ExprToJson(c), c, catalog, dataDir);
    case LimitNode(input, n) =>
      PlanRoundTrip(input, catalog, dataDir);
      ParseLimitObject(PlanToJson(input), input, n, catalog, dataDir);
  }

  /** A Scan node reads `dataDir/table` with the catalog schema of `table`, qualified by its alias. */
  lemma ScanPlan(table: string, alias: string, catalog: Catalog, dataDir: string)
    requires '/' !in table
    ensures var j := JObject([Member("op", JString("Scan")), Member("table", JString(table)), Member("as", JString(alias))]);
      ParsePlan(j, catalog, dataDir) ==
        if table in catalog.schemas then Ok(ScanNode(dataDir + "/" + table, alias, Qualified(catalog.schemas[table], alias)))
        else Err(UnknownTable(table))
  {
    var j := JObject([Member("op", JString("Scan")), Member("table", JString(table)), Member("as", JString(alias))]);
    FieldAt(j, "op", 0);
    FieldAt(j, "table", 1);
    FieldAt(j, "as", 2);
    BaseNameOfTablePath(dataDir, table);
  }
}
