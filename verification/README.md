# A verified model of a Volcano-style query executor

This project models the core of a small pull-based (Volcano) query engine in
Dafny and proves properties of it. The engine has five parts:

- **Rows and schemas** (`types.dfy`). A value is an int, a float, a string or
  a bool; a tuple is a sequence of values. A schema is an ordered column list
  with a name-to-position index, and it supports `addColumn`, `getColumn`,
  `getColumns` and `merge`.
- **Expressions** (`expression.dfy`). A tree-walking evaluator over constants,
  column references, binary operators and NOT. Every failure the evaluator can
  throw is an `Err` result.
- **Operators** (`iterators.dfy`, `scan.dfy`, `pipeline.dfy`, `joins.dfy`,
  `hashjoin.dfy`). Scan, Select, Project, Limit, the nested-loop join, the
  block nested-loop join and the hash join. Each one is a class with the
  engine's `open` / `next` / `close` protocol.
  - Each child is an abstract rewindable stream (`Iterators.Source`): its rows,
    a cursor and an open flag. `Close` then `Open` rewinds it.
  - Every operator has a ghost `Remaining()`: the `Trace` (rows, then the end
    of input or an error) that it will still emit.
  - `Open` sets `Remaining()` to a functional description of the operator's
    output. Every `Next` returns the head of `Remaining()` and leaves its tail
    (`Iterators.Advances`).
  - Lemmas about the descriptions relate the operators. The block join emits
    exactly what the nested-loop join emits. Under an equality condition, and
    when every probe row has as many values as its schema has columns, the
    hash join emits exactly what the nested-loop join emits.
- **Plan builder** (`json.dfy`, `plan_parser.dfy`). Recursive descent from a
  JSON document to an expression or an operator tree. JSON is a small datatype.
  A plan is a tree of operator nodes, and every Join node becomes a
  nested-loop join. A round-trip lemma shows that parsing the JSON form of an
  expression or plan gives it back.
- **Catalog** (`catalog.dfy`). The type-name mapping of schema files, and the
  table-to-schema map with its insert and lookup.

Errors that the engine throws are `Err` values from `errors.dfy`, or the
failure at the end of a `Trace`. Integers are unbounded `int` and floats are
`real`.

Some behaviour of the code that the model keeps:

- The plan builder has no join-method tag and no predicate pushdown. Every
  Join node becomes a nested-loop join (`src/plan_parser.h:61-66`).
- A column reference is read from the key `"col"`
  (`src/plan_parser.h:22-24`), and a projection alias from the key `"as"`
  (`src/plan_parser.h:57`).
- A scan catches only `invalid_argument` and then skips the line
  (`src/operator.h:85-89`). An `out_of_range` conversion failure is not
  caught, so it stops the scan with an error.
- Limit compares its count with the bound as a plain int
  (`src/operator.h:214`), so a bound of zero or below emits nothing.
- A range-for over a JSON object visits the object's map: one value per
  distinct key, in increasing key order (`src/plan_parser.h:56`).

## Model

| member | source | states |
|---|---|---|
| Types.LastWithNameUnique | src/types.h:43-48 | Only one position can be the last column carrying a name, so a name finds a single column. |
| Types.GetColumn | src/types.h:45-49 | getColumn: the column the name index points to, or UnknownColumn for a name not in the index. Its meaning is stated by Types.GetColumnMeaning. |
| Types.GetColumnMeaning | src/types.h:45-49 | On a well-formed schema, getColumn succeeds exactly on the names some column carries. It then returns the last column with that name, at its own position. A missing name fails with UnknownColumn. |
| Types.GetColumns | src/types.h:51-54 | getColumns returns one entry per column. In a well-formed schema the positions are 0..n-1 in order, and every returned name can be looked up. |
| Types.AddColumn | src/types.h:39-44 | addColumn appends the column at position "previous column count" and leaves the earlier columns as they were. |
| Types.AddColumnMeaning | src/types.h:39-44 | addColumn keeps a schema well formed. The new name then finds the new column, so a repeated name now finds the last one added. Every other name finds what it found before. |
| Types.AddColumnsColumns | src/types.h:65-68 | A run of addColumn calls appends the columns with their names and types, renumbered from the old column count. |
| Types.AddColumnsWellFormed | src/types.h:65-68 | A run of addColumn calls keeps a schema well formed. |
| Types.AddColumnsAppend | src/types.h:65-68 | Adding a + b is adding a, then adding b. |
| Types.AddColumnsIgnoresPositions | src/types.h:65-68 | Only names and types of the added columns matter, not their stored positions. |
| Types.Merged | src/types.h:61-70 | merge: a copy of the left schema with each right column added after it, in order. Its meaning is stated by Types.MergedMeaning. |
| Types.MergedMeaning | src/types.h:61-70 | merge(L, R) has L's columns followed by R's names and types at positions \|L\|..\|L\|+\|R\|-1. A well-formed L gives a well-formed result. |
| Types.Merge | src/types.h:61-70 | The loop of merge, over a copy of the left schema, computes Merged(L, R) with L's columns then R's renumbered. The inputs are values and are not changed. |
| Types.MergeAssociative | src/types.h:61-70 | merge(merge(A,B),C) equals merge(A,merge(B,C)), column lists and indexes both. |
| Types.GetColumnFindsLast | src/types.h:45-49 | In a well-formed schema, getColumn returns the column at the last position with that name. |
| Types.ConcatenatedLookupRight | src/types.h:61-70 | In a well-formed schema whose columns are L's then R's renumbered, a name R carries is found at its R position plus \|L\|, with R's type. |
| Types.ConcatenatedLookupLeft | src/types.h:61-70 | In such a schema, a name R lacks is looked up exactly as in L, failure included. |
| Types.MergedLookupLeft | src/types.h:61-70 | After merge, a name only the left schema may carry is found as in the left schema. |
| Types.MergedLookupRight | src/types.h:61-70 | After merge, a right-schema name is found at its right position shifted by the left column count, with its type. |
| Expressions.ApplyBinary | src/expression.h:71-111 | A binary node once both operands have values: dispatch on the operator tag. Its meaning is stated by Expressions.ApplyBinaryMeaning. |
| Expressions.ApplyBinaryMeaning | src/expression.h:74-110 | Arithmetic tags succeed exactly on two numbers with a non-zero divisor, always giving a float, and otherwise fail with the non-numeric or division-by-zero error (int 0 included). EQ/NEQ never fail and compare by variant equality, so different kinds are unequal. Ordering tags succeed exactly on two numbers and compare their numeric values. Any other tag fails as unsupported. |
| Expressions.ArithmeticResults | src/expression.h:79-88 | On two numbers, ADD, SUB, MUL and DIV give the float sum, difference, product and quotient of their numeric values. |
| Expressions.ComparisonDualities | src/expression.h:93-106 | NEQ is the negation of EQ. On numbers, GT and GTE mirror LT and LTE, and LT is the complement of GTE. |
| Expressions.Evaluate | src/expression.h:25-127 | evaluate on each node kind, against a tuple and the schema describing it. Its meaning is stated by Expressions.EvaluateMeaning. |
| Expressions.EvaluateMeaning | src/expression.h:25-127 | A constant ignores tuple and schema. A column reference succeeds on a well-formed schema and a matching tuple exactly when the name is known, and it reads the tuple at the name's last position. A binary node evaluates left, then right, then applies its tag. NOT negates a bool and fails with NotABool on anything else. |
| Expressions.ColumnRefAt | src/expression.h:36-41 | A column reference whose name the schema resolves to a column reads the tuple at that column's index. An index past the tuple's end is an error. |
| Expressions.ColumnOnMergedLeft | src/expression.h:36-41 | For a left row of L's width, a left-hand column reference reads the same value from l ++ r under merge(L, R) as from l under L. |
| Expressions.ColumnOnMergedRight | src/expression.h:36-41 | For a left row of L's width, a right-hand column reference reads the same value from l ++ r under merge(L, R) as from r under R. |
| Expressions.EvaluateOnMergedLeft | src/expression.h:36-127 | For a left row of L's width, an expression naming no right-hand column evaluates on l ++ r under merge(L, R) exactly as on l under L. |
| Expressions.EvaluateOnMergedRight | src/expression.h:36-127 | For a left row of L's width, an expression naming only right-hand columns evaluates on l ++ r under merge(L, R) exactly as on r under R. |
| Catalogs.StringToType | src/catalog.h:11-17 | Exactly "int", "float", "string" and "bool" map to a type; anything else fails with UnknownDataType. |
| Catalogs.TypeNameRoundTrip | src/catalog.h:11-17 | The mapping is one-to-one: each type has exactly one accepted name. |
| Catalogs.DeclaredSchema | src/catalog.h:49-52 | The schema a schema file declares: its columns added in array order, the first unknown type name failing it. Its meaning is stated by Catalogs.DeclaredSchemaDefined and Catalogs.DeclaredSchemaColumns. |
| Catalogs.DeclaredSchemaDefined | src/catalog.h:49-52 | A schema file's column list builds a schema exactly when every type name is known. |
| Catalogs.DeclaredSchemaColumns | src/catalog.h:49-52 | A loaded schema is well formed. Its columns follow the "columns" array order with dense positions and the declared names and types. |
| Catalogs.DeclaredSchemaFailedPrefix | src/catalog.h:50-51 | The first unknown type name fails the whole schema with its error. |
| Catalogs.Catalog.constructor | src/catalog.h:58 | A new catalog has no schemas. |
| Catalogs.Catalog.GetSchema | src/catalog.h:36-38 | getSchema returns the stored schema of a registered table and fails with UnknownTable otherwise. |
| Catalogs.Catalog.LoadSchema | src/catalog.h:48-53 | The column loop builds the declared schema and stores it under the file key, replacing any earlier one. Other keys are untouched. An unknown type name stores nothing. |
| JsonValues.LastMember | src/plan_parser.h:16-69 | The member found for a key is one of the object's members, and its value is smaller than the object. |
| JsonValues.LastMemberFound | src/plan_parser.h:16-69 | A key is found exactly when some member carries it. |
| JsonValues.ContainsMeaning | src/plan_parser.h:15-25 | contains(key) holds exactly on an object with a member named key. |
| JsonValues.LastMemberAt | src/plan_parser.h:16-69 | With duplicated keys, the last member carrying the key is the one read. |
| JsonValues.FieldAt | src/plan_parser.h:16-69 | j[key] on an object whose last member named key is member i reads that member's value. |
| JsonValues.Absent | src/plan_parser.h:15-35 | An object with no member named key does not contain it, and j[key] fails. |
| JsonValues.Field | src/plan_parser.h:16-69 | j[key] succeeds exactly when j contains key. The value is smaller than j, and a missing key fails with BadJson. |
| JsonValues.BeforeIrreflexive | src/plan_parser.h:56 | No key sorts before itself. |
| JsonValues.BeforeTotal | src/plan_parser.h:56 | Of two different keys, one sorts before the other. |
| JsonValues.BeforeTransitive | src/plan_parser.h:56 | The key order is transitive. |
| JsonValues.InsertSorted | src/plan_parser.h:56 | Inserting a key into a strictly increasing key list keeps it strictly increasing, and adds exactly that key. |
| JsonValues.ObjectKeysMeaning | src/plan_parser.h:56 | An object's keys are strictly increasing, and they are exactly the keys a lookup finds. |
| JsonValues.Elements | src/plan_parser.h:56 | Iterating an array yields its items in order, and every element is no larger than the value. |
| JsonValues.ElementsOfObject | src/plan_parser.h:56 | Iterating an object visits one value per distinct key, in increasing key order, and each is the value j[key] reads. |
| JsonValues.AsString | src/plan_parser.h:19-44 | Only a JSON string converts to a string, unchanged. |
| JsonValues.Truncate | src/plan_parser.h:17 | A float converted to int is truncated toward zero. |
| JsonValues.AsInt | src/plan_parser.h:17-69 | Numbers and bools convert to int: an int is kept and a bool gives 1 or 0. Anything else fails. |
| JsonValues.AsReal | src/plan_parser.h:18 | Numbers and bools convert to float: a float is kept and an int becomes its real value. Anything else fails. |
| JsonValues.AsBool | src/plan_parser.h:20 | Only a JSON bool converts to bool. |
| JsonValues.StringField | src/plan_parser.h:23-44 | j[key] read as a string succeeds exactly when the key is present and holds a string. |
| ScanOperator.BaseNameIsLastSegment | src/operator.h:36-37 | The file name of a path has no '/', is a suffix of the path, and follows the path's last '/' when shorter than the path. |
| ScanOperator.QualifiedColumns | src/operator.h:45-47 | The columns the scan constructor adds: each base column renamed alias + "." + name, with its type. Its meaning is stated by ScanOperator.Qualified. |
| ScanOperator.Qualified | src/operator.h:42-47 | The scan schema is well formed and has the base columns in order, with their types, each named alias + "." + name. |
| ScanOperator.QualifySchema | src/operator.h:45-47 | The constructor's addColumn loop computes Qualified(base, alias). |
| ScanOperator.ScanSchema | src/operator.h:36-47 | The scan schema exists exactly when the path's file name is a registered table, and it is that table's schema qualified by the alias. Otherwise the scan fails with UnknownTable. |
| ScanOperator.ParseField | src/operator.h:79-84 | Parsed fields have their column's kind. A STRING is the field verbatim, and a BOOL is true iff the field is "true" or "1". INT and FLOAT parse exactly when the conversion accepts the text. |
| ScanOperator.ParseFields | src/operator.h:73-90 | A line is accepted exactly when every field with a column parses. Then the tuple has min(fields, columns) values, each the parse of its field with its column's kind. |
| ScanOperator.ParseFieldsOutcome | src/operator.h:73-90 | The first field that does not parse decides the line. A rejected one (invalid_argument) skips the line, and an out-of-range one aborts with that field. A line is skipped or aborted exactly when such a first field exists. |
| ScanOperator.ParseLine | src/operator.h:67-91 | The field loop of next computes ParseFields, including the skip on a rejected field and the abort on an out-of-range one. |
| ScanOperator.ScanRows | src/operator.h:64-94 | What a scan emits over the data lines: each line that parses, in order. A rejected field skips its line, and an out-of-range field stops the scan. Its meaning is stated by ScanOperator.ScanRowsTyped, ScanOperator.ScanRowsAllParse, ScanOperator.ScanRowsSkipsLine and ScanOperator.ScanRowsAbortsAt. |
| ScanOperator.ScanRowsTyped | src/operator.h:64-94 | A scan emits at most one row per data line. Each row is no longer than the column list, and each value has its column's type. |
| ScanOperator.ScanRowsAllParse | src/operator.h:64-94 | When every data line parses, the scan emits one row per line, in order, and ends without error. |
| ScanOperator.ScanRowsSkipsLine | src/operator.h:85-89 | A skipped line contributes nothing: the scan emits the same trace without it. |
| ScanOperator.ScanRowsAbortsAt | src/operator.h:80-90 | At the first line with an out-of-range field, the scan has emitted the rows of the earlier lines and ends with FieldOutOfRange of that field. |
| ScanOperator.Scan.Create | src/operator.h:27-48 | Construction succeeds exactly when the file name is a registered table, and otherwise fails with the lookup error. A built scan has the qualified catalog schema, holds the given lines and field conversions, and starts closed. |
| ScanOperator.Scan.constructor | src/operator.h:27-28 | A new scan is closed and holds its lines, schema and parsers. |
| ScanOperator.Scan.Open | src/operator.h:50-62 | open on an open scan does nothing. Otherwise it skips the header line, and what remains is ScanRows over the data lines. |
| ScanOperator.Scan.Close | src/operator.h:96-100 | close leaves the scan closed. |
| ScanOperator.Scan.Next | src/operator.h:64-94 | next emits the next row of ScanRows and skips lines with a rejected field. It stops with an error on an out-of-range field and reports the end of input at the last line. |
| Iterators.ThenAssociative | src/operator.h:15-17 | Running traces one after another is associative. |
| Iterators.ThenCons | src/operator.h:15-17 | A row in front of a trace stays in front when another trace follows. |
| Iterators.Source.constructor | src/operator.h:15-20 | A new child stream is closed and holds its rows and schema. |
| Iterators.Source.Open | src/operator.h:50-62 | open on a closed stream rewinds it to its first row; on an open one it does nothing. |
| Iterators.Source.Close | src/operator.h:96-100 | close leaves the stream closed, so the next open rewinds it. |
| Iterators.Source.Next | src/operator.h:64-94 | next returns the next row of an open stream and advances; at the end, or when closed, it returns false and nothing changes. |
| PipelineOperators.Selected | src/operator.h:125-137 | What Select emits: the child rows whose predicate is true, in order, stopping at the first predicate that fails or is not a bool. Its meaning is stated by PipelineOperators.SelectedMeaning. |
| PipelineOperators.SelectedPicks | src/operator.h:125-137 | The emitted rows are the child rows at strictly increasing positions. A position is emitted exactly when its predicate is true and every earlier predicate gave a bool. |
| PipelineOperators.SelectedFailsAt | src/operator.h:125-137 | The first row whose predicate fails or is not a bool decides the error: the evaluation error, or NotABool. |
| PipelineOperators.SelectedMeaning | src/operator.h:125-137 | Select emits, in child order and once each, exactly the child rows whose predicate is true before the first predicate that fails or is not a bool. That row decides the error, and without one there is no failure. |
| PipelineOperators.SelectedAppend | src/operator.h:125-137 | Selecting over a concatenation is selecting over each part in turn. |
| PipelineOperators.Select.constructor | src/operator.h:115-116 | Select holds its child and predicate; its schema is the child's. |
| PipelineOperators.Select.Open | src/operator.h:119 | open opens the child. From a closed child, what remains is Selected over the child's rows under the child's schema. |
| PipelineOperators.Select.Close | src/operator.h:120 | close closes the child. |
| PipelineOperators.Select.Next | src/operator.h:125-137 | The pull loop of next emits the head of what remains. |
| PipelineOperators.EvalList | src/operator.h:187-189 | The projection expressions evaluated on one row, in order. Its meaning is stated by PipelineOperators.EvalListMeaning. |
| PipelineOperators.EvalListMeaning | src/operator.h:187-189 | The expression list evaluates exactly when every expression does. The row is then the values in expression order. Otherwise the error is that of the first failing expression. |
| PipelineOperators.EvalListFailedPrefix | src/operator.h:187-189 | Once a prefix of the expressions fails, the whole row fails with that error. |
| PipelineOperators.EvalRow | src/operator.h:185-189 | The loop that builds one output row computes EvalList. |
| PipelineOperators.Projected | src/operator.h:181-193 | Project emits, for each child row in order, the evaluated expression list. Without failure it emits exactly one row per child row. A failure is the error of the first row whose list fails. |
| PipelineOperators.ProjectedType | src/operator.h:164-172 | The declared type of a projected column: FLOAT for a binary expression, STRING for anything else. PipelineOperators.ProjectSchema states that the output schema uses it. |
| PipelineOperators.ProjectSchema | src/operator.h:159-174 | The output schema is well formed, with one column per expression in order, named by its alias. It is typed FLOAT for a binary expression and STRING otherwise. |
| PipelineOperators.BuildProjectSchema | src/operator.h:159-174 | The constructor's addColumn loop computes ProjectSchema. |
| PipelineOperators.Project.constructor | src/operator.h:155-175 | Project holds its child and expressions, and its schema is ProjectSchema. |
| PipelineOperators.Project.Open | src/operator.h:177 | open opens the child. From a closed child, what remains is Projected over the child's rows under the child's schema, not the output schema. |
| PipelineOperators.Project.Close | src/operator.h:178 | close closes the child. |
| PipelineOperators.Project.Next | src/operator.h:181-193 | next emits the head of what remains. |
| PipelineOperators.Take | src/operator.h:212-223 | The kept rows are a prefix of length min(limit, \|rows\|), and none for a limit <= 0. |
| PipelineOperators.Limit.constructor | src/operator.h:205-206 | Limit starts with a zero count. |
| PipelineOperators.Limit.Open | src/operator.h:208 | open opens the child and resets the count. From a closed child, what remains is the first min(limit, \|rows\|) child rows. |
| PipelineOperators.Limit.Close | src/operator.h:209 | close closes the child. |
| PipelineOperators.Limit.Next | src/operator.h:212-223 | next emits the head of what remains, and the count grows only when a row is emitted. |
| JoinOperators.Pairs | src/operator.h:256-257 | The reference definition of the joined rows of one left row: l ++ r for each right row r, in order. |
| JoinOperators.JoinRowStep | src/operator.h:254-263 | One inner step either fails on the condition's error or non-bool value, emits l ++ r when it is true, or goes on. |
| JoinOperators.PassStep | src/operator.h:254-263 | The same inner step with whatever follows the pass. |
| JoinOperators.Product | src/operator.h:249-274 | The product has \|ls\| * \|rs\| rows. |
| JoinOperators.ProductMembers | src/operator.h:249-274 | The product's rows are exactly the concatenations of a left and a right row. |
| JoinOperators.NestedLoop | src/operator.h:249-274 | What a nested-loop join emits: each left row's matches among the right rows, left row by left row. Its meaning is stated by JoinOperators.NestedLoopIsSelectedProduct and JoinOperators.NestedLoopRows. |
| JoinOperators.NestedLoopIsSelectedProduct | src/operator.h:249-274 | The nested-loop join is Select over the left-major product: the matching pairs in order, stopping at the first pair whose condition fails. |
| JoinOperators.NestedLoopRows | src/operator.h:249-274 | Every emitted row is some left row ++ some right row whose condition is true. |
| JoinOperators.NestedLoopAppend | src/operator.h:249-274 | Joining a concatenation of left inputs is joining each part in turn. |
| JoinOperators.BlockJoin | src/operator.h:301-356 | What a block nested-loop join emits: left blocks of blockSize rows, each row of a block joined against a full pass of the right input. JoinOperators.BlockJoinIsNestedLoop relates it to NestedLoop. |
| JoinOperators.BlockJoinUnfold | src/operator.h:308-356 | A block join at a new block is the first row's pass, then the rest of the block's passes, then the later blocks. |
| JoinOperators.BlockJoinIsNestedLoop | src/operator.h:301-356 | With blockSize >= 1, the block nested-loop join emits exactly the nested-loop join's trace. |
| JoinOperators.NextInBlock | src/operator.h:320-331 | When a pass ends within a block, what remains is the next block row's full pass. |
| JoinOperators.EndOfBlock | src/operator.h:320-326 | When the last row's pass ends, what remains is the later blocks. |
| JoinOperators.NestedLoopJoin.constructor | src/operator.h:236-240 | The output schema is merge(left, right), and no left row is held. |
| JoinOperators.NestedLoopJoin.Open | src/operator.h:242-247 | open opens both children and primes the first left row. From closed children, what remains is NestedLoop over the two row lists. |
| JoinOperators.NestedLoopJoin.Close | src/operator.h:276-279 | close closes both children. |
| JoinOperators.NestedLoopJoin.Next | src/operator.h:249-274 | The outer and inner loops of next, with the right input rewound after each left row, emit the head of what remains. |
| JoinOperators.BlockNestedLoopJoin.constructor | src/operator.h:296-299 | The output schema is merge(left, right), and the block starts empty. |
| JoinOperators.BlockNestedLoopJoin.ReadBlock | src/operator.h:346-351 | The fill loop reads the first blockSize remaining left rows, or all of them if there are fewer, and consumes exactly those. |
| JoinOperators.BlockNestedLoopJoin.LoadNextLeftBlock | src/operator.h:345-356 | loadNextLeftBlock reads the next block, resets the block index and rewinds the right input. It returns whether the block is non-empty, and what remains is BlockJoin over the left rows not yet read. |
| JoinOperators.BlockNestedLoopJoin.Open | src/operator.h:301-305 | open opens both children and loads the first block. From a closed left child, what remains is BlockJoin over the two row lists. |
| JoinOperators.BlockNestedLoopJoin.Close | src/operator.h:337-340 | close closes both children. |
| JoinOperators.BlockNestedLoopJoin.AdvanceBlock | src/operator.h:320-331 | When the right input is exhausted, next moves to the next block row or the next block. What remains is unchanged, and progress is made. |
| JoinOperators.BlockNestedLoopJoin.NextBlock | src/operator.h:322-326 | After the last row of a block the next block is read. What remains is unchanged, and the left input shrinks when a block is loaded. |
| JoinOperators.BlockNestedLoopJoin.NextRowOfBlock | src/operator.h:320-331 | Another block row is taken and the right input rewound, and what remains is unchanged. |
| JoinOperators.BlockNestedLoopJoin.RewindRight | src/operator.h:329-330 | close then open rewinds the right input to its first row. |
| JoinOperators.BlockNestedLoopJoin.Pair | src/operator.h:312-319 | Joining the current left row with one right row either emits the head of what remains or drops the pair without changing it. |
| JoinOperators.BlockNestedLoopJoin.ReadRight | src/operator.h:309-311 | Reading the next right row splits what remains into the current row's pass over the rest of the right input, then the later passes. |
| JoinOperators.BlockNestedLoopJoin.Next | src/operator.h:307-335 | The loop of next emits the head of what remains. |
| HashJoinOperator.KeyMatchesSnoc | src/operator.h:384-387 | One more build row joins the matches of a key exactly when its key equals that key. |
| HashJoinOperator.BuildTable | src/operator.h:381-388 | The build phase: each build row appended to the bucket of its key, the first failing key aborting it. Its meaning is stated by HashJoinOperator.BuildTableBuckets. |
| HashJoinOperator.Probe | src/operator.h:395-425 | The probe phase: each probe row joined with its key's bucket, stopping at the first probe key that fails. HashJoinOperator.HashJoinMatchesNestedLoop relates it to NestedLoop. |
| HashJoinOperator.HashJoinTrace | src/operator.h:379-425 | What a hash join emits: the build phase, then the probe phase against its table. HashJoinOperator.HashJoinMatchesNestedLoop relates it to NestedLoop. |
| HashJoinOperator.BuildTableBuckets | src/operator.h:379-388 | The build phase succeeds exactly when every build key evaluates. Then each key's bucket holds the build rows with that key, in input order, and no bucket is empty. |
| HashJoinOperator.BuildTableSnoc | src/operator.h:384-387 | A build row whose key evaluates is appended to its key's bucket. |
| HashJoinOperator.BuildTableSnocFails | src/operator.h:384-385 | A build row whose key fails aborts the build phase with that error. |
| HashJoinOperator.BuildTableFailedPrefix | src/operator.h:384-387 | Once a prefix of the build rows fails, the build phase fails with that error. |
| HashJoinOperator.BuildStep | src/operator.h:384-387 | One turn of the build loop either fails the whole build phase or extends the table by one row. |
| HashJoinOperator.BucketStep | src/operator.h:398-403 | Emitting a bucket row emits probe ++ build and moves to the next match. |
| HashJoinOperator.BucketDone | src/operator.h:398-410 | An exhausted bucket emits nothing more. |
| HashJoinOperator.EquiCondition | src/operator.h:413-414 | For a probe row of its schema's width, EQ of the probe key and the build key on the joined row under the merged schema compares the probe row's key with the build row's key. |
| HashJoinOperator.EquiJoinRow | src/operator.h:413-423 | For one probe row of its schema's width, the nested-loop pass under key equality emits the probe row joined with its bucket, in build order. |
| HashJoinOperator.HashJoinMatchesNestedLoop | src/operator.h:379-425 | When every probe row has its schema's width, both keys evaluate on every row, the probe key reads only left columns and the build key only right ones, the hash join emits exactly the nested-loop join's trace on key equality. |
| HashJoinOperator.ShortProbeRowDiffers | src/operator.h:256-260 | The width condition is needed. A probe row shorter than its schema joins in the hash join, while the nested-loop join reads the build key at its merged position, shifted onto another right value, and emits nothing. |
| HashJoinOperator.HashJoin.constructor | src/operator.h:372-377 | The output schema is merge(probe, build); the table is empty and no probe row is held. |
| HashJoinOperator.HashJoin.Drain | src/operator.h:383-387 | The build loop computes BuildTable over the build rows still to come. |
| HashJoinOperator.HashJoin.BuildPhase | src/operator.h:381-388 | The build phase stores the table BuildTable gives, or reports its error. |
| HashJoinOperator.HashJoin.Open | src/operator.h:379-393 | open builds the table from all build rows and closes the build input. It then opens the probe input with no probe row held. From closed children, what remains is HashJoinTrace. A failing build key is reported as the error. |
| HashJoinOperator.HashJoin.Close | src/operator.h:427-430 | close closes the probe input. |
| HashJoinOperator.HashJoin.Next | src/operator.h:395-425 | The loop of next emits the head of what remains: the current bucket, then the next probe rows' buckets. |
| PlanParser.ParseExpression | src/plan_parser.h:14-36 | An object with none of "const", "col" and "op" fails with InvalidExpressionFormat. A column reference needs "col", a NOT or binary node needs "op", and a binary node is never tagged NOT. |
| PlanParser.ParseNonConstant | src/plan_parser.h:22-35 | The "col" and "op" branches never build a constant, and they fail with InvalidExpressionFormat when neither key is present. |
| PlanParser.ParseExpressionDispatch | src/plan_parser.h:15-35 | Without "const" the object is read as a column or an operator. A "const" with no "type" fails with BadJson("type"). A "type" naming none of the four types falls through to the column and operator branches, so with neither "col" nor "op" it fails with InvalidExpressionFormat. |
| PlanParser.ParseConstantMeaning | src/plan_parser.h:16-20 | A "const" of type int, float, string or bool becomes a constant of that type. int and float accept any number or bool, an int truncating a float. string and bool accept only their own kind. Any other value fails with BadJson("const"). |
| PlanParser.ParseNonConstantMeaning | src/plan_parser.h:22-34 | A string "col" gives a reference to that column, and a non-string one fails. A non-string "op" fails. "NOT" gives the negation of the parsed "expr". Any other tag gives a binary node of the parsed "left" and "right". A missing key or a failing operand gives the first such error, in that order. |
| PlanParser.ConstantRoundTrip | src/plan_parser.h:15-21 | A constant object with type int, float, string or bool reads back as a constant of that kind and value. |
| PlanParser.ColumnRoundTrip | src/plan_parser.h:22-24 | A "col" object reads back as a column reference to that name. |
| PlanParser.NotRoundTrip | src/plan_parser.h:27-29 | An "op": "NOT" object reads back as Not of its "expr". |
| PlanParser.ReadBinary | src/plan_parser.h:30-33 | Any other "op" tag reads back as a binary node of its "left" and "right", with the tag unchecked. |
| PlanParser.BinaryRoundTrip | src/plan_parser.h:30-33 | A binary node whose tag is not NOT reads back from its JSON form. |
| PlanParser.ExpressionRoundTrip | src/plan_parser.h:14-36 | Every expression without a binary node tagged NOT reads back from its JSON form. |
| PlanParser.BinaryNotIsNotExpressible | src/plan_parser.h:27-28 | A binary node tagged NOT cannot be read back, because its JSON form is parsed as a NOT node without "expr". |
| PlanParser.BuildableSchemaWellFormed | src/plan_parser.h:39-73 | Every operator the builder can produce has a well-formed output schema. |
| PlanParser.ParseProjItem | src/plan_parser.h:57 | One "exprs" item: its "as" alias and its parsed "expr". Its meaning is stated by PlanParser.ParseProjItemMeaning. |
| PlanParser.ParseProjItemMeaning | src/plan_parser.h:57 | An item parses exactly when its "as" is a string and its "expr" is present and parses, and then it is that alias with that expression. A bad "as" fails first, then a missing "expr" with BadJson("expr"). |
| PlanParser.ParseProjExprs | src/plan_parser.h:55-58 | A Project's expression list has one item per array element. |
| PlanParser.ParseProjExprsMeaning | src/plan_parser.h:55-58 | The list parses exactly when every item does, and then item i is array element i parsed. Otherwise the first bad item's error is the list's. |
| PlanParser.ProjItemRoundTrip | src/plan_parser.h:57 | An item's "as" and "expr" read back as its alias and expression, so the item reads back as itself. |
| PlanParser.ReadProjItem | src/plan_parser.h:56-58 | A list whose first item reads back, followed by a tail that reads back, reads back in order. |
| PlanParser.ProjExprsRoundTrip | src/plan_parser.h:56-58 | The "exprs" array reads back as the projection list in array order. |
| PlanParser.ParsePlan | src/plan_parser.h:39-73 | Every built tree uses nested-loop joins only and well-formed scan schemas. An unknown op tag fails with UnsupportedPlanOperator, and a missing or non-string "op" fails. |
| PlanParser.BaseNameOfTablePath | src/plan_parser.h:45 | The file name of dataDir + "/" + table is table when table has no '/'. |
| PlanParser.ProjExprsToJson | src/plan_parser.h:56-58 | The JSON form of a projection list has one item per expression. |
| PlanParser.ScanRoundTrip | src/plan_parser.h:42-47 | A Scan node's JSON form reads back as the same scan. |
| PlanParser.ScanPlan | src/plan_parser.h:42-47 | A Scan object reads dataDir/table with the catalog schema of table qualified by its alias, and fails with UnknownTable when the table is not registered. |
| PlanParser.ParseSelectObject | src/plan_parser.h:48-52 | A Select object wraps its parsed input and predicate. |
| PlanParser.ParseProjectObject | src/plan_parser.h:53-60 | A Project object wraps its parsed input and expression list. |
| PlanParser.ParseJoinObject | src/plan_parser.h:61-66 | A Join object always becomes a nested-loop join of its parsed left, right and condition. |
| PlanParser.JoinFields | src/plan_parser.h:61-64 | The fields a Join object is read from. |
| PlanParser.ParseLimitObject | src/plan_parser.h:67-71 | A Limit object wraps its parsed input with its limit. |
| PlanParser.PlanRoundTrip | src/plan_parser.h:39-73 | Every plan the builder can produce reads back from its JSON form. |

## Left out

- File and stream I/O. A data file is its sequence of lines, and a schema file
  is its list of column declarations. Failure to open a file is not modelled.
- `Catalog::loadSchemas` directory iteration, `main`, and all printing,
  including the `printAddress` call, which has no definition in
  `src/catalog.h`.
- Floating-point and machine-integer detail. Floats are reals and ints are
  unbounded, so `static_cast<float>` rounding, `float` keys in the hash table,
  NaN and 32-bit overflow are not captured.
- `std::stoi`, `std::stof` and comma splitting by `getline` are the `Parsers`
  parameters. Each conversion either yields a number, rejects the text
  (`invalid_argument`) or finds it out of range. Partial-prefix parses are
  whatever the parser parameter says.
- The nlohmann JSON library. JSON is a datatype whose objects keep member
  order as written. A duplicated key reads its last member, and iterating an
  object yields one value per distinct key in increasing key order, as the
  library's map does. `operator[]` on a missing
  key of a const document, which is undefined behaviour, and every type error
  are modelled as the error `BadJson(key)`.
- The unchecked `tuple[index]` in a column reference is undefined behaviour for
  an index past the tuple's end. It is the error `TupleIndexOutOfRange(name)`.
- `std::get<bool>` on a non-bool predicate or NOT operand is the error
  `NotABool`.
- Children are abstract finite rewindable streams (`Iterators.Source`), not
  other operator objects. The operators' theorems are therefore stated one
  level deep, over child row lists.
- The recursive `return next(tuple)` in `ScanOperator::next` is modelled as the
  loop it is equivalent to.
- PlanParser.PlanRoundTrip: a Scan's table name must not contain '/', since
  the catalog key is the path's file name.
- JoinOperators.BlockJoinIsNestedLoop: requires blockSize >= 1. With a block
  size of 0 the block join emits nothing, and that is stated by BlockJoin
  itself.
- The block nested-loop and hash joins are never produced by the builder, so
  they are modelled as operators with no JSON form.
- HashJoinOperator.HashJoin.Open: on a failing build key it reports the error
  but does not describe the partly built table or the build input left open.
- HashJoinOperator.HashJoinMatchesNestedLoop: stated only when every key
  evaluates, each key reads one side, and every probe row has its schema's
  width. Under a failing key, the two joins fail at different points. A
  scan emits a row shorter than its schema for a line with too few fields,
  and on such a row the nested-loop join reads right columns at shifted
  positions, so the two joins can differ (HashJoinOperator.ShortProbeRowDiffers).
- Hash-join method selection, key orientation and predicate pushdown do not
  exist in the builder, so they are not modelled.
