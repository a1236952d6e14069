# Verified model of the stream database core

This project models the logic at the centre of the dynamic map's stream database: the query
compiler, the join, the arithmetic evaluator, the bounded queue, message framing and reassembly, and
the state that statistics, area monitoring and view dependencies keep over time. Sockets, threads,
XML, SQL and user libraries are parameters or are left out.

`dafny verify dfyconfig.toml` checks everything.

## How it is organised

- **Arithmetic evaluator** (`CalcUtil`, `CalcLaws`). The two passes over local arrays are methods proved against
  functions on strings; the functions are proved to compile and run an infix expression grammar with
  the usual precedence and left associativity, over any value type and any operations.
- **Query compiler** (`QueryTree`, `OperatorSemantics`, `SchemaIndex`, `RenameOrder`, `QueryMeaning`, `SelectRenames`,
  `OperatorGraph`, `OperatorTree`, `PlanMeaning`, `CompileSteps`, `QuerySources`, `OperatorTreeGenerator`, `QueryLaws`, `JoinOrder`). A query's meaning is defined on
  its parse tree, without operators: rows map column names to values. The graph is read from the `out`
  node upwards into an operator expression (`PlanOf`), which is run operator by operator from the
  parameter strings of the nodes (`PlanRows`). The generator is a class that changes `graph`, `ncount`
  and `ecount` as the original does. The theorem is `AnalyzeQuery`: in any world of streams, user
  functions, constants and comparisons (`Env`), what the graph delivers is what the query means, for
  every query whose select lists are safe to rename in turn (`RenameOrder.Safe`, a condition on the names in
  the lists) and which renames no column that its rows lack. The shape of the graph is proved for every query.
  An operator that fails delivers nothing, and then `PlanRows` is `None`. A row is what name lookup finds in a
  tuple through the schema's name index; a client that receives a result sees the attribute list instead
  (`SchemaIndex`).
- **Join** (`TupleSets`, `JoinSpec`, `JoinPairing`, `JoinOperator`). One joint model of the pairing of
  tuple sets by `recvTime`, the batches of two, the cached key columns, and both join algorithms.
- **Bounded queue** (`BufferQueue`). A monitor with a single condition variable as a transition system
  over thread states, next to the class with the two critical sections.
- **Framing and reassembly** (`Decimal`, `StringUtil`, `Framing`, `Reassembly`, `ChunkAssembly`).
- **State over runs** (`OperatorStatistics`, `LocationManager`, `ViewDependencies`).

## What the proofs found

- `BufferQueue`: the single condition variable is safe exactly while producers + consumers ≤ 2 × capacity;
  beyond that a schedule that blocks every thread exists for every capacity (`DeadlockFreeIff`).
- `convertToXMLList` counts the digits of the total only once, so the announced total is wrong exactly when
  adding the digits makes the number longer; `replaceSizeInfo` corrects itself (`TotalIsRightUnlessCarry`).
- The hash join's keys are joined by `_`, so two columns with `_` in their values can collide; the result is
  the nested-loop join's exactly when the key test and the conditions agree on all row pairs.
- A join whose key lookup fails after its first condition keeps the key columns found so far, and every later
  call joins on those conditions only. `CompleteKeysIff` says on conditions and schemas alone when that cannot
  happen. A first call whose conditions do not resolve is not repeated: later calls go on to the hash join.
- Reassembly puts the header of whichever fragment came first in front of that fragment's payload, and loses it
  when that fragment arrives again before completion. `EmittedIsMessageIff` gives the exact condition for the
  message to be right; for a header that does not start like payload 0, it is right if and only if fragment 0 comes
  first and only once (`MessageIffFragmentZeroFirst`).
- A whole compressed datagram that arrives after pieces of another payload drops the pieces; an assembled
  payload misses data in no other case (`NothingLostIff`).
- A statistics query at a time before the last push can count too little, exactly when an entry it should count
  and the last push dropped was not empty (`CountIsRightIff`).
- Area monitoring sends the requests of earlier management keys again for every later key
  (`RequestsAreRepeatedUnlessOnlyLast`), and sends for a key without the own station under the management id of
  the keys before it (`MngIdIsOwnIff`).
- Output columns are renamed one after the other, each looked up by name: after `SELECT a AS b, b AS a` the name
  `a` finds the first column and `b` finds none, while the attribute list is what it was. `SELECT a AS x, a AS x`
  delivers nothing, since the second rename does not find its column. `AtOnceIff` and `SafeSelectIff` say exactly
  which select lists get their names; with columns all different, those in which every column that a new name
  runs into is given up by later names (`SafeOnDifferentColumns`).
- The unit of a RANGE window reaches the executer in the window node, which reads the number and not the unit
  (`UnitIsNotRead`).
- The evaluator takes a numeral with a leading point for an operator, and does not notice blanks, other characters or
  an outer parenthesis too many (`PointLedFails`, `PointLedDrops`, `SkippedInPostfix`, `UnbalancedPasses`).
- `SELECT *` returns the columns of the function calls in WHERE as well (`StarKeepsWhereCalls`).

## Model

| member | source | states |
|---|---|---|
| CalcUtil.CalcEvaluatesInfix | dm2/is/source/CalcUtil.cpp:57-161 | For every infix expression of at most 97 characters the evaluator returns the value of its precedence-respecting, left-associative tree and logs nothing. |
| CalcUtil.CalcStringOnInfix | dm2/is/source/CalcUtil.cpp:26-161 | The same for the whole method: an infix text has no NUL, meets the precondition, and gets its tree's value. |
| CalcUtil.PostfixOfExpr | dm2/is/source/CalcUtil.cpp:57-128 | The infix pass turns an expression into the postorder of its tree, whatever parentheses it has. |
| CalcUtil.InfixIsUnambiguous | dm2/is/source/CalcUtil.cpp:57-128 | A string has one reading only: expressions with equal text have equal trees. |
| CalcUtil.PostfixAcceptsExactlyPostorders | dm2/is/source/CalcUtil.cpp:130-161 | A token list passes both error checks if and only if it is the postorder of some tree. |
| CalcUtil.PostorderIsUnique | dm2/is/source/CalcUtil.cpp:130-161 | That tree is unique. |
| CalcUtil.RunPostorder | dm2/is/source/CalcUtil.cpp:130-161 | The stack machine on the postorder of a tree gives the tree's value. |
| CalcUtil.StepCells | dm2/is/source/CalcUtil.cpp:57-128 | Each character fills at most one more cell of operator stack, postfix array and numeral buffer together, so no array of 100 is overrun. |
| CalcUtil.InfixFits | dm2/is/source/CalcUtil.cpp:59-63 | No numeral of a well-formed expression overruns the numeral buffer. |
| CalcUtil.ToPostfix | dm2/is/source/CalcUtil.cpp:57-128 | The in-place pass over the arrays keeps all indices in range and leaves the specified token list. |
| CalcUtil.ReadAdditiveOrClose | dm2/is/source/CalcUtil.cpp:64-84 | Additive operators and closing parentheses flush the operator stack down to the innermost parenthesis. |
| CalcUtil.Evaluate | dm2/is/source/CalcUtil.cpp:130-161 | The in-place value stack gives the specified value or logs the specified error. |
| CalcUtil.CalcString | dm2/is/source/CalcUtil.cpp:26-161 | The whole method on its local buffers: every well-formed expression of 1 to 97 characters gets its tree's value and nothing logged; the empty error exactly for a text that is empty up to its first NUL, the too-long error exactly for 98 or more; every error comes with 0.0. |
| CalcLaws.ErrorsByCounting | dm2/is/source/CalcUtil.cpp:130-159 | For any token list: too few operands exactly when some operator has fewer than two values before it, counted as numerals less operators, otherwise left-over operands exactly when the count is not one. |
| CalcLaws.NumeralAlone | dm2/is/source/CalcUtil.cpp:59-63 | A numeral of up to 19 characters that starts with a digit gets the value of atof. |
| CalcLaws.LongNumeralOverruns | dm2/is/source/CalcUtil.cpp:59-71 | One of 20 characters overruns the numeral buffer and is outside the precondition. |
| CalcLaws.PointLedFails | dm2/is/source/CalcUtil.cpp:135-143 | A numeral that starts with a point is taken for an operator and refused. |
| CalcLaws.PointLedDrops | dm2/is/source/CalcUtil.cpp:147-153 | With two values before it, it drops the second one without a message. |
| CalcLaws.SkippedInPostfix | dm2/is/source/CalcUtil.cpp:57-128 | All other characters, blanks among them, are skipped wherever they stand. |
| CalcLaws.UnbalancedPasses | dm2/is/source/CalcUtil.cpp:64-128 | A parenthesis too many in front or behind changes nothing and is not noticed. |
| OperatorTreeGenerator.OperatorTreeGenerator.AnalyzeQuery | dm2/is/source/OperatorTreeGenerator.cpp:149-198 | Compiler correctness: for every query the graph is a tree into `out`, reading it takes at most as many levels as it has nodes, and every call is computed before it is used; for every query with safe select lists, in every world where it renames known columns only, no operator stops and the rows delivered are those the query means. The window nodes are the streams of the query in order, each with the settings written for it, and the rows come under the names FROM gives. |
| OperatorTreeGenerator.OperatorTreeGenerator.AnalyzeUnion | dm2/is/source/OperatorTreeGenerator.cpp:359-404 | The chain of union nodes delivers the rows of all subqueries, in order, though each node is made before its right part. |
| OperatorTreeGenerator.OperatorTreeGenerator.AnalyzeRight | dm2/is/source/OperatorTreeGenerator.cpp:377-387 | Compiling a right part leaves the left part and the waiting union node as they were. |
| OperatorTreeGenerator.OperatorTreeGenerator.AnalyzeSubQuery | dm2/is/source/OperatorTreeGenerator.cpp:342-349 | A subquery compiled into any graph changes no older node, and under the same conditions delivers the subquery's rows. |
| OperatorTreeGenerator.OperatorTreeGenerator.AnalyzeSelect | dm2/is/source/OperatorTreeGenerator.cpp:415-470 | FROM, WHERE and SELECT together deliver the subquery's rows under the same conditions. |
| OperatorTreeGenerator.OperatorTreeGenerator.AnalyzeSelectList | dm2/is/source/OperatorTreeGenerator.cpp:429-469 | Evals, projection and renames yield, for every list, the columns renamed in turn or nothing when a rename fails; on a safe list of known columns that is its expressions under their output names. |
| OperatorTreeGenerator.OperatorTreeGenerator.RenameColumns | dm2/is/source/OperatorTreeGenerator.cpp:451-467 | As many new nodes as renamed items, which rename the columns in list order and stop when one is not found; on a safe list of known columns that is all at once. |
| OperatorTreeGenerator.OperatorTreeGenerator.AnalyzeSelectListExpression | dm2/is/source/OperatorTreeGenerator.cpp:480-516 | Adds to the rows delivered a column for every call in the expression, nested calls first. |
| OperatorTreeGenerator.OperatorTreeGenerator.AnalyzeWhere | dm2/is/source/OperatorTreeGenerator.cpp:561-584 | Delivers the rows of FROM that meet all predicates, with the columns of the predicates' calls. |
| OperatorTreeGenerator.OperatorTreeGenerator.AnalyzePredicateList | dm2/is/source/OperatorTreeGenerator.cpp:596-612 | Writes the conjunction's text and computes every call in it. |
| OperatorTreeGenerator.OperatorTreeGenerator.AnalyzePredicate | dm2/is/source/OperatorTreeGenerator.cpp:621-633 | Writes the comparison's text and computes the calls of both sides. |
| OperatorTreeGenerator.OperatorTreeGenerator.AnalyzeExpression | dm2/is/source/OperatorTreeGenerator.cpp:671-687 | Writes the expression's text and computes the calls in it, moving topNode to the last eval node. |
| OperatorTreeGenerator.OperatorTreeGenerator.AnalyzeFunction | dm2/is/source/OperatorTreeGenerator.cpp:736-760 | The eval node of a call stands above the eval nodes of the calls nested in it. |
| OperatorTreeGenerator.OperatorTreeGenerator.AnalyzeExpressionList | dm2/is/source/OperatorTreeGenerator.cpp:794-808 | Writes the argument list and computes the calls of all arguments. |
| OperatorTreeGenerator.OperatorTreeGenerator.AnalyzeFromList | dm2/is/source/OperatorTreeGenerator.cpp:836-875 | The chain of joins delivers all combinations of rows of the listed tables. |
| OperatorTreeGenerator.OperatorTreeGenerator.AnalyzeTableRename | dm2/is/source/OperatorTreeGenerator.cpp:885-913 | Renames each table the item is made of, in turn; a node is always returned, and afterwards the rows come under the new name and no other. |
| OperatorTreeGenerator.OperatorTreeGenerator.AnalyzeTable | dm2/is/source/OperatorTreeGenerator.cpp:951-1090 | A stream becomes one window node with its name, from which number, unit, limit, seed and partition columns are read back under the executer's keys and no other key is set; a nested subquery delivers its rows. |
| OperatorTreeGenerator.OperatorTreeGenerator.WindowSettings | dm2/is/source/OperatorTreeGenerator.cpp:1021-1055 | The keys of a window node: range_window for ROWS, time_window with number and unit for RANGE, limit and seed unless only a hierarchy is given, partition for the columns. |
| OperatorTreeGenerator.OperatorTreeGenerator.RenameTable | dm2/is/source/OperatorTreeGenerator.cpp:900-910 | One renameTable node puts the new table name in place of one old name. |
| QuerySources.PartitionIsListed | dm2/is/source/OperatorTreeGenerator.cpp:1037-1039 | The partition columns are read back by splitting outside brackets, and by the executer's plain split where no column has a comma. |
| QuerySources.UnitIsNotRead | dm2/is/source/QueryExecuter.cpp:1033-1035 | Of a time window the executer reads the number, whatever the unit behind it. |
| QuerySources.AllFromNamesListed | dm2/is/source/OperatorTreeGenerator.cpp:923-940 | The list of names to rename has every table of a FROM list, a renamed one by its new name only. |
| OperatorTreeGenerator.OperatorTreeGenerator.CreateEdge | dm2/is/source/OperatorTreeGenerator.cpp:1213-1222 | One new edge under the next id; everything else stays. |
| OperatorTreeGenerator.ColumnsText | dm2/is/source/OperatorTreeGenerator.cpp:529-551 | The loop writes the column texts with single commas between them. |
| OperatorTreeGenerator.ExpressionListText | dm2/is/source/OperatorTreeGenerator.cpp:769-783 | The same for argument lists. |
| OperatorTreeGenerator.FindFromNames | dm2/is/source/OperatorTreeGenerator.cpp:923-941 | The merged names of the tables of a FROM list. |
| OperatorTree.ReadingShowsTree | dm2/is/source/OperatorTreeGenerator.cpp:155-197 | Reading from the root that meets every node once means: one outgoing edge at every other node, none at the root, inputs fitting every operator, and no cycle. |
| OperatorTree.TimesAlongEdges | dm2/is/source/OperatorTreeGenerator.cpp:1213-1222 | A node other than the root is met exactly as often as the nodes its outgoing edges enter. |
| OperatorTree.CycleNeverDelivers | dm2/is/source/OperatorTreeGenerator.cpp:1213-1222 | A node on a cycle delivers nothing at any depth. |
| OperatorGraph.PlanOfFrame | dm2/is/source/OperatorTreeGenerator.cpp:1213-1222 | What a part of the graph delivers depends on its own nodes and their incoming edges only. |
| OperatorGraph.ExtensionKeeps | dm2/is/source/OperatorTreeGenerator.cpp:1213-1222 | Edges into new nodes leave every older part as it was. |
| OperatorGraph.BuiltUnary | dm2/is/source/OperatorTreeGenerator.cpp:440-449 | One more operator keeps what was built below it, each node still met once. |
| OperatorGraph.BuiltJoin | dm2/is/source/OperatorTreeGenerator.cpp:860-871 | A join over two parts built one after the other keeps both. |
| OperatorGraph.BuiltUnion | dm2/is/source/OperatorTreeGenerator.cpp:371-387 | So does a union whose node lies between them. |
| OperatorGraph.BuiltOut | dm2/is/source/OperatorTreeGenerator.cpp:155-181 | The out node, made first and connected last, sees the whole graph. |
| QueryTree.ColumnsSplit | dm2/is/source/OperatorTreeGenerator.cpp:529-551 | Splitting a column list at the commas outside brackets gives back its columns, at any nesting. |
| OperatorSemantics.CallParses | dm2/is/source/OperatorTreeGenerator.cpp:736-760 | The eval operator reads function name and arguments back from the text written. |
| OperatorSemantics.ConditionParses | dm2/is/source/OperatorTreeGenerator.cpp:621-633 | The selection reads operands and comparator back from the text written. |
| OperatorSemantics.PredicatesSplit | dm2/is/source/OperatorTreeGenerator.cpp:596-612 | And the single conditions from the conjunction. |
| OperatorSemantics.RenameParses | dm2/is/source/RenameColumnOperator.cpp:61-94 | And old and new name from a rename. |
| OperatorSemantics.JoinOrderIsIrrelevant | dm2/is/source/JoinOperator.cpp:66-96 | Which of the two tuple sets the join puts left does not change the bag of combined rows when their columns differ. |
| JoinOrder.AnyJoinOrder | dm2/is/source/JoinOperator.cpp:66-96 | For a whole plan: whichever of its joins turn their inputs round, it delivers the same bag of rows or stops all the same, when the inputs of each join have different columns. |
| QueryMeaning.EvalExtends | dm2/is/source/EvalOperator.cpp:112-186 | Eval on a row that has the nested calls as columns adds the call's own value, as if all were computed afresh. |
| QueryMeaning.SelectionIsWhere | dm2/is/source/SelectionOperator.cpp:48-186 | Selecting rows extended by calls is extending the rows the predicates hold of. |
| QueryMeaning.ProjectionBuilds | dm2/is/source/ProjectionOperator.cpp:48-200 | Projection by text gives each visible column its expression's value, also when columns repeat. |
| QueryMeaning.SelectIsInTurn | dm2/is/source/OperatorTreeGenerator.cpp:451-467 | On a safe select list whose renamed columns are known, renaming in turn goes through and gives every expression under its output name. |
| SelectRenames.SafeSelectIff | dm2/is/source/OperatorTreeGenerator.cpp:429-467 | A select list is safe if and only if, in every world and on every row where its expressions are known, projecting and renaming in turn gives them under their output names. |
| RenameOrder.AtOnceIff | dm2/is/source/RenameColumnOperator.cpp:98-119 | For every list of renames, with repeated columns and repeated names too: renaming in turn goes through and is renaming at once on every row with the listed columns, if and only if every rename finds its column and each name keeps the column listed for it. |
| RenameOrder.SafeRenames | dm2/is/source/RenameColumnOperator.cpp:98-119 | The safe half, on every row that has at least the columns to be renamed. |
| RenameOrder.RunsIff | dm2/is/source/RenameColumnOperator.cpp:112-114 | Renaming goes through if and only if no column to be renamed has been renamed away before and not replaced. |
| RenameOrder.UnknownColumnStops | dm2/is/source/RenameColumnOperator.cpp:112-114 | A rename of a column that the row lacks and no earlier rename brings stops the chain. |
| RenameOrder.SafeOnDifferentColumns | dm2/is/source/OperatorTreeGenerator.cpp:451-467 | With columns all different a list is safe if and only if, whenever a name given is a column further down, that column's own name and the name given both come again after it. |
| RenameOrder.InTurnStandsFor | dm2/tupleLib/source/Schema.cpp:399-437 | What a name finds after any number of renames, worked out backwards on names alone. |
| SchemaIndex.RenameIsMove | dm2/tupleLib/source/Schema.cpp:399-437 | Seen through the name index, renaming a schema's column moves its value from name to name, and fails when the index lacks the name. |
| SchemaIndex.AppendIsSet | dm2/tupleLib/source/Schema.cpp:182-202 | Seen through the name index, appending a column sets its name. |
| SchemaIndex.SwapChangesNothingListed | dm2/tupleLib/source/Schema.cpp:399-437 | After the swap the attribute list is unchanged and the index has one name. |
| SchemaIndex.SafeIsSteady | dm2/tupleLib/source/Schema.cpp:248-258 | On a safe list of different columns, a schema that is copied after the renames finds the same columns under the same names. |
| SchemaIndex.HiddenColumnReturns | dm2/tupleLib/source/Schema.cpp:248-258 | A safe list with a repeated column for which the copied schema finds a column the renames had hidden. |
| SchemaIndex.RenamedView | dm2/tupleLib/source/Schema.cpp:399-437 | For every list, renaming in turn on rows is what name lookup sees of the renamed schema. |
| RenameOrder.SwapLosesName | dm2/is/source/OperatorTreeGenerator.cpp:451-467 | After the swap name lookup finds one column of two. |
| RenameOrder.RepeatedRenameStops | dm2/is/source/RenameColumnOperator.cpp:112-114 | Renaming one column twice stops on every row. |
| RenameOrder.LastOfThreeWins | dm2/is/source/OperatorTreeGenerator.cpp:451-467 | Three columns named alike, the middle one by its own name, are a safe list. |
| QueryMeaning.StarKeepsWhereCalls | dm2/is/source/OperatorTreeGenerator.cpp:421-427 | SELECT * returns the rows WHERE leaves with the columns of its calls, and is plain filtering if and only if every row already has those columns with the calls' values. |
| QueryMeaning.StarIsPlainIff | dm2/is/source/OperatorTreeGenerator.cpp:421-427 | Where no call is a column of the rows, that is only without calls in WHERE or without rows. |
| PlanMeaning.CallsOfText | dm2/is/source/OperatorTreeGenerator.cpp:713-723 | The calls read back from a text, at any depth, are the calls of the expression, all of them. |
| PlanMeaning.ProjectionReadsColumns | dm2/is/source/OperatorTreeGenerator.cpp:440-449 | A projection reads exactly the calls of its items. |
| PlanMeaning.SelectionReadsPredicates | dm2/is/source/OperatorTreeGenerator.cpp:570-580 | A selection reads exactly the calls of its predicates. |
| PlanMeaning.EvalReadsArguments | dm2/is/source/OperatorTreeGenerator.cpp:736-760 | An eval node reads exactly the calls nested in its own. |
| QueryLaws.TextsWritten | dm2/is/source/OperatorTreeGenerator.cpp:529-550 | How calls, column lists, conditions and renames are written, on four texts. |
| QueryLaws.OneColumn | dm2/is/source/ProjectionOperator.cpp:48-150 | A name is the row's column if it has it, else a constant if it is one, and otherwise gives no column. |
| QueryLaws.SmallQueryMeans | dm2/is/source/OperatorTreeGenerator.cpp:415-470 | SELECT f(a,b) AS x, a FROM t[ROWS n] WHERE c op d, for any names: of the rows read those whose c compares with the constant d, in order, each with x = f(a,b) and its own a. |
| QueryLaws.CrossAt | dm2/is/source/JoinOperator.cpp:436-504 | Row i joined with row j stands at place i * n + j of the join without conditions, over columns by name. |
| QueryLaws.FromRowsArePicks | dm2/is/source/OperatorTreeGenerator.cpp:836-875 | The rows of FROM are the merges of one row of each item, for every choice of them. |
| QueryLaws.UnionOfTwo | dm2/is/source/OperatorTreeGenerator.cpp:359-404 | A union of two subqueries delivers the first one's rows and then the second one's. |
| QueryLaws.StreamRenamed | dm2/is/source/OperatorTreeGenerator.cpp:885-913 | Every row of a renamed stream has the new name in place of the old. |
| QueryLaws.UnknownRenameStops | dm2/is/source/RenameColumnOperator.cpp:48-130 | A list that renames a column which some row lacks, and which no item before provides, delivers nothing. |
| CompileSteps.StepEval | dm2/is/source/OperatorTreeGenerator.cpp:736-760 | An eval node over its nested calls adds exactly one computed column to the rows. |
| CompileSteps.StepSelection | dm2/is/source/OperatorTreeGenerator.cpp:570-580 | A selection node over its predicates' calls delivers the filtered rows. |
| CompileSteps.StepProjection | dm2/is/source/OperatorTreeGenerator.cpp:440-449 | A projection node delivers the select list's columns before renaming. |
| CompileSteps.StepRenameColumn | dm2/is/source/OperatorTreeGenerator.cpp:451-467 | A renameColumn node performs the next rename of the list and no other, or stops with it. |
| CompileSteps.StepRenameTable | dm2/is/source/OperatorTreeGenerator.cpp:896-910 | A renameTable node gives the rows of one table their new name. |
| JoinSpec.HashJoinIsNestedLoopJoin | dm2/is/source/JoinOperator.cpp:302-424 | Hash and nested-loop join give the same bag if and only if key texts and conditions agree on all row pairs, and then the same sequence when the left input is at least as large. |
| JoinSpec.SameBagIffAgree | dm2/is/source/JoinOperator.cpp:436-504 | Two matching rules give the same bag of joined rows only if they agree on every pair. |
| JoinSpec.LoopOrder | dm2/is/source/JoinOperator.cpp:365-424 | Scanning the large side outside gives the same bag as scanning the left side outside. |
| JoinSpec.PlainKeysAgree | dm2/is/source/JoinOperator.cpp:365-424 | One key column, or key values without `_`, make key texts and conditions agree. |
| JoinSpec.KeyIsInjective | dm2/is/source/JoinOperator.cpp:365-424 | Key texts of values without `_` differ when any value differs. |
| JoinSpec.UnderscoreCollides | dm2/is/source/JoinOperator.cpp:365-424 | Two rows with `_` in their values that share a key without being equal. |
| JoinOperator.JoinOperator.HashJoin | dm2/is/source/JoinOperator.cpp:302-424 | Over any sequence of calls of changing sizes, failed ones among them, the cached key lists index the currently smaller and larger input; a call fails only while there are no keys, at the first unusable condition, and every other call gives the rows of the conditions whose keys are cached. Where key texts decide, these are exactly the pairs whose cells under the two written names are equal, by the index maps of the two schemas. |
| JoinOperator.JoinOperator.Process | dm2/is/source/JoinOperator.cpp:117-232 | Conditions are resolved by the first call only; whether or not it failed, later calls go straight to the hash join. |
| JoinOperator.CompleteKeysIff | dm2/is/source/JoinOperator.cpp:302-362 | Every successful call, after any calls, uses keys for all conditions if and only if neither input as the small one has a usable first and an unusable later condition. |
| JoinOperator.LookupStopsAtUnusable | dm2/is/source/JoinOperator.cpp:331-362 | A lookup finds the keys of the conditions before the first unusable one, and succeeds if there is none. |
| JoinOperator.PrefixJoin | dm2/is/source/JoinOperator.cpp:365-424 | A call with the keys of the first n conditions gives the bag of the nested-loop join on those n, if and only if key texts and these conditions agree. |
| JoinOperator.JoinOperator.NestedLoopJoin | dm2/is/source/JoinOperator.cpp:436-504 | The nested loops give the row pairs that meet all conditions, left rows outermost. They are exactly the pairs whose cells under the two names of every statement, by the schemas' index maps, are equal. |
| JoinOperator.JoinOperator.RowMatches | dm2/is/source/JoinOperator.cpp:447-489 | The counting loop reaches the number of conditions exactly when all hold. |
| JoinOperator.JoinOperator.BuildTable | dm2/is/source/JoinOperator.cpp:365-388 | Each bucket lists the rows with that key in order, also when hash codes collide. |
| JoinOperator.JoinOperator.Probe | dm2/is/source/JoinOperator.cpp:389-424 | Looking the large rows up gives the specified rows in the specified order. |
| JoinOperator.JoinOperator.ResolveConditions | dm2/is/source/JoinOperator.cpp:141-175 | Succeeds if and only if both names of every condition are in the joined schema's index, and one is in the index of each input. |
| JoinOperator.ConditionsJoin | dm2/is/source/JoinOperator.cpp:436-504 | The nested loops on resolved conditions list the matching row pairs by index, each once, left rows outermost, where a pair matches when the cells the schemas' index maps give for the written names are equal in the order written. |
| JoinOperator.HashRowsJoin | dm2/is/source/JoinOperator.cpp:365-424 | The same for the hash join on the keys of the first n statements, larger input outermost, when cells are equal exactly if their texts are and there is one key or no underscore. |
| JoinSpec.NestedIsListed | dm2/is/source/JoinOperator.cpp:436-504 | Nested loops list the matching index pairs in left-outermost order, all of them and each once. |
| JoinSpec.NestedByRightIsListed | dm2/is/source/JoinOperator.cpp:389-424 | With the right input outermost they are listed in the other order. |
| JoinOperator.KeysAreConditionColumns | dm2/is/source/JoinOperator.cpp:331-362 | The key columns are the condition's columns. |
| JoinOperator.LookupsAgree | dm2/is/source/JoinOperator.cpp:331-362 | A lookup succeeds exactly when the small input has one of the two names only, and finds the same two columns whichever input is small. |
| JoinOperator.FailedLookupLeavesKeys | dm2/is/source/JoinOperator.cpp:331-362 | What a failed lookup leaves behind is empty if and only if the first condition is unusable. |
| JoinOperator.JoinOperator.ReceiveTupleSet | dm2/is/source/JoinOperator.cpp:49-104 | The in-place branches are the pairing step: dropped if the name is "UNKNOWN", kept waiting if the time is new, and otherwise both sets appended, more attributes first, then the greater name, the waiting one first when they are alike. |
| JoinOperator.JoinOperator.GetTupleSet | dm2/is/source/Operator.cpp:144-171 | The draining loop takes the specified batch; the size is the number of rows of its two sets. |
| JoinPairing.EveryRunIsConsistent | dm2/is/source/JoinOperator.cpp:49-104 | Over every run each batch is empty or one matched pair in descending order, and batches followed by buffer are what was enqueued. |
| JoinPairing.EveryArrivalIsPairedOrWaiting | dm2/is/source/JoinOperator.cpp:49-104 | At every time the arrivals are paired in order and the odd one waits: none is lost or used twice. |
| JoinPairing.ArrivalOrderIsIrrelevant | dm2/is/source/JoinOperator.cpp:66-96 | The pair is the same whichever side comes first, unless size and name both coincide. |
| JoinPairing.EveryPairDescends | dm2/is/source/JoinOperator.cpp:66-96 | In every run each pair drawn has one time, and the first set has more attributes, or as many and a name that is the same or greater at the first difference. |
| JoinPairing.InJoinOrderIsPair | dm2/is/source/JoinOperator.cpp:66-96 | Two sets of one time are put in that order, and in order of arrival when size and name are the same. |
| JoinPairing.DroppedIffUnknown | dm2/is/source/JoinOperator.cpp:52-103 | A tuple set changes nothing if and only if its table name is "UNKNOWN". |
| BufferQueue.DeadlockFreeIff | dm2/is/source/BufferQueue.cpp:31-59 | With producers and consumers present, no reachable state has every thread waiting if and only if their number is at most twice the capacity; the same without spurious wake-ups. |
| BufferQueue.NoDeadlock | dm2/is/source/BufferQueue.cpp:31-59 | The safe half, over every schedule, every choice of the woken thread and spurious wake-ups. |
| BufferQueue.DeadlockReachable | dm2/is/source/BufferQueue.cpp:31-59 | The other half: a run into the deadlock, without spurious wake-ups, for every larger number of threads. |
| BufferQueue.RunIsFifo | dm2/is/source/BufferQueue.cpp:31-59 | For any number of threads and any schedule, popped items followed by the queue are the pushed items in order, within capacity. |
| BufferQueue.CountsInvStep | dm2/is/source/BufferQueue.cpp:31-59 | The counting invariant that every step keeps. |
| BufferQueue.BufferQueue.Push | dm2/is/source/BufferQueue.cpp:31-39 | One pass through the critical section is one step of the monitor. |
| BufferQueue.BufferQueue.Pop | dm2/is/source/BufferQueue.cpp:49-59 | The same for taking an item. |
| Framing.SizeInfoIsSelfSizing | dm2/is/source/InformationSourceParser.cpp:3446-3456 | The number written counts its own digits, also on a carry, and is the least such number. |
| Framing.ReplaceSizeInfo | dm2/is/source/InformationSourceParser.cpp:3446-3456 | A message with the placeholder ends up with a number in its place that reads back as the message's own length; any other is unchanged. |
| Framing.ConvertToXMLList | dm2/is/source/InformationSourceParser.cpp:3402-3436 | The message is cut into pieces of the given size, only the last shorter, and the fragments are these pieces with copied, numbered and size-filled headers; none when the second line is missing. |
| Framing.TotalIsRightUnlessCarry | dm2/is/source/InformationSourceParser.cpp:3425-3434 | The announced total is the real one if and only if adding the digits does not lengthen the number. |
| Framing.LengthIsRightUnlessCarry | dm2/is/source/InformationSourceParser.cpp:3425-3436 | The returned length is that of the message rejoined from the fragments under the same condition. |
| Framing.CarryIsMissed | dm2/is/source/InformationSourceParser.cpp:3402-3436 | A message of 112 characters whose one fragment, for any piece size it fits, announces 100 and has 101. |
| Framing.FragmentsRejoin | dm2/is/source/InformationSourceParser.cpp:3402-3436 | Dropping the first line of every later fragment and joining restores the message, with its own header fields filled in. |
| Framing.LaterFragmentKeepsPiece | dm2/is/source/InformationSourceParser.cpp:3417-3421 | A later fragment is one completed header line and then its piece, untouched whatever placeholders the piece contains. |
| Framing.SplitBySize | dm2/tupleLib/source/StringUtil.cpp:301-313 | Pieces of the given size, the last one shorter, that join to the message. |
| Framing.HeaderIsSecondLine | dm2/tupleLib/source/StringUtil.cpp:465-468 | The header is the second line, up to the next newline or the end; there is none without a newline. |
| Framing.FieldsFilled | dm2/is/source/InformationSourceParser.cpp:3410-3434 | F_MAX becomes the number of fragments, F_NO the fragment's own number and REPSIZE the total, the rest of the line stays. |
| Reassembly.NetworkSource.DataIntegration | dm2/is/source/NetworkSource.cpp:546-592 | The in-place map update is the specified step, with its exceptions. |
| Reassembly.InterleavedMessageIsEmittedOnce | dm2/is/source/NetworkSource.cpp:546-592 | Under any interleaving, with repeated fragments and earlier messages of the same key, a message is emitted once and its key freed; as header and payloads in order when fragment 0 comes first and once. |
| Reassembly.DeliveryIsEmitted | dm2/is/source/NetworkSource.cpp:546-592 | For any arrival order with any repetitions before completion: nothing before the last missing fragment, then one message. |
| Reassembly.EmittedIsMessageIff | dm2/is/source/NetworkSource.cpp:546-592 | The exact condition, on the packets, for the text emitted to be header and payloads in order. |
| Reassembly.MessageIffFragmentZeroFirst | dm2/is/source/NetworkSource.cpp:546-592 | For a header that does not start like payload 0: if and only if fragment 0 comes first and not again. |
| Reassembly.KeysAreIndependent | dm2/is/source/NetworkSource.cpp:546-592 | Each key's slots and outputs depend on its own packets only. |
| Reassembly.EntriesAreIncomplete | dm2/is/source/NetworkSource.cpp:575-591 | After any packets every entry left in the map has an empty slot. |
| Reassembly.LateFirstFragment | dm2/is/source/NetworkSource.cpp:562-573 | Two packets for which it fails: a late fragment 0 loses its header to the fragment that came first. |
| ChunkAssembly.AssembleChunks | dm2/is/source/NetworkSource.cpp:1541-1620 | Waits, fails or assembles exactly as the specified end of the datagrams demands. |
| ChunkAssembly.PiecesAreAssembled | dm2/is/source/NetworkSource.cpp:1590-1620 | A payload cut into any non-empty pieces is assembled with the last piece. |
| ChunkAssembly.AssembledOnce | dm2/is/source/NetworkSource.cpp:1590-1620 | The datagram that ends the loop and the payload are determined. |
| ChunkAssembly.WholeDatagramOvertakes | dm2/is/source/NetworkSource.cpp:1594-1598 | A datagram of full size after some pieces drops the pieces. |
| ChunkAssembly.NothingLostIff | dm2/is/source/NetworkSource.cpp:1590-1620 | The payload assembled is everything received if and only if the loop does not end with a full-size datagram after pieces. |
| OperatorStatistics.DequeCountsHistory | dm2/is/source/Operator.cpp:460-489 | At any time no earlier than the pushes, the pruned deque gives the count over the whole history. |
| OperatorStatistics.DequeIsLastSecond | dm2/is/source/Operator.cpp:460-489 | With non-decreasing times the deque is exactly the last second of the history. |
| OperatorStatistics.CountIsRightIff | dm2/is/source/Operator.cpp:501-543 | At any time, with non-decreasing pushes: the count is that of the whole history if and only if all entries it should count and the last push dropped are empty. |
| OperatorStatistics.EarlierQueryMayMiss | dm2/is/source/Operator.cpp:501-543 | A history and an earlier time for which it is too small. |
| OperatorStatistics.Operator.GetPerformInfoNum | dm2/is/source/Operator.cpp:501-543 | The answer is the count over the deque, which at any time no earlier than the pushes is the count over everything ever recorded on that side; 0 for an unknown side. That is the tuples of the entries less than 1000000 microseconds old. |
| OperatorStatistics.Operator.SetPerformInfo | dm2/is/source/Operator.cpp:460-489 | The loop drops just the leading entries that are too old. |
| OperatorStatistics.RecentIsSecondsCount | dm2/is/source/Operator.cpp:509-515 | The count is the total over the entries less than 1000000 microseconds old. |
| OperatorStatistics.DequeIsSuffix | dm2/is/source/Operator.cpp:476-487 | With non-decreasing times the deque is the history from the first entry on that is at most 1000000 microseconds older than the last. |
| LocationManager.ReconciliationIsExact | dm2/is/source/LocationManager.cpp:197-230 | Exactly the near edges remain, added are the absent or unrequested ones, cancelled the dropped ones, never both. |
| LocationManager.ReconciledDistinct | dm2/is/source/LocationManager.cpp:197-230 | A list without duplicates stays one. |
| LocationManager.ReconciliationIsIdempotent | dm2/is/source/LocationManager.cpp:197-230 | A second reconciliation changes and cancels nothing. |
| LocationManager.RequestsAreRepeatedUnlessOnlyLast | dm2/is/source/LocationManager.cpp:170-241 | Every key sends just its own requests if and only if no key but the last has any. |
| LocationManager.DropFarEdges | dm2/is/source/LocationManager.cpp:218-230 | Erasing in place keeps order and ids of the survivors. |
| LocationManager.AddNearEdges | dm2/is/source/LocationManager.cpp:197-216 | Appending in place: the old entries first, then the new ones in order. |
| LocationManager.LocationManager.CheckAreaOfMonitoredVehicle | dm2/is/source/LocationManager.cpp:165-244 | All keys in turn, with lists and management id carried from key to key: a request is sent if and only if a key up to the sending one has a near edge with no entry or id 0, a withdrawal if and only if one has an entry that is not near, under the id of the last key with the own station, or 0; for one key without duplicates each once. Afterwards every key has exactly its near edges. |
| LocationManager.OneKeySends | dm2/is/source/LocationManager.cpp:197-241 | For one key the requests and withdrawals sent are exactly those its list and near edges call for, under its station's id or 0, each once. |
| LocationManager.SendsExactly | dm2/is/source/LocationManager.cpp:170-241 | For several keys, exactly their own and those of the keys before them. |
| LocationManager.MonitorsNear | dm2/is/source/LocationManager.cpp:197-230 | In the end every key has exactly its near edges and no other key has changed. |
| LocationManager.KeptIsSelection | dm2/is/source/LocationManager.cpp:218-230 | The survivors are the entries of near edges in their old order, with their ids. |
| LocationManager.MngIdIsOwnIff | dm2/is/source/LocationManager.cpp:174-194 | A key sends under its own station's id, or 0 for none, if and only if it lists the station or no id is left over. |
| ViewDependencies.InformationSourceManager.ExtractRelatedTables | dm2/is/source/InformationSourceManager.cpp:751-771 | On an acyclic catalog it terminates and appends exactly the tables reachable through view definitions. |
| ViewDependencies.FirstStep | dm2/is/source/InformationSourceManager.cpp:751-771 | A dependency is a mention of a table, or of a view that has the dependency. |
| StringUtil.SplitJoin | dm2/tupleLib/source/StringUtil.cpp:206-232 | Splitting undoes joining when no text contains the separator's first character. |

## Left out

- OperatorTreeGenerator.OperatorTreeGenerator.AnalyzeQuery: promises rows only for queries whose select lists are safe to rename in turn and which rename no unknown column, because on others the original exchanges columns or delivers nothing. It starts from well-formed trees whose leaves contain no blank, bracket, comma or comparator; quoted strings with such characters, and the exceptions for malformed trees, are not covered. WITH RECURSIVE, CREATE and DROP, queries on database tables only and the `master` attribute are not modelled.
- OperatorTreeGenerator.OperatorTreeGenerator.AnalyzeTable: covers windowed tables without hierarchy or with OWN, and nested subqueries; the one-child case (OperatorTreeGenerator.cpp:974 reads a second child before testing for it) and other hierarchies are left out.
- OperatorTreeGenerator.OperatorTreeGenerator.AnalyzeFromList: joins rows as maps from names to values, in the order of the edges. The original prefixes the columns of differently named tables with the table name when it joins them, and an unqualified name that both tables have then resolves to nothing; here the right column would be seen. It also orders the inputs by attribute count, which for different columns changes the order of rows only (JoinOrder.AnyJoinOrder). The joins of the compiler carry no condition; JoinOperator's own conditions are modelled with the join.
- A parenthesised expression in a SELECT list, for which analyzeSelectListExpression returns no node.
- Rows are what the name index of a schema finds, one value per name; attribute lists, column order and hidden columns are modelled in SchemaIndex only. An operator that copies a schema builds the index anew from the attribute list, by which a column that a rename had hidden can be found again; for that reason nested select lists have to be steady (`SchemaIndex.Steady`), which safe lists of different columns are (`SafeIsSteady`). UNION matches columns by name, not by position.
- A rename fails in the model when some row lacks the column, in the original when the schema does, also without any row. User functions return one value for one row; aggregates and functions with several return columns are not modelled.
- QueryTree.ColumnsSplit: splits at top-level commas; the original works with numbered placeholders, of which `replaceK1` is found inside `replaceK10` once there are more than ten brackets.
- Branches and loops the original has inline are methods of their own in places (AnalyzeArguments, AnalyzeFromItem, JoinItem, AnalyzeRight, RenameTable, WindowSettings, InsertRow, NumberFragment, AllArrived and a few more); this changes no step.
- JoinOperator.JoinOperator.HashJoin: assumes that every name in a condition is a column of one of the inputs. Comparisons with constants, schema changes between joins and aliasing of the caller's two tuple sets, which hashJoin exchanges, so that the result's info comes from the other input, are not modelled; nor are comparisons other than equality.
- JoinOperator.JoinOperator.ResolveConditions: a condition one of whose names the joined schema does not resolve counts as unresolved; the original takes it for a comparison with a constant.
- CalcUtil.CalcString: does not model a text of 100 characters or more without terminator in the local buffer beyond its first 100 characters, and takes numerals of at most 19 characters as its precondition.
- BufferQueue.BufferQueue.Push: is one pass through the critical section, and waiting is a step of the transition system; fairness and termination of single calls are not stated.
- Framing.ConvertToXMLList: takes the piece size itself and requires it to be positive; the original subtracts 200 from its argument, does not end at 200 and converts a negative difference to unsigned. Totals below the length of the placeholders, which only messages without placeholder have, wrap around there and are negative here.
- Reassembly and ChunkAssembly start after header decoding; decompression is left out.
- ViewDependencies takes definitions as token lists; a cyclic catalog, on which the original does not terminate, is excluded by the precondition.
- The widths of int and long; running minimum, maximum and average statistics; locking around shared maps.
- Sockets, TLS, thread creation, logging, XML, SQL, geometry, user libraries and their loading; time and randomness are parameters.
