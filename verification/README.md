# Verified model of miniflake's core

Miniflake answers Snowflake SQL on top of DuckDB. This project models the parts of it
that are logic rather than plumbing, and proves what they promise, for all inputs and
over all runs:

- **Bind parameters** (`internal/binding`): the scanner for quotes, comments, casts and
  placeholders, the literal printer, and the folding of array binds into one INSERT.
  Modules `Text`, `Numbers`, `Scanner`, `Literals`, `LiteralValues`, `Substitution`,
  `Structure`, `Words`, `Bulk`, `ValuesClause`, `RowByRow`, `Folding`, `FoldedStructure`.
- **Tasks** (`internal/task`): cron expressions and the search for the next minute,
  ticks, the walk over a root's successors, the dependency order. Modules `Calendar`,
  `Cron`, `CronFiring`, `CronSyntax`, `CronMeaning`, `Schedule`, `Names`, `TaskGraph`,
  `TaskRuns`, `TaskTicks`, `StreamConditions`, `DependencyOrder`, `Scheduler`.
- **Roles** (`internal/rbac`): the role graph, its operations, and access checks.
  Modules `RoleGraph`, `RoleGrants`, `Rbac`.
- **Rewriting** (`internal/rewriter`, and `matchLike`): the loop that replaces function
  calls in SQL text, against the expression trees the text writes; MERGE as an upsert;
  LIKE as a regular expression. Modules `FuncArgs`, `CallSearch`, `SqlExpr`, `SqlText`,
  `FuncCalls`, `FuncLoop`, `QuotedText`, `LiteralLoops`, `SqlValues`, `SqlReader`, `SqlLexer`,
  `SqlGrouping`, `SqlSplices`, `SqlFragment`, `SqlTextValues`, `SqlStandard`, `Merge`,
  `Like`.
- **Streams and snapshots** (`internal/stream`, `internal/timetravel`, and the statements
  of `internal/orchestrator` that feed them). Modules `StreamLog`, `Streams`,
  `Snapshots`, `SnapshotNumbers`, `TimeTravel`, `SnapshotEngine`.

Objects that the Go code updates in place are classes (`Scheduler.Task`,
`Scheduler.Scheduler`, `Rbac.Role`, `Rbac.Engine`, `Streams.Stream`, `Streams.Engine`,
`SnapshotEngine.Engine`). Each method states the whole new state as a function or
relation of the old one, and the lemmas are about those functions and relations. Loops
are methods with loops, proved against a function of their input. Operations that fail
return a `Result`, an `Option` or a flag. Maps whose order Go leaves open are walked in
any order.

`dafny verify dfyconfig.toml` checks everything.

## How to read the main results

A template is **safe** (`Structure.SafeTemplate`) if no placeholder adjoins a
single-quoted string or another placeholder, no colon stands before a placeholder unless
an identifier character of the template stands before the colon, and no `:N` is inert
only because it follows a numbered placeholder. `Structure.StructureTheorem` says that
these are exactly the templates that no data can break.

`SqlReader` is a reader of SQL expressions by operator precedence, for **any** table of
operators. `ReaderExact` says that it reads a text as a tree exactly if the tree writes
the text and every operand binds tightly enough. On top of it `SqlSplices.Spliceable` is
a condition on the expression before the rewrites, a function that a caller could
compute: the first argument of every DIV0 and DIV0NULL binds at least like a quotient,
the second more tightly, and the first of every NVL2 more tightly than IS. Exactly then
the rewritten text is read as the rewritten tree (`ChainReads`), and then the text keeps
its value (`TextValueKept`).

What inputs mean is stated on the inputs, apart from the functions that compute it: a
placeholder's binding by counting question marks (`Substitution.NumberAt`), rows by
reading them down (`Bulk.Pivots`), the folded tuple by counting parentheses
(`ValuesClause.SplitsAt`), cron fields by the elements they are written with
(`CronMeaning.Names`), schedules by the words in them (`Schedule.SaysNext`), WHEN conditions
by the call in them (`StreamConditions.CallAt`), grants by who reaches what (`RoleGrants`),
and literals by the values they denote (`LiteralValues.Denotes`). The lemmas about these are
what ties the model's functions, and through them the methods, to their meaning.

A tick asks the stream callback in the middle of its walk, and the callback may answer
differently each time. So the callback is a function of the number of the look at a
condition, and every task in a tick's record has the number of the look at its condition
and the outcome that it had there.

Instants are nanoseconds and minutes as unbounded integers; a zone is a fixed number of
minutes. The day rule of cron is that of the crontab page, INPUT FILES, of POSIX.1-2017.
CASE and COALESCE are those of section 6.9, LIKE that of section 8.5, of SQL-92.

## Model

| member | source | states |
|---|---|---|
| Scanner.LexReads | internal/binding/binding.go:71-119 | the segments that the scan gives spell the text, and each is what the scanner takes at its place |
| Scanner.SegmentStable | internal/binding/binding.go:46-136 | a segment that is neither a placeholder nor a colon is taken again if the text behind it is replaced by one that starts alike |
| Substitution.SkipSpecial | internal/binding/binding.go:46-69 | the Go loops skip exactly the quoted, dollar-quoted and commented sections of the model |
| Substitution.Render | internal/binding/binding.go:71-119 | the scanning loop gives the text of the scan with each placeholder looked up under its number, fails as the first failing lookup does, and reports whether there was a placeholder |
| Substitution.RenderedInOrder | internal/binding/binding.go:71-119 | for every lookup, the rendered text is the answers for the segments in order, where the placeholder number is told by counting question marks, and it fails exactly if one answer does |
| Substitution.NumberedAt | internal/binding/binding.go:98-110 | :N, up to the largest integer, asks for number N |
| Substitution.Substitute | internal/binding/binding.go:31-43 | without bindings the statement itself; otherwise the text of each segment in order: a ? is the literal of the binding keyed by its own place among the question marks, :N that of the binding keyed N, everything else itself; it fails exactly if one of these bindings is missing or cannot be printed |
| Substitution.RenderedIsFilled | internal/binding/binding.go:71-119 | substitution fails exactly if some placeholder's value cannot be printed; otherwise it spells the template with the literals filled in |
| Substitution.FillNull | internal/binding/bulk.go:188-191 | every placeholder becomes NULL, and this never fails |
| Literals.QuoteRoundTrip | internal/binding/binding.go:142-144 | a string literal reads back as a given string exactly if it is that string quoted |
| Literals.LiteralSelfContained | internal/binding/binding.go:149-225 | every literal printed for any bound value is closed: scanned anywhere it holds no placeholder, and opens no comment or string |
| LiteralValues.LiteralDenotes | internal/binding/binding.go:149-250 | a bound text is printed exactly if it is a value of its type, and the literal denotes that value: quoted texts read back, TRUE for the true words, the same sign and digits, the cast of the text or of the moment that a number is |
| LiteralValues.TypeNames | internal/binding/binding.go:163-225 | which type each type name selects; every other name binds text |
| LiteralValues.IntIff | internal/binding/binding.go:21-25 | whole numbers are exactly a sign, if any, and digits |
| LiteralValues.DecimalIff | internal/binding/binding.go:21-25 | decimals are exactly a sign, digits with at most one point among them, and an exponent, each part but the digits optional |
| Structure.StructureTheorem | internal/binding/binding.go:31-119 | bound data never changes a statement's structure exactly for the safe templates: re-scanning the output gives the template's segments with each placeholder replaced by its literal's |
| Structure.BreakingBindings | internal/binding/binding.go:71-119 | for every other template there are concrete values that break it |
| Structure.AdjoiningTextsMerge | internal/binding/binding.go:142-144 | two texts bound to adjoining placeholders become one string with a quote in the middle |
| Structure.NullKeepsStructure | internal/binding/bulk.go:186-191 | filling with NULL keeps the structure of every statement, safe or not |
| Words.WordsKept | internal/binding/binding.go:31-119 | if moreover no placeholder adjoins an identifier character, the words of the output are the template's with each placeholder replaced by its literal's |
| Bulk.SplitRows | internal/binding/bulk.go:72-113 | every row has the keys of the bindings; read down the rows, each array gives its elements in order with its type, and each scalar is the same in every row; it fails exactly if the arrays are not of one positive length |
| Bulk.PivotsOnce | internal/binding/bulk.go:72-113 | there is only one such list of rows |
| Bulk.RowSpells | internal/binding/bulk.go:31-69 | what is written for row i: a placeholder of an array is the literal of the array's element i, one of a scalar the scalar's literal |
| ValuesClause.FirstValues | internal/binding/bulk.go:125-146 | the position found is that of the first word VALUES in no string or comment before which as many parentheses were closed as opened |
| ValuesClause.BalancedIff | internal/binding/bulk.go:154-174 | the tuple is accepted exactly if, counting parentheses outside strings and comments, they are closed at its end and at no earlier closing one |
| ValuesClause.CoreOf | internal/binding/bulk.go:118-124 | one semicolon at the end, and the space around it, make no difference |
| ValuesClause.SplitIff | internal/binding/bulk.go:118-175 | a statement is folded exactly if it starts with INSERT in any case and its first such VALUES stands between a text without placeholders and one such tuple; these are the two parts |
| Bulk.ScanForValues | internal/binding/bulk.go:125-146 | finds the first VALUES outside parentheses, strings and comments |
| Bulk.ScanTuple | internal/binding/bulk.go:154-174 | accepts a tuple exactly if its parentheses first close at its last character |
| Bulk.Expand | internal/binding/bulk.go:31-69 | scalar binds give one statement; array binds are expanded with the rows that read down as the arrays, to one folded INSERT or one statement per row; it fails exactly if the arrays do not fit or some row fails |
| Folding.RowsAreFaithful | internal/binding/bulk.go:31-69 | for every INSERT that is folded, what a row adds is exactly what substituting that row into the whole statement writes in the tuple's place, and fails exactly when that fails |
| FoldedStructure.FoldedTheorem | internal/binding/bulk.go:118-175 | the folded statement scans as its prefix, VALUES and the rows exactly if the text before VALUES does not end in a line comment |
| Cron.ParseCronField | internal/task/cron.go:101-154 | a field is accepted exactly by its grammar, and its list is without repetition and has exactly the values its elements denote |
| Cron.Search | internal/task/cron.go:36-44 | minute by minute, the search returns the next due minute or there is none in the window |
| Cron.NextCronTime | internal/task/cron.go:30-45 | the least whole minute strictly after the instant that the expression means, or an error exactly if the expression is malformed or no such minute comes within 1460 days |
| CronFiring.AlwaysFiresTheorem | internal/task/cron.go:30-45 | the search succeeds from every instant exactly for specifications that fire every year |
| CronFiring.NeverFiresTheorem | internal/task/cron.go:26-45 | it fails from every instant exactly for specifications whose day and month lists name no date |
| CronFiring.OnlyLeapDays | internal/task/cron.go:156-175 | whatever fires at times and misses at times lists, of all dates, 29 February only |
| CronFiring.LeapDayMiss | internal/task/cron.go:36-44 | "0 0 29 2 *" searched from the start of 2097 is an error |
| CronSyntax.ShownListDenotes | internal/task/cron.go:101-154 | any list of values, ranges and stars, each with or without a step, is accepted exactly if every element is within the bounds, and then denotes exactly the union of what its elements name |
| CronSyntax.ElementParses | internal/task/cron.go:109-145 | one element: n is n with or without a step, a-b/k is a, a + k, ... up to b, */k is the same from the field's minimum to its maximum, and without a step k is 1 |
| CronMeaning.WrittenSyntax | internal/task/cron.go:55-99 | five written fields with any space between them, and a zone or none behind, are accepted exactly if all elements are within their bounds and the zone is known |
| CronMeaning.WrittenMeans | internal/task/cron.go:156-175 | and then mean exactly the minutes that the fields name, in that zone, under the rule that either day field suffices if both are restricted |
| CronMeaning.WrittenNext | internal/task/cron.go:30-45 | the search for a written expression gives the least later minute that its fields name, or there is none in the window |
| CronMeaning.WrittenSchedule | internal/task/task.go:444-460 | and a task with that expression runs next at that minute |
| Calendar.CivilRoundTrip | internal/task/cron.go:156-175 | the calendar that cron looks at: every date of the Gregorian calendar is found again from its day number |
| Calendar.MonthTable | internal/task/cron.go:156-175 | the days before each month, in common and in leap years |
| Calendar.WeekdayFromEpoch | internal/task/cron.go:156-175 | the weekdays are those that follow from 1 January 1970 being a Thursday |
| Schedule.EveryExact | internal/task/task.go:449-451 | an interval of N minutes is exact exactly up to 153722867 minutes |
| Schedule.EveryWraps | internal/task/task.go:449-451 | one minute more and the duration is negative |
| Schedule.NextRunLater | internal/task/task.go:444-460 | the next run is later than now exactly if the interval does not wrap |
| Schedule.NextRunTime | internal/task/task.go:411-460 | a text that says N minutes gives N minutes later, up to 153722867; one that says USING CRON the next minute of its expression; any other text, and an expression that never fires, one minute later |
| Schedule.MinutesParse | internal/task/task.go:411-422 | a number, blanks, MINUTE or MINUTES in any case, with space around: an interval of that number, unless it is 0 or too large |
| Schedule.CronParse | internal/task/task.go:425-437 | USING, blanks, CRON, blanks and one line of text: the trimmed text is the expression, if its syntax is accepted |
| Schedule.ParsedSays | internal/task/task.go:411-440 | nothing else is parsed |
| Schedule.PrintedMinutes | internal/task/task.go:411-422 | the number may be written as Itoa writes it |
| Schedule.PrintedCron | internal/task/task.go:425-437 | USING CRON with single blanks before an expression says that expression |
| TaskGraph.RunIffChain | internal/task/task.go:303-347 | a walk has run exactly the tasks whose whole chain up to a root that was due was seen enabled, and has looked at exactly the roots and their successors |
| TaskGraph.SeenTruthful | internal/task/task.go:370-398 | every look at a WHEN condition is recorded with its number and with the outcome that the condition has at that look, one look for each task |
| Scheduler.Scheduler.EvaluateWhen | internal/task/task.go:370-398 | a condition that names no stream holds; one that does is what the callback answers at this look for that stream, and fails without a callback |
| StreamConditions.StartsCallIff | internal/task/task.go:381-383 | a text is read as a call for a stream exactly if it is SYSTEM$STREAM_HAS_DATA in any case with the quoted name in parentheses and any blanks around the quotes |
| StreamConditions.StreamInIff | internal/task/task.go:381-384 | a condition asks for the stream of the leftmost such call in it, and for none exactly if there is no such call |
| Scheduler.ToldOf | internal/task/task.go:370-398 | the callback is asked with the task's own database and schema and that stream |
| Scheduler.Scheduler.RunSuccessors | internal/task/task.go:319-347 | visits every successor once and terminates, even if other tasks form cycles; runs each whose condition holds when it is looked at, and no other |
| Scheduler.Scheduler.ExecuteDAG | internal/task/task.go:303-317 | a due root is looked at, then run or postponed as its condition says, and everything its run leaves is accounted for |
| Scheduler.Scheduler.Tick | internal/task/task.go:270-300 | the whole effect of a tick: who is looked at and with which outcome, who runs, in which order, what is recorded and which times are left on every task |
| TaskTicks.TickOnce | internal/task/task.go:270-300 | a tick runs each task at most once |
| TaskTicks.TickRuns | internal/task/task.go:270-398 | a tick looks at exactly the due roots and the successors of the tasks it executes, sees what their conditions say, and executes exactly those whose condition it saw hold |
| TaskTicks.WhatRuns | internal/task/task.go:270-347 | told by the tasks' own fields: only started roots with a schedule whose next run has come, and started tasks that name an executed one of their schema as predecessor, are executed, and each of these whose condition holds during the tick is |
| TaskTicks.RouteRuns | internal/task/task.go:303-347 | along a route of started tasks from a due root whose conditions hold during the tick, every task is executed |
| TaskTicks.SteadyTickRuns | internal/task/task.go:270-398 | if no condition changes during the tick, the executed tasks are known beforehand: exactly those at the end of such a route |
| Scheduler.PlainRouteRuns | internal/task/task.go:370-398 | whatever the callback answers, a due root without a stream condition is executed, and every task below it up to the first stream condition |
| Scheduler.PlainTickRuns | internal/task/task.go:370-398 | without a callback, or without stream conditions, exactly the tasks on routes without stream conditions are executed |
| TaskTicks.RootsWait | internal/task/task.go:283-299 | no root runs before its next run has come |
| TaskTicks.RootsAhead | internal/task/task.go:349-367 | after a tick the next run of every started root lies after the tick, if its schedule only gives later instants |
| Scheduler.NextRunAhead | internal/task/task.go:444-460 | so with the schedules of task.go, unless an interval wraps |
| TaskTicks.TimesAfter | internal/task/task.go:283-367 | the times a tick leaves: an executed task ran now and, if it has a schedule, is due again by its rule; a root that was due and not executed, or had no next run, is due by its rule; all other times stay |
| Scheduler.RuleSaid | internal/task/task.go:444-460 | that rule is what the schedule text says |
| TaskTicks.RunStaysTimed | internal/task/task.go:270-367 | executions stay spaced through every run of ticks, creations, drops, resumes and suspends |
| TaskTicks.RunsApart | internal/task/task.go:270-367 | in every run, two executions of a task are apart by the interval of the schedule it had when the later one ran |
| Scheduler.MinuteRootsApart | internal/task/task.go:270-451 | so two executions of a root whose schedule says N minutes are at least N minutes apart |
| Scheduler.Scheduler.CreateTask | internal/task/task.go:90-122 | adds a suspended task, exactly if the name is free and the schedule of a root can be parsed |
| Names.KeyFolds | internal/task/task.go:85-87 | a task is filed under its lower-case database, schema and name with dots between them |
| Names.DottedOnce | internal/task/task.go:85-87 | different names without dots give different keys |
| Scheduler.Scheduler.DropTask | internal/task/task.go:125-145 | removes exactly the named task |
| Scheduler.Scheduler.AlterTask | internal/task/task.go:148-164 | resumes or suspends exactly the named task and changes nothing else, in particular not its times |
| DependencyOrder.RootedIffNoCycle | internal/task/task.go:464-516 | going up from a name ends exactly if it is neither on a cycle nor below one |
| DependencyOrder.Kahn | internal/task/task.go:492-515 | the loop's order is without repetition, has each name behind its predecessor, and has exactly the names on and below no cycle |
| Scheduler.Scheduler.GetDependencyOrder | internal/task/task.go:464-516 | the same for the tasks of a schema, predecessors that are no tasks included, in any order of the map |
| RoleGraph.ApplyKeepsInv | internal/rbac/rbac.go:95-242 | every operation keeps references, keys and absence of repetition |
| RoleGraph.RunKeepsInv | internal/rbac/rbac.go:95-242 | and so does every run of operations |
| RoleGraph.DropAccess | internal/rbac/rbac.go:110-141 | after DropRole exactly those have access who had it on routes around the role |
| RoleGraph.RecreatedRoleIsBare | internal/rbac/rbac.go:95-141 | a role dropped and created again revives no access |
| RoleGraph.RevokeUndoesGrant | internal/rbac/rbac.go:144-197 | revoking a new grant restores the role's grants |
| RoleGrants.RoleGrantReaches | internal/rbac/rbac.go:220-242 | granting child to parent fails exactly if one of them does not exist; otherwise a role reaches what it reached before and, if it reached the child, what the parent reaches; grants and users stay as they were |
| RoleGrants.RoleGrantAccess | internal/rbac/rbac.go:220-242 | what that does to the access of every user to every role |
| RoleGrants.UserGrantAccess | internal/rbac/rbac.go:200-217 | assigning a role gives its user exactly the roles above it where some role below holds the privilege, and changes nothing for anyone else |
| RoleGrants.PrivilegeGrantAccess | internal/rbac/rbac.go:144-170 | a granted privilege gives exactly the requests that it meets, on the roles above the grantee, to the users who hold such a role |
| RoleGrants.PrivilegeRevokeAccess | internal/rbac/rbac.go:173-197 | revoking fails exactly if there is no such grant, and otherwise leaves exactly the access that rests on another grant |
| RoleGrants.SameGrantGives | internal/rbac/rbac.go:155-186 | two grants count as the same exactly if they give the same privileges on the same objects |
| Rbac.Engine.DropRole | internal/rbac/rbac.go:110-141 | the engine's in-place compaction leaves the graph without the role |
| Rbac.Engine.GrantRoleToRole | internal/rbac/rbac.go:220-242 | the engine's graph becomes the one with the child granted to the parent, whose effect on access is that of RoleGrants.RoleGrantReaches |
| Rbac.Engine.RevokePrivilege | internal/rbac/rbac.go:173-197 | removes the grants that match, or fails if there is none |
| Rbac.Engine.CheckAccess | internal/rbac/rbac.go:246-338 | on every graph, cyclic ones too, the two searches over shared visited sets end and answer whether the role is above one of the user's and some role below it holds the privilege or ALL on the object |
| FuncArgs.ExtractFuncArgs | internal/rewriter/rewriter.go:132-177 | the loop gives the trimmed pieces between top-level commas and the matching parenthesis, or nothing if none closes |
| FuncArgs.ListRoundTrip | internal/rewriter/rewriter.go:132-177 | closed, trimmed arguments written with commas inside any text are read back exactly, with their parenthesis |
| SqlExpr.StepCounts | internal/rewriter/rewriter.go:203-213 | each replacement leaves exactly one fewer to make, though divisors are written twice |
| SqlExpr.LoopEnds | internal/rewriter/rewriter.go:203-213 | the loop ends exactly if every call it comes to has enough arguments, and then after exactly the counted number of turns |
| SqlExpr.ChainCleans | internal/rewriter/rewriter.go:355-410 | after the six rules no call of the six functions is left, and no rule meets a call with too few arguments |
| SqlText.InnerText | internal/rewriter/rewriter.go:132-177 | the text of an operand is closed and trimmed, so that it is one argument |
| FuncCalls.Spot | internal/rewriter/rewriter.go:182-213 | the first call in the text is the first call in the tree, and replacing it there is a step of the tree |
| FuncLoop.TextTurn | internal/rewriter/rewriter.go:203-213 | a turn of the loop on a tree's text gives the text of the tree after one step, and nothing exactly if no call is left |
| FuncLoop.ReplaceFuncCall | internal/rewriter/rewriter.go:203-213 | the loop ends with the text of the rewritten tree |
| FuncLoop.RewriteFunctions | internal/rewriter/rewriter.go:355-410 | the six rules in their order give the text of the chain's tree |
| FuncLoop.TextLoopEnds | internal/rewriter/rewriter.go:203-213 | on every written text the loop ends exactly if every call it comes to has enough arguments |
| FuncLoop.OperandsRunTogether | internal/rewriter/rewriter.go:391-400 | (a + b) over c and a + (b over c) are written the same, for all texts |
| QuotedText.TornIffInside | internal/rewriter/rewriter.go:182-213 | for every text a turn tears a string literal exactly if the name it finds stands inside one |
| QuotedText.InsideChanged | internal/rewriter/rewriter.go:203-213 | a call found inside a literal with enough arguments changes the literal's content right there |
| QuotedText.OutsideKept | internal/rewriter/rewriter.go:203-213 | a call found outside is replaced with whole literals of the old text |
| QuotedText.LoopKeepsLiterals | internal/rewriter/rewriter.go:203-213 | the loop keeps every literal whole exactly if no turn finds its name inside one, and then every literal at the end is one of the beginning |
| LiteralLoops.MatchInSection | internal/rewriter/rewriter.go:182-199 | a match inside a literal is a match in what stands in that literal |
| LiteralLoops.QuietLiteralsSpared | internal/rewriter/rewriter.go:203-213 | if no literal of the statement holds a call of the function, no turn of the loop finds one inside a literal, and all literals left are literals of the statement |
| LiteralLoops.LoopSparesLiterals | internal/rewriter/rewriter.go:203-213 | a loop that ends with no match left and drops no arguments never touches a literal exactly if no literal of its input holds a call of the function |
| LiteralLoops.ChainSparesLiterals | internal/rewriter/rewriter.go:16-58 | the same for the six function rules in their order |
| LiteralLoops.SurplusDropsLiteral | internal/rewriter/rewriter.go:403-410 | with a surplus argument the literal can be dropped before the call in it is found: SQUARE(1, 'SQUARE(2)') |
| QuotedText.LiteralRewritten | internal/rewriter/rewriter.go:203-213 | the string 'NVL(1)' becomes the string 'COALESCE(1)' |
| SqlValues.TemplateExact | internal/rewriter/rewriter.go:355-410 | a call with the right number of arguments and its replacement are worth the same, errors included, exactly if no erroneous dividend goes with a divisor of 0 (or NULL in DIV0NULL) |
| SqlValues.ChainValue | internal/rewriter/rewriter.go:355-410 | under three-valued logic the chain keeps the value of every expression that is not an error |
| SqlValues.ChainExact | internal/rewriter/rewriter.go:355-410 | and errors too, if no call repairs one |
| SqlValues.UndividedExact | internal/rewriter/rewriter.go:355-410 | in particular in every expression without DIV0 and DIV0NULL |
| SqlValues.ErrorRepaired | internal/rewriter/rewriter.go:393-400 | DIV0 of an error by 0 becomes 0 |
| SqlReader.ReaderExact | internal/rewriter/rewriter.go:355-410 | the standard against which the emitted text is read: the precedence reader reads a text as a tree exactly if the tree writes it and all operands bind tightly enough |
| SqlGrouping.LexPrint | internal/rewriter/rewriter.go:355-410 | the text of every expression, cut into tokens, is what its tree means to say |
| SqlSplices.TemplateSafe | internal/rewriter/rewriter.go:355-410 | a replacement groups as meant exactly if the arguments it keeps do, and bind tightly enough where they are spliced |
| SqlSplices.TextReads | internal/rewriter/rewriter.go:355-410 | any expression's text is read as the expression exactly if all operands bind tightly enough |
| SqlSplices.ChainReads | internal/rewriter/rewriter.go:355-410 | the rewritten text is read as the rewritten tree exactly if the expression was spliceable |
| SqlFragment.FragmentInner | internal/rewriter/rewriter.go:182-213 | the expressions of the reader are among those that the text loop is proved on, if no literal holds a parenthesis |
| SqlTextValues.TextValueKept | internal/rewriter/rewriter.go:355-410 | a spliceable expression's text keeps its value through the chain, and its errors too if no call repairs one |
| SqlTextValues.GroupingLost | internal/rewriter/rewriter.go:391-400 | wherever + binds more loosely than division, DIV0(a + b, c) is worth (x + y) / z and its replacement x + y / z |
| SqlTextValues.GroupingLostOnNumbers | internal/rewriter/rewriter.go:391-400 | DIV0(2 + 4, 2) is worth 3, and its replacement's text 4 |
| SqlStandard.StandardIsProper | internal/rewriter/rewriter.go:355-410 | the usual table of operators is one of those that the theorems about reading are for |
| SqlStandard.StandardLosesGrouping | internal/rewriter/rewriter.go:391-400 | with that table and the usual arithmetic the text DIV0(2 + 4, 2) is worth 3, and the text that replaces it 4 |
| SqlStandard.StandardKeepsValue | internal/rewriter/rewriter.go:355-410 | and with that table and arithmetic every spliceable text keeps its value |
| Merge.UpsertIsMerge | internal/rewriter/snowflake_ddl.go:200-266 | with unique keys, and the target's key on the left of ON, the upsert leaves the table that the MERGE would; the two keys may have different names |
| Merge.KeyMustBeCopied | internal/rewriter/snowflake_ddl.go:200-266 | in a statement of columns and constants, if the INSERT does not set the target's key from the source's there are tables on which the two differ |
| Merge.ReadsMustBeCopied | internal/rewriter/snowflake_ddl.go:200-266 | likewise for a source column that SET reads |
| Merge.LeftMustBeKey | internal/rewriter/snowflake_ddl.go:238-245 | if the source's key stands on the left of ON under another name than the target's, there are tables on which the two differ |
| Merge.SourceKeyOnTheLeft | internal/rewriter/snowflake_ddl.go:238-245 | such a statement, and tables on which the upsert adds a row that the MERGE updates |
| Merge.AgreeIffCopied | internal/rewriter/snowflake_ddl.go:200-266 | where SET and VALUES have only columns and constants, the two agree on all tables exactly if the left column of ON names the target's key, and the INSERT sets it from the source's and copies every source column that SET reads |
| Like.ParseEmitted | internal/orchestrator/snowflake_handlers.go:535-561 | the generated expression, read as a regular expression, is the pattern's items, whatever metacharacters it holds |
| Like.MatchLike | internal/orchestrator/snowflake_handlers.go:535-561 | matches exactly the strings that LIKE accepts without regard to case |
| StreamLog.ExactlyOnce | internal/stream/stream.go:84-197 | over every run, what a stream has delivered and what is pending is exactly the changes accepted for its table since it was created, in order, each once |
| StreamLog.HasDataMeansBatch | internal/stream/stream.go:200-215 | HasData holds exactly when the next consumption delivers something |
| StreamLog.RecreatedIsEmpty | internal/stream/stream.go:84-130 | a stream dropped and created again has nothing |
| StreamLog.TypeDecides | internal/stream/stream.go:84-170 | in every run, a stream created as STANDARD or without a type delivers every change recorded for its table from then on, one created as APPEND_ONLY the inserts among them, and there is no stream of another type |
| Streams.Engine.CreateStream | internal/stream/stream.go:84-116 | adds an empty stream on the table, and fails exactly if the name is taken or the kind unknown |
| Streams.Engine.DropStream | internal/stream/stream.go:119-130 | removes exactly the named stream |
| Streams.Engine.RecordChange | internal/stream/stream.go:147-170 | the change is added to every stream on the table, but only inserts to append-only ones |
| Streams.Engine.ConsumeStream | internal/stream/stream.go:173-197 | returns what is pending and moves the offset behind it |
| Snapshots.CleanupAnswers | internal/timetravel/timetravel.go:168-190 | of all timestamp queries Cleanup makes exactly those fail whose answer was too old, and changes no other answer |
| TimeTravel.QueryGivesBefore | internal/timetravel/timetravel.go:80-143 | in every run a query gives what the table held just before its latest saved write or drop at or before the time, if Cleanup has left it, and otherwise fails |
| TimeTravel.LatestStatement | internal/orchestrator/orchestrator.go:706-729 | which statement of the run that is |
| TimeTravel.AnswerIsTable | internal/timetravel/timetravel.go:118-143 | for all times: the answer is the table at that time exactly if the table was as the latest statement found it; with no other statement on the table since, exactly if that statement changed nothing |
| TimeTravel.QueryLagsBehind | internal/orchestrator/orchestrator.go:716-729 | right after a successful write a query answers what the write replaced |
| TimeTravel.UndropRestores | internal/orchestrator/snowflake_handlers.go:240-255 | UNDROP after DROP, with no statement on the table between and no cleanup past the drop, restores exactly the dropped contents |
| SnapshotEngine.Engine.CaptureSnapshot | internal/timetravel/timetravel.go:80-115 | appends one snapshot with a fresh number, or nothing if the table or the file fails |
| SnapshotNumbers.RunNumbered | internal/timetravel/timetravel.go:105-112 | in every run no two snapshots have the same number, and the numbers rise in each table's list |
| SnapshotEngine.Engine.QueryAtTimestamp | internal/timetravel/timetravel.go:118-143 | the backward scan gives the file of the latest snapshot at or before the time |
| SnapshotEngine.Engine.Cleanup | internal/timetravel/timetravel.go:168-190 | every list keeps exactly what is young enough, and exactly the old files are removed |

## Findings

Where the code does not meet what its comments promise, the model keeps the code and a
lemma has the input:

- `internal/binding/binding.go:146-148` says that data cannot change a statement's
  structure. It can in templates that are not safe: `??` with two texts
  (`Structure.AdjoiningTextsMerge`), and a placeholder behind a colon, where a number
  becomes a new placeholder. `Structure.BreakingBindings` gives values for every unsafe
  template; `Structure.StructureTheorem` is the exact condition.
- A line comment just before VALUES swallows the folded tuple, because the newline that
  ended it is trimmed (`internal/binding/bulk.go:147`;
  `FoldedStructure.FoldedTheorem`, `FoldedStructure.LineSwallows`).
- `0 0 29 2 *` fails when searched in a span of four years without a leap day
  (`CronFiring.LeapDayMiss`); no other kind of date does that (`CronFiring.OnlyLeapDays`).
- An interval above 153722867 minutes makes the duration wrap, so that the next run lies
  in the past (`Schedule.EveryExact`, `Schedule.EveryWraps`).
- A call with too few arguments is emitted again and found again, so the rewriting loop
  does not end (`SqlExpr.LoopEnds`, `FuncLoop.TextLoopEnds`, both exact).
- Operands are spliced without parentheses, so `DIV0(2 + 4, 2)` is evaluated as
  `2 + 4 / 2`, 4 instead of 3 (`SqlStandard.StandardLosesGrouping`);
  `SqlSplices.ChainReads` is the exact condition.
- Calls are replaced inside string literals as well (`QuotedText.LiteralRewritten`).
  `QuotedText.TornIffInside` says exactly when for one turn, and
  `LiteralLoops.ChainSparesLiterals` for the whole chain, told from the statement before
  it: when a literal holds a call. With surplus arguments the literal can be dropped first
  (`LiteralLoops.SurplusDropsLiteral`).
- DIV0 of an error by 0 is 0 after the rewrite (`SqlValues.ErrorRepaired`);
  `SqlValues.TemplateExact` says exactly when that happens.
- A timestamp query lags one write behind, since snapshots are taken before a write
  (`TimeTravel.QueryLagsBehind`); `TimeTravel.AnswerIsTable` says for every time when it
  gives the table of that time.
- The comment at `internal/task/cron.go:10` says "at or after"; the search starts at the
  next whole minute, strictly after (`Cron.NextCronTime`).
- The upsert differs from the MERGE when the INSERT leaves out the key or a column that
  SET reads, and when ON names the source's key first under another name: the left column
  becomes the conflict key whichever table it belongs to (`Merge.SourceKeyOnTheLeft`).
  `Merge.AgreeIffCopied` is the exact condition.

## Left out

- Characters: bytes are characters, so case folding, trimming and the class of letters
  are those of ASCII; this includes `matchLike` and the folding of names.
- Error texts, and which of several errors is reported, are not part of the results.
- Float and date formatting, JSON parsing and zone names are functions given from
  outside; a zone is a fixed number of minutes, without daylight saving.
- The step arithmetic of a cron field is on unbounded integers, so a step close to the
  largest integer does not wrap.
- Schedule.NextRunTime: instants are unbounded, so an instant past the range of Go's time
  type is not modelled.
- Scheduler.Scheduler.Tick: what a task's SQL does shows only in the outcomes of later
  WHEN conditions; SQL that suspends, resumes or drops a task in the middle of the same
  tick is not modelled.
- Scheduler.Scheduler.CreateTask: requires a name, which the source does not ask for. A
  started root without a name would be its own successor (`TaskGraph.UnnamedFollowsItself`),
  and the walk below it would not end.
- Scheduler.Scheduler.EvaluateWhen: the callback is there from the start; one that is set
  later is one that answers no before that.
- Locks: each section under a lock is one step; the background loop, EXECUTE TASK (which
  goes around the scheduler) and the fields that only SHOW prints are left out.
- Rbac.Engine.DropRole: the compacted slices are new sequences, so a caller that still
  holds the old slice (as ShowRoles hands out) would see other contents in Go.
- FuncLoop.RewriteFunctions: the calls in the text are written as NAME, an opening
  parenthesis, the arguments with a comma and a blank between them, and a closing one;
  blanks in other places are not modelled, nor are the other rules of the rule list,
  which are regular expressions over text.
- SqlSplices.ChainReads: expressions of words, literals without quotes in them, binary
  operators with blanks around them, parentheses and calls; prefix operators and the
  other postfix forms of IS are not among them.
- SqlValues.ChainValue: the source documents the meaning of DIV0, DIV0NULL and SQUARE
  only in comments, and the model takes those; a call of DIV0 looks at both operands.
- Merge.UpsertIsMerge: starts from the parsed statement, not from the text that the
  regular expression takes apart; the statement does not assign the key.
- Merge.AgreeIffCopied: the "only if" half is stated for SET and VALUES lists of columns
  and constants, each column set once; with arbitrary expressions two different ones can
  happen to have the same value.
- TimeTravel.QueryGivesBefore: the clock strictly increases from statement to statement.
- handleDML keys snapshots and stream changes by the session's database and schema even
  if the statement names another (`internal/orchestrator/orchestrator.go:840-850`), and
  takes `T(A)` for the table of `INSERT INTO t(a)`; the model names a table by one
  folded name.
- SnapshotEngine.Engine.Cleanup: removing a file is taken to succeed.
- DuckDB, Parquet files, HTTP, sessions, the catalog and the other managers that map
  names to objects would only add easy members.
