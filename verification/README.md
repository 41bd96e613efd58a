# Verified model of the Noqeri toolchain

Noqeri is a small compiled language with its own tools. This project models the parts of its toolchain that decide
what programs mean and what data survives, and proves that they do what the toolchain is for:

- **The compiler core.** Structured source is lowered to NIR (`Lowering`), a linear code with registers, back-patched
  jumps and one table of variables per call. `Interpreter` gives NIR its meaning, `Source` the source language's.
  `LoweringMeaning`, `LexicalScope` and `CompilerMeaning` prove that lowering and optimization keep the meaning of
  programs; `ConstantFolding`, `DeadCode` and `PipelineMeaning` treat the optimizer's passes, `ControlFlow` the graph of
  basic blocks, `LiveIntervals`, `LinearScan` and `AllocatedRun` the register allocator, `Repeat` the desugared
  counting loop, `ThrownCodes` the errors that `try` hands on, `Int64` checked and wrapping arithmetic. `ValueLaws`,
  `SourceLaws` and `OptimizerLaws` say what the operators, scopes and passes do that these theorems share.
- **The text tools.** `Lexer` and `Formatter` scan and lay out source text; `Expressions` parses expressions.
  `LexerForms`, `LexerText`, `StringLiterals` and `ExpressionGrammar` give the grammar of tokens and expressions and
  prove that exactly its texts are read; `LexerFacts`, `ExpressionPrinting`, `ExpressionForms` and `ParsedExpressions`
  what is read back, `FormatterMeaning` and `FormatterLayout` what formatting keeps and how it looks.
- **NoqeriDB.** Scripts are read (`DatabaseLexer`), executed (`DatabaseScript`, `DatabaseSession`) and stored
  (`Database`, `DatabaseFile`). `DatabaseMeaning` says what statements mean on tables alone, `DatabaseGrammar` which
  scripts succeed, `DatabaseHistory` what files hold after any sequence of scripts, `DatabaseSafety` what they always
  satisfy, `DatabaseDamage` what becomes of damaged files; `TextForms` gives the small alphabets by tables.
- **Three compact cores.** `Sha256` (the streaming hash; `Sha256Standard` and `Sha256Example` prove that it is the
  standard's), `Generics` (mangled type names and one-way matching), `InstallGraph` (the closure of package
  dependencies). `GenericMatching` and `GenericBinding` relate type text to the structure of types; `GenericCalls`,
  `GenericExactness` and `GenericInstances` say which generic calls are inferred soundly, and which are inferred at
  all.

Code that updates state in the original is imperative here: classes `Lowerer`, `Lexer`, `Writer`, `Parser`,
`ScriptLexer`, `Session`, `Sha256`, `Matcher` and `Installer`, and loops over sequences and arrays. Each method is proved
against a function that says what it computes, and the results are lemmas about those functions. Meanings are
functions of a tick budget: a call and a backward jump cost one tick, so that divergence is running out of time for
every budget. Host calls are an oracle over the calls made so far; a machine's `strict` flag makes reading a register
that was never written an error, and its `checked` flag is the overflow mode.

`dafny verify dfyconfig.toml` checks the whole project.

## Model

| member | source | states |
|---|---|---|
| `Int64.AddInt` | Compiler/bootstrap/interpreter_host.cpp:36-42 | checked: the exact sum, or an overflow error exactly when it leaves int64; wrapping: the int64 congruent to the sum modulo 2^64 |
| `Int64.SubInt` | Compiler/bootstrap/interpreter_host.cpp:43-49 | the same for differences |
| `Int64.MulOverflowsIsExact` | Compiler/bootstrap/interpreter_host.cpp:50-59 | the division-based test fires if and only if the true product is outside int64, for all operands |
| `Int64.MulInt` | Compiler/bootstrap/interpreter_host.cpp:60-64 | checked: exact product or overflow; wrapping: congruent to the product modulo 2^64 |
| `Int64.TruncDivMeaning` | Compiler/bootstrap/interpreter_host.cpp:65-74 | quotient and remainder satisfy a = b*q + r with a remainder smaller than the divisor that carries the dividend's sign |
| `Int64.DivInt` | Compiler/bootstrap/interpreter_host.cpp:65-69 | division by zero is an error; otherwise the truncated quotient, with min / -1 an overflow (checked) or wrapped |
| `Int64.ModInt` | Compiler/bootstrap/interpreter_host.cpp:70-74 | remainder by zero is an error; otherwise the truncated remainder, min % -1 included |
| `Int64.NegateInt` | Compiler/bootstrap/interpreter_host.cpp:75-78 | checked: exact negation or overflow; wrapping: congruent to it modulo 2^64 |
| `Int64.CongruentInRangeIsEqual` | Compiler/bootstrap/interpreter_host.cpp:35 | int64 holds one representative of each residue class, so the wrapping results are determined |
| `Values.ThrownCode` | Compiler/bootstrap/interpreter_host.cpp:117 | a thrown code always leaves the function as a negative value |
| `Values.ThrownCodesCoincide` | Compiler/bootstrap/interpreter_host.cpp:117 | two codes leave as the same value if and only if they are equal or complements (a + b = -1) |
| `ThrownCodes.ThrownThroughTries` | Compiler/bootstrap/interpreter_host.cpp:116-117 | through a chain of any length of functions that try the next one, the innermost thrown code arrives unchanged at the outermost caller |
| `ThrownCodes.ThrownCodesArrive` | Compiler/nir.cpp:30 | the same holds for the lowered programs; the outermost results of two such chains agree exactly when the codes are equal or complements |
| `Interpreter.Interpret` | Compiler/bootstrap/interpreter_host.cpp:88-130 | the pc loop over registers and variables computes exactly the recursive run relation, for every program, argument list and tick budget |
| `Interpreter.BindParameters` | Compiler/bootstrap/interpreter_host.cpp:91 | parameters and arguments are paired up to the shorter list |
| `Nir.FindUser` | Compiler/bootstrap/interpreter_host.cpp:121 | a call finds the first function of that name that has a body |
| `Nir.MappedFind` | Compiler/bootstrap/interpreter_host.cpp:121 | a pass that keeps names and externs leaves what every call finds unchanged |
| `Lowering.Lowerer.Fresh` | Compiler/nir.cpp:55-56 | returns the register counter and advances it by one |
| `Lowering.Lowerer.Emit` | Compiler/nir.cpp:13 | appends one instruction and keeps the register counter above its destination |
| `Lowering.Lowerer.Patch` | Compiler/nir.cpp:31-32 | changes the target of one jump already emitted and nothing else |
| `Lowering.Lowerer.Expr` | Compiler/nir.cpp:55-106 | appends exactly the specified code for the expression, at this index and register count, and leaves earlier code alone |
| `Lowering.Lowerer.BinaryExpr` | Compiler/nir.cpp:71-83 | operands left to right, then the operator with a fresh destination; `&&` and `||` by jumps |
| `Lowering.Lowerer.Logic` | Compiler/nir.cpp:73-81 | the back-patched short-circuit code equals the code with final targets |
| `Lowering.Lowerer.EmitAnd` | Compiler/nir.cpp:75-78 | saves the left operand, tests it, runs and saves the right one; the test is patched to the end |
| `Lowering.Lowerer.EmitOr` | Compiler/nir.cpp:75-79 | saves the left operand, skips the right one when it is true; both jumps are patched |
| `Lowering.Lowerer.Args` | Compiler/nir.cpp:103 | lowers arguments from left to right and returns their registers in order |
| `Lowering.Lowerer.CallExpr` | Compiler/nir.cpp:103 | numbers the destination before lowering the arguments, and emits the call after them |
| `Lowering.Lowerer.Statement` | Compiler/nir.cpp:25-33 | appends exactly the specified code of the statement |
| `Lowering.Lowerer.IfStatement` | Compiler/nir.cpp:31 | the test is patched behind the branch |
| `Lowering.Lowerer.Branches` | Compiler/nir.cpp:31 | both jumps of an if with else are patched: into the else branch and behind it |
| `Lowering.Lowerer.ElseSide` | Compiler/nir.cpp:31 | the jump at the end of the then branch lands behind the else branch |
| `Lowering.Lowerer.WhileStatement` | Compiler/nir.cpp:32 | the loop jumps back to its condition and its test is patched behind the loop |
| `Lowering.Lowerer.Statements` | Compiler/nir.cpp:28 | statements are lowered in order, each behind the code of the one before |
| `Lowering.PatchSuffix` | Compiler/nir.cpp:31-32 | patching a jump already followed by code gives the code with that target from the start |
| `LoweringMeaning.ExprMeaning` | Compiler/nir.cpp:55-106 | running an expression's code from any state follows its evaluation: same value in its register, same variables, calls, errors, early exits and clock, and no earlier register is disturbed |
| `LoweringMeaning.LogicMeaning` | Compiler/nir.cpp:73-81 | the short-circuit code evaluates the right operand exactly when the language does, and yields the operand that decides |
| `LoweringMeaning.ArgsMeaning` | Compiler/nir.cpp:103 | argument registers still hold their values when the call is reached |
| `LoweringMeaning.StmtMeaning` | Compiler/nir.cpp:25-33 | running a statement's code follows its execution, whichever way it ends |
| `LoweringMeaning.WhileMeaning` | Compiler/nir.cpp:32 | the lowered loop makes the same turns as the source loop, for every tick budget |
| `LoweringMeaning.NamedCallMeaning` | Compiler/bootstrap/interpreter_host.cpp:121 | a call by name has the same result and event trace in the source and in the lowered program |
| `LoweringMeaning.FunctionLoweringPreservesMeaning` | Compiler/nir.cpp:14-106 | for every function of every program in the fragment, all arguments, host answers and tick budgets: the interpreter on the lowered code returns the same value, variables, event trace and clock, or the same error, or runs out of time after the same events; both sides are functions, so the converse holds too |
| `LoweringMeaning.EntryLoweringPreservesMeaning` | Compiler/nir.cpp:14-24 | the same for the top-level statements and the entry function |
| `LoweringMeaning.LoweredNeverReadsUnwritten` | Compiler/nir.cpp:13 | on a machine that stops at any read of an unwritten or invalid register, no lowered function ever stops for that reason |
| `LoweringMeaning.LoweredEntryNeverReadsUnwritten` | Compiler/nir.cpp:13 | nor does the lowered entry |
| `LexicalScope.LexicalIsFlat` | Compiler/nir.cpp:26-28 | when no declaration shadows a visible name, a stack of scopes and one flat table per call give the same endings |
| `LexicalScope.EntryLexicalIsFlat` | Compiler/nir.cpp:26-28 | the same for the top-level statements |
| `CompilerMeaning.LoweringKeepsLexicalMeaning` | Compiler/nir.cpp:14-106 | lowered functions have the lexical meaning of their source when no declaration shadows a visible name |
| `CompilerMeaning.LoweringKeepsEntryLexicalMeaning` | Compiler/nir.cpp:14-24 | the same for the entry |
| `CompilerMeaning.CompilingKeepsLexicalMeaning` | Compiler/optimizer.cpp:36-37 | from lexical source to optimized code at every level: same value and calls, or out of time alike, for runs that do not fail where removal is safe, checked overflow or not |
| `CompilerMeaning.CompilingKeepsEntryLexicalMeaning` | Compiler/optimizer.cpp:36-37 | the same for the entry |
| `CompilerMeaning.SiblingsAreWellScoped` | Compiler/type_checker.cpp:61-64 | blocks side by side may declare the same name; a block that declares an outer name again is what the condition rules out |
| `CompilerMeaning.ShadowingChangesMeaning` | Compiler/nir.cpp:26-28 | for `let x = 1; { let x = 2; } return x` the lexical result is 1 and the flat one is 2 |
| `CompilerMeaning.LoweredIsSingleAssignment` | Compiler/nir.cpp:13 | every function of a lowered program defines each register at most once, below its register count |
| `LoweredShape.LoweredIsWellFormed` | Compiler/nir.cpp:13-106 | in every lowered function each register has one definition, every jump target lies within the code or at its end, every use follows its definition with no jump into between, and only forward jumps leave that stretch |
| `LoweredShape.LoweredEntryIsWellFormed` | Compiler/nir.cpp:14-24 | the same for the entry |
| `LoweredShape.ExprHasShape` | Compiler/nir.cpp:55-106 | expression code only jumps forward and its result register is written on every path to its end |
| `LoweredShape.StmtHasShape` | Compiler/nir.cpp:25-33 | statement code keeps definitions, uses and targets to itself |
| `LogicTemps.TempsDiffer` | Compiler/nir.cpp:75 | two short-circuit temporaries have the same name only if made at the same index and register count |
| `LogicTemps.LoweredTempsAreOwn` | Compiler/nir.cpp:73-81 | in every lowered function a variable is a user's or a temporary made there, never both, and no two instructions read the same temporary |
| `LogicTemps.LoweredEntryTempsAreOwn` | Compiler/nir.cpp:73-81 | the same in the entry |
| `Optimizer.FoldIsWrappingBinary` | Compiler/optimizer.cpp:10-22 | wherever folding yields a value, the wrapping interpreter computes the same one, for all operand kinds and operators |
| `ConstantFolding.CheckedFoldIff` | Compiler/optimizer.cpp:10-22 | folding agrees with the checking interpreter exactly when the true integer result is in range; otherwise that interpreter stops with an overflow error |
| `Optimizer.FoldConstants` | Compiler/optimizer.cpp:24-34 | rewriting the array in place gives the specified folded code; `changed` says whether anything differs |
| `ConstantFolding.KnownIsConst` | Compiler/optimizer.cpp:24-34 | whatever the scan takes for known comes from a constant instruction earlier in the folded code |
| `ConstantFolding.FoldedStep` | Compiler/optimizer.cpp:24-34 | where the constants passed hold their values, the folded instruction acts exactly as the original: same effect, result and fault; a removed check could not have fired |
| `ConstantFolding.InvalidIsNotRewritten` | Compiler/optimizer.cpp:24-34 | an instruction that reads an invalid register is left as it is |
| `ConstantFolding.StrictIsLenient` | Compiler/bootstrap/interpreter_host.cpp:94 | a run that reads no unwritten register is the interpreter's own run |
| `ConstantFolding.FoldingKeepsRuns` | Compiler/optimizer.cpp:24-34 | for single-assignment programs and runs that read no unwritten register, folded and original run in lockstep: same variables, result, events, errors, clock, loops included; where overflow is checked, for every run that does not fail, and for all runs if no operator that is folded overflows |
| `CompilerMeaning.FoldingHidesOverflow` | Compiler/optimizer.cpp:10-22 | where overflow is checked, code that adds 1 to the largest integer fails as it stands, and returns the smallest one once folded |
| `ConstantFolding.FoldingKeepsSingleAssignment` | Compiler/optimizer.cpp:24-34 | folding keeps single assignment |
| `CompilerMeaning.FoldingAnUnwrittenReadChangesMeaning` | Compiler/optimizer.cpp:24-34 | code that jumps over a constant and reads it fails on null + 1 as it stands, and returns 6 once folded |
| `Optimizer.Operands` | Compiler/optimizer.cpp:35 | collects exactly the registers some instruction reads |
| `Optimizer.RemoveDead` | Compiler/optimizer.cpp:35 | keeps, in order, exactly the instructions that are neither no-ops nor unused and free of side effects |
| `DeadCode.DeadStep` | Compiler/optimizer.cpp:23 | a removed instruction either fails or only writes a register nobody reads |
| `DeadCode.NeverFailsIff` | Compiler/optimizer.cpp:23 | of the instructions that can be removed, exactly constants, no-ops, unary operators other than `-`, `&&`, `||` and casts that leave the value alone succeed on all operands |
| `DeadCode.KeptStep` | Compiler/optimizer.cpp:35 | under the kept-index map a kept instruction has the same effect and goes to the image of the same index |
| `DeadCode.RenumberedKeepsRuns` | Compiler/optimizer.cpp:35 | removal with renumbered jumps keeps every run that does not fail: value, variables, events and clock, or out of time alike |
| `DeadCode.HarmlessRemovalKeepsAllRuns` | Compiler/optimizer.cpp:35 | where nothing removed can fail, neither the instruction nor reading its operands, all runs are kept, the failing ones too |
| `DeadCode.DceIsRenumberedIff` | Compiler/optimizer.cpp:35 | leaving the targets as they were is the renumbered removal if and only if no jump target lies behind a removed instruction |
| `DeadCode.RemovalKeepsRuns` | Compiler/optimizer.cpp:35 | under that condition the removal as written keeps every run that does not fail |
| `CompilerMeaning.RemovalChangesMeaning` | Compiler/optimizer.cpp:35 | `1; if (false) { return 1 } return 2` returns 2 as lowered and null after one removal |
| `CompilerMeaning.RemovalHidesFailure` | Compiler/optimizer.cpp:35 | `1 / 0;` fails as lowered and ends normally after one removal |
| `Optimizer.Pipeline` | Compiler/optimizer.cpp:36 | the loop that stops at a round without changes gives the result of all rounds of its level, and one more removal at Oz |
| `PipelineMeaning.RoundKeepsRuns` | Compiler/optimizer.cpp:36 | one round of folding and removal keeps runs, single assignment and the safety of the rounds left |
| `PipelineMeaning.PipelineKeepsRuns` | Compiler/optimizer.cpp:36-37 | at every level, functions of the optimized program end as before, on the strict machine and on the interpreter, checked overflow or not, for runs that do not fail where removal is safe |
| `PipelineMeaning.PipelineKeepsEntryRuns` | Compiler/optimizer.cpp:37 | the same for the entry |
| `PipelineMeaning.JumpFreeIsSafe` | Compiler/optimizer.cpp:36 | code without jumps meets the safety condition at every level |
| `LiveIntervals.Intervals` | Compiler/register_alloc.cpp:9 | one interval per definition, in order, ending at the last use that definition serves |
| `LiveIntervals.ServesIffLatest` | Compiler/register_alloc.cpp:9 | a use belongs to a definition exactly when it is the latest one of that register |
| `LiveIntervals.SortingKeepsOrder` | Compiler/register_alloc.cpp:10 | sorting by start changes nothing: the intervals are already strictly ascending, and no other ascending list has the same elements |
| `LiveIntervals.SingleDefDistinct` | Compiler/register_alloc.cpp:9 | single assignment gives distinct values in distinct intervals |
| `LinearScan.Expire` | Compiler/register_alloc.cpp:13 | drops the active intervals that ended and returns their registers to the free list, losing and duplicating none |
| `LinearScan.Farthest` | Compiler/register_alloc.cpp:13 | the first active interval among those that end last |
| `LinearScan.PlaceNext` | Compiler/register_alloc.cpp:13 | one round keeps the scan's invariant: conflict-free, registers split between active and free, and no better choice exists for the intervals seen |
| `LinearScan.Exchange` | Compiler/register_alloc.cpp:13 | in a feasible choice, an interval may be traded for one that ends no later where both are live |
| `LinearScan.MatchedEvicts` | Compiler/register_alloc.cpp:13 | when one interval too many is live, giving up the one that ends last loses nothing against any feasible choice |
| `LinearScan.Allocate` | Compiler/register_alloc.cpp:7-15 | for distinct values: overlapping intervals never share a place, only narrow values get registers, slots are distinct and none is left empty, and no choice of narrow intervals with at most `registers.size()` live at any point keeps more of them in registers |
| `AllocatedRun.GoodPlanFits` | Compiler/register_alloc.cpp:9-14 | between a definition and any use of it nothing writes to its place |
| `AllocatedRun.StepsInPlace` | Compiler/register_alloc.cpp:9-14 | a step writes to a place no needed value is in |
| `AllocatedRun.PlacedFunctionRun` | Compiler/register_alloc.cpp:9-14 | a run on physical registers and spill slots is the run on unbounded registers |
| `AllocatedRun.AllocateFunction` | Compiler/register_alloc.cpp:7-15 | the allocator's plan for a well-formed function is good and fits its code |
| `AllocatedRun.AllocateProgram` | Compiler/register_alloc.cpp:7-15 | plans for all functions and the entry: good ones, over all their intervals, that fit the code |
| `AllocatedRun.AllocationKeepsLoweredRuns` | Compiler/register_alloc.cpp:9-14 | every lowered function runs on the places of such plans with the same value, variables, events, errors and clock as on unbounded registers, calls included |
| `AllocatedRun.AllocationKeepsLoweredEntry` | Compiler/register_alloc.cpp:9-14 | so does the entry |
| `ControlFlow.Leaders` | Compiler/nir_analysis.cpp:15-16 | exactly index 0, the jump targets inside the code, and the indices behind jumps, returns and throws |
| `ControlFlow.BetweenLeaders` | Compiler/nir_analysis.cpp:17-18 | the blocks partition the code, and no leader is inside one |
| `ControlFlow.Successors` | Compiler/nir_analysis.cpp:19-20 | the successors of a block are exactly the blocks its last instruction can go to, each listed once |
| `ControlFlow.Blocks` | Compiler/nir_analysis.cpp:14-21 | the graph is exact: blocks are non-empty, contiguous and cover the code, control enters them only at the start, and successors are exact |
| `ControlFlow.ActsWithinNext` | Compiler/bootstrap/interpreter_host.cpp:93-128 | whatever an instruction does, if it stays in the function it goes to one of its next indices |
| `ControlFlow.StepFollowsGraph` | Compiler/nir_analysis.cpp:14-21 | every step stays in its block or goes to the start of a listed successor |
| `ControlFlow.NextIsReachableIff` | Compiler/nir_analysis.cpp:19-20 | a listed next index is a real step for some registers and variables if and only if the instruction can pass; only a bounds check of a register against itself cannot |
| `Repeat.HiddenNamesDistinct` | Compiler/bootstrap/parser_host.cpp:169-171 | repeats at different places have different hidden names |
| `Repeat.NestedRepeatAvoids` | Compiler/bootstrap/parser_host.cpp:163-195 | a nested repeat stays away from the outer hidden names exactly if its count and body do |
| `Repeat.IncrementCounts` | Compiler/bootstrap/parser_host.cpp:183-188 | below its limit the counter increments without overflow, in checked mode too |
| `Repeat.RepeatCountsTurns` | Compiler/bootstrap/parser_host.cpp:163-195 | the count is evaluated once, and the body makes max(0, n) turns with the counter holding the number of turns made |
| `Repeat.RepeatIsTimes` | Compiler/bootstrap/parser_host.cpp:163-195 | for a body that does not mention the hidden names, the repeat is the body max(0, n) times, up to those names |
| `Lexer.Lexer.Advance` | Compiler/bootstrap/lexer_host.cpp:9 | returns the next character and moves on, or a null character at the end |
| `Lexer.Lexer.Match` | Compiler/bootstrap/lexer_host.cpp:10 | moves on exactly if the next character is the expected one |
| `Lexer.Lexer.SkipWhitespaceAndComments` | Compiler/bootstrap/lexer_host.cpp:12 | skips exactly blanks, and comments unless they are kept, reporting an unclosed one |
| `Lexer.Lexer.SkipBlockComment` | Compiler/bootstrap/lexer_host.cpp:12 | ends behind the first closing mark; without one, reports it |
| `Lexer.Lexer.ScanIdentifier` | Compiler/bootstrap/lexer_host.cpp:13 | takes the longest word and classifies it |
| `Lexer.Lexer.ScanDigits` | Compiler/bootstrap/lexer_host.cpp:14 | takes the longest number: hexadecimal, integer, or float if a digit follows the dot |
| `Lexer.Lexer.StringLiteral` | Compiler/bootstrap/lexer_host.cpp:15 | takes the text up to the closing quote, escapes skipped; an unclosed one is an error |
| `Lexer.Lexer.Punctuation` | Compiler/bootstrap/lexer_host.cpp:16 | takes one or two characters, the longer sign first |
| `Lexer.Lexer.ScanOne` | Compiler/bootstrap/lexer_host.cpp:16 | skips, then takes exactly the token at the front of the rest |
| `Lexer.Lexer.LexAll` | Compiler/bootstrap/lexer_host.cpp:17 | all tokens and errors of the rest, up to the first end-of-file token |
| `Lexer.LexSource` | Compiler/bootstrap/lexer_host.cpp:6-17 | lexing a source from its start |
| `Lexer.EofIsLast` | Compiler/bootstrap/lexer_host.cpp:17 | the last token, and no other, is an end-of-file one |
| `Lexer.Span` | Compiler/bootstrap/lexer_host.cpp:12-14 | the longest run of characters of a class: all inside are of the class, the next one is not |
| `LexerFacts.ScanCut` | Compiler/bootstrap/lexer_host.cpp:16 | maximal munch is local: a token is read back from its own text followed by anything that does not continue it |
| `LexerFacts.LexToken` | Compiler/bootstrap/lexer_host.cpp:16 | blanks, a token and what ends it are read as that token and the rest |
| `LexerFacts.LexedAreOwn` | Compiler/bootstrap/lexer_host.cpp:17 | every token of an error-free text is read back from its own lexeme |
| `Formatter.Writer.Write` | Compiler/bootstrap/formatter_host.cpp:5 | writing a token appends exactly its gap, its text and what follows, and updates the indentation |
| `Formatter.Writer.WriteLine` | Compiler/bootstrap/formatter_host.cpp:5 | tokens that end their line: comments, braces, semicolons |
| `Formatter.Writer.WriteInline` | Compiler/bootstrap/formatter_host.cpp:4-5 | all other tokens |
| `Formatter.Writer.CloseBrace` | Compiler/bootstrap/formatter_host.cpp:5 | goes to a new line unless at one, one level back |
| `Formatter.Writer.Finish` | Compiler/bootstrap/formatter_host.cpp:5 | a non-empty output ends with one line end |
| `FormatterMeaning.FormatSource` | Compiler/bootstrap/formatter_host.cpp:5 | the closure-updating loop computes the specified format; a source with errors is returned unchanged |
| `FormatterMeaning.ReadBack` | Compiler/bootstrap/formatter_host.cpp:5 | the first k tokens of the layout are read back, whatever allowed text follows |
| `FormatterMeaning.MergingIsNotReadBack` | Compiler/bootstrap/formatter_host.cpp:4-5 | where two ampersands, or an integer, a dot and a number, are adjacent, the output lexes differently |
| `FormatterMeaning.FormatKeepsTokens` | Compiler/bootstrap/formatter_host.cpp:5 | for every source that lexes cleanly: the formatted text has the same kinds and lexemes, up to trailing blanks of line comments, if and only if no such places occur |
| `FormatterMeaning.AmpersandsDoNotSurvive` | Compiler/bootstrap/formatter_host.cpp:4-5 | the source `& &` lexes to two ampersands, its formatted text does not |
| `FormatterMeaning.FormatIsIdempotent` | Compiler/bootstrap/formatter_host.cpp:5 | under that condition formatting twice is formatting once |
| `FormatterMeaning.CommentsAreSkipped` | Compiler/bootstrap/lexer_host.cpp:12 | the parser's tokens are the formatter's without the comments |
| `FormatterMeaning.FormattingKeepsParserInput` | Compiler/bootstrap/formatter_host.cpp:5 | under that condition the parser reads the same tokens from the formatted text |
| `Expressions.DecodeStringLiteral` | Compiler/bootstrap/parser_host.cpp:8-27 | the loop computes the specified decoding of escapes, for every lexeme |
| `ExpressionPrinting.StringReadsBack` | Compiler/bootstrap/parser_host.cpp:8-27 | every text is decoded from its quoted form |
| `Expressions.Parser.Advance` | Compiler/bootstrap/parser_host.cpp:250 | returns the token at the cursor and moves past it |
| `Expressions.Parser.Match` | Compiler/bootstrap/parser_host.cpp:248 | moves on exactly if the token has the kind |
| `Expressions.Parser.Expect` | Compiler/bootstrap/parser_host.cpp:253 | takes a token of the kind or reports and fails |
| `Expressions.Parser.ReadType` | Compiler/bootstrap/parser_host.cpp:65-80 | reads exactly the specified type name, or fails at the same token |
| `Expressions.Parser.Expression` | Compiler/bootstrap/parser_host.cpp:201-212 | assignment associates to the right; an illegal target is reported and dropped |
| `Expressions.Parser.BinaryLevel` | Compiler/bootstrap/parser_host.cpp:214-219 | the six binary levels, each a left-associating loop over the next one |
| `Expressions.Parser.UnaryExpression` | Compiler/bootstrap/parser_host.cpp:220 | prefix operators nest; otherwise casts |
| `Expressions.Parser.CastExpression` | Compiler/bootstrap/parser_host.cpp:221 | casts loop behind a call expression |
| `Expressions.Parser.CallExpression` | Compiler/bootstrap/parser_host.cpp:222-231 | calls, indices and members loop behind a primary |
| `Expressions.Parser.Arguments` | Compiler/bootstrap/parser_host.cpp:225 | expressions separated by commas up to the closing token |
| `Expressions.Parser.Primary` | Compiler/bootstrap/parser_host.cpp:232-246 | literals, names, arrays and parentheses; anything else is an error |
| `ExpressionPrinting.LiteralReadsBack` | Compiler/bootstrap/parser_host.cpp:233-237 | every literal value is read back from its token |
| `ExpressionPrinting.TypeReadsBack` | Compiler/bootstrap/parser_host.cpp:65-80 | every type name is read back from its tokens, whatever follows |
| `ExpressionPrinting.RoundTrip` | Compiler/bootstrap/parser_host.cpp:201-246 | a legal tree printed for any precedence level, with parentheses only where that level needs them, is parsed back unchanged, and parsing goes on exactly behind it |
| `ExpressionPrinting.PrintedTextReadsBack` | Compiler/bootstrap/parser_host.cpp:201-246 | every legal tree is what lexer and parser read from its printed text, with nothing left over |
| `ParsedExpressions.ExprSound` | Compiler/bootstrap/parser_host.cpp:201-246 | parsing without errors leaves a rest of the tokens and yields a legal tree |
| `ParsedExpressions.HasTextIffLegal` | Compiler/bootstrap/parser_host.cpp:201-246 | a tree is the reading of some text if and only if it is legal |
| `Hexadecimal.UnhexOfHex` | Compiler/bootstrap/noqeridb_host.cpp:56-57 | decoding hexadecimal text gives back the bytes |
| `Hexadecimal.UnhexNeedsDigits` | Compiler/bootstrap/noqeridb_host.cpp:57 | text with any other character does not decode |
| `Hexadecimal.UnhexNeedsPairs` | Compiler/bootstrap/noqeridb_host.cpp:57 | nor does text of odd length |
| `DatabaseText.ParseIntOfText` | Compiler/bootstrap/noqeridb_host.cpp:59 | decimal text of any integer is read back |
| `DatabaseText.WordsOfJoin` | Compiler/bootstrap/noqeridb_host.cpp:70 | stream extraction reads back the words of a line, except the empty ones |
| `DatabaseFile.DecodeOfEncode` | Compiler/bootstrap/noqeridb_host.cpp:58-59 | every value is read back from its file form, given that double text is |
| `DatabaseFile.ColumnReadsBack` | Compiler/bootstrap/noqeridb_host.cpp:64-70 | every column with a name is read back from its line |
| `DatabaseFile.TableReadsBack` | Compiler/bootstrap/noqeridb_host.cpp:64-70 | the lines of a table are read back as that table, in any state between tables |
| `DatabaseFile.NamedReadsBack` | Compiler/bootstrap/noqeridb_host.cpp:61-72 | loading what was saved gives the same tables, columns, row order and values when no name is empty |
| `DatabaseFile.SavedReadsBackIff` | Compiler/bootstrap/noqeridb_host.cpp:61-72 | loading what was saved gives the same tables if and only if no name is empty and every table is stored under its own name |
| `DatabaseFile.NamelessColumnIsLost` | Compiler/bootstrap/noqeridb_host.cpp:61-72 | a table with a nameless column is saved to a file that does not give it back |
| `DatabaseSession.LoadState` | Compiler/bootstrap/noqeridb_host.cpp:67-72 | the line loop computes the specified reading, damaged files included |
| `DatabaseSession.LoadRow` | Compiler/bootstrap/noqeridb_host.cpp:70 | reads exactly the announced number of value lines, or finds the row damaged |
| `DatabaseSession.SaveState` | Compiler/bootstrap/noqeridb_host.cpp:61-65 | writes exactly the specified lines |
| `DatabaseLexer.ScriptLexer.Skip` | Compiler/bootstrap/noqeridb_host.cpp:40 | skips blanks and both kinds of comments |
| `DatabaseLexer.ScriptLexer.Text` | Compiler/bootstrap/noqeridb_host.cpp:33-34 | resolves escapes up to the closing quote; without one, an error |
| `DatabaseLexer.ScriptLexer.ReadItem` | Compiler/bootstrap/noqeridb_host.cpp:28-35 | takes the word, number, string or sign at the cursor, or reports the character |
| `DatabaseLexer.ScriptLexer.Run` | Compiler/bootstrap/noqeridb_host.cpp:25-37 | all tokens of the script, and whether there was an error |
| `DatabaseLexer.LexedIsWritable` | Compiler/bootstrap/noqeridb_host.cpp:25-37 | the tokens of any text are a script: one end token at the end, every other one of its kind's form |
| `DatabaseLexer.HasScriptIffWritable` | Compiler/bootstrap/noqeridb_host.cpp:22-42 | a token sequence is what some error-free script text lexes to if and only if each token has its kind's form |
| `DatabaseSession.Session.ReadOne` | Compiler/bootstrap/noqeridb_host.cpp:89 | a value, or failure at the same token |
| `DatabaseSession.Session.Object` | Compiler/bootstrap/noqeridb_host.cpp:90 | fields in order, later ones replacing earlier ones of the same name |
| `DatabaseSession.Session.WhereClause` | Compiler/bootstrap/noqeridb_host.cpp:95 | a malformed condition yields none, like a missing one, but is reported |
| `DatabaseSession.Session.Columns` | Compiler/bootstrap/noqeridb_host.cpp:98 | columns of a declaration, with distinct names and known types |
| `DatabaseSession.Session.Validate` | Compiler/bootstrap/noqeridb_host.cpp:93 | accepts a row exactly if its fields are declared and of their types, required ones are there, and no other row has its unique values |
| `DatabaseSession.Session.Database` | Compiler/bootstrap/noqeridb_host.cpp:97 | switches to another file unless tables of an existing file are loaded |
| `DatabaseSession.Session.DeclareTable` | Compiler/bootstrap/noqeridb_host.cpp:98 | the statement has exactly the specified effect |
| `DatabaseSession.Session.Insert` | Compiler/bootstrap/noqeridb_host.cpp:99 | the same |
| `DatabaseSession.Session.Select` | Compiler/bootstrap/noqeridb_host.cpp:100 | the same |
| `DatabaseSession.Session.Delete` | Compiler/bootstrap/noqeridb_host.cpp:101 | the same; a malformed condition deletes every row in memory and the script fails |
| `DatabaseSession.Session.Update` | Compiler/bootstrap/noqeridb_host.cpp:102 | the same |
| `DatabaseSession.Session.Patch` | Compiler/bootstrap/noqeridb_host.cpp:102 | patches matching rows one by one, each checked against the table as it is then; stops at the first that is not allowed |
| `DatabaseSession.Session.Statement` | Compiler/bootstrap/noqeridb_host.cpp:96-104 | the statement at the cursor has exactly the specified effect |
| `DatabaseSession.Session.Run` | Compiler/bootstrap/noqeridb_host.cpp:80 | statements to the end, each with an optional semicolon |
| `DatabaseSession.ExecuteScript` | Compiler/bootstrap/noqeridb_host.cpp:77-82 | the outcome and the files after it are exactly the specified ones: nothing is written unless the script succeeds |
| `DatabaseSafety.ValidatedFits` | Compiler/bootstrap/noqeridb_host.cpp:93 | an accepted row fits the columns and agrees in no unique or key column with any row but the one it replaces |
| `DatabaseSafety.PatchedPointwise` | Compiler/bootstrap/noqeridb_host.cpp:102 | a successful update patches every matching row and only those |
| `DatabaseSafety.KeptExactly` | Compiler/bootstrap/noqeridb_host.cpp:101 | a delete keeps exactly the rows that do not match |
| `DatabaseSafety.StatementGood` | Compiler/bootstrap/noqeridb_host.cpp:96-104 | every statement that succeeds keeps all tables good |
| `DatabaseSafety.GoodFileLoads` | Compiler/bootstrap/noqeridb_host.cpp:61-72 | a file written by a successful script loads, as good tables, and saving them writes it again |
| `DatabaseSafety.ScriptIsSafe` | Compiler/bootstrap/noqeridb_host.cpp:77-82 | every script keeps every file good; a failing one, even mid-update or with a malformed condition, changes no file |
| `DatabaseSafety.HistoryIsSafe` | Compiler/bootstrap/noqeridb_host.cpp:77-104 | after any sequence of scripts from no files at all, every stored row has only declared, type-compatible columns and all required ones, and no two rows agree on a unique or key column |
| `DatabaseSafety.RunText` | Compiler/bootstrap/noqeridb_host.cpp:109-111 | lexing and running a script's text: the specified outcome, all files good, and none changed by a failure |
| `Sha256Hash.Sha256.Reset` | Compiler/bootstrap/package_host.cpp:167 | a fresh object, with nothing taken in |
| `Sha256Hash.Sha256.Update` | Compiler/bootstrap/package_host.cpp:162-163 | whatever the split, the object stands for the concatenation of the bytes taken in |
| `Sha256Hash.Sha256.Transform` | Compiler/bootstrap/package_host.cpp:168 | one block is compressed as in section 6.2.2 of FIPS 180-4 |
| `Sha256Hash.Sha256.MakeSchedule` | Compiler/bootstrap/package_host.cpp:168 | the 64 words of the message schedule |
| `Sha256Hash.Sha256.FirstBlock` | Compiler/bootstrap/package_host.cpp:164 | the mark, and a block of its own when the length does not fit behind it |
| `Sha256Hash.Sha256.Finish` | Compiler/bootstrap/package_host.cpp:164 | for messages shorter than 2^61 bytes: the hexadecimal hash of everything since the last reset, padded as in section 5.1.1 of FIPS 180-4; then the object starts afresh |
| `Sha256Hash.PaddedIsShortest` | Compiler/bootstrap/package_host.cpp:164 | the padded message is made of whole blocks, begins with the message, and is as short as the mark and the length allow |
| `Sha256Hash.TailHashes` | Compiler/bootstrap/package_host.cpp:164 | hashing can go on from the whole blocks with the padded rest |
| `Sha256Hash.ScheduleOrder` | Compiler/bootstrap/package_host.cpp:168 | the order in which a schedule word is summed does not matter |
| `Sha256Hash.HashPieces` | Compiler/bootstrap/package_host.cpp:159-170 | a message fed in any pieces hashes like the whole message |
| `Generics.MangleGeneric` | Compiler/generics.cpp:29 | the loop computes the specified mangling |
| `Generics.ParseMangledGeneric` | Compiler/generics.cpp:30 | the scan computes the specified reading of a mangled name, or none |
| `Generics.SubstituteType` | Compiler/generics.cpp:32-49 | the character loop computes the specified substitution, inside mangled arguments too |
| `Generics.Matcher.Match` | Compiler/generics.cpp:189-195 | in-place matching ends with the specified bindings, or fails |
| `Generics.Matcher.MatchAll` | Compiler/generics.cpp:191 | arguments are matched in order, with bindings carried along |
| `Generics.InferCall` | Compiler/generics.cpp:197-199 | succeeds exactly if every annotated parameter matches and every generic parameter is bound |
| `GenericMatching.MangleReadsBackIff` | Compiler/generics.cpp:28-30 | for trimmed arguments, a mangled name is read back if and only if its base is not empty and no marker begins earlier in it |
| `GenericMatching.BaseWithMarkerIsCut` | Compiler/generics.cpp:28-30 | the mangling of base `a__nqg` and argument `int` is not read back |
| `GenericMatching.RenderedMangling` | Compiler/generics.cpp:30 | of rendered types exactly the applications, prefixed or not, are read as mangled, with their base and arguments |
| `GenericMatching.KeptType` | Compiler/generics.cpp:32-49 | substitution leaves a type that mentions no parameter as it is |
| `GenericMatching.SubstituteApp` | Compiler/generics.cpp:38-41 | substitution in an application is substitution in its arguments |
| `GenericBinding.ElementOf` | Compiler/generics.cpp:130 | the element of a pointer or slice type is what it was made of |
| `GenericBinding.BindIsMatch` | Compiler/generics.cpp:189-195 | matching on type text is matching the structure of the types: parameters bind, applications need the same base and arity, arrays and names compare as they stand, and below a pointer or slice what is not itself a parameter is matched only if both sides are applications at heart, or neither is |
| `GenericCalls.BindSound` | Compiler/generics.cpp:189-195 | if no array in the pattern mentions a parameter and matching succeeds, earlier bindings stand and every completion of the bindings turns the pattern into the actual type, whatever that type is |
| `GenericCalls.GenericCallIsSound` | Compiler/generics.cpp:197-198 | if no array in an annotation mentions a parameter and every parameter of a call matches, the final bindings turn each annotated type into its argument's type, whatever the arguments are |
| `GenericCalls.ArgumentMentionsParameter` | Compiler/generics.cpp:189-198 | with the parameter `T`, the annotations `T` and `[T;3]` match `int` and `[T;3]`, and the second becomes `[int;3]` |
| `GenericExactness.BindIsSoundIff` | Compiler/generics.cpp:189-195 | matching a type is sound for all actual types and bindings if and only if no array in it mentions a parameter |
| `GenericExactness.MatchKeys` | Compiler/generics.cpp:189-195 | a successful match binds exactly the parameters that stand outside arrays, besides those bound before |
| `GenericExactness.CallGoesWrong` | Compiler/generics.cpp:197-198 | where some array mentions a parameter and all parameters can be inferred, the annotated types with a plain name for each parameter outside arrays are arguments that match and are not what the bindings give |
| `GenericExactness.DeclarationIsSoundIff` | Compiler/generics.cpp:197-199 | every call of a declaration is sound if and only if no array in its annotations mentions a parameter, or some parameter can never be inferred |
| `GenericInstances.InstanceIsInferred` | Compiler/generics.cpp:197-199 | for annotations with no parameter inside arrays or below two pointers or slices, a call with instances of the annotated types infers exactly the types chosen |
| `GenericInstances.InfersInstancesIff` | Compiler/generics.cpp:197-199 | a declaration infers every instance of itself if and only if each parameter stands outside arrays in some annotation and no parameter stands inside an array or below two pointers or slices |
| `GenericInstances.PointerToPointerIsRefused` | Compiler/generics.cpp:189-193 | `*T` matches a pointer to the application of `Box` to `int`, `**T` does not match a pointer to that |
| `InstallGraph.Installer.Visit` | Runtime/package-manager.mjs:269-285 | a visit resolves the package and everything it needs, and leaves the visiting set as it was; or the reported error is real |
| `InstallGraph.Installer.VisitChildren` | Runtime/package-manager.mjs:282 | after it, every dependency is resolved at the version asked for |
| `InstallGraph.Installer.Install` | Runtime/package-manager.mjs:286-287 | the result is exactly the packages reachable from the roots, each once, in the order in which a depth-first search first meets them and under the alias it meets them by; or there is evidence for the error |
| `InstallGraph.ChainResolved` | Runtime/package-manager.mjs:267-288 | whatever a chain of dependencies from a root ends in is resolved at the version asked for |
| `InstallGraph.InstalledIsConsistent` | Runtime/package-manager.mjs:273 | a successful result means that everything asked for exists, in one version per coordinate |
| `InstallGraph.InstallAll` | Runtime/package-manager.mjs:267-288 | always terminates, cycles included, and succeeds if and only if everything reachable is there, in one version each, and the depth-first search in the order of the dependencies stays within the depth limit |
| `ValueLaws.ComparesBySign` | Compiler/bootstrap/interpreter_host.cpp:80 | the six integer comparisons hold by the sign of the mathematical difference of their operands |
| `ValueLaws.ComparesDoubles` | Compiler/bootstrap/interpreter_host.cpp:80 | doubles are compared by the floating-point unit, an integer beside one as a double |
| `ValueLaws.ComputesExactly` | Compiler/bootstrap/interpreter_host.cpp:36-80 | checked integer arithmetic gives the mathematical result or, where that is none of int64, the overflow error; the other arithmetic something congruent to it |
| `ValueLaws.DividesByZero` | Compiler/bootstrap/interpreter_host.cpp:65-74 | division and remainder by zero are their two errors |
| `ValueLaws.ComputesDoubles` | Compiler/bootstrap/interpreter_host.cpp:80 | arithmetic on doubles is the floating-point unit's, with an integer beside a double taken as one |
| `ValueLaws.JoinsTexts` | Compiler/bootstrap/interpreter_host.cpp:80 | the sum of two texts has both lengths, begins with the left one and ends with the right one |
| `ValueLaws.FalseValues` | Compiler/bootstrap/interpreter_host.cpp:21 | false are exactly null, zero, the false truth value, the empty text and zero doubles |
| `ValueLaws.LogicByTruth` | Compiler/bootstrap/interpreter_host.cpp:80 | `&&`, `||` and `!` go by the truth of their operands alone |
| `ValueLaws.UnsupportedIff` | Compiler/bootstrap/interpreter_host.cpp:80 | an operator is reported as unsupported exactly on the kinds of operands it is not for; other errors come from two integers only |
| `ValueLaws.Negates` | Compiler/bootstrap/interpreter_host.cpp:119 | negation is subtraction from zero on integers, the unit's on doubles, and an error on everything else |
| `ValueLaws.CastsByName` | Compiler/bootstrap/interpreter_host.cpp:118 | casts to pointers and integer types keep integers unnarrowed, casts to float types make doubles of them, all others change nothing |
| `ValueLaws.ChecksPassIff` | Compiler/bootstrap/interpreter_host.cpp:107-108 | a null check passes exactly the integers other than zero, a bounds check exactly the indices from zero to below the length |
| `ValueLaws.BindsByPosition` | Compiler/bootstrap/interpreter_host.cpp:91 | exactly the parameters with an argument are bound, to the argument in their place, and the last of equal names counts |
| `ValueLaws.LoweredOperation` | Compiler/nir.cpp:14-33 | the lowered function `return a op b` computes the operator on its two arguments, or fails as it does |
| `ValueLaws.LoweredComparison` | Compiler/nir.cpp:14-33 | run as lowered code, a comparison of two integers returns true exactly by the sign of their difference |
| `SourceLaws.DeclarationsInOrder` | Compiler/nir.cpp:14-24 | functions and top-level statements stay in the order in which they are declared |
| `SourceLaws.CalleeKeepsName` | Compiler/nir.cpp:10 | a callee keeps its name, and one that is not a name is called `<call>` |
| `SourceLaws.LooksUpInnermost` | Compiler/type_checker.cpp:61-64 | a name has the value the innermost scope with that name gives it |
| `SourceLaws.UpdatesInnermost` | Compiler/type_checker.cpp:61-64 | an assignment changes the name in the innermost scope that has it, or else in the outermost one, and nothing else |
| `SourceLaws.UndefinedIsReported` | Compiler/bootstrap/interpreter_host.cpp:97 | a name that no scope has, or a variable that nothing was stored in, is the error that names it |
| `SourceLaws.ThrowsBySign` | Compiler/bootstrap/interpreter_host.cpp:117 | a negative code is thrown as it is, any other as its complement |
| `SourceLaws.ShortCircuits` | Compiler/nir.cpp:73-80 | `&&` and `||` evaluate their right side only where the left one does not decide, and are the side that decides |
| `SourceLaws.ChoosesByTruth` | Compiler/nir.cpp:31-32 | a true condition chooses the first branch, a false one skips an `if` without `else` and ends a loop |
| `SourceLaws.NothingIsNull` | Compiler/bootstrap/interpreter_host.cpp:124-129 | a function that returns nothing or ends without returning yields null |
| `SourceLaws.TriesBySign` | Compiler/bootstrap/interpreter_host.cpp:116 | trying a negative value ends the function with it, in the source and in NIR; any other goes on |
| `SourceLaws.CallsInOrder` | Compiler/bootstrap/interpreter_host.cpp:121 | a call of the host passes the arguments on in their order, behind everything that was called before |
| `OptimizerLaws.FoldIff` | Compiler/optimizer.cpp:10-22 | folding declines exactly where the wrapping interpreter fails, on an integer beside a double, and on doubles divided by zero |
| `OptimizerLaws.FoldsOperators` | Compiler/optimizer.cpp:28 | an operator on known registers becomes a constant with the interpreter's result wherever folding gives one, and stays otherwise |
| `OptimizerLaws.RemovesPassedChecks` | Compiler/optimizer.cpp:29-30 | a check is removed exactly if its operands are known integers on which the interpreter passes it |
| `OptimizerLaws.KeepsOthers` | Compiler/optimizer.cpp:26-32 | all other instructions stay as they are |
| `OptimizerLaws.KnownIff` | Compiler/optimizer.cpp:25-31 | a register is known exactly if its last definition in the folded code is a constant, and with that value |
| `OptimizerLaws.DeadIff` | Compiler/optimizer.cpp:23-35 | dead are exactly no-ops and the instructions that only define a register nobody reads, whatever they are given |
| `OptimizerLaws.LevelsAre` | Compiler/optimizer.cpp:36 | the rounds of each level, written out, and the extra removal of Oz |
| `ControlFlow.EndsBlockIff` | Compiler/nir_analysis.cpp:16 | a block ends exactly behind the instructions after which control does not simply go on |
| `LexerForms.OwnIffForm` | Compiler/bootstrap/lexer_host.cpp:12-16 | the lexer reads a lexeme as one token of a kind exactly if it has the written form of that kind |
| `LexerForms.KeywordsAre` | Compiler/bootstrap/lexer_host.cpp:13 | a word is the keyword the table lists for it, and an identifier otherwise |
| `LexerForms.ClassesAre` | Compiler/bootstrap/lexer_host.cpp:12-15 | the characters of words, numbers, blanks and lines |
| `LexerText.TokenGoesOn` | Compiler/bootstrap/lexer_host.cpp:16 | a token is as long as it can be: what follows does not continue it |
| `LexerText.LexesIff` | Compiler/bootstrap/lexer_host.cpp:12-17 | a text lexes without errors to given tokens if and only if it consists of them: blanks, and lexemes of their forms none of which is continued by what follows |
| `StringLiterals.DecodesWhatIsSpelled` | Compiler/bootstrap/parser_host.cpp:8-27 | a literal decodes to a text if and only if it spells that text: each character by itself or by its escape |
| `StringLiterals.LexedIsWellEscaped` | Compiler/bootstrap/lexer_host.cpp:15 | what is lexed as a string is a closed literal with every backslash followed by what it escapes |
| `StringLiterals.ReadsWhatIsSpelled` | Compiler/bootstrap/noqeridb_host.cpp:33-34 | a script's literal ends at the first quote that is not escaped, and has exactly the text it spells |
| `ExpressionGrammar.Complete` | Compiler/bootstrap/parser_host.cpp:201-246 | every text of a tree, with parentheses anywhere and at least where the grammar's levels need them, is parsed to that tree at that level, and the loops go on behind it |
| `ExpressionGrammar.ExprTook` | Compiler/bootstrap/parser_host.cpp:201-246 | parsing without errors has taken exactly a text of its tree and left the rest |
| `ExpressionGrammar.ParsesIff` | Compiler/bootstrap/parser_host.cpp:201-246 | before a token that does not go on with it, the parser reads a tree without errors if and only if the tokens are a text of it |
| `ExpressionGrammar.OneTree` | Compiler/bootstrap/parser_host.cpp:201-246 | the grammar is unambiguous: no text has two trees |
| `ParsedExpressions.ReadsAsIff` | Compiler/bootstrap/parser_host.cpp:201-246 | a source text is read as a tree if and only if it consists of tokens that, without the comments between them, are a text of that tree |
| `ExpressionForms.RankDecides` | Compiler/bootstrap/parser_host.cpp:213-219 | of two operators in a row the first one's operands are taken together unless the second one has the higher rank, by one table of ranks |
| `ExpressionForms.AssignsToTheRight` | Compiler/bootstrap/parser_host.cpp:202-212 | `a = b = c` assigns to `b` first |
| `ExpressionForms.FrontBindsFirst` | Compiler/bootstrap/parser_host.cpp:220 | an operator in front of an operand binds before any operator behind it |
| `ExpressionForms.OnlyTheseInFront` | Compiler/bootstrap/parser_host.cpp:220 | exactly the six listed tokens are operators in front of an operand |
| `ExpressionForms.OthersEndIt` | Compiler/bootstrap/parser_host.cpp:213-231 | a token without rank, other than `=`, `as`, `(`, `[` and `.`, ends the expression |
| `ExpressionForms.BadTargetIsReported` | Compiler/bootstrap/parser_host.cpp:204-209 | an assignment to anything but a name, an index, a member or a pointer's target is reported as such, and only its left side is kept |
| `ExpressionForms.UnclosedIsReported` | Compiler/bootstrap/parser_host.cpp:244 | a parenthesis that is not closed is reported, and parsing is left |
| `ExpressionForms.NothingBegins` | Compiler/bootstrap/parser_host.cpp:232-246 | a token that begins no expression is reported, as is an integer beyond 64 bits |
| `ExpressionForms.LiteralsByPlace` | Compiler/bootstrap/parser_host.cpp:233 | integer literals are hexadecimal, octal or decimal by their beginning, with the value their digits have by place, modulo 2^64 |
| `FormatterLayout.FormatIsWritten` | Compiler/bootstrap/formatter_host.cpp:4-5 | formatted text is its tokens with what the rules put in front of each, by the kinds of neighbouring tokens and the depth of braces alone |
| `FormatterLayout.LinesAreIndented` | Compiler/bootstrap/formatter_host.cpp:5 | a token that begins a line stands behind a line end and four blanks for each open brace, a closing brace one level less; within a line there is one blank or none |
| `FormatterLayout.TextEndsLine` | Compiler/bootstrap/formatter_host.cpp:5 | formatted text ends with a line end |
| `FormatterLayout.CommentsLoseBlanks` | Compiler/bootstrap/formatter_host.cpp:5 | line comments lose exactly the blanks and tabulators at their end; other tokens are shown as they are |
| `TextForms.HexIsHighFirst` | Compiler/bootstrap/noqeridb_host.cpp:56 | each byte becomes two hexadecimal digits, the higher one first |
| `TextForms.NibbleIs` | Compiler/bootstrap/noqeridb_host.cpp:57 | the digits in both cases, and nothing else, have their values |
| `TextForms.ValueFromLeft` | Compiler/bootstrap/noqeridb_host.cpp:59 | the leading decimal digit counts most |
| `TextForms.NumbersAreRead` | Compiler/bootstrap/noqeridb_host.cpp:59 | a number is read behind blanks and a sign, up to the first character that is no digit |
| `TextForms.TypesAre` | Compiler/bootstrap/noqeridb_host.cpp:53 | the names of the types, in any case |
| `TextForms.CompatibleIs` | Compiler/bootstrap/noqeridb_host.cpp:92 | integers also stand in real columns; otherwise columns hold values of their own kind |
| `TextForms.SameIs` | Compiler/bootstrap/noqeridb_host.cpp:55 | values without doubles are the same exactly if they are equal; an integer is compared with a double as one |
| `TextForms.ScriptSigns` | Compiler/bootstrap/noqeridb_host.cpp:35 | the six signs of scripts |
| `TextForms.SkipsBlanks` | Compiler/bootstrap/noqeridb_host.cpp:40 | what is skipped is blanks and comments, up to a character that begins neither |
| `TextForms.NumbersGoOn` | Compiler/bootstrap/noqeridb_host.cpp:31-32 | a number goes on as far as it can: digits, with one dot among them at most |
| `TextForms.SavedTable` | Compiler/bootstrap/noqeridb_host.cpp:61-65 | the whole file of one table with two columns and a row, line by line |
| `TextForms.MangledBox` | Compiler/generics.cpp:29 | the mangled name of an application with two arguments, character by character |
| `TextForms.TrimsBlanks` | Compiler/generics.cpp:29 | trimming an argument takes the blanks at both ends, and no more |
| `TextForms.ElementsAre` | Compiler/generics.cpp:130 | what slices, volatile pointers, other pointers and arrays are made of |
| `DatabaseDamage.CutFileLoadsIff` | Compiler/bootstrap/noqeridb_host.cpp:67-72 | a saved file that is cut off behind a line loads if and only if a table has just ended there or none begun; it then holds exactly the tables before the cut |
| `DatabaseDamage.HeaderMustMatch` | Compiler/bootstrap/noqeridb_host.cpp:67-69 | a file that does not begin with the header is damaged |
| `DatabaseDamage.UnknownRecordIsFound` | Compiler/bootstrap/noqeridb_host.cpp:70 | a line of no known kind, or of a table outside one, is damage |
| `DatabaseDamage.BadLineIsFound` | Compiler/bootstrap/noqeridb_host.cpp:70 | a table or column whose name or type cannot be read is damage |
| `DatabaseDamage.BadValueIsFound` | Compiler/bootstrap/noqeridb_host.cpp:70 | so is a value line that is none, or whose name or value cannot be read |
| `DatabaseDamage.StoredIff` | Compiler/bootstrap/noqeridb_host.cpp:59 | a stored value is read exactly by its kind; integers beyond 64 bits and unknown kinds are damage |
| `DatabaseDamage.CountsMustAgree` | Compiler/bootstrap/noqeridb_host.cpp:70 | a table that ends with other numbers of columns or rows than its first line announced is damaged |
| `DatabaseMeaning.ValidatesIff` | Compiler/bootstrap/noqeridb_host.cpp:93 | a row is accepted exactly if it fits the columns and clashes with no other row in a unique or key column |
| `DatabaseMeaning.KeptIs` | Compiler/bootstrap/noqeridb_host.cpp:101 | a delete leaves the rows that do not meet the condition, in their order, and has changed something exactly if one meets it |
| `DatabaseMeaning.PatchedIs` | Compiler/bootstrap/noqeridb_host.cpp:102 | an update changes exactly the rows that meet the condition, and succeeds exactly if each may stand beside the changed rows before it and the old ones behind it |
| `DatabaseMeaning.AnswerIs` | Compiler/bootstrap/noqeridb_host.cpp:100 | a query answers the rows that meet the condition, in order, with their values column by column |
| `DatabaseGrammar.StatementStood` | Compiler/bootstrap/noqeridb_host.cpp:96-104 | tokens that are a statement are executed as the statement means on the tables at hand, and fail where it means nothing |
| `DatabaseGrammar.StatementFound` | Compiler/bootstrap/noqeridb_host.cpp:96-104 | whatever is executed without an error is a statement, up to the token where it ends |
| `DatabaseGrammar.FlagsFlag` | Compiler/bootstrap/noqeridb_host.cpp:98 | flags in any order: `key` makes a column unique and required too |
| `DatabaseGrammar.EndingIff` | Compiler/bootstrap/noqeridb_host.cpp:77-104 | tokens that are statements end as these mean one after the other; tokens that are not end in failure |
| `DatabaseGrammar.ScriptSucceedsIff` | Compiler/bootstrap/noqeridb_host.cpp:77-104 | a script succeeds if and only if its tokens are statements that each mean something on the tables the ones before it leave, and then its file holds the tables the last one leaves; any other script changes no file |
| `DatabaseHistory.StatementClean` | Compiler/bootstrap/noqeridb_host.cpp:96-104 | after every statement the tables are marked as changed, or are those of the file |
| `DatabaseHistory.ScriptCommits` | Compiler/bootstrap/noqeridb_host.cpp:77-82 | a script succeeds exactly if its statements do, and then the path it ends at holds exactly the tables it ends with, also if nothing was written, and every other file is as it was |
| `DatabaseHistory.HistoryCommits` | Compiler/bootstrap/noqeridb_host.cpp:77-104 | after any sequence of scripts each path holds the tables last committed there, so that the next script starts from them |
| `DatabaseHistory.DatabaseForgets` | Compiler/bootstrap/noqeridb_host.cpp:97 | a `database` statement is accepted exactly if the new file can be read and the path is the same, or there is no file at the old one, or no table; the tables at hand are replaced by the new path's |
| `DatabaseHistory.UnsavedTableIsLost` | Compiler/bootstrap/noqeridb_host.cpp:97 | a table that is declared before a `database` statement, where no file is yet, is in no file although the script succeeds |
| `Sha256Standard.ChChooses` | Compiler/bootstrap/package_host.cpp:168 | each bit of the first word chooses between the other two: the second where it is set, the third where not |
| `Sha256Standard.MajIsMajority` | Compiler/bootstrap/package_host.cpp:168 | each bit is the one two of the three words agree on |
| `Sha256Standard.RotrRotates` | Compiler/bootstrap/package_host.cpp:166 | bit i of the rotated word is bit i + n of the word, counted round |
| `Sha256Standard.WordIsBigEndian` | Compiler/bootstrap/package_host.cpp:168 | four bytes make a word, the first one highest |
| `Sha256Standard.LengthIsBigEndian` | Compiler/bootstrap/package_host.cpp:164 | the length in bits is the number its eight bytes denote, the first one highest |
| `Sha256Standard.ConstantsAreCubeRoots` | Compiler/bootstrap/package_host.cpp:168 | the 64 round constants are the first 32 fraction bits of the cube roots of 64 primes |
| `Sha256Standard.PrimesAreFirst` | Compiler/bootstrap/package_host.cpp:168 | these are the first 64 primes |
| `Sha256Standard.InitialIsSquareRoots` | Compiler/bootstrap/package_host.cpp:167 | the initial value is the first 32 fraction bits of the square roots of the first eight primes |
| `Sha256Example.HashOfAbc` | Compiler/bootstrap/package_host.cpp:159-170 | the text for the message `abc` is the one FIPS 180-4 publishes |

## Findings

Properties the code does not have, with an input that shows it and the condition under which it does.

- **Dead-code removal misleads jumps** (Compiler/optimizer.cpp:35). Instructions are deleted and jump targets stay.
  `1; if (false) { return 1 } return 2` is lowered to code that returns 2 and, once its unused constant is deleted,
  returns null (`CompilerMeaning.RemovalChangesMeaning`). The removal is the one with renumbered jumps if and only if
  no jump target lies behind a deleted instruction (`DeadCode.DceIsRenumberedIff`); under that condition it keeps
  every run that does not fail (`DeadCode.RemovalKeepsRuns`), as does the whole pipeline
  (`PipelineMeaning.PipelineKeepsRuns`). Code without jumps meets the condition (`PipelineMeaning.JumpFreeIsSafe`).
- **Dead-code removal hides failures** (Compiler/optimizer.cpp:23, :35). `1 / 0;` fails as lowered and ends normally
  after removal (`CompilerMeaning.RemovalHidesFailure`). Of the instructions that can be removed, exactly constants,
  no-ops, unary operators other than `-`, `&&`, `||` and casts that leave the value alone succeed on all operands
  (`DeadCode.NeverFailsIff`); where only such ones are removed, failing runs are kept too
  (`DeadCode.HarmlessRemovalKeepsAllRuns`).
- **An inner declaration overwrites the outer variable** (Compiler/nir.cpp:26-28). The type checker opens a scope per
  block (Compiler/type_checker.cpp:61-64); the lowered code has one table per call. `let x = 1; { let x = 2; } return
  x` returns 2 instead of 1 (`CompilerMeaning.ShadowingChangesMeaning`). When no declaration shadows a visible name,
  the lexical meaning is kept (`CompilerMeaning.LoweringKeepsLexicalMeaning`); blocks side by side may declare the
  same names (`CompilerMeaning.SiblingsAreWellScoped`).
- **Folding ignores checked overflow** (Compiler/optimizer.cpp:9-22). Code that adds 1 to the largest integer fails
  and, once folded, returns the smallest one (`CompilerMeaning.FoldingHidesOverflow`). Where folding gives a value,
  the checking interpreter gives the same one exactly when the true result of `+`, `-`, `*` or `/` is an int64
  (`ConstantFolding.CheckedFoldIff`); the wrapping interpreter always does (`Optimizer.FoldIsWrappingBinary`). With
  checks on, runs that do not fail are kept, and all runs if nothing that is folded overflows
  (`ConstantFolding.FoldingKeepsRuns`).
- **Folding trusts constants that are jumped over** (Compiler/optimizer.cpp:24-34). Code that jumps over `r0 = 5` and
  adds `r0` and 1 fails as it stands and returns 6 once folded
  (`CompilerMeaning.FoldingAnUnwrittenReadChangesMeaning`). Runs that read no unwritten register are kept
  (`ConstantFolding.FoldingKeepsRuns`), and lowered code never reads one
  (`LoweringMeaning.LoweredNeverReadsUnwritten`).
- **Two thrown codes can coincide** (Compiler/bootstrap/interpreter_host.cpp:117). `throw 0` and `throw -1` both leave
  as -1. Two codes leave as the same value exactly when they are equal or add up to -1 (`Values.ThrownCodesCoincide`,
  `ThrownCodes.ThrownCodesArrive`).
- **Formatting can merge tokens** (Compiler/bootstrap/formatter_host.cpp:4-5). `& &` becomes `&&`
  (`FormatterMeaning.AmpersandsDoNotSurvive`), and `1 . 5` becomes `1.5`. Of the sources that lex cleanly, exactly
  those without two adjacent ampersands and without a decimal integer, a dot and a number in a row keep their tokens
  (`FormatterMeaning.FormatKeepsTokens`).
- **Empty names do not survive a database file** (Compiler/bootstrap/noqeridb_host.cpp:61-72): a column named with the
  empty string is written as a missing word (`DatabaseFile.NamelessColumnIsLost`). What is saved is loaded again if
  and only if no name is empty and every table is stored under its own name (`DatabaseFile.SavedReadsBackIff`).
  Scripts create no such names (`DatabaseSafety.GoodFileLoads`).
- **A malformed `where` deletes everything in memory** (Compiler/bootstrap/noqeridb_host.cpp:95, :101). The reported
  error makes the script fail, so nothing is written (`DatabaseGrammar.ScriptSucceedsIff`).
- **A `database` statement can drop tables** (Compiler/bootstrap/noqeridb_host.cpp:97). The check that no data statement
  comes before it looks for the old file, which is not written yet: `table t { } database "b"` succeeds where there is
  no file, and the table is in none (`DatabaseHistory.UnsavedTableIsLost`). The statement is accepted if and only if
  the new file can be read and the path stays the same, or there is no file at the old path, or no table at hand
  (`DatabaseHistory.DatabaseForgets`).
- **A file that is cut off can pass as a smaller one** (Compiler/bootstrap/noqeridb_host.cpp:67-72). The header does not
  say how many tables follow. A saved file that is cut off loads if and only if the cut lies behind the header or the
  end of a table, and then without the tables behind it (`DatabaseDamage.CutFileLoadsIff`).
- **Lines that begin with a sign are not indented** (Compiler/bootstrap/formatter_host.cpp:5). Operands, keywords,
  comments, opening braces and infix stars are, by four blanks a level (`FormatterLayout.LinesAreIndented`).
- **An assignment to an illegal target loses its value** (Compiler/bootstrap/parser_host.cpp:208): `1 = 2` is reported
  and goes on as `1` (`ExpressionForms.BadTargetIsReported`).
- **An array of a parameter is compared as it stands** (Compiler/generics.cpp:189-198). With the parameter `T`,
  annotations `T` and `[T;3]` match the arguments `int` and `[T;3]`, and the final bindings turn `[T;3]` into
  `[int;3]` (`GenericCalls.ArgumentMentionsParameter`). The bindings give every argument's type, in all calls of a
  declaration, if and only if no array in its annotations mentions a parameter, or some parameter can never be
  inferred (`GenericExactness.DeclarationIsSoundIff`).
- **A parameter below two pointers misses applications** (Compiler/generics.cpp:190-192). Before the second pointer is
  taken off, both types are tried as mangled names, and only the argument is one: `**T` does not match `**Box<int>`,
  while `*T` matches `*Box<int>` (`GenericInstances.PointerToPointerIsRefused`). Every instance of a declaration is
  inferred if and only if each parameter stands outside arrays in some annotation, and none stands inside an array or
  below two pointers or slices (`GenericInstances.InfersInstancesIff`).
- **A base with an earlier marker is misread** (Compiler/generics.cpp:28-30): a base that ends in `__nqg` makes a
  marker begin inside it (`GenericMatching.BaseWithMarkerIsCut`). A mangled name is read back if and only if its base
  is not empty and no marker begins earlier (`GenericMatching.MangleReadsBackIff`).
- **The cycle check of the installer never fires** (Runtime/package-manager.mjs:277). A package is resolved before its
  dependencies are visited, so a cycle ends at the resolved check; the error would need evidence that does not exist
  (`InstallGraph.Installer.Visit`).
- **`bind` never meets an unknown kind** (Compiler/generics.cpp:194): type names that are not built in name records
  (Compiler/core.cpp:23), so the last alternative is equality alone, and the model has only that.

## Left out

- Raw memory, pointers, slices, atomics, inline assembly and intrinsics in NIR: the interpreter uses host addresses,
  and taking an address changes what later loads of a variable return.
- Floating-point arithmetic is opaque: folding and the interpreter share the same functions. Double text round trips
  are an assumption on the database's `Reals`.
- `throw` of 2^63 - 1 overflows in the original; the model gives it the exact value.
- Host functions, files, processes, the network and the environment are parameters: an oracle for calls, maps for
  files and fetched packages, a flag for checked overflow. File operations succeed.
- Source positions and the wording of diagnostics; the model has only which errors occur, in order.
- The order in which a `std::map` is iterated is a parameter of saving, any fixed enumeration of the keys.
- Database lines with numbers out of range, and the difference between missing and zero counts on damaged lines.
- Statements other than the modelled ones in the parser; type names are kept as structure instead of text, and the six
  binary levels are one method with the level as a parameter.
- Register types and variable types of the analyzer; only basic blocks are modelled. Value sizes are inputs of the
  allocator.
- Type checking, lifetime analysis, monomorphized instance names and their termination, generic constraints.
- Package manifests, downloads, caches, integrity checks and lock files; a request without a version.
- Native and web back ends, the linker, the self-hosted lowering and the virtual machine in JavaScript.
- Expressions.Parser.Primary: an integer literal out of range is a reported error in the model; in the original
  `std::stoull` throws an exception nobody catches (Compiler/bootstrap/parser_host.cpp:233).
- CompilerMeaning.LoweringKeepsLexicalMeaning: shadowing is excluded as a whole, although some programs that shadow a
  name they never read again keep their meaning.
