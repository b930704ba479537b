# golua: a verified model of the compiler core and the library algorithms

golua is a Lua 5.5 front end, bytecode compiler and standard library written in
Go. This project models its most intricate parts in Dafny and proves what they
are for. `dafny verify dfyconfig.toml` checks everything.

**The compiler** (LuaValues to Chunk, with IntegerLaws, Nesting, Acceptance,
Legality, Registers and StmtRegisters). A pure Lua subset (nil, booleans,
wrapping 64-bit integers, strings, locals, globals, fields, arithmetic, bitwise
and comparison operators, `and`, `or`, `not`, local declarations, single and
multiple assignment, `if`, `while`, `repeat`, `do`, `break`) has a big-step
meaning (`LuaSource.Eval`, `LuaStmts.ExecBlock`), and the instructions it
compiles to have a small-step meaning (`Machine.Step`), taken from the comments
in `compiler/opcode.go` and the Lua 5.4 Reference Manual. Everything outside the
subset, such as table accesses, metamethods, arithmetic on other types and errors, is a
request to an arbitrary oracle, answered by a value or a raised error; source and
machine must make the same requests in the same order. `ExprSpec` and `StmtSpec`
give the emitted code as plain recursive functions; `ExprSim` to `StmtSim` prove
that this code computes what the source means, divergence and raised errors
included; the classes of `ExprCompiler` and `StmtCompiler` have the source's own
mutable state (register counters, pending queue, fold memo, constant table, break
lists, jumps patched in place) and are proved to emit exactly that code.
`Chunk` puts both together. `Legality` says over the syntax tree alone which blocks
are legal, and that exactly the others are refused, but for the limits on registers,
locals and nesting; `Registers` and `StmtRegisters`, that every operand emitted fits
its field; `IntegerLaws`, what the integer operators do bit by bit, by remainders and
by order, apart from how the model computes them.

**OP_CLOSE placement** (Close*). `CloseWalk` reads a function body by the scoping
rules alone: which locals are in scope at each break and goto, where in the code it
stands, where it goes and which of those locals are still in scope there, which
locals are captured or to be closed in the end, where each block and each round of a
loop ends and what it loses there, and whether the rules are broken. It
knows nothing of pending lists, slots or patching. `CloseCompiler` has the source's
own state: scopes, labels, pending lists, the reserved slots beside the jumps,
swapped in place. `CloseFollow` and `CloseBlocks` prove that the compiler accepts
exactly the bodies that keep the rules and that every jump, and the close and the
way back at the end of every round, come out as `CloseWalk` says. The pending records of breaks, backward gotos and forward gotos are entries
of one table; the two pending lists hold references to them, as the source's
pointers do.

**The pattern engine** (Pattern*), its `gsub`/`gmatch` loops and replacement
strings (ReplacementNotation); **the binary chunk codec** (InstrWord,
CodeTranslation, CodeMeaning, Chunk{Format,Reader,RoundTrip,Layout}, Dumper,
Undumper); **`table.sort`** (TableSort); **glob matching** (Glob*); **the
expression parser** (Expr{Grammar,RoundTrip,Precedence,Parser}); **`%q` and the
string lexer** (QuotedString, StringScan, QuoteRoundTrip, LiteralNotation).

What a pattern, a glob, a replacement string, a string literal, an operator or an
instruction word *means* is stated a second time, away from the functions that read
it: by the notation of the manual, by character codes, by the table of operators, by
bit positions and plain numbers (the modules named Notation, ExprPrecedence,
CodeMeaning, ChunkLayout). Theorems there tie what is read to what is written.

**The coroutine protocol** (Coroutine*) is a state machine over the atomic steps
of goroutines that share locks and channels; nothing in it is sequential code, so
it is stated as steps over a state value and proved for every run. `CoroutineEffects`
says what resume, yield, the end of a coroutine and close come to: after the
operation every step is forced until Lua runs again, and the whole state is given.

Where the source and its own comments differ, the code is followed:

- The comments on `CodeFromRef` and `CodeToRef` (`compiler/undump.go:265-267`, `398`)
  call them inverse over every accepted encoding. They are not:
  a metamethod tag below the arithmetic ones, or an empty loop jump, in
  a reference chunk does not come back (`CodeTranslation.LostWords`, `LostOnLoading`),
  and such a word does something else on the other side
  (`CodeMeaning.ToRefKeeps` and `FromRefKeeps` say exactly which words do the same).
  `ToRefThenBack` and `FromRefThenBack` give the exact domains in both directions,
  as equivalences over the tag, the jump and the index of each word.
- `HasVarArgSlot` is recomputed on load. A dump comes back unchanged exactly when
  the flag already is what loading works out (`ChunkRoundTrip.DumpUndumpSame`);
  that of a main chunk is not (`MainChunkChanges`, `SmallestMainChunk`).
- A quoted string is read back unless its line breaks exceed the lexer's line
  limit; the equivalence is `QuoteRoundTrip.QuoteThenScan`, the smallest failing
  string `QuoteRoundTrip.LastLineBreak`.

## Model

| member | source | states |
|---|---|---|
| Folding.FoldIsArith | compiler/compile_expr.go:587-638 | for all operands the folder's truncating, wrapping arithmetic is Lua's floor and modulo arithmetic on 64 bits, and it declines exactly where that is undefined |
| Folding.FoldSound | compiler/compile_expr.go:644-705 | an expression the compiler folds has that value in every store, with no request made |
| IntegerLaws.BitwiseIs | compiler/compile_expr.go:587-638 | and, or and exclusive or work bit by bit on the two's complement |
| IntegerLaws.ShiftIs | compiler/compile_expr.go:587-638 | a shift moves every bit by its count, in either direction, zeros coming in, whatever the count |
| IntegerLaws.DivisionIs | compiler/compile_expr.go:587-638 | quotient and remainder belong together, the remainder lies on the divisor's side of zero, and only the least integer over -1 wraps |
| IntegerLaws.WrapsAround | compiler/compile_expr.go:587-638 | sums, differences and products differ from the exact ones by a multiple of 2^64 |
| IntegerLaws.OrderIs | vm/vm_compare.go:39-75 | on integers: each is below the next, less is transitive, exactly one of less, equal and greater holds, the other three are their opposites, and nothing is requested for it |
| IntegerLaws.TruthIs | vm/value.go:679-688 | nil and false are false, every other value is true |
| ExprSim.ToRegSim | compiler/compile_expr.go:177-192 | the code for any expression leaves its value in the target register, makes the same requests, raises when it raises, keeps every other live register, and falls out at its end |
| ExprSim.StepSim | compiler/compile_expr.go:197-331 | the same for one step, for every expression form, target registers that are locals read in the expression included |
| ExprSim.ArithSim | compiler/compile_expr.go:838-1090 | arithmetic and bitwise operators, with immediate forms, swapped operands and subtraction rewritten as addition |
| ExprSim.CompareTestSim | compiler/compile_expr.go:1214-1373 | a fused comparison and its jump test the comparison's value in the wanted sense, with immediate and mirrored forms |
| ExprSim.EqualityTestSim | compiler/compile_expr.go:1277-1345 | equality and inequality against an immediate, a pool constant or a register, the constant on either side, skip the jump that follows exactly when the comparison's value differs from the wanted sense |
| ExprSim.RegisterTestSim | compiler/compile_expr.go:1214-1264 | comparisons of two operands, each read in place or from its own temporary, the second not disturbing the first |
| StmtSim.CondJumpSim | compiler/compile_control.go:139-205 | a condition and its jump go on when the condition is true and jump when it is false, keeping all live registers |
| AssignSim.LocalSim | compiler/compile_stmt.go:421-570 | after a local statement, with inlined constants, missing and surplus values, the register of each local in scope holds its value and locals fill the registers densely |
| AssignSim.SingleSim | compiler/compile_stmt.go:801-886 | a single assignment to a local, the environment, a global, field or index stores what the source stores |
| MultiSim.TargetsSim | compiler/compile_stmt.go:588-706 | after the targets are resolved each operand denotes the place evaluated before the statement's stores, whichever later targets reassign a local it uses |
| MultiSim.StoresSim | compiler/compile_stmt.go:764-797 | the stores, right to left, put the values into those places |
| MultiSim.MultiAssignSim | compiler/compile_stmt.go:588-797 | multiple assignment equals evaluating all places, then all values, then storing right to left |
| StmtSim.IfSim | compiler/compile_control.go:10-127 | if with any number of elseif branches and an optional else runs the chosen branch and leaves at its end |
| StmtSim.WhileSim | compiler/compile_control.go:230-299 | while loops simulate, breaks and unfinished runs included |
| StmtSim.RepeatSim | compiler/compile_control.go:306-386 | repeat loops simulate, the condition seeing the body's locals |
| StmtSim.BreakSim | compiler/compile_control.go:740-763 | break reaches the loop's exit with the outer locals as they are |
| StmtSim.BlockSim | compiler/compile_stmt.go:117-247 | every block: a normal end, a break, a raised error and an unfinished run are all mirrored by the machine |
| Chunk.BlockHasNoHoles | compiler/compile_control.go:740-763 | outside a loop an accepted block leaves no break unresolved |
| Chunk.BlockRuns | compiler/compile_stmt.go:117-247 | the lowered code of an accepted block does what the source run does |
| Chunk.CompileChunk | compiler/compile_stmt.go:63-110 | when compiling a block succeeds, the code left in the function state does what the block means, for every oracle, starting registers and run length, and stops exactly when the source run ends; no instruction names a register beyond the recorded stack size or an operand its field cannot hold. It succeeds only for a legal block with no more locals than the limit, and an error is an illegal block or a limit on registers, locals or nesting that is exceeded |
| Chunk.WhyRefused | compiler/compile_stmt.go:117-247 | the same of the specification: a legal block is refused only for a limit it exceeds, an illegal one always |
| Legality.BlockRefuses | compiler/compile_stmt.go:117-247 | for any block in any scope: an accepted one assigns to no name whose innermost declaration is constant, to names, fields and indexes only, and breaks only in loops; a refused one does not, or exceeds the limit the error names |
| Legality.SingleRefuses | compiler/compile_stmt.go:801-886 | a single assignment is refused exactly when its target is constant by its declaration or no target, but for the limits |
| Legality.MultiRefuses | compiler/compile_stmt.go:588-797 | a multiple assignment exactly when one of its targets is, whichever store comes first |
| Legality.LocalRefuses | compiler/compile_stmt.go:421-570 | a local statement exactly when the variables in registers would exceed the limit, a constant that was inlined not counting; what it declares carries the attributes written |
| Acceptance.ToRegOnly | compiler/compile_expr.go:177-331 | an expression is refused for registers only above the register limit, for its depth only beyond the nesting limit, and for nothing else |
| Chunk.StopsTogether | compiler/compile_stmt.go:63-110 | code that mirrors every bounded run stops if and only if the source run ends |
| ExprCompiler.FuncState.CompileExprToReg | compiler/compile_expr.go:154-192 | the loop that drains the pending queue last in, first out emits the instructions, registers and errors of plain recursion |
| ExprCompiler.FuncState.CompileExprStep | compiler/compile_expr.go:197-331 | one step emits its instructions and queues what the recursive compilation would do next |
| ExprCompiler.FuncState.FoldLeftSpine | compiler/compile_expr.go:677-705 | folding a left spine bottom up leaves only right results in the memo |
| ExprCompiler.FuncState.AddConstant | compiler/compiler.go:763-771 | a constant is found at its first index or appended, table and lookup map in step |
| ExprCompiler.FuncState.CompileComparisonTest | compiler/compile_expr.go:1214-1373 | the method chooses among the immediate and register forms as the specification does |
| ExprCompiler.FuncState.CompileLogical | compiler/compile_expr.go:1402-1534 | and/or by TEST or TESTSET with the right operand queued |
| StmtCompiler.PatchedIsResolved | compiler/compiler.go:1141-1183 | patching the recorded break jumps of any emitted code in place resolves exactly its breaks, whatever surrounds it |
| StmtCompiler.Compiler.CompileTargets | compiler/compile_stmt.go:588-706 | the loop over targets with its snapshots emits what the specification says |
| StmtCompiler.Compiler.CompileMultiAssign | compiler/compile_stmt.go:588-797 | the whole statement in place |
| StmtCompiler.Compiler.CompileIf | compiler/compile_control.go:10-127 | nested branches with exit jumps patched at the end equal the specification's relative jumps |
| StmtCompiler.Compiler.CompileWhile | compiler/compile_control.go:230-299 | loop scope, back jump and exit patching in place |
| StmtCompiler.Compiler.CompileRepeat | compiler/compile_control.go:306-386 | constant and general conditions, the scope left after the condition |
| StmtCompiler.Compiler.LeaveScope | compiler/compiler.go:1054-1148 | locals dropped, registers freed to the top of those left, breaks of the scope patched to the next instruction |
| StmtCompiler.Compiler.CompileBlock | compiler/compile_stmt.go:117-247 | any block, stopping at the first error |
| Registers.ToRegContained | compiler/compiler.go:576-586 | no instruction of accepted expression code names a register at or above the high-water mark, which stays within the register limit, nor an immediate, constant or flag that its field cannot hold: the stack size of the prototype is enough and every instruction can be encoded |
| Registers.TestContained | compiler/compile_expr.go:1214-1373 | the same for fused comparisons |
| StmtRegisters.LocalContained | compiler/compile_stmt.go:421-570 | the same for local declarations, the new locals' own registers included |
| StmtRegisters.MultiContained | compiler/compile_stmt.go:588-797 | the same for multiple assignments, with the operands kept for the stores and the copies of the environment |
| StmtRegisters.BlockHolds | compiler/compile_stmt.go:117-247 | the same for every block, whatever the statements in it |
| Nesting.StepFits | compiler/compile_expr.go:177-331 | an expression nested no deeper than the limit is never refused for its depth |
| Nesting.LimitIs | compiler/compile_expr.go:177-192 | below 10000 levels an expression is compiled, at 10000 the compiler gives up |
| Nesting.ChainDepth | compiler/compile_expr.go:144-192 | a left-leaning chain of operators needs no more depth than its deepest operand, however long |
| Nesting.ChainFits | compiler/compile_expr.go:144-192 | so a chain of any length compiles within its operands' depth |
| CloseRules.LevelOfBase | compiler/compiler.go:546-562 | the level of a destination separates the registers kept there from those of every local lost |
| CloseRules.HeldLeave | compiler/compiler.go:1249-1271 | leaving a block settles a jump, or leaves it open only towards the blocks further out |
| CloseRules.OpenLeave | compiler/compiler.go:1119-1138 | a pending goto that leaves a block remembers that the block had something to close |
| CloseRules.CodeUpdate | compiler/compiler.go:1198-1215 | rewriting the slot of one jump leaves every other jump and close intact |
| CloseCompiler.SolvedStatus | compiler/compile_stmt.go:1330-1341 | a goto that reaches its label, at the end of a block or not, has its close exactly when a local it leaves needs one or its block does |
| CloseCompiler.FuncState.ActivateClose | compiler/compiler.go:1198-1215 | the swap puts the close before the jump and the jump still lands on its target |
| CloseCompiler.FuncState.RecordJumpClose | compiler/compiler.go:1224-1241 | a slot is reserved exactly when the question is open |
| CloseCompiler.FuncState.ResolveBlockCloses | compiler/compiler.go:1249-1271 | the pending list after a block: each jump settled for good or still waiting for an outer block |
| CloseCompiler.FuncState.LeaveScope | compiler/compiler.go:1054-1148 | the invariant over all jumps is kept, the block's own close, at the block's base register, is emitted iff a local of it needs one, the breaks of the block land past it, and no other jump, local ever declared or list changes course |
| CloseCompiler.FuncState.CompileBreak | compiler/compile_control.go:740-763 | a break is recorded with the innermost loop as its destination, or is an error |
| CloseCompiler.FuncState.CompileGoto | compiler/compile_stmt.go:1212-1251 | a backward goto lands on the label in sight, a forward one waits |
| CloseCompiler.FuncState.CompileLabel | compiler/compile_stmt.go:1260-1353 | without an error every goto of the block that waits for the name lands on the label; it is an error exactly when the label is in sight already or one of those gotos lacks a local that is in scope at the label |
| CloseRules.SettledIsSound | compiler/compiler.go:1249-1271 | a jump nothing more happens to has its close right before it whenever a local it leaves needs one, at a level that separates those from the ones kept |
| CloseWalk.EveryJumpListed | compiler/compile_control.go:740-763 | the rules give one entry for every break and goto of a body |
| CloseFollow.WentLabel | compiler/compile_stmt.go:1303-1352 | when a label is set the gotos of its block that wait for it go to it with the locals in scope there, and every other jump is as before |
| CloseFollow.MeetsLabel | compiler/compile_stmt.go:1311-1322 | the compiler's count of locals refuses a label exactly when some goto of the block that waits for it lacks a local in scope at the label |
| CloseFollow.GoesOut | compiler/compiler.go:1054-1148 | when a block is left each of its jumps goes where the rules say: breaks out of a loop to its end, gotos to the labels of the block, others on to the blocks outside |
| CloseFollow.RoundEnded | compiler/compile_control.go:249-386 | what is appended at the end of a round of any loop closes the round's variables if one is captured or to be closed, at a level that spares all others, before the loop goes on to the place it goes back to |
| CloseBlocks.CompileBlock | compiler/compile_stmt.go:117-247 | the loop over the statements of a block, with its runs of labels, follows the rules statement by statement and stops at the first error |
| CloseBlocks.CloseIteration | compiler/compile_control.go:249-283 | the method emits that end for while, repeat, numeric and generic for, with and without something to close |
| CloseBlocks.CompileScoped | compiler/compile_control.go:230-735 | blocks, while, repeat and for loops with their conditions and control variables follow the rules; at the end of each round and block the code closes what is lost there and needs it, and goes back where the loop began |
| CloseBlocks.CompileFunction | compiler/compile_stmt.go:1663-1775 | every function body: it is accepted exactly when no break is outside a loop, no label is repeated in sight, no goto enters the scope of a local and every goto has its label; then each break and goto stands where the rules say, lands on its destination with the outermost of its locals in scope there, and if a local it leaves is captured or to be closed by the end of that local's block an OP_CLOSE comes first, at a level no higher than any such local's register and above the register of every local kept; and every end of a round or block has its close, if one of the locals lost there needs it, and its way back |
| CloseBlocks.CapturedLater | compiler/compile_control.go:751-763 | a local captured only after a break, later in the loop body, counts for that break |
| PatternTheorems.BalanceIsRun | stdlib/pattern.go:244-276 | %b matches exactly the shortest balanced run |
| PatternTheorems.FirstIsBest | stdlib/pattern.go:72-189 | the matcher finds an end exactly when some choice of repetitions leads to one, and then the first in greedy and lazy priority order, captures included |
| PatternTheorems.FollowInside | stdlib/pattern.go:191-238 | captures never start before the match |
| PatternTheorems.FirstNoPanic | stdlib/pattern.go:72-189 | a well-formed pattern within the nesting limit raises nothing |
| PatternTheorems.LimitsAre | stdlib/pattern.go:72-85 | recursion 200 deep and 32 captures are allowed, and exactly beyond that the two errors are raised |
| PatternNotation.PieceRead | stdlib/pattern.go:86-189 | every piece written in the manual's notation is read as that piece: elements, sets with ranges and complements, classes by letter, the four modifiers, captures, %b, %f, back references and the final $ |
| PatternNotation.SingleIs | stdlib/pattern.go:415-500 | an element accepts exactly the characters the manual names, the classes given by character code |
| PatternNotation.WrittenMatches | stdlib/pattern.go:72-189 | so matching a pattern written from pieces ends where, and captures what, the first of the ways along the pieces does, each modifier meaning the numbers of times and the order of preference it stands for |
| PatternNotation.RepeatedSingle | stdlib/pattern.go:329-356 | on a run of accepted characters: * takes the whole run, + does and needs one, - takes none, ? at most one |
| PatternMatcher.MatchState.Match | stdlib/pattern.go:72-85 | explicit recursion: result and captures of the specification; on failure level and live captures are as before |
| PatternMatcher.MatchState.MatchHere | stdlib/pattern.go:86-189 | folding simple items into one frame changes nothing |
| PatternMatcher.MatchState.MatchGreedy | stdlib/pattern.go:329-342 | longest run first, one fewer at a time |
| PatternMatcher.MatchState.MatchLazy | stdlib/pattern.go:345-356 | shortest run first |
| PatternMatcher.MatchState.MatchBackRef | stdlib/pattern.go:306-326 | a back reference matches the captured text, with its error cases |
| PatternMatcher.MatchState.MatchCloseCapture | stdlib/pattern.go:221-238 | closing and, on failure, reopening the innermost open capture |
| PatternMatcher.MatchState.MatchBalance | stdlib/pattern.go:244-276 | the counting loop finds the balanced end |
| PatternMatcher.ParseCharSetElems | stdlib/pattern.go:556-580 | the loop yields the set's elements, ranges and escapes included |
| PatternDrivers.LuaMatchFrom | stdlib/pattern.go:374-408 | the leftmost position that matches, from a negative or large start too |
| PatternDrivers.MatchesInOrder | stdlib/string.go:453-520 | matches come in order, do not overlap, and no two end at the same place |
| PatternDrivers.MatchesBounded | stdlib/string.go:453-520 | there are at most one more than the characters left |
| PatternDrivers.NoneMissed | stdlib/string.go:453-520 | no position before the next match matches, but for the empty match at the last end |
| PatternDrivers.NoneMissedBetween | stdlib/string.go:453-520 | nor does any position between two matches or after the last one |
| PatternDrivers.GmatchState.Next | stdlib/string.go:700-733 | the iterator yields exactly the matches gsub sees, one at a time |
| PatternDrivers.Gsub | stdlib/string.go:453-537 | the loop replaces those matches, up to the limit, copies the rest, and returns the original when nothing changed |
| PatternDrivers.ExpandReplacement | stdlib/string.go:541-578 | the expansion loop and its error cases |
| ReplacementNotation.PartsExpand | stdlib/string.go:541-578 | a replacement written from plain characters, %% and %0 to %9 expands to what these stand for: the match, the text of a capture, its position in decimal counted from 1, or the error of a capture that is missing or unfinished |
| ReplacementNotation.Splits | stdlib/string.go:541-578 | every string is such parts, followed by nothing or by a percent sign that begins none |
| ReplacementNotation.StrayRefused | stdlib/string.go:541-578 | and such a sign is the error, unless an earlier part is one |
| PatternDrivers.SplicedSame | stdlib/string.go:453-537 | replacing each match by itself rebuilds the subject |
| PatternDrivers.GsubWhole | stdlib/string.go:408-578 | gsub with replacement %0 returns the subject, whatever the pattern and limit |
| PatternDrivers.QuotedExpands | stdlib/string.go:541-578 | a text with its percent signs doubled expands to itself |
| InstrWord.FieldsMakeWord | compiler/instruction.go:96-197 | every word is rebuilt from its fields, in each layout |
| InstrWord.SetSJFields | compiler/instruction.go:216-221 | setting a jump offset within range changes that field only |
| CodeMeaning.JumpIs | compiler/instruction.go:216-221 | a jump offset is held in 25 bits from bit 7 on, over 16777215, and the opcode stays |
| CodeTranslation.WordRoundTrip | compiler/undump.go:338-445 | a single word comes back exactly when its tag is not in the gap and its loop jump is not the longest |
| CodeTranslation.ToRefThenBack | compiler/undump.go:338-445 | a whole vector comes back word for word exactly when it is translatable |
| CodeTranslation.FromRefThenBack | compiler/undump.go:338-445 | and the exact domain of the other direction |
| CodeTranslation.BareLongSetList | compiler/undump.go:338-445 | a long SETLIST without its EXTRAARG does not come back |
| CodeTranslation.LostOnLoading | compiler/undump.go:338-395 | every metamethod word with a tag below the arithmetic ones and every empty loop jump is accepted and does not come back |
| CodeTranslation.LostOnDumping | compiler/undump.go:399-445 | nor do a tag in the gap and the longest loop jump, the other way round |
| CodeMeaning.ToRefKeeps | compiler/undump.go:399-445 | for every vector and position, the translated word does in the reference what the word does here (the metamethod, the loop target, the first index, the shift, told by bit fields and plain numbers for each side) exactly unless its tag is one of 12 to 18, its loop jump the longest, or its long SETLIST index 0 |
| CodeMeaning.FromRefKeeps | compiler/undump.go:338-395 | and the other way round, exactly unless its tag is one of 0 to 5 or 18 or its loop jump empty |
| CodeMeaning.FromRefRefuses | compiler/undump.go:338-395 | loading fails exactly when a long SETLIST has no second word or an index beyond 33554431 |
| CodeMeaning.SecondWords | compiler/undump.go:297-336 | the word after a long SETLIST is an EXTRAARG in both encodings |
| CodeTranslation.CodeFromRef | compiler/undump.go:338-395 | the in-place rewrite equals the specification and fails exactly where it does |
| CodeTranslation.CodeToRef | compiler/undump.go:399-445 | the copying rewrite equals the specification |
| ChunkRoundTrip.VarintRoundTrip | compiler/undump.go:98-112 | every number within the limit is read back and consumed whole |
| ChunkRoundTrip.IntegerRoundTrip | stdlib/string_dump.go:150-158 | every 64-bit integer survives zigzag coding |
| ChunkRoundTrip.AlignRoundTrip | compiler/undump.go:127-132 | reader and writer skip the same padding |
| ChunkRoundTrip.StringRoundTrip | stdlib/string_dump.go:167-182 | new and repeated strings are read back, the writer's table and the reader's list staying in step |
| ChunkRoundTrip.LinesRoundTrip | compiler/undump.go:566-612 | every line number is rebuilt from deltas and absolute entries, at every instruction |
| ChunkRoundTrip.FunctionRoundTrip | compiler/undump.go:447-633 | a function and everything nested in it is read back and consumed whole |
| ChunkRoundTrip.DumpUndump | stdlib/string_dump.go:55-82 | undumping a dump of any in-range prototype succeeds with that prototype, the vararg slot flag worked out anew, debug data gone when stripped |
| ChunkRoundTrip.DumpUndumpSame | compiler/undump.go:447-633 | it is the same prototype exactly when every vararg slot flag was canonical |
| ChunkRoundTrip.MainChunkChanges | compiler/undump.go:447-500 | the dump of a main chunk is loaded with a vararg slot it did not have |
| Dumper.DumpState.DumpFunction | stdlib/string_dump.go:196-294 | the writer's methods append the specified bytes and keep the string map in step |
| Dumper.DumpState.DumpLines | stdlib/string_dump.go:296-330 | the loop over lines yields the specified deltas and absolute entries |
| Dumper.DumpProto | stdlib/string_dump.go:55-82 | a whole dump |
| ChunkLayout.HeaderIs | stdlib/string_dump.go:55-82 | every dump begins with the signature of version 5.5 and the sizes and samples of its four number types, in value, and goes on with the number of upvalues; nothing that begins otherwise is loaded |
| ChunkLayout.VarintIs | stdlib/string_dump.go:126-141 | a number is written in as few groups of seven bits as it needs, most significant first, all but the last marked |
| ChunkLayout.AlignIs | stdlib/string_dump.go:115-125 | code and absolute lines begin at a multiple of four bytes, after less than four zeros |
| ChunkLayout.FlagIs | stdlib/string_dump.go:218-225 | the vararg flag is 2 for a named table of arguments, else 1 for hidden arguments, else 0 |
| Undumper.UndumpState.LoadFunction | compiler/undump.go:447-633 | the reader's methods agree with the specification, failures included |
| Undumper.UndumpState.RebuildLines | compiler/undump.go:566-612 | the loop over deltas rebuilds the lines |
| Undumper.UndumpChunk | compiler/undump.go:26-53 | a whole load, with every malformed input reported as an error |
| TableSort.SortState.Compare | stdlib/table.go:315-341 | after an error the comparator is not called and the answer is false; an error it raises is recorded |
| TableSort.SortState.ScanRight | stdlib/table.go:399-409 | asks of each position in turn whether it is below the pivot up to the first that is not, and reports an invalid order exactly when even the pivot is said to be |
| TableSort.SortState.ScanLeft | stdlib/table.go:410-421 | asks of each position downwards whether it is above the pivot, and reports an invalid order exactly when one beyond the other scan is said to be |
| TableSort.SortState.Partition | stdlib/table.go:397-429 | the scans and swaps, every read and write bounded by the ends of the slice, permute it and split it by the pivot under a strict weak order; no comparison follows one that raised |
| TableSort.SortState.AuxSort | stdlib/table.go:350-445 | under any comparator the slice is permuted and nothing else touched, recursion is at most the binary logarithm deep, and an error recorded earlier is kept with nothing more compared; under a strict weak order it ends sorted and without an error |
| TableSort.Sort | stdlib/table.go:240-286 | the whole array, any comparator: it is permuted; an error is returned exactly when the last question asked raised it, or was answered yes at the last place of a scan (the invalid order), and no question before it did either; under a strict weak order there is none and the array is sorted |
| GlobLanguage.LeftmostSuffices | glob/glob.go:81-125 | placing a chunk as far left as it fits loses no match |
| GlobMatch.MatchChunk | glob/glob.go:160-228 | a chunk is matched against a prefix, classes, ranges and escapes included |
| GlobMatch.ScanChunk | glob/glob.go:129-155 | the scan splits a pattern at its stars, outside brackets and escapes |
| GlobMatch.Match | glob/glob.go:81-125 | a well-formed pattern matches exactly the upper-cased names in its language; an error is reported only for a malformed one |
| GlobNamed.MatchHelper | glob/named.go:26-161 | the backtracking loop agrees with its recursive specification, captures and errors included |
| GlobNotation.NamesDecided | glob/named.go:26-161 | for every pattern written in the notation (stars, marks, escapes, sets, names, plain characters): the matcher says whether the name can be cut into one piece for each item, and captures the pieces of the names in the first such way, earlier pieces shortest |
| GlobNotation.SetRead | glob/named.go:166-241 | a set is read as its spans, complemented or not, case not counting, whatever follows it |
| GlobNamed.HelperDecides | glob/named.go:26-161 | on plain patterns exhaustive matching decides the language |
| GlobNamed.MatchersAgree | glob/named.go:11-161 | so both matchers agree on every such pattern and name |
| ExprRoundTrip.SubComplete | parser/parse_expr.go:197-216 | the printed tokens of a tree that respects precedence are parsed back into it |
| ExprRoundTrip.SubSound | parser/parse_expr.go:197-216 | whatever is parsed respects precedence, prints to exactly the tokens consumed, and takes all that binds |
| ExprRoundTrip.ParseIffPrinted | parser/parse_expr.go:104-285 | both, as an equivalence, at every limit and within the nesting levels a tree needs |
| ExprRoundTrip.PrintingIsUnambiguous | parser/parse_expr.go:104-126 | two such trees with the same tokens are the same |
| ExprPrecedence.RespectingIsGrouped | parser/parse_expr.go:26-126 | the trees the numeric priorities allow are those grouped as the table of operators says, told by row and direction of grouping alone |
| ExprPrecedence.SubNeeds | parser/parse_expr.go:197-216 | whatever is parsed needs no more nesting than was allowed |
| ExprPrecedence.ParseIffGrouped | parser/parse_expr.go:104-285 | a token sequence is parsed into a tree if and only if it prints the tree, the tree is grouped by the table and its nesting is allowed |
| ExprParser.Parser.ParseSubExpr | parser/parse_expr.go:197-216 | the method with its depth counter and sticky error agrees with the grammar |
| ExprParser.Parser.ContinueBinExpr | parser/parse_expr.go:479-495 | the loop over operators agrees with the grammar, also after an error |
| ExprParser.Parser.ContinueSuffixedExpr | parser/parse_expr.go:287-332 | the loop over fields, indexes and calls |
| ExprParser.Parser.ParseWhole | parser/parse_expr.go:192-285 | a whole expression: accepted trees are the ones grouped by the table of operators, printed by the tokens consumed and within the 200 levels, and every such tree is accepted |
| QuotedString.AppendQuoted | stdlib/string_format.go:1167-1205 | the text built is the quoted form, and its length is the size reserved |
| QuotedString.QuotedByteLen | stdlib/string_format.go:1209-1229 | the size of each escape |
| LiteralNotation.QuotedByteIs | stdlib/string_format.go:1167-1205 | quotes, backslashes and line feeds get a backslash, other bytes that do not print their number, in three digits before a digit and as few as possible otherwise, and all else is copied |
| StringScan.Lexer.ScanString | lexer/lexer_literal.go:14-116 | a literal's value, end, line count and errors, an oversized decimal escape being reported only at the end |
| StringScan.Lexer.ScanEscape | lexer/lexer_literal.go:122-189 | every escape |
| LiteralNotation.EscapeTaken | lexer/lexer_literal.go:122-285 | every escape of the notation (letters for control bytes, two hex digits, up to three decimal ones, code points up to 2^31 as UTF-8, skipped white space, line breaks) is read as the bytes it denotes, with its lines counted |
| LiteralNotation.EscapeMeans | lexer/lexer_literal.go:122-285 | and nothing else is read as an escape |
| LiteralNotation.EncodingIsUnique | lexer/lexer_literal.go:240-272 | no code point is encoded in two ways, so what is written is its shortest encoding |
| LiteralNotation.ReadIffBody | lexer/lexer_literal.go:14-116 | the lexer accepts exactly the literals made of plain bytes and such escapes, with their values, up to line 2147483646 |
| StringScan.Lexer.ScanDecimalEscape | lexer/lexer_literal.go:274-285 | at most three digits |
| StringScan.Lexer.IncLine | lexer/lexer.go:182-194 | paired break characters count as one line, up to the limit |
| QuoteRoundTrip.EscapeRead | lexer/lexer_literal.go:122-285 | each escape written is read as the byte it stands for, whatever byte follows |
| QuoteRoundTrip.QuoteThenScan | stdlib/string_format.go:1167-1205 | for every byte string, anywhere in a text: the literal is read back and ends where the quoted form ends, exactly when the lines suffice |
| QuoteRoundTrip.RestRead | lexer/lexer_literal.go:14-116 | from any byte on the rest of a quoted string is read back, or the lines run out and that is the error |
| QuoteRoundTrip.QuotedIsInjective | stdlib/string_format.go:1167-1205 | two strings quoted alike are the same, whatever their number of lines |
| QuoteRoundTrip.ReadBack | lexer/lexer_literal.go:14-116 | a new lexer over the quoted form returns the string and is at the end |
| CoroutineSafety.OnlyMover | stdlib/coroutine.go:353-529 | in every state of the invariant exactly one goroutine can move |
| CoroutineSafety.StepKeeps | stdlib/coroutine.go:353-742 | no step sends on or closes a closed channel, no send blocks, and the chain of waiting goroutines is kept |
| CoroutineEffects.LeavingLeads | stdlib/coroutine.go:662-742 | after every run: a yield leaves its coroutine suspended and hands Lua to the goroutine that resumed it; returning, or unwinding while being closed, leaves it dead and hands Lua to the one that resumed or closed it; every step in between is forced and the rest of the state unchanged |
| CoroutineEffects.ReachingLeads | stdlib/coroutine.go:354-529 | after every run: resuming a suspended coroutine puts Lua in it, running, with the resumer normal and waiting, the first time in a new goroutine; closing one kills it at once if it never ran and otherwise lets it unwind while the closer waits |
| CoroutineEffects.OthersLead | stdlib/coroutine.go:1001-1240 | resuming anything else, a yield of the main goroutine or of one being closed, and closing anything else change nothing; closing a dead coroutine only forgets it |
| CoroutineEffects.FinishLeads | stdlib/coroutine.go:557-660 | the end of a coroutine, from every state of the invariant |
| CoroutineEffects.ClosedEnds | stdlib/coroutine.go:557-660 | the end of one that is being closed, by returning or by unwinding |
| CoroutineTheorems.RunKeeps | stdlib/coroutine.go:353-742 | so for every run, in any interleaving |
| CoroutineTheorems.ExactlyOneMoves | stdlib/coroutine.go:353-742 | after every run one goroutine can move and no other runs Lua |
| CoroutineTheorems.StatusesMatch | stdlib/coroutine.go:395-470 | the chain from the main goroutine to the running one has no repeats, and each status says where its coroutine stands: running, normal while waiting for one it resumed, suspended, or dead |
| CoroutineTheorems.DeadStep | stdlib/coroutine.go:557-660 | no step revives a dead coroutine or reopens its done channel |
| CoroutineTheorems.DeadForever | stdlib/coroutine.go:557-660 | once dead, dead after every longer run |
| CoroutineTheorems.HandedOn | stdlib/coroutine.go:353-742 | while no Lua runs the next step is forced and brings Lua closer |
| CoroutineTheorems.LuaSoon | stdlib/coroutine.go:353-742 | from every reachable state some goroutine runs Lua within five steps |

## Left out

- Floating point: `/`, `^`, float constants, float operands and their folding. The model's numbers are 64-bit integers; other operands (strings, tables, functions) go to the oracle.
- Calls, table constructors, concatenation, for loops, goto, closures, varargs, methods and Lua 5.5 global declarations in the simulation of compiled code. Goto, closures and for loops are covered by the OP_CLOSE model.
- The limit on jump distances ("control structure too long"), which code of less than 2^24 instructions cannot reach, constant indexes above the 25 bits of an EXTRAARG, more than one upvalue, line numbers, debug names and error texts.
- Legality.BlockRefuses: how many registers a legal block needs is not computed from the tree; a refusal for registers only says that the mark reached exceeds the limit. An expression beyond the nesting limit may still be accepted where it folds to a constant.
- Tail of a function: the return instruction that closes a function body, and jumps whose target is the end of the code. A chunk is run up to the end of its block.
- OP_CLOSE: variables captured by name are the innermost local of that name; shadowing by a later global declaration and the barrier such a declaration puts before a goto are not modelled. The jumps of conditions, the way out of a while loop and the preparation of a for loop appear as ordinary instructions, so an `if` is its tests and jumps as plain code around the blocks of its branches; a new local takes the register above all others, so gaps left by temporaries of a condition do not arise; a function always gets a return of its own at the end.
- CloseBlocks.CompileFunction: says nothing about a close that is emitted although no local the jump leaves needs one; the source decides by block, so a local declared after the jump can cause one.
- PatternDrivers.Gsub: the limit on the size of the result is not modelled, and a callback or table lookup is a function of the match and its number.
- PatternDrivers.GmatchState.Next: anchors are taken literally by gmatch, as in the source; the matcher's own error texts do not carry the capture's index.
- PatternNotation.WrittenMatches: only well-formed patterns are written in the notation; what a malformed one matches before its error is met is said by the reading functions alone.
- GlobNotation.NamesDecided: the same for globs; a malformed set or a lone backslash is an error only once the matcher gets to it.
- CodeMeaning.ToRefKeeps: what a metamethod tag above those of the reference means is left open, by its number.
- PatternTheorems.FirstIsBest: an error outcome (nesting, number of captures, malformed pattern) is only said not to arise for well-formed patterns (FirstNoPanic); which of several errors is raised follows the code in PatternMatcher.
- Dumper.DumpProto: values that are floats or userdata in the constant table, other than as their eight bytes, and dumps longer than a 63-bit size.
- Undumper.UndumpChunk: the header is checked as a whole; its separate error messages, and the source name given to a stripped chunk by the caller, are left out. The ten-byte buffer of a varint is a sequence.
- TableSort.Sort: a comparator or metamethod that changes the array it sorts, and the limit on the array's size; the comparator is an arbitrary function of the call's number and arguments.
- GlobMatch.Match: names and patterns outside ASCII, and word-wise matching (`MatchWords`).
- GlobNamed.MatchHelper: non-ASCII upper-casing.
- ExprParser.Parser.ParseWhole: string and table arguments, method calls, table constructors, function bodies, and lexical errors; the source starts a function with no pending local-variable-limit error, which is taken for granted.
- StringScan.Lexer.ScanString: decoding and re-encoding of UTF-8 in plain characters, which preserves bytes, is taken as reading and writing bytes; columns and the text quoted in errors are left out.
- CoroutineProtocol.Apply: cancellation by a context, the grace timers, reaping on VM.Close, close handlers that yield, a coroutine's instruction budget, and the values passed; the handlers of variables a dead coroutine left pending, which run on another goroutine by VM code that is not part of this model.
- The VM's execution loop, tables, upvalue objects, io, os, debug and the remaining library functions: plumbing, or code that is not part of this model.
