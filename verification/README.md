# SVSL, verified

SVSL compiles shaders to SPIR-V and WGSL. Its middle is a flat IR: a value is the index of the
instruction that computes it, and control flow is bracketed by marker instructions. This project models
the parts of the compiler that keep that IR, and the texts around it, correct, and proves what they are
for. Each group of modules below is one such part.

**What instructions mean** (`Semantics`, `SameShape`, `DataRuns`): opcode by opcode, on any machine,
what value an instruction computes, what it leaves in memory and where a marker sends control, with the
operands that the instruction set names. The operand tables of `src/ir/ir_operands.c` are proved right
against it (`Semantics.RenamedDoesTheSame`). Data runs are runs of the step machine below with these
values and choices; the edit buffer and the WGSL back end are proved to keep them.

**Structured control flow and the verifier** (`Ir`, `ControlFlow`, `Scope`, `Verifier`, `NestedMarkers`,
`Machine`, `GraphSearch`, `Reachability`, `RunSafety`, `Stranding`, `Hoisting`, `HoistedStacks`,
`HoistedSafety`, `CfTable`, `CfQueries`, `LoopsOnce`, `Repeating`). Runs are a step machine over the
marker stream, following sections 2.11 and 2.16.1 of the SPIR-V specification: either arm of an `if`,
any case of a `switch`, fall-through, `break`, `continue`, the back edge, `return` and `discard`. Which
positions runs stand at is decided by a search over the stream. The verifier is the imperative loop over
a mutable scope; it accepts exactly the well-formed functions: markers of nested constructs
(`NestedMarkers.PassIffNested`), and operands that have been computed. Constants, undefined values and
variables may be used outside their arm; moving them to the front with the edit buffer gives a function
that is accepted exactly when the original is, and in whose runs every operand of any kind has been
computed, up to the first finding below (`HoistedSafety`). Two findings:

- `src/ir/ir_verify.h:5-12` promises that a value is used only where it dominates. A `continue` in a
  loop without a `loop_continue` marker jumps to `end_loop`, whose condition may be computed after the
  `continue`; the verifier accepts that (`Stranding.AcceptedRunCanGoWrong`). Every run of an accepted
  function is safe if and only if no such `continue` is at a reachable position
  (`RunSafety.SafeIffNoStrandingReached`), which `RunSafety.RunsAreSafe` decides; and what lowering
  produces never has one (`LoweredSafety.LoweredRunsAreSafe`).
- `src/ir/ir_cf.h:31-34` promises that `svsl_ir_cf_loop_repeats` says whether a loop can run its body
  more than once. It looks only at how the body ends, so for `for (;;) { if (c) continue; break; }` it
  answers "once" although a run goes around (`Repeating.ExitingLoopCanRepeat`). The answer is wrong
  exactly when a reachable `continue` of the loop lands where the end marker can be reached
  (`LoopsOnce.RunsAgainIffComesBack`); without a continue section, exactly when a `continue` of the loop
  is reachable (`LoopsOnce.RunsAgainIffContinued`).

**The edit buffer** (`EditModel`, `EditMeaning`, `EditInPlace`, `EditLists`, `EditInOrder`,
`EditBuckets`, `EditPositions`, `EditBuffer`, `EditRuns`, `SoundEdits`, `ConstPool`). A class with the
source's arrays, whose methods record edits and commit them, in place or by the counting sort and
same-array rebuild. The meaning of a function is the term tree of each id, together with the order of
what is placed; and both kinds of commit get where the recorded edits do, with the same memory
(`EditRuns`). A pass whose replacements have the values of what they replace, and that kills only what
writes and steers nothing, keeps every run of the original function (`SoundEdits`). One thing the header
does not ask for: an in-place commit rewrites list slots, so it agrees with a compacting one exactly
when no literal (a case of a switch) shares its slot with an operand that is replaced
(`EditInPlace.InPlaceThenCompact`; `EditLists.SharingIsUnsafe` is an input where they differ). Lists of
literals never come to share slots with lists of operands by an edit: inserting, replacing, killing and
both kinds of commit keep them apart (`EditLists`).

**Inlining with early returns** (`SourceRuns`, `SourceOutcomes`, `LoweredRuns`, `Lowering`,
`EarlyReturns`, `FullInlining`, `LoweringBuilder`, `LoweredMarkers`, `LoweredSafety`, `FlatRuns`,
`FlatSections`, `FlatRefines`, `FlatMeaning`). A fuelled big-step semantics of source statements and of
lowered code; the builder class emits the marker stream that spells the lowered code; and the step
machine, with the store settling each choice, runs that stream to the end the source has. `CallGraph`
proves the recursion check exact, which is what lets inlining end, `CallNesting` that the builder's
depth is the depth of the call graph, and `ByReference` that passing an aggregate by reference is not
observable.

**Single-use inlining in the WGSL back end** (`StraightLine`, `Inlining`, `InlinedText`, `WgslView`,
`WgslMeaning`, `WgslBody`): the lines of a body, each text doing what its instruction does, end with the
memory of the function's only run.

**Integer folding and constant tables** (`Residues`, `IntBits`, `IntFolding`, `ConstTables`), on 64-bit
patterns with the source's canonical encoding.

**The expression parser** (`ExprGrammar`, `Printing`, `SpelledText`, `ParseRoundTrip`, `ShortestText`,
`Grouping`, `ParserCaps`, `ExprParser`), for any precedence table of the source's shape, the source's
own among them.

**The preprocessor** (`Conditionals`, `Unmatched`, `MacroText`, `MacroPieces`, `Macros`, `MacroCalls`,
`MacroExpander`). One finding: `src/front/pp.c:302` says numbers are copied whole, since they can
contain identifier characters; expansion does, but parameter substitution (`src/front/pp.c:261-278`)
scans the body without looking for numbers or strings, so a parameter `f` replaces the suffix of `1.5f`
(`MacroPieces.SuffixIsReplaced`). `MacroPieces.WholeNamesOnly` says exactly for which bodies
substitution replaces whole names only.

**The container** (`SksFields`, `SksFile`, `SksContainer`, `SksParse`, `SksLayout`, `SksIo`): the
writer's byte layout and the reader with its sticky error flag. `Finite` holds counting lemmas used by
others.

What every statement about an edit assumes is the contract that `src/ir/ir_edit.h:1-80` asks of passes:
operands name earlier live ids, replacements come earlier in the committed order, inserts use only what
comes before them, and no surviving user resolves to a killed id (`Edits.Contract` in `EditModel`).

## Model

| member | source | states |
|---|---|---|
| Semantics.RenamedDoesTheSame | src/ir/ir_operands.c:8-61 | an instruction whose operands, where the tables say value, go by other names of the same values, and whose literals are the same, computes the same, writes the same and chooses the same |
| Semantics.OnlyOperandsMatter | src/ir/ir_operands.h:34-53 | nothing but the values of its operands matters to an instruction |
| DataRuns.RunFollows | src/ir/ir.h:24-75 | two programs that are the same but for names run together, step by step, with the same memory and values |
| DataRuns.SameProgramsDoTheSame | src/ir/ir.h:24-75 | and so get to the same places with the same memory |
| Scope.ScopeState.Step | src/ir/ir_cf.c:75-95 | one step of the scope updates depth, serials and the next serial in place as the walk's value does |
| Scope.LiveIffEncloses | src/ir/ir_cf.h:39-59 | the constant-time serial test holds for a recorded (depth, serial) exactly when the recording arm is the current arm or one that encloses it |
| ControlFlow.ArmDeterminesStack | src/ir/ir_cf.h:39-55 | an arm is open at one depth only, and determines the whole stack around it |
| Verifier.CheckOperand | src/ir/ir_verify.c:18-28 | an operand passes exactly when it names an earlier value-producing instruction whose arm is live, or a function-scope entity; otherwise the reported reason is true of it |
| Verifier.CheckMarker | src/ir/ir_verify.c:54-80 | marker checks pass exactly when the marker may stand where it does, including the search outward for what a break or continue leaves |
| Verifier.Verify | src/ir/ir_verify.c:30-88 | accepts exactly the well-formed functions; otherwise names the first instruction at fault with a true reason |
| NestedMarkers.PassIffNested | src/ir/ir_verify.c:54-87 | the marker checks pass and nothing stays open exactly when the instructions are nested constructs, each divided and closed by its own markers |
| NestedMarkers.AcceptedIsNested | src/ir/ir_verify.c:30-88 | so is every accepted function |
| Hoisting.DeclaredIsConstant | src/ir/ir_verify.c:8-10 | the value of a constant, an undefined value or a variable depends on no operand and no memory |
| HoistedSafety.AcceptedAlike | src/ir/ir_verify.c:8-27 | a function is accepted exactly when the one with these moved to the front is |
| HoistedSafety.PlaceOfDeclarationsIsFree | src/ir/ir_verify.c:8-27 | so acceptance does not depend on where they stand, as long as it is before their users |
| HoistedSafety.HoistedRunsComputeAll | src/ir/ir_verify.c:8-27 | in every run of that function each operand, without exception, yields a value and has been computed since its arm was entered, unless the step before was a stranding continue |
| HoistedStacks.StackMoves | src/ir/ir_edit.c:198-224 | moving declarations moves the constructs around every instruction along with it |
| RunSafety.RunFindsOperandsReady | src/ir/ir_verify.c:18-88 | in every run of an accepted function each instruction finds its operands computed since their arm was last entered, unless the step before it was a stranding continue |
| RunSafety.StrandingBreaksRun | src/ir/ir_verify.c:18-88 | a run that reaches a stranding continue goes on to an instruction whose operand is not ready |
| Reachability.ReachableIffStoodAt | src/ir/ir_verify.c:54-87 | a position is found by the search over the stream exactly when some run stands there |
| Reachability.FindReachable | src/ir/ir_verify.c:54-87 | returns exactly the reachable positions, in rounds that end |
| RunSafety.SafeIffNoStrandingReached | src/ir/ir_verify.c:18-88 | all runs of an accepted function are safe if and only if no reachable position strands |
| RunSafety.RunsAreSafe | src/ir/ir_verify.c:18-88 | decides for every accepted function whether all its runs find their operands ready |
| RunSafety.SectionsMakeRunsSafe | src/ir/ir_verify.h:5-12 | when every continue targets a loop with a continue section, all runs find their operands ready |
| RunSafety.RunNeverStuck | src/ir/ir_verify.c:54-87 | a run of an accepted function can always go on until it halts or runs off the end |
| Stranding.AcceptedRunCanGoWrong | src/ir/ir_verify.c:30-88 | a concrete function is accepted although one of its runs uses a value that was not computed |
| CfTable.Build | src/ir/ir_cf.c:5-44 | the four columns built with a stack describe every marker of the stream |
| CfQueries.EndOfOpener | src/ir/ir_cf.c:5-44 | an opener's `end` is its closer, whose `head` is the opener |
| CfQueries.HeadOfCloser | src/ir/ir_cf.c:5-44 | a closer's `head` is its opener, whose `end` is the closer |
| CfQueries.ArmsTile | src/ir/ir_cf.c:14-43 | `arm_end` runs from each arm to the marker that starts the next, or to the construct's end, with no marker of the construct in between |
| CfQueries.BreakTarget | src/ir/ir_cf.c:46-56 | returns exactly the construct that a break or continue of the step machine leaves, NONE exactly when there is none |
| CfQueries.LoopRepeats | src/ir/ir_cf.c:58-63 | answers no exactly when the last instruction of the body that is not a nop is a break, return or discard |
| Repeating.ExitingLoopCanRepeat | src/ir/ir_cf.c:58-63 | a concrete accepted function whose loop body ends in a break, and a run that goes around that loop |
| LoopsOnce.RunsAgainIffEndReached | src/ir/ir_cf.h:31-34 | a loop of an accepted function goes around in some run exactly when its end marker is reachable |
| LoopsOnce.RunsAgainIffComesBack | src/ir/ir_cf.c:58-63 | a loop whose body ends in an exit goes around in some run exactly when a reachable continue of it lands where its end marker can be reached |
| LoopsOnce.RunsAgainIffContinued | src/ir/ir_cf.c:58-63 | without a continue section, exactly when a continue of the loop is reachable |
| LoopsOnce.BodyRunsOnce | src/ir/ir_cf.c:58-63 | a loop whose body ends in an exit and that no continue targets, as the wrapper of an inlined call, goes around in no run |
| EditBuffer.EditBuffer.Resolve | src/ir/ir_edit.h:53-60 | the chain walk finds the id that the replacements lead to |
| EditBuffer.EditBuffer.Replace | src/ir/ir_edit.c:34-40 | records one replacement and nothing else, and keeps the buffer's bookkeeping of the lowest changed id and of what died |
| EditBuffer.EditBuffer.Kill | src/ir/ir_edit.c:42-47 | records one killed id and nothing else |
| EditBuffer.EditBuffer.Insert | src/ir/ir_edit.c:53-70 | records one insert at its anchor, with a copy of its operand list at the end of the pool |
| EditBuckets.SortByAnchor | src/ir/ir_edit.c:198-214 | the counting sort lists the inserts of each anchor in insertion order, bucket after bucket |
| EditBuffer.EditBuffer.CommitInPlace | src/ir/ir_edit.c:124-148 | whatever part of the walk `lowest` or `resolved` skips, the result is that of redirecting every operand |
| EditBuffer.EditBuffer.Compact | src/ir/ir_edit.c:188-256 | the rebuild, in the function's own array when nothing was inserted, gives the committed function |
| EditBuffer.EditBuffer.Rebuild | src/ir/ir_edit.c:152-176 | filling slots downward in the same array never overwrites an instruction that is still to be read |
| EditBuffer.EditBuffer.Commit | src/ir/ir_edit.c:188-256 | which of the three results a commit leaves, and that it answers whether anything changed |
| EditModel.LayoutIsTheOrder | src/ir/ir_edit.c:198-224 | the layout lists every survivor and every insert once, in committed order, and nothing else |
| EditMeaning.CommitPreservesTerm | src/ir/ir_edit.c:188-256 | the term at each new position, unfolded through the operands of the tables, is the term that the id placed there had under the recorded edits |
| EditMeaning.ValueKeepsTerm | src/ir/ir_edit.c:108-116 | an id that survives or was replaced has, at its final position, the term it resolves to |
| EditMeaning.CommitKeepsOrder | src/ir/ir_edit.c:198-224 | placed ids keep their order, and an insert stands before its anchor with only that anchor's inserts between |
| EditMeaning.CommitIsDense | src/ir/ir_edit.c:198-254 | after a compacting commit every operand names a smaller index |
| EditMeaning.CommitDropsNops | src/ir/ir_edit.c:198-224 | and no nop is left |
| EditRuns.CompactingKeepsRuns | src/ir/ir_edit.c:188-256 | whatever a run of the recorded edits does, with every operand seen through its replacements, a run of the committed function does with the same memory and values, and the other way round |
| EditRuns.CompactingKeepsMeaning | src/ir/ir_edit.c:188-256 | from the start, the committed function gets to a place with a memory exactly when the recorded edits do |
| EditRuns.InPlaceKeepsRuns | src/ir/ir_edit.c:118-148 | the same for a commit in place, when no literal shares its slot with a replaced operand |
| EditRuns.InPlaceKeepsMeaning | src/ir/ir_edit.c:118-148 | and so it gets to the same places with the same memory |
| SoundEdits.SoundEditsKeepRuns | src/ir/ir_edit.h:1-12 | when operands have the values of what they resolve to and what is dead writes nothing, every run of the original is a run of the edits |
| SoundEdits.SoundCommitKeepsMeaning | src/ir/ir_edit.h:1-12 | and the function left by an in-place commit gets where the original got, with its memory |
| EditMeaning.ListsContiguous | src/ir/ir_edit.c:152-174 | repacked operand lists follow each other without gaps and end at the end of the pool |
| EditInPlace.InPlaceThenCompact | src/ir/ir_edit.c:118-148 | committing in place and compacting later gives the function that compacting at once does if and only if no literal shares its slot with an operand that is replaced |
| EditLists.ApartCommitsAlike | src/ir/ir_edit.c:118-148 | so they agree whenever literal lists and operand lists share no slots, which every edit keeps |
| EditLists.InsertKeepsApart | src/ir/ir_edit.c:53-70 | an insert keeps literal lists apart from operand lists, since its own list gets new slots |
| EditLists.DyingKeepsApart | src/ir/ir_edit.c:34-47 | so does replacing or killing an instruction |
| EditLists.InPlaceKeepsApart | src/ir/ir_edit.c:118-148 | so does committing in place |
| EditLists.CompactingSeparates | src/ir/ir_edit.c:152-174 | after a compacting commit no two instructions share a list slot |
| EditLists.CompactingLeavesApart | src/ir/ir_edit.c:152-174 | and so the next edit starts with literal lists apart from operand lists |
| EditLists.SharingIsUnsafe | src/ir/ir_edit.c:118-148 | a concrete function within the contract whose shared slot makes the two ways of committing differ |
| EditInPlace.BelowLowestIsResolved | src/ir/ir_edit.c:124-148 | nothing before the lowest changed id can name a changed one, so the walk may start there |
| EditInPlace.ResolvedNeedsOnlyNops | src/ir/ir_edit.h:63-68 | once every operand is resolved, redirecting changes no operand |
| EditInOrder.ResolveOperands | src/ir/ir_edit.c:16-32 | rewrites exactly one instruction's value operands to the ids they resolve to so far |
| EditInOrder.InOrderPass | src/ir/ir_edit.h:63-68 | whatever an in-order pass inserts, replaces and kills at each instruction, the `resolved` mark it sets keeps its promise |
| ConstPool.FillKeepsTable | src/ir/ir_edit.c:86-104 | taking the first empty slot behind a constant's home keeps every constant reachable by probing |
| ConstPool.EmptyEndsSearch | src/ir/ir_edit.c:93-99 | probing up to an empty slot without a hit means the constant is not in the table |
| ConstPool.Pool.Intern | src/ir/ir_edit.c:77-106 | returns an insert of exactly that constant, adds one only when there was none, and keeps the constants of an edit pairwise different |
| SourceRuns.OwnCaseBeforeDefault | src/ir/ir_build.c:1721-1748 | a value with a case of its own selects the first such case wherever the default stands, another one the default, and without a default nothing |
| SourceOutcomes.ShapeAsNeeded | src/ir/ir_build.c:1150-1174 | a body that never returns gets no wrapper loop, and only one that returns inside a loop or switch gets a flag |
| SourceOutcomes.OutcomeFits | src/ir/ir_build.c:1639-1780 | a statement whose breaks and continues are enclosed ends only in ways its surroundings take |
| EarlyReturns.StmtMatches | src/ir/ir_build.c:1639-1780 | lowered code of every statement, in every context, ends as the source statement does: same store, same result, same kind of exit |
| EarlyReturns.BodyMatches | src/ir/ir_build.c:1143-1180 | an inlined body, with or without the one-trip wrapper loop, falls off its end once it has run, with the result stored |
| EarlyReturns.GuardMatches | src/ir/ir_build.c:1021-1027 | the guard behind a loop or switch passes a return on and lets everything else through |
| FullInlining.EntryKeepsMeaning | src/ir/ir_build.c:1873-1905 | an entry point's lowered code ends exactly with its source's store and diverges when the source does |
| FullInlining.CallKeepsMeaning | src/ir/ir_build.c:1063-1193 | one inlined call, wherever it stands, leaves the store and value of the call and touches no older slot |
| FullInlining.OneMeaning | src/ir/ir_build.c:1639-1780 | a statement has at most one outcome, and none besides divergence |
| LoweringBuilder.Builder.LowerStmt | src/ir/ir_build.c:1639-1780 | the builder appends exactly the markers of the lowered statement, restores its context, and fails exactly when calls nest deeper than the cap |
| LoweringBuilder.Builder.LowerEntryPoint | src/ir/ir_build.c:1873-1905 | the emitted stream spells the lowered entry point, unless calls nest too deep |
| FlatRuns.MoveIsStep | src/ir/ir_build.c:1639-1780 | every move of the emitted stream under a store is a step of the machine |
| FlatRuns.GoesIsRun | src/ir/ir_build.c:1639-1780 | so its positions are a run of the machine |
| FlatRuns.RunsAreDeterministic | src/ir/ir_build.c:1639-1780 | the store leaves the stream one way to run |
| FlatRefines.RowDoes | src/ir/ir_build.c:1639-1780 | a piece of the stream, wherever it stands, takes the machine where the nested code it was emitted from says: behind it, to where its break or continue leads, or to a return or discard |
| FlatMeaning.StreamKeepsMeaning | src/ir/ir_build.c:1873-1905 | the instructions of an entry point end by a return or a discard with the store its source leaves, and run for ever exactly when the source does |
| FlatMeaning.StreamEndsOnce | src/ir/ir_build.c:1873-1905 | and in no other way |
| LoweredMarkers.Balanced | src/ir/ir_build.c:1639-1780 | the markers of lowered code leave the stack of open constructs as they found it |
| LoweredSafety.MarkersPass | src/ir/ir_build.c:1639-1780 | every marker that lowering emits passes the verifier's marker checks |
| LoweredSafety.LoweredRunsAreSafe | src/ir/ir_build.c:1685-1778 | for what lowering produces, the operand checks alone make all runs find their operands ready |
| CallGraph.FindCycle | src/sema/check.c:1523-1533 | marking functions in place finds a cycle only if there is one, and otherwise finishes the function with all its calls |
| CallGraph.HasRecursion | src/sema/check.c:1535-1580 | answers true if and only if the recorded call edges contain a cycle |
| CallGraph.CallsDescend | src/sema/check.c:1059-1062 | without a cycle the number of functions below decreases along every call |
| CallGraph.CycleHasNoRank | src/sema/check.c:1523-1533 | with a cycle no measure decreases along every call |
| CallGraph.DepthIsBounded | src/sema/check.c:1523-1580 | the longest chain of calls is shorter than the number of functions |
| CallNesting.UnfoldedDepth | src/ir/ir_build.c:1063-1068 | calls nest in a function whose calls are all unfolded exactly as deep as in the call graph |
| CallNesting.NeverTooDeep | src/ir/ir_build.c:1063-1068 | without recursion and with no more functions than the cap, nesting stays below the cap |
| CallNesting.LowerUnfolded | src/ir/ir_build.c:1873-1905 | so lowering an entry point does not fail |
| ByReference.RunsAgree | src/ir/ir_build.c:1042-1061 | a run that passes arguments by reference and one that copies them stay in agreement through every statement and call |
| ByReference.ReferencesAreUnobservable | src/ir/ir_build.c:1078-1141 | from an entry point both kinds of run end in the same memory, also when the same variable is an out argument of the call |
| Inlining.OperandSink | src/back/emit_wgsl.c:1529-1584 | an operand that is folded into an instruction is evaluated where that instruction is |
| InlinedText.SameMemory | src/back/emit_wgsl.c:1556-1584 | a folded read sees at its sink the memory it was defined on |
| InlinedText.TextsAreSteady | src/back/emit_wgsl.c:1543-1551 | what an instruction spells more than once reads no memory, so that it is the same each time |
| InlinedText.LinesRight | src/back/emit_wgsl.c:1612-1640 | after the lines of the first n instructions, memory and every name are what running them in order gives |
| InlinedText.InliningKeepsMeaning | src/back/emit_wgsl.c:1529-1584 | the emitted lines leave the same final memory and give every effect the same arguments, from any memory, whatever was folded |
| WgslMeaning.QuietChangesNothing | src/ir/ir_operands.c:76-79 | what does not count as an effect leaves memory as it is |
| WgslMeaning.OthersLookAtNothing | src/back/emit_wgsl.c:1494-1521 | what is neither a read nor an effect does not depend on memory |
| WgslMeaning.StatementsAreNotFolded | src/back/emit_wgsl.c:1494-1521 | what can only be written as statements is never folded into an expression |
| WgslMeaning.LinesDoAsInstructions | src/back/emit_wgsl.c:1612-1640 | the lines, each doing what its instruction does, end where the function's data run ends, with its memory |
| WgslMeaning.EndsOnce | src/back/emit_wgsl.c:1612-1640 | which is the only memory it can end with |
| WgslBody.InlineAnalyze | src/back/emit_wgsl.c:1529-1584 | the use counts, last uses and effect sums give exactly the values that may fold |
| WgslBody.EmitFunction | src/back/emit_wgsl.c:1612-1640 | the written body, run line by line on any machine, ends with the memory with which the instructions, run one after the other, end |
| IntBits.CanonIs | src/ir/ir_const.c:36-49 | the canonical encoding of a pattern is that of the value its low bits mean |
| IntBits.CanonicalEncodesValue | src/ir/ir_const.c:36-49 | a value in range is encoded by one canonical pattern, which re-encodes to itself |
| IntFolding.SumsAreExact | src/ir/ir_const.c:219-243 | addition and subtraction are exact modulo the width |
| IntFolding.ProductsAreExact | src/ir/ir_const.c:219-243 | multiplication is exact modulo the width |
| IntFolding.DivisionIsExact | src/ir/ir_const.c:228-238 | division and remainder truncate toward zero, never wrap, and are refused exactly when undefined |
| IntFolding.ComparesAreExact | src/ir/ir_const.c:179-200 | each of the six compares says of the values what its name says, signed or unsigned |
| IntFolding.TruthIsExact | src/ir/ir_const.c:192-205 | truth values fold by the truth tables of and, or, equal, different and not, and by nothing else |
| IntFolding.TruthConverts | src/ir/ir_const.c:271-282 | truth converts to one, and whatever is not zero to truth |
| IntFolding.CommutesExactly | src/ir/ir_operands.c:35-48 | of the operators that fold integers the commutative ones are exactly those whose order of operands never matters |
| IntFolding.BitwiseIsExact | src/ir/ir_const.c:178-244 | and, or and xor give the encoding of the result on the low bits |
| IntFolding.BitwiseByBit | src/ir/ir_const.c:178-244 | each bit of the result comes from the same bits of the operands |
| IntFolding.ShiftRefusesExactly | src/ir/ir_const.c:246-256 | a shift folds exactly when its amount's value is at least zero and below the width |
| IntFolding.ShiftByIsExact | src/ir/ir_const.c:246-256 | a left shift multiplies modulo the width, a right shift divides rounding down |
| IntFolding.UnaryIsExact | src/ir/ir_const.c:258-269 | negation and complement are exact modulo the width |
| IntFolding.ConversionIsExact | src/ir/ir_const.c:69-77 | conversion re-encodes the value that the source kind gives the bits |
| IntFolding.IntFoldsExactly | src/ir/ir_const.c:178-244 | every integer fold is the exact two's complement result, encoded; only undefined ones are refused |
| IntFolding.FoldsAreCanonical | src/ir/ir_const.c:36-49 | results are canonical |
| IntFolding.HighBitsAreIgnored | src/ir/ir_const.c:178-244 | input bits above the width never matter |
| IntFolding.SwappedFoldsTheSame | src/ir/ir_operands.h:58-68 | mirrored compares and commutative operators fold the same with operands swapped |
| ConstTables.BuiltFromLeaves | src/back/emit_spirv.c:443-464 | the composite built with the leaf cursor holds exactly the table's leaves in order |
| ConstTables.SliceIsIndexing | src/ir/ir_const.c:126-160 | the lanes under an index path are the leaves of the part of the composite under that path |
| ConstTables.GlobalLanes | src/ir/ir_const.c:126-160 | returns exactly those lanes when the path leads to a foldable scalar or vector of the wanted type, else nothing |
| ParseRoundTrip.ParsingUndoesPrinting | src/front/parser.c:546-608 | any tree within the caps, printed with only the parentheses it needs, is parsed back unchanged with nothing reported |
| SpelledText.PrintedIsReadable | src/front/parser.c:287-313 | each part of a printed tree can be read where it stands, so no parentheses are missing |
| ShortestText.NothingShorterReads | src/front/parser.c:546-608 | whatever text is read as a tree is at least as long as the printed one |
| ShortestText.NoParensToSpare | src/front/parser.c:287-313 | without any two of its tokens, a pair of parentheses above all, a printed text is not read as its tree |
| Grouping.OperatorsGroup | src/front/parser.c:287-311 | of two operators the one of the tighter class takes the operand between them, of one class the first, except that assignments group to the right |
| Grouping.AllClasses | src/front/parser.c:287-311 | the operators of the classes are all binary operators there are |
| Grouping.PrefixTakesOne | src/front/parser.c:519-529 | a prefix operator takes the operand behind it and nothing more |
| Grouping.ConditionGroups | src/front/parser.c:578-589 | the condition of a ternary takes every operator but assignments and the comma |
| ParserCaps.PrefixesNest | src/front/parser.c:531-545 | 255 prefix operators in a row are read and one more is reported |
| ParserCaps.RowsEnd | src/front/parser.c:569-577 | 511 operators in a row are read and one more is reported |
| ExprParser.Parser.Binary | src/front/parser.c:551-606 | the recursive parser over a mutable position and depth returns what the functional reading does, restores its depth and reports exactly then |
| Conditionals.FileReadsNested | src/front/pp.c:677-733 | on a file nested at most 64 deep exactly the lines that the nested reading selects are live, and nothing is reported |
| Unmatched.AcceptedIffNested | src/front/pp.c:677-733 | a file passes without a report exactly when it is the lines of nested conditionals at most 64 deep, so every directive out of place is reported |
| Conditionals.DeadStaysDead | src/front/pp.c:72-74 | inside a region that is not live no line is live and no macro changes |
| Conditionals.DeadElifs | src/front/pp.c:690-716 | after a branch was taken no later branch of its chain is live |
| Conditionals.Preprocessor.ProcessFile | src/front/pp.c:792-853 | the stack machine over the lines of one file does what stepping its value does |
| MacroText.ListedIsRead | src/front/pp.c:210-238 | arguments written between commas are read back as they were, whatever follows |
| MacroText.ReadIsListed | src/front/pp.c:210-238 | whatever is read as an argument list is one so written, with balanced arguments |
| MacroPieces.WholeNamesOnly | src/front/pp.c:261-278 | substitution replaces whole names only, for all arguments, if and only if no number or string of the body has a parameter inside |
| MacroPieces.SuffixIsReplaced | src/front/pp.c:261-278 | a concrete body whose number is changed by substitution |
| MacroText.TrimStrips | src/front/pp.c:210-238 | trimming an argument takes away the space at its ends and nothing else |
| MacroCalls.SubstituteFills | src/front/pp.c:261-278 | a body of text and parameters by position becomes that text with the argument of the same position at each |
| MacroCalls.BodyIsFilled | src/front/pp.c:261-278 | and every body is one so written |
| MacroCalls.CallInText | src/front/pp.c:286-366 | a call in a text puts out the macro's body with its arguments, expanded, at their parameters, expanded in turn while the macro is busy; what stands before it stays and what follows is expanded |
| MacroCalls.ObjectExpands | src/front/pp.c:324-327 | a macro without parameters puts out its body, expanded while it is busy |
| MacroCalls.WrongCountIsReported | src/front/pp.c:346-352 | a call with another number of arguments is reported and puts out nothing |
| MacroCalls.NoCallStays | src/front/pp.c:329-335 | without a parenthesis the name of a macro with parameters is put out as it stands |
| MacroCalls.NumbersStay | src/front/pp.c:302-307 | numbers are copied whole, whatever names they contain |
| MacroCalls.StringsStay | src/front/pp.c:291-301 | so are string literals, with what their backslashes escape |
| Macros.CapIsUnobservable | src/front/pp.c:242-366 | with no more macro names than the cap nothing is ever too deep and the result does not depend on the cap |
| Macros.SixtyFourNames | src/front/pp.c:244-248 | so with 64 names or fewer the error cannot occur, and with 65 it can |
| Macros.CapIsTight | src/front/pp.c:244-248 | for every cap, a table of one more macro exceeds it |
| Macros.InertIsUnchanged | src/front/pp.c:286-325 | text that names no expandable macro is put out unchanged |
| Macros.PushNests | src/front/pp.c:281-283 | the names being expanded stay macros of the table, each once |
| MacroExpander.ParseArgs | src/front/pp.c:210-238 | the scanning loop returns the number of arguments, as many as are kept, and where the list ends, or refuses exactly the unterminated ones |
| MacroExpander.Expander.ExpandText | src/front/pp.c:286-366 | expansion ends for every table and text, gives the functional expansion and its errors, and leaves the stack of names as it was |
| SksFields.RecordReads | src/out/sks_read.c:35-47 | a record's numbers are read back exactly and its names as far as their fields keep them, whatever follows |
| SksContainer.BufferReads | src/out/sks_write.c:570-595 | a buffer with its defaults and variables is read back |
| SksLayout.FileLayout | src/out/sks_write.c:501-555 | a container is its tag, 282 and 52 bytes of header, and its tables one behind the other |
| SksLayout.HeadLayout | src/out/sks_write.c:501-532 | the version, the name and the counts stand at fixed offsets, lowest byte first |
| SksLayout.FlagsLayout | src/out/sks_write.c:533-555 | so do the features, the operation counts, the wave size and the apron |
| SksLayout.BufferLayout | src/out/sks_write.c:570-595 | a buffer is 49 bytes, its defaults, and 140 bytes for each variable |
| SksLayout.VariableLayout | src/out/sks_write.c:583-594 | where each field of a variable stands |
| SksLayout.InputLayout | src/out/sks_write.c:597-608 | where each field of a vertex input stands |
| SksLayout.ResourceLayout | src/out/sks_write.c:610-667 | where each field of a resource stands |
| SksLayout.SpecLayout | src/out/sks_write.c:669-680 | where each field of a specialisation constant stands |
| SksLayout.SamplerLayout | src/out/sks_write.c:682-688 | where each field of a sampler stands |
| SksLayout.StageLayout | src/out/sks_write.c:690-705 | the language, stage, wave size and length of a stage, and then its code |
| SksContainer.StoredEncodedIff | src/out/sks_write.c:305-337 | a stage is stored encoded exactly when it can be and raw storage is not asked for |
| SksContainer.LoadsWhatIsStored | src/out/sks_write.c:305-337 | a stage loads as the same module whether it is stored encoded, plain, or as the encoder refused it |
| SksParse.CountsAreOk | src/out/sks_read.c:59-63 | the count check never rejects a written container |
| SksParse.FileReads | src/out/sks_read.c:67-209 | reading a written container, whatever follows it, gives its contents and stops at its end |
| SksParse.ParsingUndoesWriting | src/out/sks_write.c:501-708 | parsing undoes writing |
| SksParse.ShownWholeIffNamesFit | src/out/sks_write.c:31-35 | every name and table is shown as written exactly when all names are free of zeros and fit their fields |
| SksParse.CutShortIsRefused | src/out/sks_read.c:27-33 | no proper prefix of a written container parses |
| SksParse.StorageFormIsUnobservable | src/out/sks_write.c:305-337 | plain and encoded stages parse the same |
| SksIo.Writer.WriteFile | src/out/sks_write.c:501-708 | the writer appends exactly the bytes of the container |
| SksIo.Reader.ParseFile | src/out/sks_read.c:67-209 | the cursor with its sticky flag returns exactly what parsing gives, none included |

## Left out

- Floating point: folding, float conversions and unorm or snorm packing are not modelled, since Dafny has no IEEE floats.
- SPIR-V and WGSL text of textures, atomics, barriers, builtins and types; the line and expression trees of `InlinedText` stand for the WGSL text of a body.
- WgslBody.EmitFunction: bodies without control flow only, because the text of nested statements is not modelled; the analysis covers markers.
- Expression lowering: expressions are functions of the store, and calls inside expressions are statements before them, in evaluation order.
- `while` is `for` without an increment; initializers of `for` are statements before it.
- `Machine` chooses branches freely, so its runs include all of a shader's runs and more; only for streams that lowering emits do conditions have values (`FlatRuns`).
- Calls whose callee can fall off its end without a value: the source's value is undefined, and the claims about them stop there.
- Integer widths of ids, counts and serials in the IR passes: they are unbounded, with every count assumed below 2^31; scratch memory is not modelled.
- Optimizer passes themselves: that a pass's replacements have the values of what they replace is what `SoundEdits` assumes of it.
- By-reference arguments: evaluation of argument expressions has no side effects; packed bit fields are left out.
- Parser: postfix forms, calls, casts and literals are one operand token; statements, declarations and error recovery after a report are left out.
- Constant tables of structs: the source gives no constant form to them; types and leaf counts are given.
- Conditionals: the text of a condition is a function of the macro table, and included files are left out, because an included `#endif` can close the includer's entry.
- Macro expansion: the hash buckets of the macro table, comment stripping, `#define` parsing and source locations are left out; `defined` is not treated apart.
- Container: which buffers, inputs and samplers of a program are written, in which order, and the values of reflected fields are given as the contents; the stage codec is any that inverts itself, and `smolv` is not part of this model. Sizes are unbounded: below 2^31 bytes a count that the source reads as negative is one that is larger than the file.
- Container records are read and written by one loop over a table of fields, where the source has a line for each field.
- Files, the command line, diagnostics text, dumps, and the application under `app/`.
