# WAVM in Dafny

This project models the parts of WAVM, a WebAssembly virtual machine, that carry its hardest promises, and proves
those promises for all inputs, all runs or all reachable states. `dafny verify dfyconfig.toml` checks every file.

## What is modelled

- **Validator, emitter and code generation core.** `Validator` and the class `FunctionValidationContext` type-check
  an operator stream; `Typing` says, as a relation on nested bodies that knows nothing of the validator's stacks,
  which bodies are well typed. `Emitter` and the class `EmitFunctionContext` turn the same stream into basic blocks with
  PHIs. `StackMachine` is the reference meaning of a body, with structured control as in section 4.4.5 of the
  WebAssembly Core Specification 1.0; `Cfg` runs the emitted graph. Operators without control flow are one
  parametric operator with a signature and an arbitrary meaning that respects it.
- **Lexer generator.** `RegExp` translates expressions to an NFA, `DFAConversion` is the subset construction,
  `LexerMachine` the compressed table and the scanning loop. `LexerRules` builds the token automaton itself, with
  the states that peek at a separator and the states literals share; `TextFormat` holds the text format's patterns.
- **Wait and notify.** `WaitNotify` is the protocol as interleaved steps of any number of threads;
  `WaitListLifetime` is about the two-step close of a wait list.
- **Runtime state.** `ObjectGC` (mark and sweep), `Tables` (sentinel-biased element arrays), `ResourceQuota`
  (shared quotas under concurrent growth), `CallLayout` (arguments and results in the context buffer).
- **Codecs.** `Varints` and the `Binary` modules are the binary module writer and reader; `Leb` and `BinaryGrammar`
  are the format itself, as relations between bytes and modules. `FloatText` and `FloatPrinting` are the float
  printer and the parser of special values and hexadecimal integers.
- **Text parser.** `LabelScopes` resolves branch target names, with shadowing, error unwinding and recovery.

Exceptions and error returns are `Option` results; random choices of the environment (whether memory can be
committed, which hash table entry comes first, which thread moves) are parameters, steps or nondeterministic choices.

## Main results

- The validator accepts exactly the functions that are nests of constructs and derivable in the typing relation of
  the specification (`TypingExact.AcceptsIffWellTyped`, `FunctionValidation.Validate`).
- A validated body never gets stuck (`Soundness.TypeSoundness`), and its emitted graph has the same results, traps,
  divergence and effects (`Preservation.MeaningPreserved`). Validator and emitter, which treat dead code in two
  different ways, stay in lockstep (`Lockstep.StepLocked`), and the graph is well formed (`EmitterRuns.GraphWellFormed`).
- A scan of the compressed, unrolled DFA returns a token exactly if its rules say so (`DFAConversion.ConvertToDFA`,
  `LexerMachine.Scan`, `LexerTokens.TokenExact`), if and only if shared states mix no rules
  (`LexerMixed.ExactIffUnmixed`), as those of the text format do not (`TextFormat.TextExact`).
- Waits sleep exactly on the value they ask for (`WaitNotifyHistory.SleepsExactly`), waits and notifies pair up
  exactly, in order and without lost wake-ups (`WaitNotifyRuns.ResultsExact`, `ReleasedInOrder`, `NotifySeesAll`), and
  exactly one kind of step can fail (`FailuresExact`).
- Collection deletes exactly the objects no path of field references leads to, and leaves nothing dangling
  (`ObjectGC.CollectGarbage`), overlapping table copies are copies of a snapshot (`Tables.TableCopy`), and quotas are
  conserved and enforced over all interleavings (`ResourceQuota.QuotaConserved`, `QuotaEnforced`).
- A byte string is read as a module exactly if it encodes the module by the grammar of the binary format and passes
  the checks, and whatever is written is such an encoding (`BinaryReadExact.ModuleExact`,
  `BinaryWriteExact.ModuleWritten`). Writing and reading are inverse, both ways, with exact conditions and whatever
  validation does (`BinaryModule.ModuleRoundTrip`, `BinaryStable.ReadWriteReadModule`), and printed floats denote
  exactly their values (`FloatText.TextExact`).
- Branch labels resolve to the innermost construct through errors and recovery (`LabelScopes.ParseSequence`).

## Model

| member | source | states |
|---|---|---|
| `FunctionValidation.Validate` | Lib/IR/Validate.cpp:238-382 | the validator's loop over its two stacks accepts a function exactly if it is well typed: its stream is a nest of constructs that the typing relation derives with the declared results, every local is of an enabled type, and nothing is left open |
| `TypingExact.AcceptsIffWellTyped` | Lib/IR/Validate.cpp:238-520 | for every function whose module types were checked: the validation steps accept it if and only if its stream is a nested body and an `end`, and the declarative typing relation (section 3.3 of the WebAssembly Core Specification 1.0, with any operands behind branches, returns and `unreachable`, and the feature conditions on types) takes no operands to the declared results |
| `TypingComplete.Completes` | Lib/IR/Validate.cpp:326-520 | completeness: the validator runs through every nested body that is typed, stays in its context, and its operands stand for the derived ones, fewer of them in unreachable code |
| `TypingBodies.BodyTyped` | Lib/IR/Validate.cpp:326-520 | soundness: whatever nested body the validator runs through is typed; in unreachable code with as many operands of the bottom type below the known ones as the rest needs |
| `TypingExact.Parse` | Lib/IR/Validate.cpp:350-382 | a stream that closes the present context starts with a nested body and an `end` or `else` at its own level |
| `TypedOperands.PopTupleIs` | Lib/IR/Validate.cpp:776-845 | popping a tuple succeeds exactly if the operands, from the topmost down, match its types, and only an unreachable context has too few of them; it takes that many operands or all there are |
| `TypedOperands.BlockTypedIff` | Lib/IR/Validate.cpp:157-183 | a block type is accepted exactly if its result type is enabled, or its index is known and, without the extension for multiple values, it has no parameters and at most one result |
| `TypedOperands.EnabledIffValid` | Lib/IR/Validate.cpp:41-63 | numeric types need the base features, vectors and references their extension, and nothing else is usable |
| `TypedOperands.MatchesIffSubtype` | Include/WAVM/IR/Types.h:71-94 | subtyping is exactly: equal, from bottom, to `any`, or along nullref, funcref, anyref |
| `FunctionValidation.FunctionValidationContext.constructor` | Lib/IR/Validate.cpp:238-273 | the context starts with the function's own control context and an empty operand stack |
| `FunctionValidation.FunctionValidationContext.PeekAndValidateOperand` | Lib/IR/Validate.cpp:776-808 | the operand at a depth, or bottom below the base of an unreachable context; no value on underflow or a type mismatch |
| `FunctionValidation.FunctionValidationContext.PopAndValidateOperand` | Lib/IR/Validate.cpp:832-840 | pops what peeking finds, and leaves an unreachable context's base alone |
| `FunctionValidation.FunctionValidationContext.PopAndValidateTuple` | Lib/IR/Validate.cpp:810-845 | pops a tuple from the last type to the first, exactly when all types fit |
| `FunctionValidation.FunctionValidationContext.PeekAndValidateTuple` | Lib/IR/Validate.cpp:847-854 | succeeds exactly when every operand of the tuple can be peeked |
| `FunctionValidation.FunctionValidationContext.PushOperandTuple` | Lib/IR/Validate.cpp:857-860 | the types are on the stack in order |
| `FunctionValidation.FunctionValidationContext.PushControlStack` | Lib/IR/Validate.cpp:725-731 | the new context is reachable and starts at the current stack height |
| `FunctionValidation.FunctionValidationContext.EnterUnreachable` | Lib/IR/Validate.cpp:750-756 | the stack is cut to the base of the innermost context, which becomes unreachable |
| `FunctionValidation.FunctionValidationContext.Open` | Lib/IR/Validate.cpp:326-349 | block, loop and if check and re-push their parameters under a new control context |
| `FunctionValidation.FunctionValidationContext.Else` | Lib/IR/Validate.cpp:350-364 | closes the first arm exactly with its results and reopens the context with the if's parameters |
| `FunctionValidation.FunctionValidationContext.End` | Lib/IR/Validate.cpp:365-382 | closes a context exactly when its results are on the stack and nothing else, and an if without else has equal parameters and results |
| `FunctionValidation.FunctionValidationContext.Branch` | Lib/IR/Validate.cpp:429-468 | br and br_if check the target parameters and, for br_if, put back the declared ones in place of the actual ones |
| `FunctionValidation.FunctionValidationContext.LocalAccess` | Lib/IR/Validate.cpp:507-520 | local.get, local.set and local.tee check the index and the type of the local |
| `FunctionValidation.FunctionValidationContext.BrTable` | Lib/IR/Validate.cpp:434-461 | every table entry's parameters can be peeked and those of the default are popped |
| `FunctionValidation.FunctionValidationContext.Select` | Lib/IR/Validate.cpp:473-505 | the untyped form unifies two numeric operands with bottom as unit; the typed form checks its type |
| `FunctionValidation.FunctionValidationContext.Visit` | Lib/IR/Validate.cpp:326-520 | one operator accepts and changes the context exactly as the validation rules' step |
| `BottomFree.BottomNeverReachable` | Lib/IR/Validate.cpp:694-860 | at every point of every accepted body, no operand of a reachable context has the bottom type |
| `Soundness.TypeSoundness` | Lib/IR/Validate.cpp:694-860 | on every run of the stack machine on an accepted body no operand is ever missing or ill-typed, and a finished run leaves values of exactly the declared result types |
| `FunctionEmission.EmitFunction` | Lib/LLVMJIT/EmitFunction.cpp:327-421 | the emitter's loop over mutable stacks yields the graph of the emission function, for every accepted body |
| `FunctionEmission.EmitFunctionContext.constructor` | Lib/LLVMJIT/EmitFunctionContext.h:30-120 | the context starts without blocks, operands, contexts and targets |
| `FunctionEmission.EmitFunctionContext.PopMultiple` | Lib/LLVMJIT/EmitFunctionContext.h:90-96 | the topmost operands in stack order, never below the base of the innermost context |
| `FunctionEmission.EmitFunctionContext.EmitPrologue` | Lib/LLVMJIT/EmitFunction.cpp:327-392 | the entry and return blocks, the stores of parameters and zeros to the locals, and the function context |
| `FunctionEmission.EmitFunctionContext.CreatePHIs` | Lib/LLVMJIT/EmitFunction.cpp:53-62 | one new PHI without entries per type, in order, in the given block |
| `FunctionEmission.EmitFunctionContext.PushControlStack` | Lib/LLVMJIT/EmitFunction.cpp:214-233 | the new context records the heights of the operand and target stacks and is reachable |
| `FunctionEmission.EmitFunctionContext.BranchToEndOfControlContext` | Lib/LLVMJIT/EmitFunction.cpp:242-262 | a reachable context feeds all its results to the end PHIs and jumps; an unreachable one only checks its stack |
| `FunctionEmission.EmitFunctionContext.EnterUnreachable` | Lib/LLVMJIT/EmitFunction.cpp:264-273 | truncates the stack to the context's base and marks it unreachable |
| `FunctionEmission.EmitFunctionContext.Block` | Lib/LLVMJIT/EmitCore.cpp:35-56 | a block's end PHIs, context and target, with its parameters still on the stack |
| `FunctionEmission.EmitFunctionContext.Loop` | Lib/LLVMJIT/EmitCore.cpp:57-86 | a loop's parameter PHIs carry the arguments and replace them on the stack |
| `FunctionEmission.EmitFunctionContext.If` | Lib/LLVMJIT/EmitCore.cpp:87-120 | the conditional branch, the pending else block and the arguments kept for it |
| `FunctionEmission.EmitFunctionContext.Else` | Lib/LLVMJIT/EmitCore.cpp:121-141 | the first arm joins the end block and the second starts with the kept arguments |
| `FunctionEmission.EmitFunctionContext.End` | Lib/LLVMJIT/EmitCore.cpp:142-202 | the dummy else, the erased PHIs replaced by zeros, and the restored targets |
| `FunctionEmission.EmitFunctionContext.TakeEndPhis` | Lib/LLVMJIT/EmitCore.cpp:174-198 | PHIs without entries leave the block and are zeros on the stack, all others are values |
| `FunctionEmission.EmitFunctionContext.BrIf` | Lib/LLVMJIT/EmitCore.cpp:204-228 | feeds the target without popping and goes on in a new block |
| `FunctionEmission.EmitFunctionContext.Br` | Lib/LLVMJIT/EmitCore.cpp:230-248 | pops the arguments into the target's PHIs and ends the block |
| `FunctionEmission.EmitFunctionContext.BrTable` | Lib/LLVMJIT/EmitCore.cpp:249-294 | one PHI entry per table entry, repeated targets included |
| `FunctionEmission.EmitFunctionContext.Return` | Lib/LLVMJIT/EmitCore.cpp:295-310 | pops the results into the return block's PHIs |
| `FunctionEmission.EmitFunctionContext.Visit` | Lib/LLVMJIT/EmitCore.cpp:35-319 | one operator in reachable code changes the context exactly as the emission step |
| `FunctionEmission.EmitFunctionContext.SkipUnreachable` | Lib/LLVMJIT/EmitFunction.cpp:277-325 | dead code only counts nesting, and the matching else or end wakes the emitter |
| `FunctionEmission.BackwardsIsAll` | Lib/LLVMJIT/EmitCore.cpp:230-248 | feeding distinct PHIs from the last to the first gives the same block as from the first to the last |
| `Lockstep.InitialLocked` | Lib/LLVMJIT/EmitFunction.cpp:327-365 | validator and emitter start in lockstep |
| `Lockstep.StepLocked` | Lib/LLVMJIT/EmitFunction.cpp:277-325 | every operator the validator accepts keeps them in lockstep: the emitter's control stack is the validator's without the skipped innermost contexts, heights agree in reachable code, and no emitter assertion fails |
| `EmitterFacts.StepKeeps` | Lib/LLVMJIT/EmitCore.cpp:35-319 | every emission step keeps the graph's invariant: pending blocks, one terminator elsewhere, PHI entries equal to edges, no register used before it is created |
| `EmitterRuns.EmitSucceeds` | Lib/LLVMJIT/EmitFunction.cpp:327-421 | emission of every accepted body reaches the end without a failed assertion |
| `EmitterRuns.GraphWellFormed` | Lib/LLVMJIT/EmitCore.cpp:142-294 | in the finished graph every block has exactly one terminator, at its end, and every PHI has exactly as many entries from a block as there are edges from it |
| `ErasedPhis.EndErases` | Lib/LLVMJIT/EmitCore.cpp:174-198 | an end PHI is erased at its end exactly when no edge leads to its block |
| `ErasedPhis.ErasedIffUnbranched` | Lib/LLVMJIT/EmitCore.cpp:142-202 | the same in the finished graph: no later operator adds an edge to a closed block |
| `Preservation.StepSim` | Lib/LLVMJIT/EmitCore.cpp:35-319 | each step of the stack machine is answered by steps of the graph that lead to matching states |
| `Preservation.RunSim` | Lib/LLVMJIT/EmitFunction.cpp:327-421 | the same for runs of any length, with enough graph steps that divergence is preserved |
| `Preservation.Agreement` | Lib/LLVMJIT/EmitFunction.cpp:327-421 | a graph that has stopped stopped like the stack machine, which has stopped too |
| `Preservation.MeaningPreserved` | Lib/LLVMJIT/EmitCore.cpp:35-319 | for every accepted body, arguments and operator meaning, the graph returns, traps or diverges exactly as the stack machine does, with the same results and world, and never reads an undefined value |
| `NFA.Builder.constructor` | Lib/NFA/NFA.cpp:45-50 | a builder has one state without edges |
| `NFA.Builder.AddState` | Lib/NFA/NFA.cpp:52-57 | the new state has the next index and no edges |
| `NFA.Builder.AddEdge` | Lib/NFA/NFA.cpp:59-67 | the characters join those of an existing edge, and valid automata stay valid |
| `NFA.Builder.AddEpsilonEdge` | Lib/NFA/NFA.cpp:69-72 | an epsilon edge is added at most once |
| `NFA.Builder.GetNonTerminalEdge` | Lib/NFA/NFA.cpp:74-84 | some non-terminal successor on the character, or the unmatched terminal exactly if there is none |
| `NFA.ClosureLeast` | Lib/NFA/NFA.cpp:120-131 | the closure is the least superset closed under epsilon edges |
| `SubsetConstruction.EpsilonClosure` | Lib/NFA/NFA.cpp:120-131 | the growing list ends as exactly the epsilon closure, without duplicates |
| `SubsetConstruction.SplitTerminal` | Lib/NFA/NFA.cpp:133-149 | gives up exactly on two different terminals; otherwise the own terminal with the no-consume bit set |
| `SubsetConstruction.NumberFollowing` | Lib/NFA/NFA.cpp:151-173 | a numbering of exactly the following states and the own terminal, each once, also when the own terminal is a following state |
| `SubsetConstruction.Transpose` | Lib/NFA/NFA.cpp:185-203 | per character, exactly the numbers of the states that follow on it |
| `SubsetConstruction.Following` | Lib/NFA/NFA.cpp:120-211 | per character, exactly the successors, or the own terminal if there are none |
| `DFAConversion.ConvertToDFA` | Lib/NFA/NFA.cpp:96-290 | the worklist terminates on every automaton; it gives up exactly when a scan can meet a set with two terminals or more than 64 local states; otherwise the DFA stops on every input at the same terminal and position as the simulation of closed state sets, flagged terminals included |
| `DFAConversion.TargetState` | Lib/NFA/NFA.cpp:240-259 | a single terminal stands for itself, and any other set gets one DFA state that is found again |
| `DFAConversion.UniqueSets` | Lib/NFA/NFA.cpp:213-219 | exactly the state sets that follow on some character |
| `DFAConversion.Expand` | Lib/NFA/NFA.cpp:118-275 | one round of the worklist keeps every finished row right and fails exactly on an unsupported set |
| `DFAConversion.RunSimulates` | Lib/NFA/NFA.cpp:96-290 | the same from every DFA state and position |
| `DFAConversion.EverySetListed` | Lib/NFA/NFA.cpp:213-275 | every state set a scan can meet stands behind some DFA state |
| `LexerMachine.SortByColumn` | Lib/NFA/NFA.cpp:348-364 | all 256 characters in the byte order of their transition columns |
| `LexerMachine.FindClasses` | Lib/NFA/NFA.cpp:366-381 | one class per distinct column, and every character in the class of its column |
| `LexerMachine.FillTable` | Lib/NFA/NFA.cpp:383-392 | the table holds the transitions of every state on the representative of every class |
| `LexerMachine.Machine.constructor` | Lib/NFA/NFA.cpp:339-401 | the compressed lookup of every state and character stays in range and equals the transition; the number of classes is the number of distinct columns |
| `LexerMachine.Feed` | Include/WAVM/NFA/NFA.h:57-92 | the unrolled scanning loop stops where the DFA stops, and un-consumes exactly on flagged terminals |
| `LexerMachine.Scan` | Include/WAVM/NFA/NFA.h:54-92 | from an NFA to a scan that stops: the result is that of simulating closed state sets, and there is none exactly if the conversion gives up or the DFA has more than 32767 states |
| `RegExp.CreateNFA` | Lib/RegExp/RegExp.cpp:284-337 | the recursive translation adds exactly the states and edges of the translation function |
| `RegExp.CreateLabels` | Lib/RegExp/RegExp.cpp:284-337 | every loop word leads from the initial state back to it and every core word to the final state |
| `RegExp.PathGrows` | Lib/NFA/NFA.cpp:59-72 | later additions to the builder never lose a path |
| `RegExpExact.TranslationExact` | Lib/RegExp/RegExp.cpp:284-337 | between a fresh initial state and a final state without edges, exactly the translated language is accepted |
| `RegExpExact.TranslatedContains` | Lib/RegExp/RegExp.cpp:284-337 | the translated language contains the expression's, for all expressions |
| `RegExpExact.SeparatedExact` | Lib/RegExp/RegExp.cpp:284-337 | under the same syntactic condition as below the translated language is the language of the expression |
| `RegExpExact.SeparatedAccepts` | Lib/RegExp/RegExp.cpp:284-337 | if no alternative, option or repetition has a star-leading operand, exactly the expression's language is accepted |
| `RegExpExact.ExactIffLoopsStay` | Lib/RegExp/RegExp.cpp:297-303 | the two languages are equal if and only if core words are in the language and loop words lead from words of the language to words of the language |
| `RegExpExact.LoopLeaks` | Lib/RegExp/RegExp.cpp:297-303 | the alternative of `a*` and `b` also accepts "ab" |
| `LexerRules.CreateTokenSeparatorPeekState` | Lib/WASTParse/Lexer.cpp:54-73 | a new state whose only edges lead, on separators, to the token with the no-consume bit |
| `LexerRules.SeparatorsExact` | Lib/WASTParse/Lexer.cpp:57-66 | the separators are exactly space, tab, carriage return, newline, `=`, `(`, `)`, `;` and the null character |
| `LexerRules.AddLiteralString` | Lib/WASTParse/Lexer.cpp:75-92 | adds a literal that shares an existing state wherever some non-terminal edge on its character exists, whichever one the hash table yields |
| `LexerRules.AddLiteralToken` | Lib/WASTParse/Lexer.cpp:94-103 | a literal token ends in a peek state unless it is a separator itself |
| `LexerRules.BuildLexer` | Lib/WASTParse/Lexer.cpp:181-207 | the automaton of all patterns and then all literals, valid for the conversion |
| `LexerRules.LexerContains` | Lib/WASTParse/Lexer.cpp:181-207 | every text of a token followed by a separator leads to the token, whatever states literals share |
| `LexerExact.LexerIsExact` | Lib/WASTParse/Lexer.cpp:75-103 | if no word can be mistaken for a literal where it may share a state of a pattern, a word leads to a terminal exactly if it is one of the terminal's words, whichever states the hash table makes literals share |
| `LexerMixed.ExactIffUnmixed` | Lib/WASTParse/Lexer.cpp:75-103 | for all rules: every automaton that the construction can build is exact if and only if every word that leads to a pattern state a literal may share goes on, with the rest of the literal, to a word of its token |
| `LexerMixed.MixedLeaks` | Lib/WASTParse/Lexer.cpp:75-92 | otherwise the construction can build an automaton that takes the word for the literal |
| `LexerMixed.ApartUnmixed` | Lib/WASTParse/Lexer.cpp:181-207 | it suffices that no literal of two or more characters starts with a character on which a pattern leaves the initial state |
| `TextFormat.TextExact` | Lib/WASTParse/Lexer.cpp:108-124 | with the text format's own patterns and any keywords that start with a small letter, the automaton is exact |
| `TextFormat.TextStops` | Lib/WASTParse/Lexer.cpp:361-387 | with those patterns, if no word leads to two terminals, every scan stops at or before the null character behind the input |
| `TextFormat.StringsTranslated` | Lib/WASTParse/Lexer.cpp:120 | the automaton accepts as strings exactly quoted sequences of plain characters and escapes |
| `TextFormat.PlainStringNeedsLoop` | Lib/WASTParse/Lexer.cpp:120 | the string `"a"` is accepted although the expression written for strings does not match it |
| `LexerPaths.ReachedIffPath` | Lib/NFA/NFA.cpp:120-211 | the closed state set after a word holds exactly the states its paths lead to |
| `LexerPaths.ScanExplained` | Include/WAVM/NFA/NFA.h:57-92 | for every automaton and input the longest viable prefix decides: the scan stops at a terminal of it, and gives its last character back exactly if a flagged terminal is the only state left |
| `LexerTokens.ScanExact` | Lib/WASTParse/Lexer.cpp:361-387 | a token is returned exactly if the longest viable prefix is a text of it and a separator, or a separator token; the separator stays in the input exactly if no other rule is viable there |
| `LexerTokens.TokenExact` | Lib/WASTParse/Lexer.cpp:54-103 | for all rules under which no word leads to two terminals: a token is returned with `k` characters exactly if they are a text of it and a separator follows behind which nothing else is viable, or they are the longest viable prefix and the token with its separator, or a separator token |
| `LexerTokens.NullStops` | Lib/WASTParse/Lexer.cpp:361-387 | if no rule reads the null character and no word leads to two terminals, every scan stops at or before it |
| `LexerTokens.ConvertedUnambiguous` | Lib/NFA/NFA.cpp:133-149 | if the conversion does not give up, no word leads to two terminals |
| `LexerTokens.SwallowedSeparator` | Lib/WASTParse/Lexer.cpp:122 | a name rule that holds `=` returns `$a=` on `$a="` |
| `LexerTokens.SharedStateLeaks` | Lib/WASTParse/Lexer.cpp:75-92 | why the condition is needed: with the pattern `[ab]x` and the literal `ac`, every automaton the construction can build takes `bc` for `ac` |
| `WaitNotifyRuns.StepKeeps` | Lib/Runtime/Atomics.cpp:51-195 | every step of every thread keeps the protocol's invariant |
| `WaitNotifyRuns.FailuresExact` | Lib/Runtime/Atomics.cpp:51-195 | in every reachable world, a step fails exactly if a thread that gave up the last reference of a list looks at its count after another thread deleted the list; no other assertion of the source can fail |
| `WaitNotifyRuns.ResultsExact` | Lib/Runtime/Atomics.cpp:101-164 | a finished wait returned 0 exactly if one notify, and only one, released it, and 2 exactly if it withdrew |
| `WaitNotifyHistory.SleepsExactly` | Lib/Runtime/Atomics.cpp:101-143 | for every run: a wait that looks at memory is queued exactly if the value last written to its address, by the history of the run alone, is the one its call asked for; otherwise it is about to return 1 |
| `WaitNotifyHistory.OneIffDifferent` | Lib/Runtime/Atomics.cpp:118-124 | for every run: a wait that is about to return returns 1 exactly if the values differed when it looked, and only then it was never queued |
| `WaitNotifyHistory.ReturnsExactly` | Lib/Runtime/Atomics.cpp:118-164 | every call that ends is recorded once, with result 1 exactly if the values differed |
| `WaitNotifyHistory.OnlyEndsRecord` | Lib/Runtime/Atomics.cpp:101-164 | no other step records a result |
| `WaitNotifyRuns.CountsExact` | Lib/Runtime/Atomics.cpp:166-195 | a notify returned the number of waits it released |
| `WaitNotifyRuns.ReleasedInOrder` | Lib/Runtime/Atomics.cpp:172-189 | releases at an address are in queueing order |
| `WaitNotifyRuns.NotifySeesAll` | Lib/Runtime/Atomics.cpp:172-189 | a notify sees exactly the waits queued at its address when it takes the list lock, oldest first, and releases as many as its count, or all if there are fewer or its count is 2^32 - 1 |
| `WaitNotifyRuns.EventsClean` | Lib/Runtime/Atomics.cpp:101-164 | a thread outside a wait has an unsignaled event |
| `WaitNotifyRuns.ListsLive` | Lib/Runtime/Atomics.cpp:51-81 | a list exists exactly while some thread uses it or is about to reclaim it |
| `WaitListLifetime.CarefulNeverFails` | Lib/Runtime/Atomics.cpp:51-81 | a run in which no thread opens a list that another is about to reclaim never fails |
| `WaitListLifetime.FirstReopeningCanFail` | Lib/Runtime/Atomics.cpp:51-81 | every run that does so for the first time can be continued to a read of a deleted list |
| `WaitListLifetime.UseAfterDeletion` | Lib/Runtime/Atomics.cpp:51-81 | a run of two notifies that ends in such a read, at every address |
| `ObjectGC.GCState.constructor` | Lib/Runtime/ObjectGC.cpp:70-76 | marking starts with nothing unreferenced or pending |
| `ObjectGC.GCState.InitGCObject` | Lib/Runtime/ObjectGC.cpp:105-112 | a rooted object is pending, any other one unreferenced |
| `ObjectGC.GCState.VisitReference` | Lib/Runtime/ObjectGC.cpp:78-98 | an object leaves the unreferenced ones and becomes pending at most once |
| `ObjectGC.GCState.VisitReferenceArray` | Lib/Runtime/ObjectGC.cpp:100-103 | exactly the objects of the references stop being unreferenced |
| `ObjectGC.HasRootFunction` | Lib/Runtime/ObjectGC.cpp:194-203 | whether some function of the instance has root references |
| `ObjectGC.GCState.ScanObject` | Lib/Runtime/ObjectGC.cpp:114-178 | exactly the objects that a field of the object refers to, and its compartment, stop being unreferenced |
| `ObjectGC.ScannedExact` | Lib/Runtime/ObjectGC.cpp:114-178 | what scanning keeps is, field by field, what the object refers to: elements of a table; initial value, initial mutable value and the value in every context of a reference global; functions by their instances, tables, memories, globals and exception types of an instance |
| `ObjectGC.InitMarking` | Lib/Runtime/ObjectGC.cpp:186-213 | exactly the roots are pending, instances with rooted functions included |
| `ObjectGC.MarkingExact` | Lib/Runtime/ObjectGC.cpp:186-225 | when nothing is pending, the unreferenced objects are exactly the unreachable ones |
| `ObjectGC.NothingDangles` | Lib/Runtime/ObjectGC.cpp:114-225 | whatever a field of a reachable object refers to is reachable |
| `ObjectGC.CollectGarbage` | Lib/Runtime/ObjectGC.cpp:181-251 | marking terminates with each object scanned at most once; exactly the objects that no path of field references leads to from a root are deleted, no survivor refers to a deleted object, and the compartment is deleted exactly if nothing is reachable |
| `Tables.BiasInverts` | Lib/Runtime/Table.cpp:60-68 | biased and unbiased values are inverse modulo 2^64, and zero is exactly the out-of-bounds sentinel |
| `Tables.Table.constructor` | Lib/Runtime/Table.cpp:70-100 | an empty table without committed pages |
| `Tables.Table.Get` | Lib/Runtime/Table.cpp:333-360 | without looking at the number of elements, an access is out of bounds exactly at or beyond it |
| `Tables.Table.Set` | Lib/Runtime/Table.cpp:303-331 | a write is out of bounds exactly at or beyond the number of elements; the old element is returned and no other element changes |
| `Tables.Table.Grow` | Lib/Runtime/Table.cpp:102-162 | succeeds exactly within the maximum and if pages can be committed; appends the element, or changes nothing |
| `Tables.Table.Clone` | Lib/Runtime/Table.cpp:204-244 | a fresh table with the same contents |
| `Tables.Table.Fill` | Lib/Runtime/Table.cpp:581-599 | fills the range, or up to the end before it traps |
| `Tables.CopyAscending` | Lib/Runtime/Table.cpp:568-577 | towards lower indices, no source element is overwritten before it is copied; a trap leaves the copied prefix |
| `Tables.CopyDescending` | Lib/Runtime/Table.cpp:555-567 | towards higher indices the same, and a trap leaves everything unchanged |
| `Tables.TableCopy` | Lib/Runtime/Table.cpp:541-579 | on the same or different tables, the result is a copy from a snapshot of the source, every other element unchanged; on a trap, exactly what was written before it |
| `Tables.InitElemSegment` | Lib/Runtime/Table.cpp:404-435 | copies from the segment, and traps on exactly the side that runs out first |
| `ResourceQuota.StepConserves` | Lib/Runtime/RuntimePrivate.h:263-313 | every step of create, grow and destroy keeps `current` equal to live sizes and reservations in flight |
| `ResourceQuota.ReserveExact` | Lib/Runtime/RuntimePrivate.h:263-290 | a reservation takes its share exactly if the sum, without wrap-around, stays within the quota, and otherwise changes nothing |
| `ResourceQuota.FinishExact` | Lib/Runtime/Memory.cpp:197-235 | a grow with a reservation succeeds exactly within both limits and if the pages can be committed; otherwise it gives its share back |
| `ResourceQuota.GrowExact` | Lib/Runtime/Table.cpp:102-162 | a whole grow succeeds exactly if quota, both limits and commit allow it, and otherwise leaves everything as it was |
| `ResourceQuota.QuotaConserved` | Lib/Runtime/Memory.cpp:134-235 | the same after every interleaving of threads; `free` never underflows, and sizes stay within their maxima |
| `ResourceQuota.QuotaEnforced` | Lib/Runtime/RuntimePrivate.h:263-313 | in every interleaving the use stays within the highest quota so far, and within the present one if no step lowers it |
| `ResourceQuota.NothingLeaks` | Lib/Runtime/Table.cpp:102-162 | when everything is destroyed and no thread is inside an operation, the quota is unused |
| `CallLayout.PlacesDisjoint` | Lib/LLVMJIT/Thunk.cpp:92-144 | offsets are naturally aligned and places disjoint, for every function type |
| `CallLayout.StartInsideIsInside` | Lib/Runtime/Invoke.cpp:36-57 | an argument that starts inside the buffer lies inside it |
| `CallLayout.ResultsFit` | Lib/IR/Validate.cpp:185-192 | the validator's limit on results keeps every result inside the buffer |
| `CallLayout.CopyArguments` | Lib/Runtime/Invoke.cpp:36-57 | succeeds exactly if every argument starts inside, and then every argument is in its place |
| `CallLayout.LoadArguments` | Lib/LLVMJIT/Thunk.cpp:92-111 | the thunk's own offsets find every argument's place |
| `CallLayout.PassArguments` | Lib/Runtime/Invoke.cpp:36-57 | the thunk loads exactly the values the caller passed |
| `CallLayout.StoreResults` | Lib/LLVMJIT/EmitContext.h:285-305 | every result is in its place, and the assertion on the offset never fails |
| `CallLayout.LoadResults` | Lib/LLVMJIT/EmitContext.h:179-197 | the loading loop finds every result's place, and its assertion never fails |
| `CallLayout.PassResults` | Lib/Runtime/Invoke.cpp:98-127 | the caller loads exactly the results the function stored |
| `Varints.WriteVarInt` | Include/WAVM/Inline/Serialization.h:184-212 | the shifting loop writes the encoding of a value in range and rejects others |
| `Varints.GatherBytes` | Include/WAVM/Inline/Serialization.h:220-235 | the bytes up to the first one without continuation bit, at most the maximum, or an error at the end of the input |
| `Varints.Assemble` | Include/WAVM/Inline/Serialization.h:267-270 | the number whose base-128 digits are the payloads of the bytes |
| `Varints.ParseVarInt` | Include/WAVM/Inline/Serialization.h:214-283 | the buffer, the check of the last byte and the sign extension compute the reading function |
| `Varints.VarIntRoundTrip` | Include/WAVM/Inline/Serialization.h:184-317 | for all widths in use and all values, reading what was written gives the value and stops right behind it |
| `Varints.NoLonger` | Include/WAVM/Inline/Serialization.h:214-283 | every value that is read, from any encoding, takes no more bytes when it is written |
| `Leb.ReadIff` | Include/WAVM/Inline/Serialization.h:214-283 | for every input, width and range in use: the reader returns a value exactly if the bytes are an integer of that width as section 5.2.2 of the WebAssembly Core Specification 1.0 defines them, in range |
| `BinaryFields.FieldBack` | Lib/WASM/WASMSerialization.cpp:58-100 | every field of an immediate is read back as written; reserved zeros lose their value |
| `BinaryExact.FieldExact` | Lib/WASM/WASMSerialization.cpp:58-100 | for every input: a field of an immediate is read as a value exactly if the bytes encode it, with the bytes 0x7f to 0x7b, 0x70 and 0x6f for the types |
| `BinaryExact.FieldWritten` | Lib/WASM/WASMSerialization.cpp:58-100 | what is written for a field is such an encoding |
| `BinaryBody.EncodeLocalSets` | Lib/WASM/WASMSerialization.cpp:848-867 | one pass over the locals yields their runs |
| `BinaryBody.RunsExact` | Lib/WASM/WASMSerialization.cpp:848-867 | the runs expand to the locals and no two neighbours have one type; locals of type `any` are dropped |
| `BinaryBody.RunsUnique` | Lib/WASM/WASMSerialization.cpp:848-867 | no other list of such runs expands to the same locals |
| `BinaryBody.OpcodeBack` | Lib/WASM/WASMSerialization.cpp:32-53 | a two-byte opcode is read back exactly if its prefix is not an opcode itself |
| `BinaryBody.OperatorBack` | Lib/WASM/WASMSerialization.cpp:455-737 | an operator is read back with its branch table numbered next, exactly if its data segment, should it have one, was announced by a DataCount section |
| `BinaryCodeExact.CodeExact` | Lib/WASM/WASMSerialization.cpp:455-737 | for every input: operators are read exactly if the bytes encode them, immediate by immediate, with branch tables numbered by occurrence, and their data segments were announced |
| `BinaryBody.SameTargets` | Lib/WASM/WASMSerialization.cpp:518-542 | renumbering by occurrence leaves every `br_table` with the same targets |
| `BinaryCode.ContentBack` | Lib/WASM/WASMSerialization.cpp:841-951 | a written body is read back exactly if it has fewer locals than the limit, or none, finds its data segments, and the validator accepts it; for every validator |
| `BinaryCodeExact.ContentExact` | Lib/WASM/WASMSerialization.cpp:883-951 | for every input, limit and validator: a body is read exactly if the bytes encode it, it has fewer locals than the limit or none, finds its data segments and is accepted; with a limit of zero it also declares no set of locals |
| `BinaryCode.SerializeBody` | Lib/WASM/WASMSerialization.cpp:841-881 | the writer's loops over local sets and operators compute the writing function |
| `BinaryCode.EncodeOperators` | Lib/WASM/WASMSerialization.cpp:874-877 | the bytes of all operators in order, or an error if one cannot be encoded |
| `BinaryCode.DeserializeBody` | Lib/WASM/WASMSerialization.cpp:883-951 | the reader's loops, up to the end of the stream, and the validator's verdict compute the reading function |
| `BinaryCode.UnpackLocals` | Lib/WASM/WASMSerialization.cpp:893-904 | the locals of all sets, or an error as soon as the limit is reached |
| `BinaryCode.DecodeOperators` | Lib/WASM/WASMSerialization.cpp:906-947 | the operators up to the end of the body, with branch tables numbered in order of occurrence and data segments that were announced |
| `BinaryEntities.FuncTypeInverts` | Lib/WASM/WASMSerialization.cpp:953-978 | every function type is read back |
| `BinaryEntities.LimitsInverts` | Lib/WASM/WASMSerialization.cpp:125-134 | limits are read back, an absent maximum and the shared flag included |
| `BinaryEntities.TableTypeInverts` | Lib/WASM/WASMSerialization.cpp:136-174 | every table type is read back |
| `BinaryEntities.GlobalInverts` | Lib/WASM/WASMSerialization.cpp:186-254 | every global with its initializer is read back |
| `BinaryEntities.ImportInverts` | Lib/WASM/WASMSerialization.cpp:979-1120 | every import of all five kinds is read back |
| `BinaryEntities.ExportInverts` | Lib/WASM/WASMSerialization.cpp:204-210 | every export that is written is read back; both directions refuse a name that is not UTF-8 |
| `BinaryEntities.ElemsInverts` | Lib/WASM/WASMSerialization.cpp:261-325 | active and passive element segments are read back |
| `BinaryEntities.DataInverts` | Lib/WASM/WASMSerialization.cpp:327-370 | active and passive data segments are read back |
| `BinaryExact.FuncTypeExact` | Lib/WASM/WASMSerialization.cpp:953-978 | for every input: a function type is read exactly if the bytes are 0x60 and two vectors of types |
| `BinaryExact.LimitsExact` | Lib/WASM/WASMSerialization.cpp:125-134 | so are limits, exactly from flags, a minimum and, by the lowest flag, a maximum |
| `BinaryExact.TableTypeExact` | Lib/WASM/WASMSerialization.cpp:136-174 | so are table types, exactly from 0x70 or 0x6f and limits |
| `BinaryExact.GlobalExact` | Lib/WASM/WASMSerialization.cpp:186-254 | so are globals, exactly from a type, a mutability bit, a constant instruction by its opcode and 0x0b |
| `BinaryExact.ImportExact` | Lib/WASM/WASMSerialization.cpp:979-1120 | so are imports, exactly from two names, a kind from 0 to 4 and its type |
| `BinaryExact.ExportExact` | Lib/WASM/WASMSerialization.cpp:204-210 | so are exports with UTF-8 names, exactly from a name, a kind and an index |
| `BinaryExact.ElemsExact` | Lib/WASM/WASMSerialization.cpp:261-325 | so are element segments, exactly from a flag from 0 to 2 and functions, or a type and elements |
| `BinaryExact.DataExact` | Lib/WASM/WASMSerialization.cpp:327-370 | so are data segments, exactly from such a flag, a base and bytes |
| `BinaryRewrite.ReadWriteRead` | Lib/WASM/WASMSerialization.cpp:841-951 | every byte string that is read as a body is written, in no more bytes, exactly if no run of locals exceeds a 32-bit count, and is then read again as the same body |
| `BinaryRewrite.RunsGrow` | Lib/WASM/WASMSerialization.cpp:848-867 | a further set of locals never costs more than itself: it joins the last run or starts a new one |
| `BinaryRewrite.LongRunUnwritable` | Lib/WASM/WASMSerialization.cpp:848-867 | two sets of 2^32 - 1 locals of one type can be written, but not the run they are read as |
| `BinaryRewrite.ImportRewrites` | Lib/WASM/WASMSerialization.cpp:979-1120 | every import that is read, from any encoding, is written in no more bytes |
| `BinaryRewrite.LimitsRewrites` | Lib/WASM/WASMSerialization.cpp:125-134 | so are limits, whose meaningless flags are dropped |
| `BinaryRewrite.GlobalRewrites` | Lib/WASM/WASMSerialization.cpp:186-254 | so are globals with their initializers |
| `BinaryRewrite.ElemsRewrites` | Lib/WASM/WASMSerialization.cpp:261-325 | so are element segments |
| `BinaryRewrite.DataRewrites` | Lib/WASM/WASMSerialization.cpp:327-370 | so are data segments, also those that name memory 0 explicitly |
| `BinaryModule.IdsExact` | Lib/WASM/WASMSerialization.cpp:398-448 | section identifiers and ranks determine each other |
| `BinaryModule.SectionBack` | Lib/WASM/WASMSerialization.cpp:953-1279 | each section, read after those before it, adds exactly its part of the module, or is rejected by its own checks or by validation |
| `BinaryModule.KnownBack` | Lib/WASM/WASMSerialization.cpp:1281-1312 | so do all known sections from any one on |
| `BinaryModule.ModuleRoundTrip` | Lib/WASM/WASMSerialization.cpp:1281-1417 | for every validation: a written module is read back, up to branch table numbering, exactly if its type indices, names, data segments and locals pass the reader's checks and validation accepts the declarations after each section and every body; section order and presence checks never reject it |
| `BinaryModule.OrderEnforced` | Lib/WASM/WASMSerialization.cpp:1328-1335 | a module is read only if its known sections ascend, each at most once |
| `BinaryReadExact.ModuleExact` | Lib/WASM/WASMSerialization.cpp:1314-1417 | for every byte string and every validation: it is read as a module if and only if it is an encoding of the module by the grammar of section 5 of the WebAssembly Core Specification 1.0 with the extensions of the program (header, section identifiers and sizes, contents, order, absent sections) that passes the checks at each section |
| `BinaryReadExact.DeserializeModule` | Lib/WASM/WASMSerialization.cpp:1314-1417 | the loop over sections, with validation after each, and the final checks return exactly such a module |
| `BinaryReadExact.SectionsRead` | Lib/WASM/WASMSerialization.cpp:1314-1400 | from every state of the reader, what it returns in the end is held by the sections that remain |
| `BinaryModuleExact.SectionAccepted` | Lib/WASM/WASMSerialization.cpp:953-1279 | a section of the grammar that comes in order and passes its checks is read as its part of the module |
| `BinaryWriteExact.ModuleWritten` | Lib/WASM/WASMSerialization.cpp:1281-1312 | what is written for any module, whether or not it can be read back, is an encoding of it by that grammar |
| `BinaryStable.ReadWriteReadModule` | Lib/WASM/WASMSerialization.cpp:1281-1417 | for every byte string that is read as a module and every validation: the module is written exactly if no run of its locals exceeds a 32-bit count, and is then read again as the same module |
| `BinaryStable.RewritesAlways` | Lib/WASM/WASMSerialization.cpp:1281-1417 | with a limit of at most 2^32 locals every module that is read is written and read again as itself |
| `FloatText.TextExact` | Lib/IR/FloatPrinting.cpp:9-111 | the text of every finite float, normal, denormal or zero, denotes exactly its value under section 6.3.2 of the WebAssembly Core Specification 1.0 |
| `FloatPrinting.FloatAsString` | Lib/IR/FloatPrinting.cpp:9-111 | the buffer loops print that text, or the text of the infinity or NaN, within the buffer |
| `FloatPrinting.PrintFinite` | Lib/IR/FloatPrinting.cpp:53-104 | the characters of a finite float in the buffer, which has room for a terminator |
| `FloatPrinting.PrintNaN` | Lib/IR/FloatPrinting.cpp:33-52 | the characters of a NaN with all its significand digits |
| `FloatPrinting.ParseHexUnsignedInt` | Lib/WASTParse/ParseNumbers.cpp:51-78 | the digit loop computes the parsing function, with the wrap-around of its limit test |
| `FloatPrinting.HexParsedExact` | Lib/WASTParse/ParseNumbers.cpp:66-75 | for a maximum of at least 15 a number is rejected exactly if it exceeds the maximum |
| `FloatPrinting.SmallMaximumExceeded` | Lib/WASTParse/ParseNumbers.cpp:66-75 | for every smaller maximum `0xf` is accepted |
| `FloatPrinting.ParseNaN` | Lib/WASTParse/ParseNumbers.cpp:115-151 | the NaN a literal stands for, or an error for a significand that is zero or too large |
| `FloatPrinting.CanonicalNaN` | Lib/WASTParse/ParseNumbers.cpp:143-150 | a NaN literal without a significand stands for the NaN with its sign and only the top significand bit set |
| `FloatPrinting.NaNRoundTrip` | Lib/WASTParse/ParseNumbers.cpp:115-151 | the text of every NaN parses back to the same bits |
| `FloatPrinting.SpecialRoundTrip` | Lib/IR/FloatPrinting.cpp:9-111 | printing and parsing every infinity and NaN gives the same bits |
| `LabelScopes.FunctionState.Enter` | Lib/WASTParse/ParseFunction.cpp:126-146 | the map represents the labels with the new one innermost, and leaving restores the map before |
| `LabelScopes.FunctionState.Leave` | Lib/WASTParse/ParseFunction.cpp:148-163 | the label is bound as before the construct, and the assertions of the destructor hold |
| `LabelScopes.FunctionState.Resolve` | Lib/WASTParse/ParseFunction.cpp:173-203 | the depth of the innermost construct with the label, or an unknown name |
| `LabelScopes.ParseSequence` | Lib/WASTParse/ParseFunction.cpp:745-864 | every branch target that is parsed resolves to the innermost label, also after recovery from an error, and the state after the sequence is exactly the state before |
| `LabelScopes.ParseInstr` | Lib/WASTParse/ParseFunction.cpp:657-743 | the same for one instruction: a construct opens its label and closes it on every way out, and parentheses stop an error |
| `LabelScopes.RecoveryGoesOn` | Lib/WASTParse/Parse.h:262-278 | behind any parenthesized text, however broken, branch targets resolve as if it were not there |
| `LabelScopes.DepthIsInnermost` | Lib/WASTParse/ParseFunction.cpp:173-203 | the depth names a construct with the label, and none inside it has it |

## Findings

Promises the code does not keep on all inputs, each with an input and the exact condition under which it does.

- A wait list can be read after its deletion, because the last reference is given up before the lock of the map is
  taken (`WaitListLifetime.UseAfterDeletion`). A step fails exactly if it looks at a list that another thread deleted
  since (`WaitNotifyRuns.FailuresExact`). No run fails in which no thread opens a list that another is about to
  reclaim (`CarefulNeverFails`), and the first such opening can always be continued to a failure
  (`FirstReopeningCanFail`).
- The translation of `*` reuses its initial state, so more may be accepted (`RegExpExact.LoopLeaks`); exactly when
  it is not is `ExactIffLoopsStay`, and `SeparatedAccepts` is a syntactic condition. The lexer relies on it: the
  expression for strings demands an escape at the end of a string that is not empty, and plain strings are
  recognized only because of the reused state (`TextFormat.PlainStringNeedsLoop`, `StringsTranslated`).
- A separator can be swallowed into a token if some rule's text may hold it (`LexerTokens.SwallowedSeparator`); it
  is left in the input exactly if nothing else is viable behind it (`TokenExact`).
- The limit test of hexadecimal integers wraps around for maxima below 15 (`FloatPrinting.SmallMaximumExceeded`,
  `HexParsedExact`).
- A function with exactly as many locals as the limit is written but not read (`BinaryCode.ContentBack`).

## Left out

- LLVM, object loading, debug information, unwinding and vector bitcasts; `coerceToCanonicalType` is the identity.
- Exception operators (try, catch, throw, rethrow) in the validator, the emitter and the stack machine.
- The list of concrete operators: calls, memory accesses and arithmetic are instances of one parametric operator,
  and the binary reader's table from opcodes to immediate classes is a parameter.
- The parser of regular expression strings: the text format's patterns are given as expressions. Its keywords are
  any literals that start with a small letter.
- The loop that skips whitespace and comments and recovers from unrecognized characters around the scanner.
- `tryParseInt`, decimal integers, and conversion of decimal floats.
- Host interfaces: Emscripten, WASI, files, clocks, logging, and the command-line programs.
- Compartment cloning, module linking, disassembly names and test script parsing.
- FunctionValidation.Validate: memory, table, global and call operators are not listed one by one, because their
  checks are an immediate check and a signature.
- TypingExact.AcceptsIffWellTyped: where the program goes beyond the specification the typing relation follows the
  program: reference subtyping, typed select, block parameters, and `local.tee` leaves the operand's own type.
- LexerMachine.Feed: requires a scan that stops within the input, as the source relies on the terminating null
  character; that it does is `LexerTokens.NullStops`, for automata of rules that do not read that character.
- LexerMachine.Scan: gives no result for a DFA of more than 32767 states, where the source asserts; narrowing of
  state indices before that assertion is not modelled.
- DFAConversion.ConvertToDFA: the assertion on 64 local states is treated like the fatal error on two terminals.
- WaitNotifyRuns.FailuresExact: a fault while a wait loads its value, which unwinds without closing the list, is not
  modelled, and neither is the exception for more than 2^32 - 1 woken threads.
- WaitNotifyRuns.EventsClean: an event is an auto-reset flag, as its interface promises; the condition variable
  behind it on POSIX systems is not modelled.
- WaitNotify: a notify of zero threads returns at once without any step.
- BinaryModule.ModuleRoundTrip: validation is two arbitrary predicates, on the declarations after a section and on a
  body among them, that see neither user sections nor other bodies; only the test of data segment indices, which
  depends on the DataCount section, is spelled out. The import lists per kind are one list in order, and the element
  type of an active element segment, which is not encoded, is not a field.
- BinaryReadExact.ModuleExact: where the program reads more than the specification allows the grammar follows the
  program: unknown flags of limits, block types of more than one byte, any kind of export, and the extensions for
  vectors, references, passive segments and exception types.
- BinaryCode.DecodeOperators: tests only the indices of data segments while it decodes; the source hands every
  operator to the validator at once, the model the whole body, and either way a body that fails is not read.
- ObjectGC.CollectGarbage: finalizers run by deletion have no effect on other objects.
- Tables.Table.Grow: committing pages is one step that may fail; concurrent resizes are the matter of ResourceQuota.
- CallLayout.PassArguments: values are byte strings of their type's size.
