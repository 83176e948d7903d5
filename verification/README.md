# Fidan, verified in Dafny

This project models the parts of the Fidan toolchain whose correctness is least obvious from reading them, and proves
what they are for. `dafny verify dfyconfig.toml` checks everything.

**Tiered execution** (`Arithmetic`, `Mir`, `AbiScope`, `Clif`, `JitEmit`, `JitBuilder`, `Tiers`, `Typing` and the proof
modules `Fragments`, `Operators`, `Rvalues`, `Points`, `States`, `SafeRuns`, `NativeSteps`, `Edges`, `Calls`,
`Preservation`, `Tiering`, `Acceptance`, `Limits`, `Divergence`, `Branching`, `Returns`). `Mir` is the intermediate
representation and the interpreter's meaning of it. `Clif` is the target: typed variables, blocks with parameters,
runtime calls, an exception slot and a heap of scoped boxes, in which reading a pointer as a number or touching a dead
box is undefined. `JitEmit` says what code is emitted; `JitBuilder` is the same compiler as an object that mutates the
function under construction, proved to emit exactly that. `Tiers` is the machine in which every call picks a tier from
its counter. The central theorem is that tiering cannot be observed. `States` is the same machine as single steps of
nested activations (`States.StatesFollowRun`, `States.FramesFollowRun` and `States.ActivationStarts` tie it to the
runs), for what holds in every state. Runs are bounded by an arbitrary number of block transfers per activation and an
arbitrary call budget, both universally quantified; the runtime's own budget is 1024.

**Fixes** (`LineDiff`, `Splicing`, `HunkApply`, `HunkOrder`, `FixLoop`, `SpanEdits`, with `Text` and `Sorting`): the
LCS diff over a mutable table, nearest-match hunk application, the acceptance loop and span edits.

**Distribution** (`Publication`, `Publisher`, `Installer`, `InstallCall`): concurrent publishers with conditional writes
(RFC 9110, sections 13.1.1 and 13.1.2), concurrent installers with renames under a lock. `Publication` and `Installer`
are step relations with any number of actors; `Publisher` and `InstallCall` are the programs, each proved to be a path
of those steps.

**Analysis and display** (`StaticTrace`, `ImportClosure`, `WordWrap`).

Where the code does not do what one would expect, with the exact condition:

- The type checker lets a float or a flexible value be assigned to an integer variable
  (crates/fidan-typeck/src/types.rs:67-87), and the copy has the target's type (crates/fidan-mir/src/lower.rs:1751-1761).
  Compiled code truncates the operands of arithmetic (`Divergence.IntegerAssignedExactly`), does not deliver a constant
  of another type (`Divergence.AssignedConstantExactly`) and takes the address of a box for the number
  (`Divergence.FlexibleMoveExactly`). Two integers added into a float variable become floats
  (`Divergence.FloatAssignedExactly`).
- A flexible module variable initialised with an integer has an integer slot, and interpreted code may store something
  else there; compiled code can not read that back (`Divergence.GlobalReadExactly`). One initialised with nothing, or
  not at all, has a slot of type nothing, and a compiled test takes whatever it holds for nothing
  (`Branching.GlobalTestExactly`). The same goes for a variable of type nothing (`Branching.MoveTestExactly`).
- A function of scalar return type may return a flexible value, the other kind of number, or nothing
  (crates/fidan-typeck/src/check.rs:1639-1654). Such a function stays interpreted, unless all it does is to return
  nothing (`Returns.CalleeCompilesExactly`), and compiled code that calls it takes the address of a box for the result
  (`Returns.ResultPassedExactly`). Compiled, a bare `return` yields 0, false or 0.0 (`Returns.BareReturnExactly`).
- Certainty checks are not compiled. For the parameters they are made for that loses nothing
  (`Preservation.CertainNeverFails`), but inlining can put one on a caller's argument (`Divergence.InlinedCheckExactly`).
- The runtime's integer power reports R0001 where the language yields a float or R2001. No program gets there: a power
  whose exponent is not known to be non-negative is typed flexible, which is not compiled.

The preservation theorems are about programs in which `Typing` rules these cases out. In a compiled function an
assignment, phi, return, global access or call result has a type that fits its destination, arithmetic into an integer
variable is on integers, a power is typed as an integer only where its constant operands make that certain, and a
certainty check is on a number, a constant or a certain parameter. In every function returned values have the return
type (any, if that is nothing), bare returns do not occur at scalar types, and globals hold values of their slot's type,
nothing included; a function that stays interpreted may use any types for its locals to that end.

Elsewhere:

- A trace is marked truncated when it has exactly 250 steps although nothing was cut (`StaticTrace.BuildStaticTrace`).
- A publisher that stops after its first upload can never finish with the same bundle (`Publication.LeftoversBlock`).
- Text that is inserted at the very end of a file is overwritten by an earlier edit that runs past the end
  (`SpanEdits.EditsAreSimultaneous`, `SpanEdits.InsertionSwallowed`).
- When wrapping, a word that consists of colour codes only loses the space behind it, and may keep a word on its line
  that does not fit (`WordWrap.ParagraphIsOptimal`, `WordWrap.InvisibleWordGlues`).

## Model

| member | source | states |
|---|---|---|
| `Tiering.TieringIsInvisible` | crates/fidan-codegen-cranelift/src/jit.rs:943-1594 | For every well-formed program, compile threshold, state of the call counters, call budget and argument list, a call that may run any mix of compiled and interpreted functions ends with the result or error, and the globals, of pure interpretation; it never reaches undefined behaviour (a pointer read as a number, a dead box dereferenced, an undefined value used) and leaves no exception pending |
| `Tiering.SessionsAgree` | crates/fidan-interp/src/mir_interp.rs:1376-1423 | Over any sequence of calls, during which counters advance and functions become compiled, two arbitrary thresholds give the same list of outcomes and the same globals |
| `Tiers.NativeFromThreshold` | crates/fidan-interp/src/mir_interp.rs:1376-1423 | A function runs compiled from its threshold-th call on, whatever is called in between, if it compiles at all; with a threshold of 0 nothing does |
| `Tiering.EndlessRecursionFails` | crates/fidan-interp/src/mir_interp.rs:1341-1352 | Recursion without end fails with R1001 when the call budget is used up, in whatever tiers the activations run |
| `Tiering.ThrownReachesCaller` | crates/fidan-interp/src/mir_interp.rs:1341-1352 | A thrown value reaches the outermost caller unchanged through any chain of activations, compiled or not, if the chain is within the call budget; otherwise the outcome is R1001 |
| `Tiering.RefusedCallFails` | crates/fidan-interp/src/mir_interp.rs:755-804 | A call with too many arguments, or one left out or unfit, fails with R0001 in either tier and leaves the machine, its call counters included, alone |
| `Tiering.NoBoxOutlivesItsScope` | crates/fidan-codegen-cranelift/src/jit.rs:73-126 | After an outermost call no box is alive and each box ever made was freed exactly once; after a call inside a scope that scope is open as before with every earlier box intact, through any depth of compiled and interpreted calls |
| `Preservation.CallAgrees` | crates/fidan-interp/src/mir_interp.rs:1341-1423 | The induction over whole runs behind the above: tier choice at every call, machine quiet again afterwards, scope kept, result of the declared type |
| `Preservation.NativeAgrees` | crates/fidan-interp/src/mir_interp.rs:507-522 | The trampoline: encode arguments, run compiled code in a scope, decode before the scope closes, turn a pending exception into the call's error - equal to interpreting the function |
| `Preservation.NativeInstrs` | crates/fidan-codegen-cranelift/src/jit.rs:1255-1473 | From any instruction of any block, the emitted code from that point and the interpreter end alike |
| `Preservation.NativeTerm` | crates/fidan-codegen-cranelift/src/jit.rs:1475-1566 | The same from a block's terminator: returns, jumps with block arguments, conditional branches |
| `Preservation.NativeEdge` | crates/fidan-codegen-cranelift/src/jit.rs:1255-1265 | The same on arriving at a block over an edge, phi variables being bound from block parameters |
| `Preservation.EntryBinds` | crates/fidan-codegen-cranelift/src/jit.rs:1244-1253 | Entering compiled code with encoded arguments leaves the parameter variables holding what the interpreter's frame holds, including repeated parameters |
| `Preservation.LocalFollows` | crates/fidan-codegen-cranelift/src/jit.rs:1270-1309 | The code emitted for any instruction but a call does to variables, globals, scope and exception slot what the interpreter's step does |
| `Preservation.CallFollows` | crates/fidan-codegen-cranelift/src/jit.rs:1311-1384 | The code emitted for a direct call, given that the callee agrees: result stored, or the activation ended at the check, or fuel exhausted |
| `Preservation.CloseAgrees` | crates/fidan-codegen-cranelift/src/jit.rs:94-126 | Leaving the scope after compiled code: the decoded result or the pending exception is the outcome, and the caller's scope is as it was |
| `Preservation.ArgsEncoded` | crates/fidan-codegen-cranelift/src/jit.rs:2598-2624 | Every prepared argument is encoded as a word that reads back as it, later boxes included |
| `Preservation.InstrsAgree` | crates/fidan-interp/src/mir_interp.rs:1666-1760 | Two interpreter runs whose nested calls are in different tiers agree, and locals keep their types |
| `Tiering.FailedOperationStops` | crates/fidan-codegen-cranelift/src/jit.rs:2224-2236 | A failing operation ends its activation at its own check with raw 0, the error pending and no global changed: no later store, call or assignment takes effect, and the call the activation serves fails with that error |
| `Tiering.FailedCallStops` | crates/fidan-codegen-cranelift/src/jit.rs:1311-1384 | A failing callee ends the calling activation at its check, the machine being exactly as the callee left it with the error pending, and the call the activation serves fails with the same error and those globals |
| `Tiering.EdgeIsParallel` | crates/fidan-codegen-cranelift/src/jit.rs:2485-2527 | Taking an unconditional edge in emitted code, from whichever exception-check block the MIR block ends in, is one simultaneous assignment of all phis, swaps and cycles included |
| `Tiering.ConditionalEdgeIsParallel` | crates/fidan-codegen-cranelift/src/jit.rs:1500-1560 | The same for a conditional edge: the side the interpreter takes, all its phis at once, nothing but boxes added on the way |
| `Tiering.PhisAreParallel` | crates/fidan-interp/src/mir_interp.rs:1548-1587 | The interpreter's buffered phi stores equal the simultaneous assignment defined local by local (the last phi for a local wins) |
| `Tiering.EveryStateIsSafe` | crates/fidan-codegen-cranelift/src/jit.rs:1255-1566 | Along every path of states of a call, through compiled and interpreted activations at any depth: whenever an activation is in compiled code, at any instruction, a scope is open, every variable has its Cranelift type, Booleans are 0 or 1, integers and handles hold no pointer, boxed locals hold 0 or a box alive in that scope, and Booleans passed, stored or returned are the words 0 or 1 |
| `Tiering.RawWordsRoundTrip` | crates/fidan-codegen-cranelift/src/jit.rs:2578-2593 | `abi_i64_to_native` followed by `native_to_abi_i64` gives back every encoded word |
| `Acceptance.CompilesExactly` | crates/fidan-codegen-cranelift/src/jit.rs:979-1030 | The compiler accepts a function if and only if every raw word is read at the type it is written at, every right-hand side has native code and no block throws |
| `Acceptance.SwapLoopAccepted` | crates/fidan-codegen-cranelift/src/jit.rs:1068-1087 | A loop that swaps two variables on its back edge meets every assumption of the theorems and is compiled |
| `Limits.ScalarMoveExactly` | crates/fidan-codegen-cranelift/src/jit.rs:1270-1279 | An operand or literal moved into a scalar variable arrives there as its value if and only if its type is the variable's |
| `Limits.IntegerDestRuns` | crates/fidan-codegen-cranelift/src/jit.rs:2250-2276 | Whatever two numbers arithmetic into an integer variable is given, the emitted code converts floats (trapping where there is no such integer) and reports the checked integer operation |
| `Limits.GlobalLoadExactly` | crates/fidan-interp/src/mir_interp.rs:389-401 | A global loaded at its slot's type is the stored value if and only if that value has the slot's type |
| `Divergence.AssignedConstantExactly` | crates/fidan-codegen-cranelift/src/jit.rs:1270-1279 | Whole program: a constant assigned to a scalar variable and returned gives the interpreter's outcome if and only if it has the variable's type |
| `Divergence.FlexibleMoveExactly` | crates/fidan-mir/src/lower.rs:1751-1761 | Whole program: any flexible argument moved into a variable of any type and returned at once gives the interpreter's outcome if and only if the type is not scalar |
| `Branching.MoveTestExactly` | crates/fidan-codegen-cranelift/src/jit.rs:2061-2077 | Whole program: any flexible argument moved into a variable and tested there gives the interpreter's outcome if and only if the type is not scalar and, should it be nothing, the argument is false |
| `Divergence.IntegerAssignedExactly` | crates/fidan-codegen-cranelift/src/jit.rs:2250-2276 | Whole program: arithmetic on two numbers assigned to an integer variable gives the interpreter's outcome if and only if both are integers (and a power has a non-negative exponent or a unit base) or both tiers report the division by zero |
| `Divergence.FloatAssignedExactly` | crates/fidan-codegen-cranelift/src/jit.rs:2244-2250 | Whole program: arithmetic on two numbers assigned to a float variable gives the interpreter's outcome if and only if one is a float or both tiers report the division by zero |
| `Divergence.GlobalReadExactly` | crates/fidan-interp/src/mir_interp.rs:389-401 | Whole program: a global that holds any value, loaded and returned at once, gives the interpreter's outcome if and only if the slot's type is not scalar or the value has it |
| `Branching.GlobalTestExactly` | crates/fidan-codegen-cranelift/src/jit.rs:1500-1535 | Whole program: a global that holds any value, loaded and tested, gives the interpreter's outcome if and only if a scalar slot holds a value of its type and a slot of type nothing holds something false |
| `Returns.BareReturnExactly` | crates/fidan-codegen-cranelift/src/jit.rs:1476-1480 | Whole program: `return` without a value keeps its meaning under compilation if and only if the return type is not scalar |
| `Returns.ResultPassedExactly` | crates/fidan-interp/src/mir_interp.rs:419-462 | Whole program: compiled code that passes a flexible argument to an interpreted function, which returns any operand or nothing at any declared type, gives the interpreter's outcome if and only if that type is not scalar or the result has it; otherwise it takes a box for a number, which is undefined. It holds in every state of the callee's call counter in which it is interpreted |
| `Returns.CalleeCompilesExactly` | crates/fidan-codegen-cranelift/src/jit.rs:989-993 | Such a callee is compiled if and only if it returns without a value or an operand of exactly its declared type, so one whose result may be of another type stays interpreted |
| `Divergence.InlinedCheckExactly` | crates/fidan-codegen-cranelift/src/jit.rs:1469 | Whole program: a certainty check on a flexible argument, as inlining leaves it, gives the interpreter's outcome if and only if the argument is not nothing |
| `Preservation.CertainNeverFails` | crates/fidan-mir/src/lower.rs:532-541 | Not compiling the check every certain parameter begins with loses nothing: its operand is never nothing when it is a number, a constant or a certain parameter, whatever the arguments were |
| `Acceptance.CertainStringAccepted` | crates/fidan-mir/src/lower.rs:532-541 | A function with a certain string parameter meets every assumption of the theorems and is compiled |
| `Rvalues.RvalueRuns` | crates/fidan-codegen-cranelift/src/jit.rs:1864-1994 | Emitted code for a well-typed right-hand side delivers the interpreter's value in the destination's representation, or the interpreter's error as a pending exception, touching no variable |
| `Rvalues.BinopRuns` | crates/fidan-codegen-cranelift/src/jit.rs:2238-2348 | Each emitted binary operator with a destination of its result's type yields the interpreter's verdict for every operand pair its kinds admit |
| `Rvalues.UnaryRuns` | crates/fidan-codegen-cranelift/src/jit.rs:2350-2374 | Negation and Boolean not, native and boxed, yield the interpreter's verdict |
| `Rvalues.MoveRuns` | crates/fidan-codegen-cranelift/src/jit.rs:2045-2117 | Moving an operand to a boxed destination, or to a scalar one of its own type, yields its value there |
| `Operators.CompareRuns` | crates/fidan-codegen-cranelift/src/jit.rs:2310-2348 | Native comparison of integers, floats and mixed operands is the interpreter's comparison |
| `Operators.LogicRuns` | crates/fidan-codegen-cranelift/src/jit.rs:2238-2348 | And/or through 64-bit words and narrowing is Boolean and/or, exactly 0 or 1 |
| `Operators.IntegerRuns` | crates/fidan-runtime/src/ffi.rs:430-478 | A checked runtime operation reports the interpreter's integer result or leaves its error pending |
| `Operators.FloatRuns` | crates/fidan-runtime/src/ffi.rs:481-490 | Arithmetic into a float variable converts any two numbers and reports the float operation, or R2001 for a zero divisor |
| `Fragments.AbiToNativeRuns` | crates/fidan-codegen-cranelift/src/jit.rs:2578-2585 | A word encoded at a type that fits becomes a native value standing for the same Fidan value |
| `Fragments.NativeToAbiRuns` | crates/fidan-codegen-cranelift/src/jit.rs:2586-2593 | A native value becomes a word that reads back as the same value; a Boolean word is 0 or 1 |
| `Fragments.BoxOperandRuns` | crates/fidan-codegen-cranelift/src/jit.rs:2045-2078 | Boxing any operand yields a live box holding its value and disturbs no other box |
| `NativeSteps.AssignRuns` | crates/fidan-codegen-cranelift/src/jit.rs:1270-1291 | An emitted assignment with its exception check: variable defined, or the activation ended with the error pending |
| `NativeSteps.UnsetRuns` | crates/fidan-passes/src/inlining.rs:226-261 | What inlining leaves of a call to a function that returns without a value at an integer or handle type keeps machine and interpreter in step, as long as the variable counts as undefined until it is assigned |
| `NativeSteps.LoadGlobalRuns` | crates/fidan-interp/src/mir_interp.rs:389-401 | Loading a global through the raw hook defines the variable with the stored value |
| `NativeSteps.StoreGlobalRuns` | crates/fidan-interp/src/mir_interp.rs:403-420 | Storing through the raw hook leaves exactly the operand's value in the global |
| `NativeSteps.ArgsRun` | crates/fidan-codegen-cranelift/src/jit.rs:2446-2483 | The raw argument array carries each operand's value in order, Booleans as 0 or 1 |
| `Calls.ArgumentsReach` | crates/fidan-codegen-cranelift/src/jit.rs:2145-2169 | The call hook decodes exactly the argument values the interpreter would pass |
| `Calls.ResultRuns` | crates/fidan-codegen-cranelift/src/jit.rs:1311-1384 | A returned word is converted, stored and execution goes on behind the check |
| `Calls.FailureRuns` | crates/fidan-codegen-cranelift/src/jit.rs:2224-2236 | After a failed callee the activation returns 0 at the check |
| `Edges.PhisRun` | crates/fidan-codegen-cranelift/src/jit.rs:2485-2527 | All phi operands are read before any phi variable changes, each at its phi's type |
| `Edges.GotoRuns` | crates/fidan-codegen-cranelift/src/jit.rs:1488-1499 | A jump passes the edge's phi values as the target's block arguments |
| `Edges.BranchRuns` | crates/fidan-codegen-cranelift/src/jit.rs:1500-1560 | A conditional branch takes the interpreter's side with that side's phi values |
| `Edges.CondFlagRuns` | crates/fidan-codegen-cranelift/src/jit.rs:1500-1540 | Native truthiness of a condition is the interpreter's for every type |
| `Edges.ReturnRuns` | crates/fidan-codegen-cranelift/src/jit.rs:1481-1487 | Returning an operand yields a word that reads back as its value at the return type |
| `Edges.ReturnNothingRuns` | crates/fidan-codegen-cranelift/src/jit.rs:1476-1480 | Returning nothing yields 0, which reads back as nothing if and only if the return type is boxed |
| `Edges.BindArgsRun` | crates/fidan-codegen-cranelift/src/jit.rs:1244-1253 | Sequential binding of raw arguments equals the interpreter's parameter stores |
| `Points.RunCheck` | crates/fidan-codegen-cranelift/src/jit.rs:2224-2236 | The exception check: with an exception pending the code returns 0, otherwise it continues in a fresh block |
| `Mir.PreparedArgsFit` | crates/fidan-interp/src/mir_interp.rs:755-804 | A call that passes argument preparation hands every parameter a value of the type its ABI slot promises, nullable parameters boxed, and a certain parameter never nothing |
| `Mir.PreparedExactly` | crates/fidan-interp/src/mir_interp.rs:755-804 | Position by position: each argument reaches its own parameter, a missing one or nothing is replaced by the default where there is one, and a number of the other kind is converted. A call is refused if and only if it passes too many arguments, leaves out one that has no default, or gives a parameter a value it does not accept, nothing to a certain one included |
| `Mir.PrepareCallArgs` | crates/fidan-interp/src/mir_interp.rs:755-804 | The loop that resizes, fills in, checks and converts the arguments in place computes exactly that |
| `Typing.RvalueHasTy` | crates/fidan-interp/src/mir_interp.rs:2060-2080 | Under the local type map taken from the earlier passes, evaluation yields values of those types |
| `JitBuilder.CompileFunction` | crates/fidan-codegen-cranelift/src/jit.rs:959-1594 | The whole imperative compiler - eligibility loops, block creation, block loop - produces exactly the specified code or falls back |
| `JitBuilder.CheckEligible` | crates/fidan-codegen-cranelift/src/jit.rs:979-1030 | The eligibility loops decide exactly the eligibility predicate |
| `JitBuilder.FunctionBuilder.constructor` | crates/fidan-codegen-cranelift/src/jit.rs:1064-1087 | Blocks and their parameters: raw arguments for the entry, one parameter per phi elsewhere |
| `JitBuilder.FunctionBuilder.Block` | crates/fidan-codegen-cranelift/src/jit.rs:1255-1566 | One MIR block, entry binding or phi definitions first, then instructions and terminator |
| `JitBuilder.FunctionBuilder.Instruction` | crates/fidan-codegen-cranelift/src/jit.rs:1267-1473 | One instruction, or giving the function up |
| `JitBuilder.FunctionBuilder.Finish` | crates/fidan-codegen-cranelift/src/jit.rs:1475-1566 | One terminator; throw gives the function up |
| `JitBuilder.FunctionBuilder.Rhs` | crates/fidan-codegen-cranelift/src/jit.rs:1864-1994 | `emit_rvalue` appends the specified code |
| `JitBuilder.FunctionBuilder.Binop` | crates/fidan-codegen-cranelift/src/jit.rs:2238-2348 | `emit_binop` appends the specified code or gives up |
| `JitBuilder.FunctionBuilder.Unop` | crates/fidan-codegen-cranelift/src/jit.rs:2350-2374 | `emit_unop` appends the specified code or gives up |
| `JitBuilder.FunctionBuilder.Box` | crates/fidan-codegen-cranelift/src/jit.rs:2045-2117 | `box_operand_for_abi` appends the specified code |
| `JitBuilder.FunctionBuilder.RawArgs` | crates/fidan-codegen-cranelift/src/jit.rs:2446-2483 | The argument loop appends one raw word per argument |
| `JitBuilder.FunctionBuilder.PhiArgs` | crates/fidan-codegen-cranelift/src/jit.rs:2485-2527 | `collect_phi_args` appends the loads and coercions of one edge |
| `JitBuilder.FunctionBuilder.CheckException` | crates/fidan-codegen-cranelift/src/jit.rs:2224-2236 | `emit_jit_exception_check` splits the block in three |
| `JitBuilder.FunctionBuilder.CallInstr` | crates/fidan-codegen-cranelift/src/jit.rs:2145-2169 | Arguments, raw call, result conversion and check |
| `AbiScope.ScopeOwnership` | crates/fidan-codegen-cranelift/src/jit.rs:73-126 | Over every properly nested run that boxes only inside a context: depth and context are restored, nothing is freed and every box keeps its value while a scope is open, and afterwards every pointer ever issued was freed exactly once |
| `AbiScope.RoundTripLater` | crates/fidan-codegen-cranelift/src/jit.rs:128-147 | A word encoded at one type and read at another, however much nested activity lies between while the scope stays open, gives the value back if and only if it is a scalar read at its own type or a box read at a boxed type |
| `AbiScope.AbiThread.EnterScope` | crates/fidan-codegen-cranelift/src/jit.rs:94-103 | The thread-local depth and list after entering |
| `AbiScope.AbiThread.ExitScope` | crates/fidan-codegen-cranelift/src/jit.rs:104-119 | The drain loop frees every listed box, last first, only at the outermost exit |
| `AbiScope.AbiThread.RegisterBox` | crates/fidan-codegen-cranelift/src/jit.rs:121-126 | Boxing adds one live box and its pointer |
| `AbiScope.AbiThread.EncodeValue` | crates/fidan-codegen-cranelift/src/jit.rs:128-136 | Encoding a value, boxing where the type is not scalar |
| `AbiScope.AbiThread.Run` | crates/fidan-codegen-cranelift/src/jit.rs:73-82 | Nested activity through the cells is the specified run and restores the previous context |
| `Arithmetic.Pow` | crates/fidan-runtime/src/integer.rs:76-103 | Square-and-multiply with a check at every multiplication reports overflow exactly when the true power does not fit in 64 bits, otherwise the true power |
| `Arithmetic.TruncationLaw` | crates/fidan-runtime/src/integer.rs:48-66 | Quotient and remainder recombine, truncate toward zero, the remainder carries the dividend's sign |
| `Arithmetic.DivisionFailsExactly` | crates/fidan-runtime/src/integer.rs:48-66 | R2001 if and only if the divisor is 0, R2003 if and only if MIN / -1, for division and remainder alike |
| `LineDiff.LcsIsLongest` | crates/fidan-cli/src/fix.rs:307-317 | The table's recurrence is the length of a common subsequence of the trimmed lines, and none is longer |
| `LineDiff.FillTable` | crates/fidan-cli/src/fix.rs:307-317 | The nested loops fill every cell with that length for the two suffixes |
| `LineDiff.Diff` | crates/fidan-cli/src/fix.rs:318-332 | The walk over the table produces the specified operations |
| `LineDiff.WalkEdits` | crates/fidan-cli/src/fix.rs:318-332 | The operations read as the new text exactly and as the old text up to surrounding white space, keeping as many lines as the longest common subsequence |
| `LineDiff.WalkIsMinimal` | crates/fidan-cli/src/fix.rs:305-332 | No edit script between the two texts adds plus removes fewer lines |
| `LineDiff.WalkComesFirst` | crates/fidan-cli/src/fix.rs:318-332 | Of all shortest scripts it is the first one in the order in which keeping a line comes before adding one and adding before removing: ties are resolved as the walk does it |
| `LineDiff.RemovalsExact` | crates/fidan-cli/src/fix.rs:318-332 | Removed lines are shown with old text |
| `HunkApply.NearestIsClosest` | crates/fidan-cli/src/fix.rs:686-705 | The search yields the matching start nearest to the hint within 5 lines, ties going low, and fails if and only if none matches within 5 |
| `HunkApply.ResolvedSitsClosest` | crates/fidan-cli/src/fix.rs:686-783 | What a hunk that takes effect does: it replaces as many lines as its old text has at the closest match, or inserts at its hint or the end; the new lines are its new text's, with the file's indentation if that is longer; and it reports position, replaced lines, new lines and reason |
| `HunkApply.ResolvesExactly` | crates/fidan-cli/src/fix.rs:653-783 | A hunk takes effect if and only if its trimmed texts differ and either its old text has no lines and its new text has some, or its old text matches within 5 lines of the hint and the block at the closest match differs from its new lines by more than surrounding white space |
| `HunkApply.TextLinesAre` | crates/fidan-cli/src/fix.rs:657-664 | Old and new text are split without the newlines they end in, however many |
| `HunkApply.BatchReplacesAtOnce` | crates/fidan-cli/src/fix.rs:786-805 | If the hunks resolve to disjoint ranges with distinct starts, the batch is the snapshot with all of them replaced at once |
| `HunkApply.BatchInTurn` | crates/fidan-cli/src/fix.rs:785-805 | Whatever the hunks resolve to, overlapping or not: their ranges are spliced in turn, last start first and ties as proposed, each into what the ones before left; the last text is the result, reported with one entry per range in order of line; the program panics exactly at the first range that no longer fits |
| `HunkApply.ResolveAllMore` | crates/fidan-cli/src/fix.rs:650-783 | The resolved ranges are those of the hunks that take effect, in their order |
| `HunkApply.FindStart` | crates/fidan-cli/src/fix.rs:696-705 | The offset loop computes that position |
| `HunkApply.ResolveOne` | crates/fidan-cli/src/fix.rs:653-783 | One hunk's range, replacement and reported position, or that it is skipped |
| `HunkApply.ApplyHunks` | crates/fidan-cli/src/fix.rs:628-805 | Splitting the text, resolving against that one snapshot, sorting, splicing from the end and joining again with the final newline kept, and the reported hunks in order |
| `HunkApply.RejoinExactly` | crates/fidan-cli/src/fix.rs:798-803 | Lines joined into a text and split again come back, together with whether a newline ends the text, if and only if no line keeps a carriage return before a newline and the text neither becomes empty before its newline nor ends in an empty line without one |
| `HunkApply.ReplacementKeepsText` | crates/fidan-cli/src/fix.rs:732-760 | Restoring indentation changes leading white space only |
| `HunkApply.LinesKeepText` | crates/fidan-cli/src/fix.rs:637-637 | Splitting a text into lines loses nothing but a carriage return in front of each newline and a missing final newline |
| `Splicing.BatchIsSimultaneous` | crates/fidan-cli/src/fix.rs:786-796 | For disjoint ranges with distinct starts, in any order, the descending splices equal replacing every range of the original at once; all other elements stay in place |
| `HunkOrder.OneByOneIsBatch` | crates/fidan-cli/src/fix.rs:450-481 | For hunks with separated search windows, applying them one at a time from the last, each re-matched in the current lines, gives the lines and reported positions of one batch |
| `HunkOrder.OneByOneTextIsBatch` | crates/fidan-cli/src/fix.rs:462-478 | The same for texts, split and joined again for every hunk, as long as what each applied hunk but the last leaves can be split again |
| `HunkOrder.ResolveStable` | crates/fidan-cli/src/fix.rs:686-705 | A hunk resolves the same as long as the lines of its window are untouched |
| `FixLoop.SelectHunks` | crates/fidan-cli/src/fix.rs:430-481 | The two-phase acceptance loop over texts, each candidate split, spliced and joined anew, keeping the current state the analysis of the current source |
| `FixLoop.SelectionTries` | crates/fidan-cli/src/fix.rs:430-481 | What a selection is, without reference to its program: the whole batch, if that changes something and is acceptable; otherwise the last of a chain of sources, one per hunk from the last line up (ties by end, then as proposed), each the one before with that hunk applied if and only if that changes something and its analysis is acceptable against the state reached; the hunks taken are listed in order of line and all others counted as rejected |
| `FixLoop.ScoresCompare` | crates/fidan-cli/src/fix.rs:363-428 | Scores compare lexicographically, lexing errors first; Diagnostics mode accepts exactly a lower score, Improve mode exactly one that is not higher |
| `FixLoop.SelectionPromises` | crates/fidan-cli/src/fix.rs:419-481 | Accepted plus rejected is the number of hunks; nothing accepted leaves the source unchanged; otherwise the score is strictly below the baseline in Diagnostics mode and not above it in Improve mode |
| `FixLoop.StateIsAnalysis` | crates/fidan-cli/src/fix.rs:454-478 | After any number of hunks the current state is the analysis of the current source, the score has not risen, and in Diagnostics mode it has fallen unless the source is the first one |
| `FixLoop.ContinueReaches` | crates/fidan-cli/src/fix.rs:454-481 | The loop hands back the source it reached |
| `FixLoop.ContinueKeepsPromises` | crates/fidan-cli/src/fix.rs:454-478 | The same from any point of the one-at-a-time loop |
| `SpanEdits.ApplyEdits` | crates/fidan-cli/src/fix.rs:91-138 | Sorting, deduplicating and replacing back to front as the program does it |
| `SpanEdits.DedupInPlace` | crates/fidan-cli/src/fix.rs:93-93 | Keeping the first of consecutive edits with one start |
| `SpanEdits.EditsAreSimultaneous` | crates/fidan-cli/src/fix.rs:91-116 | If the first edits at each start, ended with the text where they run past it, do not overlap: the result is the original with every one of these spans replaced at once, if and only if nothing is inserted behind one that runs past the end; stability of the sort decides which edit counts |
| `SpanEdits.EditsInTurn` | crates/fidan-cli/src/fix.rs:91-116 | Whatever the spans, overlapping or not: the first edit at each start is kept, and these are made in turn from the last start to the first, each in what the ones before left and up to its end at most; the program panics exactly at the first that starts behind its own end or the text's |
| `SpanEdits.InsertionSwallowed` | crates/fidan-cli/src/fix.rs:111-116 | A concrete text and two edits for which it is not |
| `SpanEdits.StartBeyondFails` | crates/fidan-cli/src/fix.rs:111-116 | If any edit starts behind the end of the text nothing is written back: the program panics |
| `SpanEdits.OutsideKept` | crates/fidan-cli/src/fix.rs:111-116 | Every stretch outside the spans appears unchanged between the outputs of what precedes and follows it |
| `Publication.ManifestsFormChain` | scripts/publish-distribution.py:21-36 | Under any interleaving of any number of publishers, each able to stop or lose an answer anywhere, every release of an earlier served manifest is in every later one unchanged, and no manifest recurs |
| `Publication.AtMostOneCommit` | scripts/publish-distribution.py:91-102 | Of all publishers starting from the same stored manifest at most one commits |
| `Publication.ReleasesStayBacked` | scripts/publish-distribution.py:61-75 | Every release of every manifest ever served names a stored artifact with the listed digest whose bytes never change afterwards |
| `Publication.ClientsVerify` | crates/fidan-cli/src/distribution.rs:160-179 | A client following any manifest ever served, at any later time and with any cache content, gets bytes whose digest is the one listed, from the cache if the cached copy has it |
| `Publication.VerifiedExactly` | crates/fidan-cli/src/distribution.rs:224-232 | Bytes verify if and only if their digest is the expected text, white space around it and the case of its letters aside |
| `Publication.SharedVersion` | scripts/publish-distribution.py:76-88 | New compilers in one bundle must share their version and have release notes |
| `Publication.ParentIs` | scripts/publish-distribution.py:72-75 | The directory that files are matched by is what precedes the last slash of a key |
| `Publication.LeftoversBlock` | scripts/publish-distribution.py:96-99 | A bundle one of whose keys exists already can never commit: a retry after a partial upload needs new keys |
| `Publication.StepKeeps` | scripts/publish-distribution.py:49-103 | Each single step keeps the protocol invariant and every stored blob |
| `Publication.Cache.Fetch` | crates/fidan-cli/src/distribution.rs:160-179 | The caching download: a verified cached copy, else a verified download written to the cache, else an error; other cache files untouched |
| `Publisher.Identities` | scripts/publish-distribution.py:21-27 | The release dictionary, or failure if and only if an identity is listed twice |
| `Publisher.ValidatePreservation` | scripts/publish-distribution.py:30-36 | Accepts if and only if both manifests are valid and every existing release is kept unchanged |
| `Publisher.CheckBundle` | scripts/publish-distribution.py:51-88 | The local checks decide exactly what the protocol assumes of a bundle |
| `Publisher.CheckedBundle` | scripts/publish-distribution.py:58-75 | In a bundle that gets through both manifests have schema 1 and no duplicate, and no release is dropped or changed; every new release's archive is among the files, under the distribution host and with the digest listed; every file lies beside one of them and is none of a release already published |
| `Publisher.Publish` | scripts/publish-distribution.py:49-103 | One publisher's program is a path of the protocol's steps for any point of failure; success only from the bundle's base, every file having been added under its own new key and nothing else changed but the manifest; failure adds the first few files and leaves everything else alone |
| `Publisher.Bucket.PutIfAbsent` | scripts/publish-distribution.py:98-99 | If-None-Match: * writes exactly when the key is absent |
| `Publisher.Bucket.PutManifestIfMatch` | scripts/publish-distribution.py:101-102 | If-Match writes exactly when the stored tag is the one given |
| `Installer.LiveIsWhole` | crates/fidan-cli/src/distribution.rs:272-371 | With any number of installers and a failure or crash at any step, what is live is nothing, what was live first, or one usable candidate, with the archive as unpacked and exactly the metadata given; the release last published is live or whole at a backup path |
| `Installer.PublishedIsComplete` | crates/fidan-cli/src/distribution.rs:326-344 | What an installer has published, in any run, is its own usable candidate: the archive it unpacked, the metadata bytes it was given, and the archive's own metadata where it was given none |
| `Installer.CallEnds` | crates/fidan-cli/src/distribution.rs:325-371 | Success leaves the finished candidate live; an error leaves what was found live unless putting it back failed, and then it is whole at the backup path; a refused lock or a crash changes nothing by itself |
| `Installer.OneInstaller` | crates/fidan-cli/src/distribution.rs:250-271 | At most one installer is between taking the lock and returning |
| `Installer.StepKeeps` | crates/fidan-cli/src/distribution.rs:272-371 | Each single step keeps the invariant |
| `InstallCall.Destination.Materialize` | crates/fidan-cli/src/distribution.rs:272-371 | The program's sequence of operations is a path of installer steps for every combination of faults; success means that the candidate's archive is live with the given metadata (its own if none is given) and the backup gone unless cleaning up failed, an error that the old release is live, or whole at the backup path; without faults a usable candidate is installed |
| `InstallCall.Destination.MoveAside` | crates/fidan-cli/src/distribution.rs:336-345 | The old release, if there is one, is renamed to the backup path; a destination that is no directory, or any failure, ends the call with everything as it was |
| `InstallCall.Destination.Swap` | crates/fidan-cli/src/distribution.rs:344-371 | From setting the old release aside: publish, roll back, or clean up |
| `InstallCall.Destination.TryLock` | crates/fidan-cli/src/distribution.rs:250-263 | The advisory lock is taken only if free |
| `StaticTrace.BuildStaticTrace` | crates/fidan-cli/src/ai_analysis.rs:730-841 | For every statement forest and line range the trace is exactly the first 250 steps of the uncapped in-range preorder walk, and it is marked truncated if and only if that walk has at least 250 steps |
| `StaticTrace.Tracer.CollectStmt` | crates/fidan-cli/src/ai_analysis.rs:862-1075 | One statement and its children, from any point of the walk |
| `StaticTrace.Tracer.CollectStmts` | crates/fidan-cli/src/ai_analysis.rs:843-860 | A list of statements, from any point of the walk |
| `StaticTrace.WalkShows` | crates/fidan-cli/src/ai_analysis.rs:862-1075 | The walk from a statement shows exactly the in-range ones among the statements found in its bodies at any depth, each with one more than the newlines before it as its line |
| `StaticTrace.ChildrenAre` | crates/fidan-cli/src/ai_analysis.rs:1992-2038 | The children of every kind of statement are the statements of all its bodies, and nothing else |
| `StaticTrace.ChildrenInOrder` | crates/fidan-cli/src/ai_analysis.rs:1992-2038 | The bodies appear among the children whole and in source order: then, else-ifs, else; attempt, catches, otherwise, finally; arms and tasks as listed |
| `StaticTrace.ChildIds` | crates/fidan-cli/src/ai_analysis.rs:1992-2038 | The loops over else-ifs, catches, arms and tasks collect exactly these |
| `StaticTrace.TraceIsInOrder` | crates/fidan-cli/src/ai_analysis.rs:730-860 | For a file in which what is nested or listed later starts later, the uncapped trace shows its in-range statements, actions and variables each once, in the order in which they start |
| `ImportClosure.CollectProjectFiles` | crates/fidan-cli/src/ai_analysis.rs:1460-1489 | On any import graph, cyclic or not, the worklist ends; it succeeds if and only if every reachable file is readable and then lists, in order and once each, exactly the files reachable from the entry through cleanly parsing files |
| `ImportClosure.ClosedHolds` | crates/fidan-cli/src/ai_analysis.rs:1466-1486 | A set that holds the entry and its members' imports holds everything reachable |
| `WordWrap.Wrap` | crates/fidan-cli/src/explain.rs:452-504 | The nested loops build the specified text, escape sequences included |
| `WordWrap.MeasureVisible` | crates/fidan-cli/src/explain.rs:453-469 | The loop computes the visible width |
| `WordWrap.EscapesDoNotCount` | crates/fidan-cli/src/explain.rs:453-469 | Every character counts but those of an escape sequence, from the escape character to the next letter, or to the end if there is none |
| `WordWrap.WrapByParagraph` | crates/fidan-cli/src/explain.rs:475-479 | A text is wrapped paragraph by paragraph, a blank one giving an empty line |
| `WordWrap.GreedyIsFewest` | crates/fidan-cli/src/explain.rs:481-498 | Greedy lines keep the words in order, exceed the visible width only with a single word, and no other such breaking has fewer lines |
| `WordWrap.ParagraphIsOptimal` | crates/fidan-cli/src/explain.rs:471-504 | The words of a paragraph, colour codes and all, are broken into the fewest lines that keep their order and, single words apart, fit into the width beside the indentation, each line taking as many as it can; and the text written is those lines, indented, if and only if none of them starts with a word that shows nothing and has a word after it |
| `WordWrap.InvisibleWordGlues` | crates/fidan-cli/src/explain.rs:484-486 | A word that shows nothing loses the space behind it, at every width |
| `WordWrap.FirstWordIs` | crates/fidan-cli/src/explain.rs:481-481 | A word is everything between white space and the next white space |
| `WordWrap.WordsKeepText` | crates/fidan-cli/src/explain.rs:481-481 | Splitting into words loses white space only |

## Left out

- Values other than integers, floats, Booleans, handles, strings and nothing; lists, dictionaries, objects, stdlib
  namespaces, math intrinsics and receiver calls.
- Floating-point arithmetic, string order and rendering are parameters shared by both tiers; the only law assumed is
  that exactly the integer 0 converts to zero.
- The local type map, the MIR lowering and `arithmetic_may_fail` are assumed to meet the contract in `Typing`.
- Tiering.TieringIsInvisible: leaves out programs in which a compiled function may give a variable a value of another
  type, in which a global may not hold a value of its slot's type (a slot of type nothing that holds something
  included), in which a function may return something else than its return type, or without a value at a scalar type,
  and in which a compiled certainty check is on another boxed local. `Divergence` and `Limits` have the exact
  conditions for moves, constants, arithmetic and checks, `Branching` for tests and `Returns` for results. The check
  of a boxed certain parameter with a computed default is on a phi and left out too.
- Tiering.SessionsAgree: the same programs are left out.
- Tiering.EveryStateIsSafe: the same programs are left out.
- Rvalues.BinopRuns: a float operand for an integer variable, and two integers for a float variable, are left out;
  `Divergence.IntegerAssignedExactly` and `Divergence.FloatAssignedExactly` say what happens to them.
- Rvalues.MoveRuns: a scalar destination fed from an operand of another type is left out; `Limits.ScalarMoveExactly`
  and `Divergence.FlexibleMoveExactly` say what happens to it.
- The two forms of a direct call, as an instruction and as a right-hand side, are one instruction: both are emitted and
  interpreted alike.
- `PushCatch`, `Unreachable`, spawn and drop instructions, and destructors run when a frame is cleaned up.
- Stack slots, symbol registration and libffi: a raw argument array is a list of words.
- Box addresses are never reused in the model, so a dangling pointer can not come to life again.
- Panics through `with_jit_runtime_context`, boxing outside every scope, and JIT use from several threads.
- Compiled code is run within a bound on block transfers; runs beyond every bound are not compared.
- Splicing.BatchIsSimultaneous: overlapping ranges are not covered; a splice outside the text is a modelled panic.
- The lexer, parser and type checker behind the fix loop are one function from sources to diagnostic counts.
- A manifest is identified with its parsed content; normalisation of URL paths, upload sizes and symbolic links.
- HTTP, TLS, SHA-256, archive unpacking, path resolution and the layout check of a staged archive (one Boolean).
- Publisher.Publish: runs alone on the bucket, and no answer is lost after taking effect; other writers and lost
  answers are steps of `Publication`.
- Backup names are assumed fresh; nobody else writes the bucket, a bundle or the destination.
- Installer.LiveIsWhole: deletion of a backup is one step that may leave it partly deleted.
- Operator precedence, configuration, the language server, diagnostics rendering and terminal colours.
