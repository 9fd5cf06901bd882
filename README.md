# L21 with a mutable store, in Dafny

L21 is a small Scheme-like language with mutation (`set!`). Its interpreter
does not bind variable names to values. It binds each name to an *address*,
and the address selects a cell in one process-wide, growable *store*.
Environments are a chain of immutable extension frames (parallel lists of
names and addresses) ending at a single mutable global environment. That
global environment is two parallel lists that `define` appends to. Closures
capture an environment; assignment writes through the address. Two closures
that share a frame therefore observe each other's writes.

This project models the two files of that core:

- `ex3/L21-env-store.ts`: the store (`extendStore`, `extendStoreVals`,
  `applyStore`, `setStore`) and the environments (`makeExtEnv`, `applyEnv`,
  `applyGlobalEnv`, `applyExtEnv`, `globalEnvAddBinding`);
- `ex3/L21-eval-store.ts`: the evaluator (`applicativeEval`, `isTrueValue`,
  `evalIf`, `evalProc`, `applyProcedure`, `applyClosure`, `evalSequence`,
  `evalCExps`, `evalDefineExps`, `evalSetExps`, `evalLet`, `evalProgram`).

Layout:

- `ast.dfy` (module `Ast`): expressions, values, environments, failures, and
  the session `State` (store plus the two global lists).
- `env_store.dfy` (module `EnvStore`): store and environment operations as
  functions over the state, and their properties.
- `semantics.dfy` (module `Semantics`): the evaluator as state-passing
  functions. Each takes the state and returns the result with the new state,
  doing the store and global updates in the interpreter's order.
- `session.dfy` (module `Session`): class `Interpreter`, the session object.
  It holds the store and global lists as fields, and its methods update them
  in place the way the interpreter does. Each method is proved to return
  what the matching `Semantics` or `EnvStore` function returns and to leave
  the state it describes. The methods are the in-place counterpart of those functions:
  each evaluator rule appears once as a function, which the lemmas are
  about, and once as a method, which is the mutating code.
- `properties.dfy` (module `Properties`): what the evaluator promises, for all
  expressions, environments, states and primitive libraries.
- `examples.dfy` (module `Examples`): whole programs run from a fresh session
  and evaluated by the verifier.

Behaviour of the code that the model keeps, although a reader might expect
otherwise:

- **Failures do not always short-circuit.** Both arguments of `safe2` are
  computed before it looks at either.
  - An application evaluates its operands even when the operator failed.
  - `set!` evaluates its value even when the name is unbound.
  - In both cases the store may grow before the failure is reported.
- **A failed `define` still binds.** `evalDefineExps` calls
  `globalEnvAddBinding` even when the value failed. The name goes to the
  newest existing cell, or to -1 in an empty store.
- **Arity is not checked.** A frame may have more names than addresses. The
  missing address is the host's `undefined`, and reading a cell through it
  raises a host `TypeError`. The model calls this address `Missing` and the
  exception `Failure.TypeError`. Writing through it does nothing.
- **Host exceptions unwind everything.** `TypeError` and running out of fuel
  are *aborting* failures (`Failure.Aborts`). They also stop the steps a
  failure value would not stop, such as the binding a failed `define` adds.
- **`undefined` is not callable.** A definition or an assignment yields
  `undefined`. Applying it as an operator raises a `TypeError` in the type
  tests of `applyProcedure`, instead of giving the `Bad procedure` failure
  that other values give.

## Model

| member | source | states |
|---|---|---|
| Session.Interpreter.constructor | ex3/L21-env-store.ts:22-23 | a new session starts with an empty store (`makeEmptyStore`) and an empty global environment, two empty lists as `makeGlobalEnv` builds for `theGlobalEnv` at ex3/L21-env-store.ts:59-65 |
| Session.Interpreter.ExtendStore | ex3/L21-env-store.ts:24-27 | the store grows by one cell holding the value, at the old length; the global lists are unchanged |
| Session.Interpreter.ExtendStoreVals | ex3/L21-env-store.ts:28-29 | appending the values one cell at a time, in a loop, leaves the store that EnvStore.ExtendStoreVals specifies, and changes nothing else |
| Session.Interpreter.SetStore | ex3/L21-env-store.ts:36-37 | the cell is overwritten when the address is in range; otherwise the session is unchanged |
| Session.Interpreter.GlobalEnvAddBinding | ex3/L21-env-store.ts:82-86 | name and address are appended to the two global lists; the lists stay equally long |
| EnvStore.ExtendStore | ex3/L21-env-store.ts:24-27 | no contract of its own; ExtendStoreAppends states the new cell and its address, and ExtendStoreValsIsConcat the repeated append |
| EnvStore.ApplyStore | ex3/L21-env-store.ts:31-33 | no contract of its own; ApplyStoreFailsIffOutOfRange, SetThenApply and ExtendStoreAppends state what it reads |
| EnvStore.SetStore | ex3/L21-env-store.ts:36-37 | no contract of its own; SetThenApply and SetOutOfRangeIsNoop state the in-range write and the ignored out-of-range one |
| EnvStore.MakeExtEnv | ex3/L21-env-store.ts:67-68 | no contract of its own; ExtEnvFirstMatch, ExtEnvMissDelegates and FrameResolves state how the frame it builds answers |
| EnvStore.ApplyEnv | ex3/L21-env-store.ts:74-76 | no contract of its own; ExtEnvFirstMatch, ExtEnvMissDelegates, GlobalFirstMatch and LookupStableUnderGrowth state the lookup |
| EnvStore.ApplyGlobalEnv | ex3/L21-env-store.ts:78-80 | no contract of its own; GlobalFirstMatch and AddBindingBindsFreshName state the global lookup |
| EnvStore.GlobalEnvAddBinding | ex3/L21-env-store.ts:82-86 | no contract of its own; GlobalEnvAddBindingAppends and AddBindingBindsFreshName state the new binding |
| EnvStore.ApplyExtEnv | ex3/L21-env-store.ts:88-90 | no contract of its own; ExtEnvFirstMatch, ShadowingIgnoresOuter and ExtEnvMissDelegates state the frame lookup |
| EnvStore.ExtendStoreVals | ex3/L21-env-store.ts:28-29 | the result is longer by exactly the number of values, and the old cells are its prefix |
| EnvStore.ExtendStoreAppends | ex3/L21-env-store.ts:24-27 | one more cell, holding the value at the old length; every other address reads as before |
| EnvStore.ExtendStoreValsIsConcat | ex3/L21-env-store.ts:28-29 | the fold of single appends equals appending the whole sequence |
| EnvStore.ExtendStoreValsLayout | ex3/L21-env-store.ts:28-29 | value i is at old length + i, and every older cell reads as before |
| EnvStore.ApplyStoreFailsIffOutOfRange | ex3/L21-env-store.ts:31-33 | a read fails, with IllegalAddress, exactly when the address is negative or at least the length; otherwise it returns that cell |
| EnvStore.SetThenApply | ex3/L21-env-store.ts:36-37 | after an in-range write the cell reads the new value; the length and all other cells are unchanged |
| EnvStore.SetOutOfRangeIsNoop | ex3/L21-env-store.ts:36-37 | an out-of-range write leaves the store exactly as it was, without an error |
| EnvStore.Range | ex3/L21-eval-store.ts:56 | the addresses lo..hi-1, in order, and empty when hi <= lo |
| EnvStore.IndexOf | ex3/L21-env-store.ts:79 | -1 exactly when the name is absent; otherwise the position of its first occurrence |
| EnvStore.ExtEnvFirstMatch | ex3/L21-env-store.ts:88-90 | a frame holding the name answers with the address at the name's first position |
| EnvStore.ShadowingIgnoresOuter | ex3/L21-env-store.ts:88-90 | a frame binding the name answers the same whatever its outer chain and the global state |
| EnvStore.ExtEnvMissDelegates | ex3/L21-env-store.ts:74-90 | a frame without the name answers as its next environment does |
| EnvStore.GlobalFirstMatch | ex3/L21-env-store.ts:78-80 | an unbound global name fails with UnboundVariable; a bound one resolves to the address paired with its earliest entry |
| EnvStore.GlobalEnvAddBindingAppends | ex3/L21-env-store.ts:82-86 | both global lists grow by one at the end with the name and the address; earlier entries and the store are intact |
| EnvStore.IndexOfExtended | ex3/L21-env-store.ts:79 | entries appended after a name's first occurrence do not change its position |
| EnvStore.LookupStableUnderGrowth | ex3/L21-env-store.ts:74-90 | when the global lists only grow at their end, every name that resolved keeps its address, in any environment |
| EnvStore.AddBindingBindsFreshName | ex3/L21-env-store.ts:78-86 | after adding a binding for an unbound name, the name resolves globally to the new address |
| Semantics.Eval | ex3/L21-eval-store.ts:19-32 | evaluation only grows the state: the store never shrinks, and the global lists are only appended to, in step |
| Semantics.EvalVarRef | ex3/L21-eval-store.ts:24 | no contract of its own; Properties.VarRefReadsCell states what a variable reads and how its failures surface |
| Semantics.IsTrueValue | ex3/L21-eval-store.ts:34-35 | no contract of its own; Properties.IfTruthiness and Properties.FalsyOnlyFalse state which values select `then` |
| Semantics.EvalProc | ex3/L21-eval-store.ts:41-42 | no contract of its own; Properties.LambdaCapturesEnv states the closure a lambda yields |
| Semantics.EvalIf | ex3/L21-eval-store.ts:37-39 | an `if` only grows the state |
| Semantics.EvalRands | ex3/L21-eval-store.ts:29-30 | operands only grow the state; on success there is exactly one value per operand, and Properties.RandsThread states which values and in what order |
| Properties.RandsThread | ex3/L21-eval-store.ts:29-30 | no operands yield no values and leave the state alone; otherwise the first operand runs in env, and its failure ends the evaluation in the state it left; the rest then run in that state, and their first failure is returned; on success the values are the operands' values in order, in the last operand's state |
| Semantics.ApplyProcedure | ex3/L21-eval-store.ts:46-49 | an application only grows the state |
| Semantics.ApplyClosure | ex3/L21-eval-store.ts:51-59 | a closure call only grows the state |
| Semantics.EvalSequence | ex3/L21-eval-store.ts:62-64 | a sequence only grows the state |
| Semantics.EvalCExps | ex3/L21-eval-store.ts:66-71 | a sequence step only grows the state |
| Semantics.EvalDefineExps | ex3/L21-eval-store.ts:73-78 | a definition only grows the state |
| Semantics.EvalSetExps | ex3/L21-eval-store.ts:80-85 | an assignment only grows the state (a write changes a cell, not the length) |
| Semantics.EvalLet | ex3/L21-eval-store.ts:97-108 | a `let` only grows the state |
| Semantics.EvalProgram | ex3/L21-eval-store.ts:89-90 | a program only grows the session state |
| Session.Interpreter.ApplicativeEval | ex3/L21-eval-store.ts:19-32 | the in-place evaluator returns what Semantics.Eval returns and leaves the state it describes |
| Session.Interpreter.EvalIf | ex3/L21-eval-store.ts:37-39 | agrees with Semantics.EvalIf on result and new state |
| Session.Interpreter.EvalRands | ex3/L21-eval-store.ts:29-30 | agrees with Semantics.EvalRands on result and new state |
| Session.Interpreter.ApplyProcedure | ex3/L21-eval-store.ts:46-49 | agrees with Semantics.ApplyProcedure on result and new state |
| Session.Interpreter.ApplyClosure | ex3/L21-eval-store.ts:51-59 | reading the store length before and after extending it gives the frame addresses; agrees with Semantics.ApplyClosure |
| Session.Interpreter.EvalSequence | ex3/L21-eval-store.ts:62-64 | agrees with Semantics.EvalSequence on result and new state |
| Session.Interpreter.EvalCExps | ex3/L21-eval-store.ts:66-71 | agrees with Semantics.EvalCExps on result and new state |
| Session.Interpreter.EvalDefineExps | ex3/L21-eval-store.ts:73-78 | the store append, then the global binding to the last cell (also after a failure), agree with Semantics.EvalDefineExps |
| Session.Interpreter.EvalSetExps | ex3/L21-eval-store.ts:80-85 | lookup, then value, then the write in place, agree with Semantics.EvalSetExps |
| Session.Interpreter.EvalLet | ex3/L21-eval-store.ts:97-108 | agrees with Semantics.EvalLet on result and new state |
| Session.Interpreter.EvalProgram | ex3/L21-eval-store.ts:89-90 | agrees with Semantics.EvalProgram; the session state only grows, and the two global lists stay equally long |
| Properties.LiteralsEvaluateToThemselves | ex3/L21-eval-store.ts:20-25 | number, boolean, string and quoted literals yield their value, and a primitive operator yields itself; the state is untouched |
| Properties.VarRefReadsCell | ex3/L21-eval-store.ts:24 | a variable yields the current content of the cell its name resolves to; lookup failures and illegal addresses propagate, and a missing address raises TypeError |
| Properties.IfTruthiness | ex3/L21-eval-store.ts:34-39 | the test's failure propagates; every value but boolean false selects `then`, false selects `else`, in the state the test left |
| Properties.FalsyOnlyFalse | ex3/L21-eval-store.ts:34-35 | 0, "" and the empty list are true; only false selects `else` |
| Properties.LambdaCapturesEnv | ex3/L21-eval-store.ts:41-42 | a lambda yields a closure over its parameters, its body and the current environment, and leaves the state untouched |
| Properties.NestedSetFails | ex3/L21-eval-store.ts:31 | `set!` in an expression position fails |
| Properties.FrameResolves | ex3/L21-eval-store.ts:52-57 | in a frame over fresh cells, each name reads its own value at its first position; a name with no value raises TypeError |
| Properties.LetBindsFreshCells | ex3/L21-eval-store.ts:97-108 | binding values are evaluated in the enclosing environment, and the first failure is returned; on success the store grows by exactly one cell per binding, in order, and the body runs in a frame over the enclosing environment |
| Properties.ClosureCallUsesCapturedEnv | ex3/L21-eval-store.ts:46-59 | a closure call allocates one fresh cell per argument and runs the body in a frame whose parent is the captured environment; each parameter reads its argument, or raises TypeError without one |
| Properties.ApplyNonClosure | ex3/L21-eval-store.ts:46-49 | a primitive goes to the primitive library; `undefined` raises TypeError; any other non-closure fails with BadProcedure; none changes the state |
| Properties.ApplicationRule | ex3/L21-eval-store.ts:29-30 | the operands run in the state the operator left; a host exception from the operator skips them; a failed operator's failure is reported only after the operands ran, in the state they left; after a successful operator an operand failure is reported; when both succeed the procedure is applied to the values in the operands' state |
| Properties.EmptySequenceFails | ex3/L21-eval-store.ts:62-63 | an empty sequence or program fails with EmptyProgram and changes nothing |
| Properties.DefineBindsGlobally | ex3/L21-eval-store.ts:73-78 | the value is evaluated globally, stored in a new cell and bound globally to it; a trailing define yields undefined; otherwise the rest runs in the global environment |
| Properties.DefineIgnoresEnv | ex3/L21-eval-store.ts:73-78 | a definition behaves the same in every environment |
| Properties.DefinedNameReadsValue | ex3/L21-eval-store.ts:73-78 | after a definition of an unbound name, the name reads the defined value |
| Properties.DefineFailureStillBinds | ex3/L21-eval-store.ts:73-78 | when the value fails, the name is still bound to store length - 1, and the failure is reported; a host exception stops the definition before it binds anything |
| Properties.SetWritesThroughAddress | ex3/L21-eval-store.ts:80-85 | the value is evaluated even when lookup fails, and the lookup failure wins unless the value raised a host exception; after a successful lookup the value's failure is reported; otherwise the resolved cell is written (nothing for a missing or out-of-range address), a trailing `set!` yields undefined, and the remaining forms run in the same environment |
| Properties.PlainFormThreads | ex3/L21-eval-store.ts:66-71 | a last expression form gives the sequence's value; an earlier one that fails ends the sequence in the state it left; otherwise the remaining forms run in the same environment |
| Properties.BindingsSurviveEvaluation | ex3/L21-eval-store.ts:89-90 | after any program, every name that resolved before resolves to the same address, in every environment |
| Properties.AssignmentVisibleThroughAlias | ex3/L21-eval-store.ts:80-85 | after `set!` through one environment, every name in any environment that resolved to the same cell reads the new value |
| Examples.RedefinitionKeepsFirst | ex3/L21-env-store.ts:78-86 | `(define x 1) (define x 2) x` yields 1 |
| Examples.ZeroIsTrue | ex3/L21-eval-store.ts:34-39 | `(if 0 "a" "b")` yields "a" |
| Examples.FailedDefinitionAliasesOlderCell | ex3/L21-eval-store.ts:73-78 | after `(define x 5)`, `(define y z)` fails, and `y` then reads 5 |
| Examples.ForwardReferenceResolves | ex3/L21-eval-store.ts:73-78 | a procedure that calls one defined after it runs: the program yields 1 |
| Examples.LexicalScoping | ex3/L21-eval-store.ts:51-59 | a closure's free variable resolves where the closure was created, not at the call site |
| Examples.SiblingClosuresShareCells | ex3/L21-eval-store.ts:80-85 | two closures from one `let` share its cell: one assigns 7, the other reads 7 |
| Examples.GlobalMutationIsDurable | ex3/L21-eval-store.ts:80-90 | `(define x 5) (define y (lambda (z) (set! x (+ x z)) x)) (y 3)` yields 8, and a later program reading x gets 8 |
| Examples.MissingArgumentRaises | ex3/L21-eval-store.ts:51-59 | `((lambda (a b) b) 1)` raises TypeError |
| Examples.UnboundAssignmentStillEvaluates | ex3/L21-eval-store.ts:80-82 | `set!` of an unbound name fails with UnboundVariable, after its value has allocated a cell |
| Examples.UndefinedIsNotCallable | ex3/L21-eval-store.ts:46-49 | with x bound to 0, `(((lambda () (set! x 1))) 5)` raises TypeError after x has become 1 |

## Left out

- Parsing (`parseL21Exp`, the shared parser, `evalParse` at `ex3/L21-eval-store.ts:92-93`): the model starts from the expression tree, and the parser is not part of this model.
- `applyPrimitive`: it lives in `ex3/evalPrimitive-store.ts`, which is not part of this model. It is the parameter `prim` of every evaluator function, so every property holds whatever the primitives return. Being a pure function, it cannot read or change the store or the global environment.
- Failure messages and rendering (`valueToString`, `unparse`, `JSON.stringify`): failures are tagged kinds (`Failure`), not text.
- `Result` combinators and list helpers (`bind`, `safe2`, `mapResult`, ramda's `map`, `range`, `reduce`, `indexOf`, `first`, `rest`, `isEmpty`): the shared modules are not part of this model. They are written out where they are used, with `safe2` computing both arguments first. `mapResult` is taken to evaluate left to right and stop at the first failure; `Properties.RandsThread` states that rule for `Semantics.EvalRands`.
- The `Box` encoding, `makeBox`, `unbox` and `setBox`: the store is a sequence of values and the global environment two sequences. A cell's identity is its address.
- `extendStore`'s store parameter: the code ignores it and always appends to the one store. There is one store per session here, so the parameter is not modelled.
- Fuel: the interpreter's recursion is unbounded and a program may diverge. Every evaluator function takes a `fuel` bound, and running out is `Failure.OutOfFuel`, which stands for the host's stack overflow. A property stated at one fuel says nothing about another.
- Semantics.ApplyProcedure: the type tests `isPrimOp` and `isClosure` come from `ex3/L21-ast.ts` and `ex3/L21-value-store.ts`, which are not part of this model. They are taken to read the value's tag, so only `undefined` makes them throw.
- Numbers are unbounded integers. JavaScript's floating-point numbers (fractions, overflow to infinity, NaN) are not modelled.
- Sequence bodies: `ProcExp` and `LetExp` bodies are `seq<Exp>` and may hold definitions, as `evalSequence` accepts. Whether the parser produces such bodies is not modelled.
- The value of a form that is neither a definition nor an expression (`evalCExps`'s last branch, `applicativeEval`'s last branch): such forms are not in the expression type.
- The examples state exact fuel amounts. They show one run of each program, not a property for every fuel.
- Reading through an `undefined` address: the host throws inside `applyStore`. The model reports the same `TypeError` without modelling the JavaScript comparisons that lead there.
