# Wordy's loop node, modelled in Dafny

Wordy is a small educational language whose statement tree can be run by a
tree-walking interpreter or compiled to Java source text. `LoopNode` is its only
looping construct: an infinite loop around one `body` statement that is left only
when the body raises the loop-exit signal (`LoopExited`, thrown by a loop-exit
statement). This project models that node:

- **Structural identity** (`ast.dfy`, `identity.dfy`): `getChildren`, `equals`,
  `hashCode` and `toString`, all of which depend on `body` alone.
- **Execution** (`interpreter.dfy`, `loop_semantics.dfy`): `doRun` as a pure,
  fuel-bounded interpreter. Java's exceptions become a tagged outcome:
  `Normal(ctx)`, `Exited(ctx)` (the exit signal), `Failed(error)` (any other
  failure), and `OutOfFuel` when the bound is reached. Each loop iteration costs one
  unit of fuel. `LoopRun` also counts the body runs, so "the body runs exactly k
  times" can be stated. The reference definition `RunBodyTimes` runs the body k
  times in a row. The lemmas relate the loop to it in both directions.
- **Emission** (`compiler.dfy`): `compile` as a pure function from a tree to the
  lines it prints.
- **Concrete loops** (`scenarios.dfy`): counting to three, an immediate exit, an
  immediate failure, a loop that never exits, and loops nested in loops.

The sibling statement kinds are not part of this model. A closed `Stmt` datatype
holds minimal stand-ins for them:
- `Exit` raises the loop-exit signal.
- `Fail` raises another run-time failure.
- `Increment` adds one to a variable and fails if the variable is undefined.
- `IfAtLeast` runs its branch when a variable has reached a bound.
- `Sequence` runs two statements in order.

The evaluation context is a `map<string, int>`. The printed and emitted formats of
the stand-ins are invented. Only the loop's own formats come from the source.

## Model

| member | source | states |
|---|---|---|
| `Ast.Children` | src/wordy/ast/LoopNode.java:23-26 | every child is strictly smaller than its parent (no cycles); a loop's only child role is "body" |
| `Ast.LoopChildren` | src/wordy/ast/LoopNode.java:24-26 | a loop's children map has exactly one entry, key "body", whose value is the body |
| `Ast.LoopChildrenDetermineBody` | src/wordy/ast/LoopNode.java:24-26 | two loops have equal children maps iff their bodies are equal |
| `Identity.Equals` | src/wordy/ast/LoopNode.java:29-36 | a loop is never equal to a node of another kind, and equal nodes have equal hashes and equal printed forms |
| `Identity.ObjectEquals` | src/wordy/ast/LoopNode.java:28-36 | a loop is never equal to null, and never equal to a node of another kind |
| `Identity.EqualsIsStructural` | src/wordy/ast/LoopNode.java:29-36 | node `equals` holds exactly when the two trees are structurally identical (deep, not reference, equality) |
| `Identity.LoopEqualsIffBodiesEqual` | src/wordy/ast/LoopNode.java:34-35 | two loops are equal iff their bodies are equal |
| `Identity.ObjectEqualsReflexive` | src/wordy/ast/LoopNode.java:30-31 | a node is always equal to itself |
| `Identity.ObjectEqualsSymmetricTransitive` | src/wordy/ast/LoopNode.java:29-36 | equality is symmetric and transitive |
| `Identity.Hash` | src/wordy/ast/LoopNode.java:38-41 | every hash is a value of Java's 32-bit `int` range |
| `Identity.LoopHashOfBody` | src/wordy/ast/LoopNode.java:39-41 | a loop's hash is `Objects.hash(body)`, i.e. `31 + body.hashCode()` with int wrap-around, so it depends on the body alone |
| `Identity.HashConsistentWithEquals` | src/wordy/ast/LoopNode.java:29-41 | equal nodes have equal hashes |
| `Identity.ToString` | src/wordy/ast/LoopNode.java:43-46 | a loop prints "LoopNode{body=", then exactly its body's printed form, then "}"; no other node's printed form starts with "LoopNode{body=" |
| `Identity.LoopToStringOnlyBody` | src/wordy/ast/LoopNode.java:43-46 | two loops print the same iff their bodies print the same: the printed form adds only fixed text around the body |
| `Interpreter.Run` | src/wordy/ast/LoopNode.java:48-58 | a completed or exited run keeps the context's variables and changes only those the statement assigns, and a loop assigns none of its own; the exit signal leaves a statement only from an exit not enclosed by a loop |
| `Interpreter.LoopRun` | src/wordy/ast/LoopNode.java:48-58 | the loop never lets the exit signal out; it calls the body at most once per fuel unit; a normal return follows at least one body run and changes only variables the body assigns |
| `LoopSemantics.LoopStopsIff` | src/wordy/ast/LoopNode.java:50-57 | the loop returns normally (resp. fails with e) after exactly k body runs iff the first k-1 runs complete normally and run k raises the exit signal (resp. fails with e) |
| `LoopSemantics.LoopExitsOnRun` | src/wordy/ast/LoopNode.java:52-57 | if the body completes k-1 times and exits on run k, the loop runs it exactly k times, returns normally, and leaves the context the k-th run left |
| `LoopSemantics.LoopFailsOnRun` | src/wordy/ast/LoopNode.java:50-57 | if run k fails with any error other than the exit signal, the loop propagates that exact error after exactly k runs |
| `LoopSemantics.LoopOutOfFuelIff` | src/wordy/ast/LoopNode.java:52-54 | the loop runs out of budget after k runs iff all runs so far completed normally (k equals the budget) or run k itself ran out |
| `LoopSemantics.LoopWithoutExitExhaustsFuel` | src/wordy/ast/LoopNode.java:52-54 | a body that keeps completing normally keeps the loop iterating, one body run per fuel unit |
| `LoopSemantics.RunFuelMonotone` | src/wordy/ast/LoopNode.java:52-54 | a statement that finishes within some budget finishes identically with any larger budget, so the bound only cuts the infinite loop short |
| `LoopSemantics.LoopRunFuelMonotone` | src/wordy/ast/LoopNode.java:52-54 | the same for a loop, including its number of body runs |
| `LoopSemantics.LoopAbsorbsExit` | src/wordy/ast/LoopNode.java:55-57 | a loop never ends with the exit signal: the nearest enclosing loop catches it |
| `LoopSemantics.NestedLoopNeverCompletes` | src/wordy/ast/LoopNode.java:50-57 | in `Loop(Loop(b))` the inner loop absorbs every exit, so the outer loop never returns normally |
| `Compiler.Compile` | src/wordy/ast/LoopNode.java:60-64 | the first line emitted is "while(true)" exactly when the node is a loop |
| `Compiler.CompileLoopText` | src/wordy/ast/LoopNode.java:60-64 | a loop's compiled text is "while(true)" and a newline, followed by exactly the body's compiled text |
| `Compiler.LoopTextDeterminedByBody` | src/wordy/ast/LoopNode.java:61-64 | two loops compile to the same text iff their bodies do |
| `Compiler.OneHeaderPerLoop` | src/wordy/ast/LoopNode.java:62 | the number of "while(true)" lines emitted equals the number of loop nodes in the tree |
| `Compiler.NestedLoopsText` | src/wordy/ast/LoopNode.java:61-64 | n nested loops emit n headers, outermost first, then the innermost body's text |
| `Scenarios.CountToThree` | src/wordy/ast/LoopNode.java:50-57 | the body "increment x; exit if x >= 3" from x = 0 runs exactly 3 times, leaves x = 3, and the loop returns normally |
| `Scenarios.ExitAtOnce` | src/wordy/ast/LoopNode.java:52-57 | a body that always exits runs once and the loop returns with the context unchanged |
| `Scenarios.FailureAtOnce` | src/wordy/ast/LoopNode.java:50-57 | a failing body runs once and the same failure leaves the loop |
| `Scenarios.UndefinedVariableEscapes` | src/wordy/ast/LoopNode.java:50-57 | an undefined-variable failure inside the body leaves the loop unchanged |
| `Scenarios.IncrementForever` | src/wordy/ast/LoopNode.java:52-54 | a body that only increments keeps the loop running for the whole budget |
| `Scenarios.InnerLoopAbsorbsExit` | src/wordy/ast/LoopNode.java:52-57 | `Loop(Loop(Exit))` never stops: the outer loop re-runs the inner loop after each absorbed exit |
| `Scenarios.ExitAfterInnerLoop` | src/wordy/ast/LoopNode.java:55-57 | in `Loop({Loop(Exit); Exit})` the second exit belongs to the outer loop, which returns after one body run |

## Left out

- `PrintWriter` output: `compile` returns the printed lines, and `Text` renders them with a newline after each line.
- `Compiler.Text`: `println` ends each line with the platform's line separator (`System.lineSeparator()`, "\r\n" on Windows). The model always uses "\n", so `CompileLoopText` and `NestedLoopsText` describe the output on systems whose separator is "\n".
- Exceptions and `try`/`catch` are replaced by the tagged outcome. `LoopExited` is `Exited`, and every other exception is `Failed`.
- `Interpreter.Run`: a `Failed` outcome carries no context. In Java the caller still holds the context object, with the updates made before the failure. The model does not keep that context.
- Genuine non-termination: the `while(true)` loop is bounded by fuel, and running out is its own outcome, `OutOfFuel`. `RunFuelMonotone` shows that the bound only truncates execution.
- `StatementNode.run` wraps `doRun` and is not part of this model. The body's `run` is modelled as `Run` directly.
- Reference identity (`this == o`): immutable values have no identity, so that shortcut is covered by reflexivity (`ObjectEqualsReflexive`). An argument of a class other than a statement node has no counterpart. `ObjectEquals` takes a node or null only.
- `Identity.StringHash`: folds over Unicode scalar values, whereas `String.hashCode` folds over UTF-16 code units, so the two differ on characters outside the Basic Multilingual Plane. Only the stand-ins' hashes use it.
- `Identity.Hash`: only the loop's hash is taken from the source (`Objects.hash(body)`). The stand-ins' hashes assume `Objects.hash` over their fields.
- `toString` formats of the stand-ins are invented. Only the loop's "LoopNode{body=…}" comes from the source.
- `EvaluationContext`'s internals, expression evaluation, the parser and the other statement kinds are not part of this model. They are replaced by the stand-ins described above. Variable values are unbounded integers.
- The scenario's "print context.x" step is output and is left out.
