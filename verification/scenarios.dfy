/**
  Concrete loops, each run with every large enough fuel budget.
 */
module Scenarios {
  import opened Ast
  import opened Interpreter
  import opened LoopSemantics

  /** Body: increment x, then exit once x is at least 3. */
  const CountBody: Stmt := Sequence(Increment("x"), IfAtLeast("x", 3, Exit))

  /** Counting to three from x = 0: exactly three body runs, x ends at 3, and the
      loop returns normally. */
  lemma CountToThree(fuel: nat)
    requires fuel >= 3
    ensures LoopRun(CountBody, map["x" := 0], fuel) == LoopTrace(Normal(map["x" := 3]), 3)
  {
    var c0: Context := map["x" := 0];
    assert Run(CountBody, c0, fuel - 1) == Normal(map["x" := 1]);
    assert RunBodyTimes(CountBody, c0, fuel, 1) == Normal(map["x" := 1]);
    assert Run(CountBody, map["x" := 1], fuel - 2) == Normal(map["x" := 2]);
    assert RunBodyTimes(CountBody, c0, fuel, 2) == Normal(map["x" := 2]);
    var c3: Context := map["x" := 3];
    assert Run(Increment("x"), map["x" := 2], fuel - 3) == Normal(c3);
    assert Run(IfAtLeast("x", 3, Exit), c3, fuel - 3) == Exited(c3);
    assert Run(CountBody, map["x" := 2], fuel - 3) == Exited(c3);
    LoopExitsOnRun(CountBody, c0, fuel, 3, map["x" := 2], map["x" := 3]);
  }

  /** A body that exits unconditionally runs once and the loop returns immediately
      with the context untouched. */
  lemma ExitAtOnce(ctx: Context, fuel: nat)
    requires fuel >= 1
    ensures LoopRun(Exit, ctx, fuel) == LoopTrace(Normal(ctx), 1)
  {
  }

  /** A body that fails (a division by zero, say) runs once and the loop passes the
      very same failure on. */
  lemma FailureAtOnce(ctx: Context, fuel: nat)
    requires fuel >= 1
    ensures LoopRun(Fail("/ by zero"), ctx, fuel) == LoopTrace(Failed(RuntimeFailure("/ by zero")), 1)
  {
  }

  /** Referencing an undefined variable inside the body is also a failure the loop
      does not intercept. */
  lemma UndefinedVariableEscapes(fuel: nat)
    requires fuel >= 1
    ensures Run(Loop(CountBody), map[], fuel) == Failed(UndefinedVariable("x"))
  {
    assert Run(CountBody, map[], fuel - 1) == Failed(UndefinedVariable("x"));
    assert LoopRun(CountBody, map[], fuel) == LoopTrace(Failed(UndefinedVariable("x")), 1);
  }

  /** A body that never exits nor fails keeps the loop going for as long as the fuel
      lasts: one body run per unit. */
  lemma {:induction false} IncrementForever(ctx: Context, fuel: nat)
    requires "x" in ctx
    ensures LoopRun(Increment("x"), ctx, fuel) == LoopTrace(OutOfFuel, fuel)
    decreases fuel
  {
    if fuel > 0 {
      IncrementForever(ctx["x" := ctx["x"] + 1], fuel - 1);
    }
  }

  /** `Loop(Loop(Exit))`: the inner loop absorbs every exit, so the outer loop runs
      the inner one again each time and never stops. */
  lemma {:induction false} InnerLoopAbsorbsExit(ctx: Context, fuel: nat)
    ensures LoopRun(Loop(Exit), ctx, fuel) == LoopTrace(OutOfFuel, fuel)
    decreases fuel
  {
    if fuel >= 2 {
      assert LoopRun(Exit, ctx, fuel - 1) == LoopTrace(Normal(ctx), 1);
      assert Run(Loop(Exit), ctx, fuel - 1) == Normal(ctx);
      InnerLoopAbsorbsExit(ctx, fuel - 1);
    }
  }

  /** An exit after the inner loop belongs to the outer loop: `Loop({ Loop(Exit); Exit })`
      runs its body once and returns normally. */
  lemma ExitAfterInnerLoop(ctx: Context, fuel: nat)
    requires fuel >= 2
    ensures LoopRun(Sequence(Loop(Exit), Exit), ctx, fuel) == LoopTrace(Normal(ctx), 1)
  {
    assert LoopRun(Exit, ctx, fuel - 1) == LoopTrace(Normal(ctx), 1);
    assert Run(Loop(Exit), ctx, fuel - 1) == Normal(ctx);
    assert Run(Sequence(Loop(Exit), Exit), ctx, fuel - 1) == Exited(ctx);
  }
}
