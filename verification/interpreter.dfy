/**
  The tree-walking interpreter, with Java's exceptions replaced by a tagged outcome.

  `Exited` is the loop-exit signal (`LoopExited`) unwinding with the context as it
  stood when the signal was raised; `Failed` is any other run-time failure.
  Execution is bounded by `fuel`: each loop iteration costs one unit, and
  `OutOfFuel` is reported instead of a result when the bound is reached, so a loop
  that would run forever is expressible.
 */
module Interpreter {
  import opened Ast

  /** The evaluation context: variable name to numeric value. */
  type Context = map<string, int>

  datatype Error =
    | UndefinedVariable(name: string)
    | RuntimeFailure(message: string)

  datatype Outcome =
    | Normal(ctx: Context)
    | Exited(ctx: Context)
    | Failed(error: Error)
    | OutOfFuel

  /** What one run of a loop produced, together with how many times it called `body.run`. */
  datatype LoopTrace = LoopTrace(outcome: Outcome, runs: nat)

  /** The variables a statement can assign. A loop assigns nothing of its own. */
  function Writes(s: Stmt): set<string>
  {
    match s
    case Loop(b) => Writes(b)
    case Exit => {}
    case Fail(_) => {}
    case Increment(x) => {x}
    case IfAtLeast(_, _, t) => Writes(t)
    case Sequence(a, b) => Writes(a) + Writes(b)
  }

  /** True iff a loop-exit signal can leave `s`: an `Exit` not enclosed by any loop inside `s`. */
  predicate HasUnguardedExit(s: Stmt)
  {
    match s
    case Loop(_) => false
    case Exit => true
    case Fail(_) => false
    case Increment(_) => false
    case IfAtLeast(_, _, t) => HasUnguardedExit(t)
    case Sequence(a, b) => HasUnguardedExit(a) || HasUnguardedExit(b)
  }

  /** `after` has the same variables as `before` and agrees with it outside `written`. */
  predicate Frame(before: Context, after: Context, written: set<string>)
  {
    && after.Keys == before.Keys
    && forall x :: x in before && x !in written ==> after[x] == before[x]
  }

  /** `run(context)` of a statement. */
  function Run(s: Stmt, ctx: Context, fuel: nat): (r: Outcome)
    ensures r.Normal? || r.Exited? ==> Frame(ctx, r.ctx, Writes(s))
    ensures r.Exited? ==> HasUnguardedExit(s)
    decreases fuel, s
  {
    match s
    case Loop(b) => LoopRun(b, ctx, fuel).outcome
    case Exit => Exited(ctx)
    case Fail(m) => Failed(RuntimeFailure(m))
    case Increment(x) =>
      if x in ctx then Normal(ctx[x := ctx[x] + 1]) else Failed(UndefinedVariable(x))
    case IfAtLeast(x, k, t) =>
      if x !in ctx then Failed(UndefinedVariable(x))
      else if ctx[x] >= k then Run(t, ctx, fuel)
      else Normal(ctx)
    case Sequence(a, b) =>
      match Run(a, ctx, fuel)
      case Normal(c) => Run(b, c, fuel)
      case stopped => stopped
  }

  /** `LoopNode.doRun`: run the body against the context over and over; the
      loop-exit signal stops the loop and is absorbed, every other outcome of a body
      run is passed on unchanged. */
  function LoopRun(body: Stmt, ctx: Context, fuel: nat): (r: LoopTrace)
    ensures !r.outcome.Exited?
    ensures r.runs <= fuel
    ensures r.outcome.Normal? ==> 1 <= r.runs && Frame(ctx, r.outcome.ctx, Writes(body))
    decreases fuel, body
  {
    if fuel == 0 then LoopTrace(OutOfFuel, 0)
    else
      match Run(body, ctx, fuel - 1)
      case Normal(c) =>
        var rest := LoopRun(body, c, fuel - 1);
        LoopTrace(rest.outcome, rest.runs + 1)
      case Exited(c) => LoopTrace(Normal(c), 1)
      case Failed(e) => LoopTrace(Failed(e), 1)
      case OutOfFuel => LoopTrace(OutOfFuel, 1)
  }

  /** Reference definition: the outcome of running `body` `n` times in a row, each run
      starting from the context the previous one left, stopping at the first run that
      does not complete normally. Run number `i` gets `fuel - i`, the budget the loop
      gives it. */
  function RunBodyTimes(body: Stmt, ctx: Context, fuel: nat, n: nat): Outcome
    requires n <= fuel
    decreases n
  {
    if n == 0 then Normal(ctx)
    else
      match RunBodyTimes(body, ctx, fuel, n - 1)
      case Normal(c) => Run(body, c, fuel - n)
      case stopped => stopped
  }

  /** How the loop reports a body run that stopped it: the exit signal becomes a
      normal completion, a failure or fuel exhaustion passes through. */
  function Caught(o: Outcome): Outcome
  {
    if o.Exited? then Normal(o.ctx) else o
  }
}
