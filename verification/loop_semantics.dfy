/**
  What `LoopNode.doRun` promises, stated against the reference definition
  `RunBodyTimes` (the body run k times in a row).
 */
module LoopSemantics {
  import opened Ast
  import opened Interpreter

  /** Once a run of the body has stopped the sequence, further runs change nothing. */
  lemma {:induction false} RunBodyTimesStaysStopped(body: Stmt, ctx: Context, fuel: nat, n: nat, m: nat)
    requires n <= m <= fuel
    requires !RunBodyTimes(body, ctx, fuel, n).Normal?
    ensures RunBodyTimes(body, ctx, fuel, m) == RunBodyTimes(body, ctx, fuel, n)
    decreases m
  {
    if m > n {
      RunBodyTimesStaysStopped(body, ctx, fuel, n, m - 1);
    }
  }

  /** Peeling off the first run: after a first run that completes normally with `c`,
      the remaining runs start from `c` with one unit of fuel less. */
  lemma {:induction false} RunBodyTimesFirst(body: Stmt, ctx: Context, fuel: nat, n: nat, c: Context)
    requires n + 1 <= fuel
    requires Run(body, ctx, fuel - 1) == Normal(c)
    ensures RunBodyTimes(body, ctx, fuel, n + 1) == RunBodyTimes(body, c, fuel - 1, n)
    decreases n
  {
    if n > 0 {
      RunBodyTimesFirst(body, ctx, fuel, n - 1, c);
    }
  }

  /** Forward half of `LoopStopsIff`. */
  lemma {:induction false} LoopStopsOnlyAfterRuns(body: Stmt, ctx: Context, fuel: nat, k: nat, o: Outcome)
    requires o.Exited? || o.Failed?
    requires LoopRun(body, ctx, fuel) == LoopTrace(Caught(o), k)
    ensures 1 <= k <= fuel
    ensures RunBodyTimes(body, ctx, fuel, k - 1).Normal?
    ensures RunBodyTimes(body, ctx, fuel, k) == o
    decreases fuel
  {
    assert fuel > 0;
    var first := Run(body, ctx, fuel - 1);
    assert RunBodyTimes(body, ctx, fuel, 1) == first;
    if first.Normal? {
      var c := first.ctx;
      var rest := LoopRun(body, c, fuel - 1);
      assert LoopRun(body, ctx, fuel) == LoopTrace(rest.outcome, rest.runs + 1);
      assert rest == LoopTrace(Caught(o), k - 1);
      LoopStopsOnlyAfterRuns(body, c, fuel - 1, k - 1, o);
      assert k >= 2;
      RunBodyTimesFirst(body, ctx, fuel, k - 2, c);
      RunBodyTimesFirst(body, ctx, fuel, k - 1, c);
    } else {
      assert LoopRun(body, ctx, fuel).runs == 1;
    }
  }

  /** Backward half of `LoopStopsIff`. */
  lemma {:induction false} LoopStopsAfterRuns(body: Stmt, ctx: Context, fuel: nat, k: nat, o: Outcome)
    requires o.Exited? || o.Failed?
    requires 1 <= k <= fuel
    requires RunBodyTimes(body, ctx, fuel, k - 1).Normal?
    requires RunBodyTimes(body, ctx, fuel, k) == o
    ensures LoopRun(body, ctx, fuel) == LoopTrace(Caught(o), k)
    decreases fuel
  {
    var first := Run(body, ctx, fuel - 1);
    assert RunBodyTimes(body, ctx, fuel, 1) == first;
    if k == 1 {
      return;
    }
    if !first.Normal? {
      RunBodyTimesStaysStopped(body, ctx, fuel, 1, k - 1);
      return;
    }
    var c := first.ctx;
    RunBodyTimesFirst(body, ctx, fuel, k - 2, c);
    RunBodyTimesFirst(body, ctx, fuel, k - 1, c);
    LoopStopsAfterRuns(body, c, fuel - 1, k - 1, o);
  }

  /** The loop stops on run `k` with the caught form of `o` (a normal return for the
      exit signal, the same failure for a failure) exactly when the first `k - 1`
      body runs complete normally and run `k` ends with `o`. */
  lemma LoopStopsIff(body: Stmt, ctx: Context, fuel: nat, k: nat, o: Outcome)
    requires o.Exited? || o.Failed?
    ensures LoopRun(body, ctx, fuel) == LoopTrace(Caught(o), k)
        <==> 1 <= k <= fuel
             && RunBodyTimes(body, ctx, fuel, k - 1).Normal?
             && RunBodyTimes(body, ctx, fuel, k) == o
  {
    if LoopRun(body, ctx, fuel) == LoopTrace(Caught(o), k) {
      LoopStopsOnlyAfterRuns(body, ctx, fuel, k, o);
    }
    if 1 <= k <= fuel
       && RunBodyTimes(body, ctx, fuel, k - 1).Normal?
       && RunBodyTimes(body, ctx, fuel, k) == o {
      LoopStopsAfterRuns(body, ctx, fuel, k, o);
    }
  }

  /** The loop runs out of fuel after `k` body runs exactly when either all `fuel`
      runs completed normally (the loop would go on), or runs `1..k-1` completed
      and run `k` itself ran out. */
  lemma {:induction false} LoopOutOfFuelIff(body: Stmt, ctx: Context, fuel: nat, k: nat)
    ensures LoopRun(body, ctx, fuel) == LoopTrace(OutOfFuel, k)
        <==> (k == fuel && RunBodyTimes(body, ctx, fuel, fuel).Normal?)
             || (1 <= k <= fuel
                 && RunBodyTimes(body, ctx, fuel, k - 1).Normal?
                 && RunBodyTimes(body, ctx, fuel, k) == OutOfFuel)
    decreases fuel
  {
    if fuel == 0 {
      return;
    }
    var first := Run(body, ctx, fuel - 1);
    assert RunBodyTimes(body, ctx, fuel, 1) == first;
    match first
    case Normal(c) =>
      if k >= 1 {
        LoopOutOfFuelIff(body, c, fuel - 1, k - 1);
        RunBodyTimesFirst(body, ctx, fuel, fuel - 1, c);
        if k <= fuel {
          RunBodyTimesFirst(body, ctx, fuel, k - 1, c);
          if k >= 2 {
            RunBodyTimesFirst(body, ctx, fuel, k - 2, c);
          }
        }
      }
    case _ =>
      RunBodyTimesStaysStopped(body, ctx, fuel, 1, fuel);
      if k >= 2 && k <= fuel {
        RunBodyTimesStaysStopped(body, ctx, fuel, 1, k - 1);
      }
  }

  /** Exit on run k: if the body completes normally k - 1 times and raises the exit
      signal on run k, the loop runs the body exactly k times, returns normally, and
      leaves the context the k-th run left. */
  lemma LoopExitsOnRun(body: Stmt, ctx: Context, fuel: nat, k: nat, c: Context, c': Context)
    requires 1 <= k <= fuel
    requires RunBodyTimes(body, ctx, fuel, k - 1) == Normal(c)
    requires Run(body, c, fuel - k) == Exited(c')
    ensures Run(Loop(body), ctx, fuel) == Normal(c')
    ensures LoopRun(body, ctx, fuel).runs == k
  {
    LoopStopsIff(body, ctx, fuel, k, Exited(c'));
  }

  /** Failure on run k: any failure other than the exit signal leaves the loop
      unchanged, after exactly k runs. */
  lemma LoopFailsOnRun(body: Stmt, ctx: Context, fuel: nat, k: nat, c: Context, e: Error)
    requires 1 <= k <= fuel
    requires RunBodyTimes(body, ctx, fuel, k - 1) == Normal(c)
    requires Run(body, c, fuel - k) == Failed(e)
    ensures Run(Loop(body), ctx, fuel) == Failed(e)
    ensures LoopRun(body, ctx, fuel).runs == k
  {
    LoopStopsIff(body, ctx, fuel, k, Failed(e));
  }

  /** A body that never stops within the budget keeps the loop iterating: the loop
      reports running out of fuel after calling the body once per unit of fuel. */
  lemma LoopWithoutExitExhaustsFuel(body: Stmt, ctx: Context, fuel: nat)
    requires RunBodyTimes(body, ctx, fuel, fuel).Normal?
    ensures LoopRun(body, ctx, fuel) == LoopTrace(OutOfFuel, fuel)
  {
    LoopOutOfFuelIff(body, ctx, fuel, fuel);
  }

  /** Fuel only bounds execution: a statement that finishes within some budget
      finishes the same way with any larger one. */
  lemma {:induction false} RunFuelMonotone(s: Stmt, ctx: Context, f: nat, g: nat)
    requires f <= g
    requires Run(s, ctx, f) != OutOfFuel
    ensures Run(s, ctx, g) == Run(s, ctx, f)
    decreases f, s
  {
    match s
    case Loop(b) =>
      LoopRunFuelMonotone(b, ctx, f, g);
    case IfAtLeast(x, k, t) =>
      if x in ctx && ctx[x] >= k {
        RunFuelMonotone(t, ctx, f, g);
      }
    case Sequence(a, b) =>
      RunFuelMonotone(a, ctx, f, g);
      var first := Run(a, ctx, f);
      if first.Normal? {
        RunFuelMonotone(b, first.ctx, f, g);
      }
    case _ =>
  }

  /** The loop's own fuel monotonicity, including the number of body runs. */
  lemma {:induction false} LoopRunFuelMonotone(b: Stmt, ctx: Context, f: nat, g: nat)
    requires f <= g
    requires LoopRun(b, ctx, f).outcome != OutOfFuel
    ensures LoopRun(b, ctx, g) == LoopRun(b, ctx, f)
    decreases f, b
  {
    RunFuelMonotone(b, ctx, f - 1, g - 1);
    match Run(b, ctx, f - 1)
    case Normal(c) =>
      LoopRunFuelMonotone(b, c, f - 1, g - 1);
    case _ =>
  }

  /** A loop never lets the exit signal out: the nearest enclosing loop absorbs it. */
  lemma LoopAbsorbsExit(b: Stmt, ctx: Context, fuel: nat)
    ensures !Run(Loop(b), ctx, fuel).Exited?
  {
  }

  /** Nearest-enclosing catch: in `Loop(Loop(b))` an exit raised by `b` is absorbed by
      the inner loop, which returns normally, so the outer loop runs it again; the
      outer loop therefore never completes normally. */
  lemma {:induction false} NestedLoopNeverCompletes(b: Stmt, ctx: Context, fuel: nat)
    ensures !Run(Loop(Loop(b)), ctx, fuel).Normal?
    decreases fuel
  {
    if fuel > 0 {
      match Run(Loop(b), ctx, fuel - 1)
      case Normal(c) =>
        NestedLoopNeverCompletes(b, c, fuel - 1);
      case _ =>
    }
  }
}
