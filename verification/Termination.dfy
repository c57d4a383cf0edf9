/** Every run of the walker and its driver ends, whatever the interleaving: each step uses up some of a fixed budget. */
module Termination {
  import opened Options
  import opened GoAst
  import opened Mutators
  import opened Walk
  import opened MutateRun
  import opened Protocol

  /** The budget for visiting a node and all that is below it. */
  ghost function NodeCost(op: Operator, ast: Ast, info: Info, id: NodeId): nat
    requires Parsed(ast) && id in ast.nodes
    decreases id, 1, 0
  {
    ParsedChildren(ast, id);
    4 + 20 * |Mutations(op, ast, info, id)| + KidsCost(op, ast, info, Children(ast, ast.nodes[id]), id)
  }

  ghost function KidsCost(op: Operator, ast: Ast, info: Info, refs: seq<Ref>, bound: nat): nat
    requires Parsed(ast) && AllOld(ast, refs, bound)
    decreases bound, 0, |refs|
  {
    if refs == [] then 0
    else
      assert IsOld(ast, refs[0], bound);
      NodeCost(op, ast, info, refs[0].id) + 1 + KidsCost(op, ast, info, refs[1..], bound)
  }

  ghost function TaskCost(op: Operator, ast: Ast, info: Info, task: Task): nat
    requires Parsed(ast) && TaskOk(ast, task)
  {
    match task
    case Enter(n) => NodeCost(op, ast, info, n)
    case Rest(n, k) =>
      ParsedChildren(ast, n);
      1 + KidsCost(op, ast, info, Children(ast, ast.nodes[n])[k..], n)
  }

  ghost function TasksCost(op: Operator, ast: Ast, info: Info, tasks: seq<Task>): nat
    requires Parsed(ast) && TasksOk(ast, tasks)
  {
    if tasks == [] then 0 else TaskCost(op, ast, info, tasks[0]) + TasksCost(op, ast, info, tasks[1..])
  }

  function PhaseCost(phase: Phase): nat {
    match phase
    case SendChanged => 18
    case AwaitSaved => 12
    case ResetNext => 10
    case SendReset => 9
    case AwaitNext => 5
  }

  ghost function WalkerCost(op: Operator, ast: Ast, info: Info, w: Walker): nat
    requires Parsed(ast) && WalkerOk(ast, w)
  {
    match w
    case Idle => 0
    case Walking(tasks) => 1 + TasksCost(op, ast, info, tasks)
    case Looping(pending, n, tasks) =>
      2 + 20 * |pending| + (TaskCost(op, ast, info, Rest(n, 0)) + TasksCost(op, ast, info, tasks))
    case Busy(phase, _, pending, n, tasks) =>
      PhaseCost(phase) + 2 + 20 * |pending| + (TaskCost(op, ast, info, Rest(n, 0)) + TasksCost(op, ast, info, tasks))
  }

  function DriverCost(d: Driver): nat {
    match d
    case Copying => 5
    case Saving => 4
    case Replying => 3
    case AwaitReset => 2
    case Acknowledging => 3
    case Counting => 1
    case _ => 0
  }

  /** The budget for the operators from number `k` on. */
  ghost function OpsCost(cfg: Config, ast: Ast, k: nat): nat
    requires ValidRun(cfg, ast)
    decreases |cfg.operators| - k
  {
    if k >= |cfg.operators| then 0
    else 6 + NodeCost(cfg.operators[k], ast, cfg.info, cfg.tree) + OpsCost(cfg, ast, k + 1)
  }

  ghost function Budget(cfg: Config, ast: Ast, s: State): nat
    requires ValidRun(cfg, ast) && WalkerOk(ast, s.walker)
  {
    if s.driver == Finished then 0
    else if s.driver == NextOp || s.op >= |cfg.operators| then 2 + OpsCost(cfg, ast, s.op)
    else 3 + OpsCost(cfg, ast, s.op + 1) + DriverCost(s.driver)
         + WalkerCost(cfg.operators[s.op], ast, cfg.info, s.walker)
  }

  lemma TasksCostCons(op: Operator, ast: Ast, info: Info, task: Task, tasks: seq<Task>)
    requires Parsed(ast) && TaskOk(ast, task) && TasksOk(ast, tasks)
    ensures TasksOk(ast, [task] + tasks)
    ensures TasksCost(op, ast, info, [task] + tasks) == TaskCost(op, ast, info, task) + TasksCost(op, ast, info, tasks)
  {
    assert ([task] + tasks)[1..] == tasks;
  }

  lemma RestCost(op: Operator, ast: Ast, info: Info, n: NodeId, k: nat, tasks: seq<Task>)
    requires Parsed(ast) && TaskOk(ast, Rest(n, k)) && TasksOk(ast, tasks)
    requires k < |Children(ast, ast.nodes[n])| && IsOld(ast, Children(ast, ast.nodes[n])[k], n)
    ensures var more := [Enter(Children(ast, ast.nodes[n])[k].id), Rest(n, k + 1)] + tasks;
            && TasksOk(ast, more)
            && TasksCost(op, ast, info, more) < TaskCost(op, ast, info, Rest(n, k)) + TasksCost(op, ast, info, tasks)
  {
    ParsedChildren(ast, n);
    var kids := Children(ast, ast.nodes[n]);
    var first, later := Enter(kids[k].id), Rest(n, k + 1);
    TasksCostCons(op, ast, info, later, tasks);
    TasksCostCons(op, ast, info, first, [later] + tasks);
    assert [first] + ([later] + tasks) == [first, later] + tasks;
    assert kids[k..][0] == kids[k] && kids[k..][1..] == kids[k + 1..];
  }

  lemma EnterCosts(op: Operator, ast: Ast, info: Info, n: NodeId, tasks: seq<Task>)
    requires Parsed(ast) && n in ast.nodes && TasksOk(ast, tasks)
    ensures WalkerCost(op, ast, info, Looping(Mutations(op, ast, info, n), n, tasks))
            < 1 + TaskCost(op, ast, info, Enter(n)) + TasksCost(op, ast, info, tasks)
  {
    ParsedChildren(ast, n);
    var kids := Children(ast, ast.nodes[n]);
    assert kids[0..] == kids;
  }

  lemma RestCosts(op: Operator, ast: Ast, info: Info, n: NodeId, k: nat, tasks: seq<Task>, next: seq<Task>)
    requires Parsed(ast) && TaskOk(ast, Rest(n, k)) && TasksOk(ast, tasks) && TasksOk(ast, next)
    requires var kids := Children(ast, ast.nodes[n]);
             if k < |kids| then kids[k].Old? && next == [Enter(kids[k].id), Rest(n, k + 1)] + tasks else next == tasks
    ensures TasksCost(op, ast, info, next) < TaskCost(op, ast, info, Rest(n, k)) + TasksCost(op, ast, info, tasks)
  {
    ParsedChildren(ast, n);
    var kids := Children(ast, ast.nodes[n]);
    if k < |kids| {
      assert IsOld(ast, kids[k], n);
      RestCost(op, ast, info, n, k, tasks);
    }
  }

  lemma WalkingCosts(cfg: Config, ast: Ast, s: State, t: State)
    requires ValidRun(cfg, ast) && s.ast == ast && WalkerOk(ast, s.walker) && WalkerOk(ast, t.walker)
    requires WalkerStep(cfg, s, t) && s.walker.Walking?
    ensures WalkerCost(cfg.operators[s.op], ast, cfg.info, t.walker)
            < WalkerCost(cfg.operators[s.op], ast, cfg.info, s.walker)
  {
    var op, tasks := cfg.operators[s.op], s.walker.tasks;
    if tasks != [] {
      TasksTail(ast, tasks);
      match tasks[0]
      case Enter(n) => EnterCosts(op, ast, cfg.info, n, tasks[1..]);
      case Rest(n, k) => RestCosts(op, ast, cfg.info, n, k, tasks[1..], t.walker.tasks);
    }
  }

  lemma WalkerCosts(cfg: Config, ast: Ast, s: State, t: State)
    requires ValidRun(cfg, ast) && TreeIs(cfg.info, ast, s.ast, Applied(s.walker))
    requires WalkerOk(ast, s.walker) && WalkerOk(ast, t.walker)
    requires WalkerStep(cfg, s, t)
    ensures WalkerCost(cfg.operators[s.op], ast, cfg.info, t.walker)
            < WalkerCost(cfg.operators[s.op], ast, cfg.info, s.walker)
  {
    match s.walker
    case Walking(_) => WalkingCosts(cfg, ast, s, t);
    case Looping(pending, n, tasks) =>
      if pending == [] {
        TasksCostCons(cfg.operators[s.op], ast, cfg.info, Rest(n, 0), tasks);
      }
    case _ =>
  }

  lemma SpawnCosts(cfg: Config, ast: Ast, s: State, t: State)
    requires ValidRun(cfg, ast) && s.driver == NextOp && s.op < |cfg.operators| && DriverControl(cfg, s, t)
    requires WalkerOk(ast, s.walker) && WalkerOk(ast, t.walker)
    ensures Budget(cfg, ast, t) < Budget(cfg, ast, s)
  {
    TasksCostCons(cfg.operators[s.op], ast, cfg.info, Enter(cfg.tree), []);
    assert [Enter(cfg.tree)] + [] == [Enter(cfg.tree)];
  }

  lemma ClosedCosts(cfg: Config, ast: Ast, s: State, t: State)
    requires ValidRun(cfg, ast) && s.driver == Waiting && s.op < |cfg.operators| && DriverControl(cfg, s, t)
    requires WalkerOk(ast, s.walker) && WalkerOk(ast, t.walker)
    ensures Budget(cfg, ast, t) < Budget(cfg, ast, s)
  {
  }

  /** Within one operator the two sides share one budget. */
  lemma BudgetFollows(cfg: Config, ast: Ast, s: State, t: State)
    requires ValidRun(cfg, ast) && WalkerOk(ast, s.walker) && WalkerOk(ast, t.walker) && s.op < |cfg.operators|
    requires Running(s.driver) && Running(t.driver) && t.op == s.op
    requires var op := cfg.operators[s.op];
             DriverCost(t.driver) + WalkerCost(op, ast, cfg.info, t.walker)
             < DriverCost(s.driver) + WalkerCost(op, ast, cfg.info, s.walker)
    ensures Budget(cfg, ast, t) < Budget(cfg, ast, s)
  {
  }

  lemma DriverCosts(cfg: Config, ast: Ast, s: State, t: State)
    requires ValidRun(cfg, ast) && WalkerOk(ast, s.walker) && WalkerOk(ast, t.walker)
    requires Aligned(s.walker, s.driver, s.closed) && (Running(s.driver) ==> s.op < |cfg.operators|)
    requires s.op <= |cfg.operators| && DriverControl(cfg, s, t)
    ensures Budget(cfg, ast, t) < Budget(cfg, ast, s)
  {
    match s.driver
    case NextOp => if s.op < |cfg.operators| { SpawnCosts(cfg, ast, s, t); }
    case Waiting => ClosedCosts(cfg, ast, s, t);
    case _ => BudgetFollows(cfg, ast, s, t);
  }

  /** What a rendezvous saves on the walker's side. */
  function MoveSaves(phase: Phase): nat {
    match phase
    case SendChanged => 6
    case AwaitSaved => 2
    case SendReset => 4
    case _ => 5
  }

  lemma WalkerMoveCosts(op: Operator, ast: Ast, info: Info, w: Walker)
    requires Parsed(ast) && WalkerOk(ast, w) && (WalkerSends(w) || WalkerReceives(w))
    ensures WalkerOk(ast, WalkerMoves(w))
    ensures WalkerCost(op, ast, info, WalkerMoves(w)) + MoveSaves(w.phase) == WalkerCost(op, ast, info, w)
  {
  }

  lemma DriverMoveCosts(w: Walker, d: Driver, closed: bool)
    requires Aligned(w, d, closed) && !closed
    requires (WalkerSends(w) && DriverReceives(d)) || (DriverSends(d) && WalkerReceives(w))
    ensures DriverCost(DriverMoves(d)) < DriverCost(d) + MoveSaves(w.phase)
    ensures Running(d) && Running(DriverMoves(d))
  {
  }

  lemma MeetingFrame(s: State, t: State)
    requires Meeting(s, t)
    ensures t.op == s.op && !s.closed
    ensures (WalkerSends(s.walker) && DriverReceives(s.driver)) || (DriverSends(s.driver) && WalkerReceives(s.walker))
    ensures t.walker == WalkerMoves(s.walker) && t.driver == DriverMoves(s.driver)
  {
  }

  lemma MeetingCosts(cfg: Config, ast: Ast, s: State, t: State)
    requires ValidRun(cfg, ast) && WalkerOk(ast, s.walker) && WalkerOk(ast, t.walker)
    requires Aligned(s.walker, s.driver, s.closed) && s.op < |cfg.operators| && Meeting(s, t)
    ensures Budget(cfg, ast, t) < Budget(cfg, ast, s)
  {
    MeetingFrame(s, t);
    WalkerMoveCosts(cfg.operators[s.op], ast, cfg.info, s.walker);
    DriverMoveCosts(s.walker, s.driver, s.closed);
    BudgetFollows(cfg, ast, s, t);
  }

  lemma WalkerFrame(cfg: Config, s: State, t: State)
    requires WalkerStep(cfg, s, t)
    ensures t.op == s.op < |cfg.operators| && t.driver == s.driver && s.walker != Idle
  {
  }

  lemma WalkerStepCosts(cfg: Config, original: Ast, s: State, t: State)
    requires Sound(cfg, original, s) && WalkerOk(original, t.walker) && WalkerStep(cfg, s, t)
    ensures Budget(cfg, original, t) < Budget(cfg, original, s)
  {
    WalkerFrame(cfg, s, t);
    WalkerCosts(cfg, original, s, t);
    BudgetFollows(cfg, original, s, t);
  }

  lemma DriverStepCosts(cfg: Config, original: Ast, s: State, t: State)
    requires Sound(cfg, original, s) && WalkerOk(original, t.walker) && DriverStep(cfg, s, t)
    ensures Budget(cfg, original, t) < Budget(cfg, original, s)
  {
    DriverCosts(cfg, original, s, t);
  }

  lemma MeetingStepCosts(cfg: Config, original: Ast, s: State, t: State)
    requires Sound(cfg, original, s) && WalkerOk(original, t.walker) && Meeting(s, t)
    ensures Budget(cfg, original, t) < Budget(cfg, original, s)
  {
    MeetingCosts(cfg, original, s, t);
  }

  /** Every step of either side, and every meeting, uses up budget. */
  lemma StepCosts(cfg: Config, original: Ast, s: State, t: State)
    requires Sound(cfg, original, s) && WalkerOk(original, t.walker) && Next(cfg, s, t)
    ensures Budget(cfg, original, t) < Budget(cfg, original, s)
  {
    if WalkerStep(cfg, s, t) {
      WalkerStepCosts(cfg, original, s, t);
    } else if DriverStep(cfg, s, t) {
      DriverStepCosts(cfg, original, s, t);
    } else {
      MeetingStepCosts(cfg, original, s, t);
    }
  }

  /** So no run is longer than the budget of its first state. */
  lemma {:induction false} RunsEnd(cfg: Config, original: Ast, start: Progress, run: seq<State>, i: nat)
    requires ValidRun(cfg, original) && IsRun(cfg, original, start, run) && i < |run|
    ensures Sound(cfg, original, run[i])
    ensures i + Budget(cfg, original, run[i]) <= Budget(cfg, original, Init(original, start))
  {
    RunInvariant(cfg, original, start, run, i);
    if i > 0 {
      RunsEnd(cfg, original, start, run, i - 1);
      assert StepAt(cfg, run, i - 1);
      StepCosts(cfg, original, run[i - 1], run[i]);
    }
  }

  // ----- maximal runs -----

  function Last(run: seq<State>): State
    requires run != []
  {
    run[|run| - 1]
  }

  lemma Extended(cfg: Config, original: Ast, start: Progress, run: seq<State>, t: State)
    requires IsRun(cfg, original, start, run) && Next(cfg, Last(run), t)
    ensures IsRun(cfg, original, start, run + [t])
  {
    var longer := run + [t];
    forall i | 0 <= i < |longer| - 1
      ensures StepAt(cfg, longer, i)
    {
      if i < |run| - 1 {
        assert StepAt(cfg, run, i);
      }
    }
  }

  /** Nothing can happen after the driver has finished. */
  lemma FinishedIsFinal(cfg: Config, original: Ast, s: State, t: State)
    requires Sound(cfg, original, s) && s.driver == Finished
    ensures !Next(cfg, s, t)
  {
  }

  /** A run cannot be extended if and only if its driver has finished. */
  lemma MaximalIffFinished(cfg: Config, original: Ast, start: Progress, run: seq<State>)
    requires ValidRun(cfg, original) && IsRun(cfg, original, start, run)
    ensures (forall t :: !Next(cfg, Last(run), t)) <==> Last(run).driver == Finished
  {
    RunInvariant(cfg, original, start, run, |run| - 1);
    if Last(run).driver == Finished {
      forall t ensures !Next(cfg, Last(run), t) {
        FinishedIsFinal(cfg, original, Last(run), t);
      }
    } else {
      var t := NeverStuck(cfg, original, Last(run));
    }
  }

  lemma OneMoreStep(cfg: Config, original: Ast, start: Progress, run: seq<State>) returns (longer: seq<State>)
    requires ValidRun(cfg, original) && IsRun(cfg, original, start, run) && Last(run).driver != Finished
    ensures IsRun(cfg, original, start, longer) && run <= longer && |longer| == |run| + 1
  {
    RunInvariant(cfg, original, start, run, |run| - 1);
    var t := NeverStuck(cfg, original, Last(run));
    Extended(cfg, original, start, run, t);
    longer := run + [t];
  }

  lemma LengthBounded(cfg: Config, original: Ast, start: Progress, run: seq<State>)
    requires ValidRun(cfg, original) && IsRun(cfg, original, start, run)
    ensures |run| <= 1 + Budget(cfg, original, Init(original, start))
  {
    RunsEnd(cfg, original, start, run, |run| - 1);
  }

  lemma {:induction false} FinishedWithin(cfg: Config, original: Ast, start: Progress, run: seq<State>, left: nat,
                                          bound: nat) returns (whole: seq<State>)
    requires ValidRun(cfg, original) && IsRun(cfg, original, start, run)
    requires bound == Budget(cfg, original, Init(original, start)) && |run| + left == 1 + bound
    ensures IsRun(cfg, original, start, whole) && run <= whole && Last(whole).driver == Finished
    decreases left
  {
    whole := run;
    if Last(run).driver != Finished {
      var longer := OneMoreStep(cfg, original, start, run);
      LengthBounded(cfg, original, start, longer);
      whole := FinishedWithin(cfg, original, start, longer, left - 1, bound);
    }
  }

  /** Whatever has happened so far, and however the two sides go on, the run comes to its end. */
  lemma EveryRunFinishes(cfg: Config, original: Ast, start: Progress, run: seq<State>) returns (whole: seq<State>)
    requires ValidRun(cfg, original) && IsRun(cfg, original, start, run)
    ensures IsRun(cfg, original, start, whole) && run <= whole && Last(whole).driver == Finished
    ensures |whole| <= 1 + Budget(cfg, original, Init(original, start))
  {
    LengthBounded(cfg, original, start, run);
    var bound := Budget(cfg, original, Init(original, start));
    whole := FinishedWithin(cfg, original, start, run, 1 + bound - |run|, bound);
    LengthBounded(cfg, original, start, whole);
  }
}
