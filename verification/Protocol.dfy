/** walk.go and mutate.go: the walking goroutine and the driver, step by step.

    Both sides talk over one unbuffered channel that carries messages in either direction. A rendezvous may pair any
    process that is about to send with any other process that is about to receive; which pairs can meet is a result,
    not an assumption. Between rendezvous the two sides take their own steps in any order. */
module Protocol {
  import opened Options
  import opened Sequences
  import opened FileSystem
  import opened GoAst
  import opened Mutators
  import opened Walk
  import opened MutateRun

  // ----- states -----

  /** What `ast.Walk` has still to do: visit a node, or go on with the children of a node from number `k`. */
  datatype Task = Enter(node: NodeId) | Rest(node: NodeId, k: nat)

  /** Where the walker stands inside the body of the loop of `Visit`. */
  datatype Phase = SendChanged | AwaitSaved | ResetNext | SendReset | AwaitNext

  datatype Walker =
    | Idle
    | Walking(tasks: seq<Task>)
    | Looping(pending: seq<Mutation>, node: NodeId, tasks: seq<Task>)
    | Busy(phase: Phase, m: Mutation, pending: seq<Mutation>, node: NodeId, tasks: seq<Task>)

  datatype Driver =
    | NextOp        // head of the loop over operators
    | Waiting       // _, ok := <-changed
    | Copying       // copyProject
    | Saving        // saveAST and the mutant list
    | Replying      // changed <- true
    | AwaitReset    // <-changed
    | Acknowledging // changed <- true
    | Counting      // mutationID++
    | Finished

  datatype State = State(
    ast: Ast, progress: Progress, op: nat, id: nat, closed: bool, walker: Walker, driver: Driver,
    meetings: nat, closes: nat)

  function Init(ast: Ast, start: Progress): State {
    State(ast, start, 0, 0, false, Idle, NextOp, 0, 0)
  }

  // ----- steps -----

  /** The walker's own steps. It reads and writes the shared tree as it finds it. */
  ghost predicate WalkerStep(cfg: Config, s: State, t: State) {
    s.op < |cfg.operators| &&
    match s.walker
    case Idle => false
    case Walking(tasks) =>
      if tasks == [] then t == s.(walker := Idle, closed := true, closes := s.closes + 1)
      else
        tasks[0].node in s.ast.nodes &&
        (match tasks[0]
         case Enter(n) =>
           Parsed(s.ast) &&
           t == s.(walker := Looping(Mutations(cfg.operators[s.op], s.ast, cfg.info, n), n, tasks[1..]))
         case Rest(n, k) =>
           var kids := Children(s.ast, s.ast.nodes[n]);
           if k < |kids| then
             kids[k].Old? && t == s.(walker := Walking([Enter(kids[k].id), Rest(n, k + 1)] + tasks[1..]))
           else t == s.(walker := Walking(tasks[1..])))
    case Looping(pending, n, tasks) =>
      if pending == [] then t == s.(walker := Walking([Rest(n, 0)] + tasks))
      else
        Parsed(s.ast) && Captured(s.ast, pending[0]) &&
        t == s.(ast := Change(s.ast, cfg.info, pending[0]),
                walker := Busy(SendChanged, pending[0], pending[1..], n, tasks))
    case Busy(phase, m, pending, n, tasks) =>
      phase == ResetNext &&
      t == s.(ast := Reset(s.ast, m), walker := Busy(SendReset, m, pending, n, tasks))
  }

  /** The driver's own steps, apart from what they write. A receive on the closed channel returns at once and ends
      the inner loop. */
  ghost predicate DriverControl(cfg: Config, s: State, t: State) {
    match s.driver
    case NextOp =>
      if s.op < |cfg.operators|
      then t == s.(driver := Waiting, id := 0, closed := false, walker := Walking([Enter(cfg.tree)]))
      else t == s.(driver := Finished)
    case Waiting => s.closed && t == s.(driver := NextOp, op := s.op + 1)
    case Copying => s.op < |cfg.operators| && t == s.(driver := Saving, progress := t.progress)
    case Saving => s.op < |cfg.operators| && t == s.(driver := Replying, progress := t.progress)
    case Counting => t == s.(driver := Waiting, id := s.id + 1)
    case _ => false
  }

  /** What the driver writes: the project copy, then the tree as it finds it. */
  function DriverWrites(cfg: Config, s: State): Progress
    requires s.op < |cfg.operators|
  {
    var dir := DirOf(cfg, cfg.operators[s.op], s.id);
    if s.driver == Copying then s.progress.(fs := cfg.copy(s.progress.fs, dir))
    else Save(cfg, s.progress, dir, s.ast)
  }

  ghost predicate DriverStep(cfg: Config, s: State, t: State) {
    && DriverControl(cfg, s, t)
    && (s.driver == Copying || s.driver == Saving ==> t.progress == DriverWrites(cfg, s))
  }

  predicate WalkerSends(w: Walker) {
    w.Busy? && (w.phase == SendChanged || w.phase == SendReset)
  }

  predicate WalkerReceives(w: Walker) {
    w.Busy? && (w.phase == AwaitSaved || w.phase == AwaitNext)
  }

  predicate DriverSends(d: Driver) {
    d == Replying || d == Acknowledging
  }

  predicate DriverReceives(d: Driver) {
    d == Waiting || d == AwaitReset
  }

  function WalkerMoves(w: Walker): Walker
    requires WalkerSends(w) || WalkerReceives(w)
  {
    match w.phase
    case SendChanged => w.(phase := AwaitSaved)
    case AwaitSaved => w.(phase := ResetNext)
    case SendReset => w.(phase := AwaitNext)
    case _ => Looping(w.pending, w.node, w.tasks)
  }

  function DriverMoves(d: Driver): Driver
    requires DriverSends(d) || DriverReceives(d)
  {
    match d
    case Waiting => Copying
    case Replying => AwaitReset
    case AwaitReset => Acknowledging
    case _ => Counting
  }

  /** A message passes between the two processes, in whichever direction they are ready for. */
  ghost predicate Meeting(s: State, t: State) {
    && !s.closed
    && ((WalkerSends(s.walker) && DriverReceives(s.driver)) || (DriverSends(s.driver) && WalkerReceives(s.walker)))
    && t == s.(walker := WalkerMoves(s.walker), driver := DriverMoves(s.driver), meetings := s.meetings + 1)
  }

  ghost predicate Next(cfg: Config, s: State, t: State) {
    WalkerStep(cfg, s, t) || DriverStep(cfg, s, t) || Meeting(s, t)
  }

  // ----- the mutations still to come -----

  ghost predicate TaskOk(ast: Ast, task: Task) {
    task.node in ast.nodes && (task.Rest? ==> task.k <= |Children(ast, ast.nodes[task.node])|)
  }

  ghost predicate TasksOk(ast: Ast, tasks: seq<Task>) {
    forall i | 0 <= i < |tasks| :: TaskOk(ast, tasks[i])
  }

  ghost function TaskSites(op: Operator, ast: Ast, info: Info, task: Task): seq<Mutation>
    requires Parsed(ast) && TaskOk(ast, task)
  {
    match task
    case Enter(n) => SitesOf(op, ast, info, n)
    case Rest(n, k) =>
      ParsedChildren(ast, n);
      SitesOfAll(op, ast, info, Children(ast, ast.nodes[n])[k..], n)
  }

  ghost function TasksSites(op: Operator, ast: Ast, info: Info, tasks: seq<Task>): seq<Mutation>
    requires Parsed(ast) && TasksOk(ast, tasks)
  {
    if tasks == [] then [] else TaskSites(op, ast, info, tasks[0]) + TasksSites(op, ast, info, tasks[1..])
  }

  ghost predicate WalkerOk(ast: Ast, w: Walker) {
    match w
    case Idle => true
    case Walking(tasks) => TasksOk(ast, tasks)
    case Looping(_, n, tasks) => n in ast.nodes && TasksOk(ast, tasks)
    case Busy(_, _, _, n, tasks) => n in ast.nodes && TasksOk(ast, tasks)
  }

  /** The mutations a walker has not finished, the current one first. */
  ghost function Left(op: Operator, ast: Ast, info: Info, w: Walker): seq<Mutation>
    requires Parsed(ast) && WalkerOk(ast, w)
  {
    match w
    case Idle => []
    case Walking(tasks) => TasksSites(op, ast, info, tasks)
    case Looping(pending, n, tasks) =>
      pending + (TaskSites(op, ast, info, Rest(n, 0)) + TasksSites(op, ast, info, tasks))
    case Busy(_, m, pending, n, tasks) =>
      [m] + (pending + (TaskSites(op, ast, info, Rest(n, 0)) + TasksSites(op, ast, info, tasks)))
  }

  // ----- the invariant -----

  /** Which program points of the two sides go together. */
  predicate Aligned(w: Walker, d: Driver, closed: bool) {
    match w
    case Idle => d == NextOp || d == Finished || (closed && (d == Waiting || d == Counting))
    case Busy(phase, _, _, _, _) =>
      !closed &&
      (match phase
       case SendChanged => d == Waiting || d == Counting
       case AwaitSaved => d == Copying || d == Saving || d == Replying
       case ResetNext => d == AwaitReset
       case SendReset => d == AwaitReset
       case AwaitNext => d == Acknowledging)
    case _ => !closed && (d == Waiting || d == Counting)
  }

  predicate Running(d: Driver) {
    d != NextOp && d != Finished
  }

  /** The mutation that is in the tree at the moment. */
  function Applied(w: Walker): Option<Mutation> {
    if w.Busy? && (w.phase == SendChanged || w.phase == AwaitSaved || w.phase == ResetNext) then Some(w.m) else None
  }

  /** The tree is the original, or the original with exactly one mutation applied. */
  ghost predicate TreeIs(info: Info, original: Ast, now: Ast, applied: Option<Mutation>) {
    match applied
    case None => now == original
    case Some(m) => Parsed(original) && Captured(original, m) && now == Change(original, info, m)
  }

  /** Mutations of the current operator that both sides have finished with. */
  function Completed(s: State): nat {
    if s.driver == Counting then s.id + 1 else s.id
  }

  ghost predicate OnCourse(cfg: Config, original: Ast, s: State)
    requires ValidRun(cfg, original)
  {
    WalkerOk(original, s.walker) &&
    (Running(s.driver) ==>
       && s.op < |cfg.operators|
       && Completed(s) <= |Sites(cfg, original, cfg.operators[s.op])|
       && Sites(cfg, original, cfg.operators[s.op])[Completed(s)..]
          == Left(cfg.operators[s.op], original, cfg.info, s.walker))
  }

  /** Mutants of the current operator whose file has been written. */
  function Written(s: State): nat {
    if s.driver == Replying || s.driver == AwaitReset || s.driver == Acknowledging
    then Completed(s) + 1 else Completed(s)
  }

  /** What has been produced so far, computed without any concurrency. */
  ghost predicate Produced(cfg: Config, original: Ast, start: Progress, s: State)
    requires ValidRun(cfg, original) && s.op <= |cfg.operators|
  {
    var before := AfterOps(cfg, original, start, s.op);
    if !Running(s.driver) then s.progress == before
    else
      s.op < |cfg.operators| &&
      var op := cfg.operators[s.op];
      Written(s) <= |Sites(cfg, original, op)| &&
      var done := AfterSites(cfg, original, before, op, Written(s));
      if s.driver == Saving
      then s.progress == Progress(cfg.copy(done.fs, DirOf(cfg, op, s.id)), done.infos)
      else s.progress == done
  }

  /** Messages exchanged for the mutation at hand. */
  function MeetingsNow(d: Driver): nat {
    match d
    case Copying => 1
    case Saving => 1
    case Replying => 1
    case AwaitReset => 2
    case Acknowledging => 3
    case _ => 0
  }

  /** Messages and closes so far, when the finished operators had `total` mutations. */
  ghost predicate CountedFrom(total: nat, s: State) {
    && s.meetings == 4 * total + (if Running(s.driver) then 4 * Completed(s) + MeetingsNow(s.driver) else 0)
    && s.closes == s.op + (if Running(s.driver) && s.closed then 1 else 0)
  }

  ghost predicate Counted(cfg: Config, original: Ast, s: State)
    requires ValidRun(cfg, original) && s.op <= |cfg.operators|
  {
    CountedFrom(SiteCount(cfg, original, s.op), s)
  }

  /** Control and tree: where the two sides stand, and what is in the tree meanwhile. */
  ghost predicate Sound(cfg: Config, original: Ast, s: State) {
    && ValidRun(cfg, original)
    && s.op <= |cfg.operators|
    && (s.driver == Finished ==> s.op == |cfg.operators|)
    && (Running(s.driver) ==> s.op < |cfg.operators|)
    && Aligned(s.walker, s.driver, s.closed)
    && TreeIs(cfg.info, original, s.ast, Applied(s.walker))
    && WalkerOk(original, s.walker)
  }

  ghost predicate Inv(cfg: Config, original: Ast, start: Progress, s: State) {
    && Sound(cfg, original, s)
    && OnCourse(cfg, original, s)
    && Produced(cfg, original, start, s)
    && Counted(cfg, original, s)
  }

  // ----- how the remaining work moves -----

  lemma TasksCons(op: Operator, ast: Ast, info: Info, task: Task, tasks: seq<Task>)
    requires Parsed(ast) && TaskOk(ast, task) && TasksOk(ast, tasks)
    ensures TasksOk(ast, [task] + tasks)
    ensures TasksSites(op, ast, info, [task] + tasks)
            == TaskSites(op, ast, info, task) + TasksSites(op, ast, info, tasks)
  {
    assert ([task] + tasks)[1..] == tasks;
  }

  lemma TasksTail(ast: Ast, tasks: seq<Task>)
    requires TasksOk(ast, tasks) && tasks != []
    ensures TaskOk(ast, tasks[0]) && TasksOk(ast, tasks[1..])
  {
  }

  lemma EnterMoves(op: Operator, ast: Ast, info: Info, n: NodeId, tasks: seq<Task>)
    requires Parsed(ast) && n in ast.nodes && TasksOk(ast, tasks)
    ensures TasksOk(ast, [Enter(n)] + tasks)
    ensures Left(op, ast, info, Walking([Enter(n)] + tasks))
            == Left(op, ast, info, Looping(Mutations(op, ast, info, n), n, tasks))
  {
    TasksCons(op, ast, info, Enter(n), tasks);
    ParsedChildren(ast, n);
    var kids := Children(ast, ast.nodes[n]);
    assert kids[0..] == kids;
    Assoc(Mutations(op, ast, info, n), SitesOfAll(op, ast, info, kids, n), TasksSites(op, ast, info, tasks));
  }

  lemma RestMoves(op: Operator, ast: Ast, info: Info, n: NodeId, k: nat, tasks: seq<Task>)
    requires Parsed(ast) && TaskOk(ast, Rest(n, k)) && TasksOk(ast, tasks)
    ensures var kids := Children(ast, ast.nodes[n]);
            if k < |kids| then
              && IsOld(ast, kids[k], n)
              && TasksOk(ast, [Enter(kids[k].id), Rest(n, k + 1)] + tasks)
              && TasksSites(op, ast, info, [Rest(n, k)] + tasks)
                 == TasksSites(op, ast, info, [Enter(kids[k].id), Rest(n, k + 1)] + tasks)
            else TasksSites(op, ast, info, [Rest(n, k)] + tasks) == TasksSites(op, ast, info, tasks)
  {
    ParsedChildren(ast, n);
    var kids := Children(ast, ast.nodes[n]);
    TasksCons(op, ast, info, Rest(n, k), tasks);
    if k < |kids| {
      assert IsOld(ast, kids[k], n);
      var first, later := Enter(kids[k].id), Rest(n, k + 1);
      TasksCons(op, ast, info, later, tasks);
      TasksCons(op, ast, info, first, [later] + tasks);
      assert [first] + ([later] + tasks) == [first, later] + tasks;
      assert kids[k..][0] == kids[k] && kids[k..][1..] == kids[k + 1..];
      Assoc(TaskSites(op, ast, info, first), TaskSites(op, ast, info, later), TasksSites(op, ast, info, tasks));
    }
  }

  lemma LoopMoves(op: Operator, ast: Ast, info: Info, pending: seq<Mutation>, n: NodeId, tasks: seq<Task>)
    requires Parsed(ast) && n in ast.nodes && TasksOk(ast, tasks)
    ensures pending == [] ==>
              && TasksOk(ast, [Rest(n, 0)] + tasks)
              && Left(op, ast, info, Looping(pending, n, tasks)) == Left(op, ast, info, Walking([Rest(n, 0)] + tasks))
    ensures pending != [] ==>
              Left(op, ast, info, Looping(pending, n, tasks))
              == [pending[0]] + Left(op, ast, info, Looping(pending[1..], n, tasks))
  {
    TasksCons(op, ast, info, Rest(n, 0), tasks);
    var more := TaskSites(op, ast, info, Rest(n, 0)) + TasksSites(op, ast, info, tasks);
    if pending == [] {
      assert [] + more == more;
    } else {
      Assoc([pending[0]], pending[1..], more);
      assert [pending[0]] + pending[1..] == pending;
    }
  }

  // ----- every step keeps the invariant, one part at a time -----

  lemma InitHolds(cfg: Config, original: Ast, start: Progress)
    requires ValidRun(cfg, original)
    ensures Inv(cfg, original, start, Init(original, start))
  {
  }

  lemma DriverAligned(cfg: Config, original: Ast, s: State, t: State)
    requires Sound(cfg, original, s) && DriverControl(cfg, s, t)
    ensures Aligned(t.walker, t.driver, t.closed) && TreeIs(cfg.info, original, t.ast, Applied(t.walker))
    ensures t.op <= |cfg.operators| && (t.driver == Finished ==> t.op == |cfg.operators|)
    ensures Running(t.driver) ==> t.op < |cfg.operators|
  {
  }

  lemma MeetingAligned(cfg: Config, original: Ast, s: State, t: State)
    requires Sound(cfg, original, s) && Meeting(s, t)
    ensures Aligned(t.walker, t.driver, t.closed) && TreeIs(cfg.info, original, t.ast, Applied(t.walker))
    ensures t.op == s.op && Running(s.driver) && Running(t.driver)
  {
  }

  /** The walker's own steps apply a mutation or undo it. */
  lemma WalkerAligned(cfg: Config, original: Ast, s: State, t: State)
    requires Sound(cfg, original, s) && WalkerStep(cfg, s, t)
    requires s.walker.Busy? ==>
               Captured(original, s.walker.m) && Reset(Change(original, cfg.info, s.walker.m), s.walker.m) == original
    ensures Aligned(t.walker, t.driver, t.closed) && TreeIs(cfg.info, original, t.ast, Applied(t.walker))
    ensures t.op == s.op && t.driver == s.driver && Running(s.driver)
  {
  }

  lemma SameCourse(cfg: Config, original: Ast, s: State, t: State)
    requires ValidRun(cfg, original) && OnCourse(cfg, original, s) && Running(s.driver)
    requires t.op == s.op && Completed(t) == Completed(s) && WalkerOk(original, t.walker)
    requires Left(cfg.operators[s.op], original, cfg.info, t.walker)
             == Left(cfg.operators[s.op], original, cfg.info, s.walker)
    ensures OnCourse(cfg, original, t)
  {
  }

  lemma WalkerOnCourse(cfg: Config, original: Ast, s: State, t: State)
    requires ValidRun(cfg, original) && OnCourse(cfg, original, s) && Running(s.driver)
    requires WalkerStep(cfg, s, t) && TreeIs(cfg.info, original, s.ast, Applied(s.walker))
    ensures OnCourse(cfg, original, t)
  {
    var op := cfg.operators[s.op];
    match s.walker
    case Walking(tasks) =>
      if tasks != [] {
        WalkingOnCourse(cfg, original, s, t);
      }
      SameCourse(cfg, original, s, t);
    case Looping(pending, n, tasks) =>
      LoopMoves(op, original, cfg.info, pending, n, tasks);
      SameCourse(cfg, original, s, t);
    case Busy(_, _, _, _, _) => SameCourse(cfg, original, s, t);
    case Idle =>
  }

  lemma WalkingOnCourse(cfg: Config, original: Ast, s: State, t: State)
    requires ValidRun(cfg, original) && s.ast == original && WalkerOk(original, s.walker)
    requires WalkerStep(cfg, s, t) && s.walker.Walking? && s.walker.tasks != []
    ensures WalkerOk(original, t.walker)
    ensures Left(cfg.operators[s.op], original, cfg.info, t.walker)
            == Left(cfg.operators[s.op], original, cfg.info, s.walker)
  {
    var op, tasks := cfg.operators[s.op], s.walker.tasks;
    TasksTail(original, tasks);
    assert [tasks[0]] + tasks[1..] == tasks;
    match tasks[0]
    case Enter(n) => EnterMoves(op, original, cfg.info, n, tasks[1..]);
    case Rest(n, k) =>
      RestMoves(op, original, cfg.info, n, k, tasks[1..]);
      RestStep(cfg, s, t, n, k);
  }

  lemma RestStep(cfg: Config, s: State, t: State, n: NodeId, k: nat)
    requires WalkerStep(cfg, s, t) && s.walker.Walking? && s.walker.tasks != [] && s.walker.tasks[0] == Rest(n, k)
    ensures n in s.ast.nodes
    ensures var kids := Children(s.ast, s.ast.nodes[n]);
            if k < |kids| then
              kids[k].Old? && t.walker == Walking([Enter(kids[k].id), Rest(n, k + 1)] + s.walker.tasks[1..])
            else t.walker == Walking(s.walker.tasks[1..])
  {
  }

  lemma MeetingOnCourse(cfg: Config, original: Ast, s: State, t: State)
    requires ValidRun(cfg, original) && OnCourse(cfg, original, s) && Running(s.driver)
    requires Aligned(s.walker, s.driver, s.closed) && Meeting(s, t)
    ensures OnCourse(cfg, original, t)
  {
    if s.driver == Acknowledging {
      var op := cfg.operators[s.op];
      var sites, left := Sites(cfg, original, op), Left(op, original, cfg.info, s.walker);
      assert |sites[s.id..]| == |left| >= 1;
      assert sites[s.id + 1..] == sites[s.id..][1..] == left[1..];
      assert left[1..] == Left(op, original, cfg.info, t.walker);
    } else {
      SameCourse(cfg, original, s, t);
    }
  }

  lemma SpawnOnCourse(cfg: Config, original: Ast, s: State, t: State)
    requires ValidRun(cfg, original) && s.op < |cfg.operators|
    requires s.driver == NextOp && DriverControl(cfg, s, t)
    ensures OnCourse(cfg, original, t)
  {
    var op, tasks: seq<Task> := cfg.operators[s.op], [Enter(cfg.tree)];
    TasksCons(op, original, cfg.info, Enter(cfg.tree), []);
    assert [Enter(cfg.tree)] + [] == tasks;
    assert Sites(cfg, original, op)[0..] == Sites(cfg, original, op);
    assert TasksSites(op, original, cfg.info, tasks) == Sites(cfg, original, op) + [];
  }

  lemma DriverOnCourse(cfg: Config, original: Ast, s: State, t: State)
    requires ValidRun(cfg, original) && OnCourse(cfg, original, s) && DriverControl(cfg, s, t)
    requires Aligned(s.walker, s.driver, s.closed)
    ensures OnCourse(cfg, original, t)
  {
    if s.driver == NextOp && s.op < |cfg.operators| {
      SpawnOnCourse(cfg, original, s, t);
    } else if Running(s.driver) && Running(t.driver) {
      SameCourse(cfg, original, s, t);
    }
  }

  /** A pending mutation is a site of the walk, so it fits the tree and can be undone. */
  lemma PendingFits(cfg: Config, original: Ast, s: State)
    requires ValidRun(cfg, original) && OnCourse(cfg, original, s) && Running(s.driver)
    ensures Left(cfg.operators[s.op], original, cfg.info, s.walker) != [] ==>
              var sites := Sites(cfg, original, cfg.operators[s.op]);
              var m := Left(cfg.operators[s.op], original, cfg.info, s.walker)[0];
              && Completed(s) < |sites| && m == sites[Completed(s)]
              && Captured(original, m) && Change(original, cfg.info, m) != original
              && Reset(Change(original, cfg.info, m), m) == original
  {
    var op := cfg.operators[s.op];
    var sites, left := Sites(cfg, original, op), Left(op, original, cfg.info, s.walker);
    if left != [] {
      assert left[0] == sites[Completed(s)..][0] == sites[Completed(s)];
      SitesRestore(op, original, cfg.info, cfg.tree, left[0]);
    }
  }

  lemma SameProduced(cfg: Config, original: Ast, start: Progress, s: State, t: State)
    requires ValidRun(cfg, original) && s.op <= |cfg.operators| && Produced(cfg, original, start, s)
    requires t.op == s.op && t.progress == s.progress && Written(t) == Written(s)
    requires Running(s.driver) && Running(t.driver)
    requires if s.driver == Saving then t.driver == Saving && t.id == s.id else t.driver != Saving
    ensures Produced(cfg, original, start, t)
  {
  }

  lemma SavingProduces(cfg: Config, original: Ast, start: Progress, s: State, t: State)
    requires ValidRun(cfg, original) && s.op <= |cfg.operators| && Produced(cfg, original, start, s)
    requires s.driver == Saving && DriverStep(cfg, s, t)
    requires s.id < |Sites(cfg, original, cfg.operators[s.op])|
    requires s.ast == MutantTree(cfg, original, cfg.operators[s.op], s.id)
    ensures Produced(cfg, original, start, t)
  {
    var op, before := cfg.operators[s.op], AfterOps(cfg, original, start, s.op);
    SavingWrites(cfg, s, t);
    var done := SavedFrom(cfg, original, start, s);
    var saved := OneMoreSaved(cfg, original, before, op, s.id, done);
    ProducedWith(cfg, original, start, t, saved);
  }

  lemma SavedFrom(cfg: Config, original: Ast, start: Progress, s: State) returns (done: Progress)
    requires ValidRun(cfg, original) && s.op <= |cfg.operators| && Produced(cfg, original, start, s)
    requires s.driver == Saving
    ensures s.op < |cfg.operators| && s.id <= |Sites(cfg, original, cfg.operators[s.op])|
    ensures done == AfterSites(cfg, original, AfterOps(cfg, original, start, s.op), cfg.operators[s.op], s.id)
    ensures s.progress == Progress(cfg.copy(done.fs, DirOf(cfg, cfg.operators[s.op], s.id)), done.infos)
  {
    done := AfterSites(cfg, original, AfterOps(cfg, original, start, s.op), cfg.operators[s.op], s.id);
  }

  lemma ProducedWith(cfg: Config, original: Ast, start: Progress, t: State, done: Progress)
    requires ValidRun(cfg, original) && t.op < |cfg.operators| && Running(t.driver) && t.driver != Saving
    requires Written(t) <= |Sites(cfg, original, cfg.operators[t.op])|
    requires done == AfterSites(cfg, original, AfterOps(cfg, original, start, t.op), cfg.operators[t.op], Written(t))
    requires t.progress == done
    ensures Produced(cfg, original, start, t)
  {
  }

  lemma SavingWrites(cfg: Config, s: State, t: State)
    requires s.driver == Saving && DriverStep(cfg, s, t)
    ensures s.op < |cfg.operators| && t.driver == Replying && t.op == s.op && Written(t) == s.id + 1
    ensures t.progress == Save(cfg, s.progress, DirOf(cfg, cfg.operators[s.op], s.id), s.ast)
  {
  }

  lemma OneMoreSaved(cfg: Config, ast: Ast, before: Progress, op: Operator, n: nat, done: Progress)
    returns (saved: Progress)
    requires ValidRun(cfg, ast) && n < |Sites(cfg, ast, op)| && done == AfterSites(cfg, ast, before, op, n)
    ensures saved == AfterSites(cfg, ast, before, op, n + 1)
    ensures var dir := DirOf(cfg, op, n);
            saved == Save(cfg, Progress(cfg.copy(done.fs, dir), done.infos), dir, MutantTree(cfg, ast, op, n))
  {
    saved := AfterSites(cfg, ast, before, op, n + 1);
  }

  lemma ClosingProduces(cfg: Config, original: Ast, start: Progress, s: State, t: State)
    requires ValidRun(cfg, original) && s.op <= |cfg.operators| && Produced(cfg, original, start, s)
    requires s.driver == Waiting && DriverStep(cfg, s, t)
    requires s.op < |cfg.operators| && s.id == |Sites(cfg, original, cfg.operators[s.op])|
    ensures Produced(cfg, original, start, t)
  {
  }

  lemma NextOpProduces(cfg: Config, original: Ast, start: Progress, s: State, t: State)
    requires ValidRun(cfg, original) && s.op <= |cfg.operators| && Produced(cfg, original, start, s)
    requires s.driver == NextOp && DriverStep(cfg, s, t)
    ensures Produced(cfg, original, start, t)
  {
  }

  lemma CopyingProduces(cfg: Config, original: Ast, start: Progress, s: State, t: State)
    requires ValidRun(cfg, original) && s.op <= |cfg.operators| && Produced(cfg, original, start, s)
    requires s.driver == Copying && DriverStep(cfg, s, t)
    ensures Produced(cfg, original, start, t)
  {
    var before := AfterOps(cfg, original, start, s.op);
    CopyingWrites(cfg, s, t, AfterSites(cfg, original, before, cfg.operators[s.op], s.id));
  }

  lemma CopyingWrites(cfg: Config, s: State, t: State, done: Progress)
    requires s.driver == Copying && DriverStep(cfg, s, t) && s.progress == done
    ensures t.driver == Saving && t.op == s.op && t.id == s.id && Written(t) == Written(s) == s.id
    ensures t.progress == Progress(cfg.copy(done.fs, DirOf(cfg, cfg.operators[s.op], s.id)), done.infos)
  {
  }

  lemma DriverProduces(cfg: Config, original: Ast, start: Progress, s: State, t: State)
    requires Sound(cfg, original, s) && OnCourse(cfg, original, s) && Produced(cfg, original, start, s)
    requires DriverStep(cfg, s, t)
    ensures Produced(cfg, original, start, t)
  {
    match s.driver
    case NextOp => NextOpProduces(cfg, original, start, s, t);
    case Waiting =>
      WalkFinished(cfg, original, s);
      ClosingProduces(cfg, original, start, s, t);
    case Copying => CopyingProduces(cfg, original, start, s, t);
    case Saving =>
      PendingFits(cfg, original, s);
      SavingProduces(cfg, original, start, s, t);
    case _ => SameProduced(cfg, original, start, s, t);
  }

  /** A closed channel means that every mutation has been dealt with. */
  lemma WalkFinished(cfg: Config, original: Ast, s: State)
    requires ValidRun(cfg, original) && OnCourse(cfg, original, s) && Aligned(s.walker, s.driver, s.closed)
    requires s.driver == Waiting && s.closed
    ensures s.op < |cfg.operators| && s.id == |Sites(cfg, original, cfg.operators[s.op])|
  {
    assert |Sites(cfg, original, cfg.operators[s.op])[s.id..]| == 0;
  }

  lemma DriverCountedFrom(cfg: Config, s: State, t: State, total: nat, more: nat)
    requires CountedFrom(total, s) && DriverControl(cfg, s, t) && Aligned(s.walker, s.driver, s.closed)
    requires s.driver == Waiting ==> s.id == more
    ensures CountedFrom(if s.driver == Waiting then total + more else total, t)
  {
  }

  lemma DriverCounted(cfg: Config, original: Ast, s: State, t: State)
    requires ValidRun(cfg, original) && s.op <= |cfg.operators| && t.op <= |cfg.operators|
    requires Counted(cfg, original, s) && DriverControl(cfg, s, t) && Aligned(s.walker, s.driver, s.closed)
    requires s.driver == Waiting ==>
               s.op < |cfg.operators| && s.id == |Sites(cfg, original, cfg.operators[s.op])|
    ensures Counted(cfg, original, t)
  {
    var total := SiteCount(cfg, original, s.op);
    if s.driver == Waiting {
      OneMoreCounted(cfg, original, s.op);
    }
    DriverCountedFrom(cfg, s, t, total, s.id);
    assert t.op == if s.driver == Waiting then s.op + 1 else s.op;
  }

  lemma OneMoreCounted(cfg: Config, ast: Ast, k: nat)
    requires ValidRun(cfg, ast) && k < |cfg.operators|
    ensures SiteCount(cfg, ast, k + 1) == SiteCount(cfg, ast, k) + |Sites(cfg, ast, cfg.operators[k])|
  {
  }

  lemma MeetingCounted(cfg: Config, original: Ast, s: State, t: State)
    requires ValidRun(cfg, original) && s.op <= |cfg.operators| && Counted(cfg, original, s)
    requires Meeting(s, t) && Aligned(s.walker, s.driver, s.closed)
    ensures Counted(cfg, original, t)
  {
  }

  lemma WalkerCounted(cfg: Config, original: Ast, s: State, t: State)
    requires ValidRun(cfg, original) && s.op <= |cfg.operators| && Counted(cfg, original, s)
    requires WalkerStep(cfg, s, t) && Aligned(s.walker, s.driver, s.closed)
    ensures Counted(cfg, original, t)
  {
  }

  lemma WalkerStaysSound(cfg: Config, original: Ast, s: State, t: State)
    requires Sound(cfg, original, s) && OnCourse(cfg, original, s) && WalkerStep(cfg, s, t)
    ensures Sound(cfg, original, t) && OnCourse(cfg, original, t)
    ensures t.op == s.op && t.driver == s.driver && Running(s.driver)
  {
    PendingFits(cfg, original, s);
    WalkerAligned(cfg, original, s, t);
    WalkerOnCourse(cfg, original, s, t);
  }

  lemma WalkerKeeps(cfg: Config, original: Ast, start: Progress, s: State, t: State)
    requires Inv(cfg, original, start, s) && WalkerStep(cfg, s, t)
    ensures Inv(cfg, original, start, t)
  {
    WalkerStaysSound(cfg, original, s, t);
    SameProduced(cfg, original, start, s, t);
    WalkerCounted(cfg, original, s, t);
  }

  lemma MeetingKeeps(cfg: Config, original: Ast, start: Progress, s: State, t: State)
    requires Inv(cfg, original, start, s) && Meeting(s, t)
    ensures Inv(cfg, original, start, t)
  {
    MeetingAligned(cfg, original, s, t);
    MeetingOnCourse(cfg, original, s, t);
    SameProduced(cfg, original, start, s, t);
    MeetingCounted(cfg, original, s, t);
  }

  lemma DriverKeeps(cfg: Config, original: Ast, start: Progress, s: State, t: State)
    requires Inv(cfg, original, start, s) && DriverStep(cfg, s, t)
    ensures Inv(cfg, original, start, t)
  {
    DriverAligned(cfg, original, s, t);
    DriverOnCourse(cfg, original, s, t);
    DriverProduces(cfg, original, start, s, t);
    if s.driver == Waiting {
      WalkFinished(cfg, original, s);
    }
    DriverCounted(cfg, original, s, t);
  }

  lemma StepKeeps(cfg: Config, original: Ast, start: Progress, s: State, t: State)
    requires Inv(cfg, original, start, s) && Next(cfg, s, t)
    ensures Inv(cfg, original, start, t)
  {
    if WalkerStep(cfg, s, t) {
      WalkerKeeps(cfg, original, start, s, t);
    } else if DriverStep(cfg, s, t) {
      DriverKeeps(cfg, original, start, s, t);
    } else {
      MeetingKeeps(cfg, original, start, s, t);
    }
  }

  // ----- what the invariant means -----

  /** Only the intended sides can meet: "changed" with the driver's first receive, "saved" with the walker's first,
      "reset" with the driver's second, "go on" with the walker's second. No side gets its own message. */
  lemma MeetingsMatch(cfg: Config, original: Ast, s: State, t: State)
    requires Sound(cfg, original, s) && Meeting(s, t)
    ensures s.walker.Busy?
    ensures match s.walker.phase
            case SendChanged => s.driver == Waiting && t.driver == Copying
            case AwaitSaved => s.driver == Replying && t.driver == AwaitReset
            case SendReset => s.driver == AwaitReset && t.driver == Acknowledging
            case AwaitNext => s.driver == Acknowledging && t.driver == Counting
            case ResetNext => false
  {
  }

  /** The tree has one owner at a time. A Change can run only while the driver waits for it or is on its way to do so,
      a Reset only while the driver waits for it; and what is saved is the original with exactly the mutation of the
      current id applied, while the walker waits for its first answer. */
  lemma SingleOwner(cfg: Config, original: Ast, s: State, t: State)
    requires Sound(cfg, original, s) && OnCourse(cfg, original, s) && Next(cfg, s, t)
    ensures t.ast != s.ast ==>
              && WalkerStep(cfg, s, t)
              && (if s.walker.Looping? then s.driver == Waiting || s.driver == Counting else s.driver == AwaitReset)
    ensures s.driver == Copying || s.driver == Saving ==>
              && s.walker.Busy? && s.walker.phase == AwaitSaved
              && s.op < |cfg.operators| && s.id < |Sites(cfg, original, cfg.operators[s.op])|
              && s.ast == MutantTree(cfg, original, cfg.operators[s.op], s.id)
              && t.ast == s.ast
  {
    if s.driver == Copying || s.driver == Saving {
      PendingFits(cfg, original, s);
    }
  }

  /** Exactly the Changes and the Resets make a difference to the tree. */
  lemma TreeChangesIff(cfg: Config, original: Ast, s: State, t: State)
    requires Sound(cfg, original, s) && OnCourse(cfg, original, s) && Next(cfg, s, t)
    ensures t.ast != s.ast
            <==> WalkerStep(cfg, s, t) && (s.walker.Busy? || (s.walker.Looping? && s.walker.pending != []))
  {
    if s.walker.Busy? || s.walker.Looping? {
      PendingFits(cfg, original, s);
    }
  }

  /** The tree changes while the driver is not waiting to receive if and only if the step is a Change and the driver
      is still counting. */
  lemma UnawaitedChangeIff(cfg: Config, original: Ast, s: State, t: State)
    requires Sound(cfg, original, s) && OnCourse(cfg, original, s) && Next(cfg, s, t)
    ensures t.ast != s.ast && !DriverReceives(s.driver)
            <==> WalkerStep(cfg, s, t) && s.walker.Looping? && s.walker.pending != [] && s.driver == Counting
  {
    TreeChangesIff(cfg, original, s, t);
    SingleOwner(cfg, original, s, t);
  }

  /** After every Reset, at every acknowledgement and between operators the tree is the original again. */
  lemma OriginalBetweenMutations(cfg: Config, original: Ast, s: State)
    requires Sound(cfg, original, s)
    requires s.driver == NextOp || s.driver == Finished || s.driver == Acknowledging || s.walker.Looping?
             || s.walker.Walking?
    ensures s.ast == original
  {
  }

  /** No reachable state is stuck before the driver has finished. */
  lemma NeverStuck(cfg: Config, original: Ast, s: State) returns (t: State)
    requires Sound(cfg, original, s) && OnCourse(cfg, original, s) && s.driver != Finished
    ensures Next(cfg, s, t)
  {
    match s.walker {
      case Idle => t := DriverCanStep(cfg, original, s);
      case Walking(tasks) => t := WalkerCanStep(cfg, original, s);
      case Looping(pending, n, tasks) =>
        PendingFits(cfg, original, s);
        t := WalkerCanStep(cfg, original, s);
      case Busy(phase, m, pending, n, tasks) =>
        if phase == ResetNext {
          t := s.(ast := Reset(s.ast, m), walker := Busy(SendReset, m, pending, n, tasks));
        } else if s.driver == Counting || s.driver == Copying || s.driver == Saving {
          t := DriverCanStep(cfg, original, s);
        } else {
          t := s.(walker := WalkerMoves(s.walker), driver := DriverMoves(s.driver), meetings := s.meetings + 1);
          assert Meeting(s, t);
        }
    }
  }

  lemma DriverCanStep(cfg: Config, original: Ast, s: State) returns (t: State)
    requires Sound(cfg, original, s)
    requires s.driver == NextOp || (s.driver == Waiting && s.closed) || s.driver == Counting || s.driver == Copying
             || s.driver == Saving
    ensures DriverStep(cfg, s, t)
  {
    if s.driver == NextOp {
      t := if s.op < |cfg.operators|
           then s.(driver := Waiting, id := 0, closed := false, walker := Walking([Enter(cfg.tree)]))
           else s.(driver := Finished);
    } else if s.driver == Waiting {
      t := s.(driver := NextOp, op := s.op + 1);
    } else if s.driver == Counting {
      t := s.(driver := Waiting, id := s.id + 1);
    } else {
      t := s.(driver := if s.driver == Copying then Saving else Replying, progress := DriverWrites(cfg, s));
    }
  }

  lemma WalkerCanStep(cfg: Config, original: Ast, s: State) returns (t: State)
    requires Sound(cfg, original, s) && (s.walker.Walking? || s.walker.Looping?)
    requires s.walker.Looping? && s.walker.pending != [] ==> Captured(original, s.walker.pending[0])
    ensures WalkerStep(cfg, s, t)
  {
    match s.walker
    case Walking(tasks) =>
      if tasks == [] {
        t := s.(walker := Idle, closed := true, closes := s.closes + 1);
      } else {
        TasksTail(original, tasks);
        match tasks[0] {
          case Enter(n) =>
            t := s.(walker := Looping(Mutations(cfg.operators[s.op], s.ast, cfg.info, n), n, tasks[1..]));
          case Rest(n, k) =>
            ParsedChildren(original, n);
            var kids := Children(s.ast, s.ast.nodes[n]);
            if k < |kids| {
              assert IsOld(original, kids[k], n);
              t := s.(walker := Walking([Enter(kids[k].id), Rest(n, k + 1)] + tasks[1..]));
            } else {
              t := s.(walker := Walking(tasks[1..]));
            }
        }
      }
    case Looping(pending, n, tasks) =>
      if pending == [] {
        t := s.(walker := Walking([Rest(n, 0)] + tasks));
      } else {
        t := s.(ast := Change(s.ast, cfg.info, pending[0]),
                walker := Busy(SendChanged, pending[0], pending[1..], n, tasks));
      }
    case _ =>
  }

  // ----- whole runs -----

  ghost predicate StepAt(cfg: Config, run: seq<State>, i: nat)
    requires i + 1 < |run|
  {
    Next(cfg, run[i], run[i + 1])
  }

  ghost predicate IsRun(cfg: Config, original: Ast, start: Progress, run: seq<State>) {
    && |run| >= 1 && run[0] == Init(original, start)
    && forall i | 0 <= i < |run| - 1 :: StepAt(cfg, run, i)
  }

  lemma {:induction false} RunInvariant(cfg: Config, original: Ast, start: Progress, run: seq<State>, i: nat)
    requires ValidRun(cfg, original) && IsRun(cfg, original, start, run) && i < |run|
    ensures Inv(cfg, original, start, run[i])
  {
    if i == 0 {
      InitHolds(cfg, original, start);
    } else {
      RunInvariant(cfg, original, start, run, i - 1);
      assert StepAt(cfg, run, i - 1);
      StepKeeps(cfg, original, start, run[i - 1], run[i]);
    }
  }

  /** Whatever the interleaving, a finished run has produced exactly what the sequential computation produces, has put
      the tree back, and has exchanged four messages per counted mutation and closed one channel per operator. */
  lemma FinishedRun(cfg: Config, original: Ast, start: Progress, run: seq<State>)
    requires ValidRun(cfg, original) && IsRun(cfg, original, start, run)
    requires run[|run| - 1].driver == Finished
    ensures var last := run[|run| - 1];
            && last.walker == Idle
            && last.ast == original
            && last.progress == AfterOps(cfg, original, start, |cfg.operators|)
            && last.meetings == 4 * SiteCount(cfg, original, |cfg.operators|)
            && last.closes == |cfg.operators|
  {
    RunInvariant(cfg, original, start, run, |run| - 1);
    FinishedState(cfg, original, start, run[|run| - 1]);
  }

  lemma FinishedState(cfg: Config, original: Ast, start: Progress, s: State)
    requires Inv(cfg, original, start, s) && s.driver == Finished
    ensures s.walker == Idle && s.ast == original
    ensures s.progress == AfterOps(cfg, original, start, |cfg.operators|)
    ensures s.meetings == 4 * SiteCount(cfg, original, |cfg.operators|) && s.closes == |cfg.operators|
  {
  }
}
