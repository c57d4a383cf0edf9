/** Walker and driver do overlap: the next mutation can be made while the driver is still counting the last one. */
module Overlap {
  import opened Options
  import opened GoAst
  import opened Mutators
  import opened MutateRun
  import opened Protocol
  import opened Termination

  /** After its second answer the driver need not come first: if the walker has another mutation at hand, it may change
      the tree at once. */
  lemma ChangeWhileCounting(cfg: Config, original: Ast, start: Progress, s: State) returns (t: State, u: State)
    requires Inv(cfg, original, start, s) && s.driver == Acknowledging
    requires s.walker.Busy? && s.walker.pending != []
    ensures Next(cfg, s, t) && Next(cfg, t, u)
    ensures t.driver == u.driver == Counting && u.ast != t.ast
  {
    t := s.(walker := WalkerMoves(s.walker), driver := DriverMoves(s.driver), meetings := s.meetings + 1);
    assert Meeting(s, t);
    MeetingKeeps(cfg, original, start, s, t);
    u := NextChange(cfg, original, t);
  }

  lemma NextChange(cfg: Config, original: Ast, t: State) returns (u: State)
    requires Sound(cfg, original, t) && OnCourse(cfg, original, t)
    requires t.walker.Looping? && t.walker.pending != []
    ensures Next(cfg, t, u) && u.driver == t.driver && u.ast != t.ast
  {
    PendingFits(cfg, original, t);
    u := WalkerCanStep(cfg, original, t);
  }

  // ----- whole runs -----

  /** Somewhere in the run the tree changes while the driver is not waiting to receive. */
  ghost predicate OverlapAt(run: seq<State>, i: nat)
    requires i + 1 < |run|
  {
    run[i + 1].ast != run[i].ast && !DriverReceives(run[i].driver)
  }

  ghost predicate Overlaps(run: seq<State>) {
    exists i | 0 <= i < |run| - 1 :: OverlapAt(run, i)
  }

  /** Some operator finds two mutations in the file. */
  ghost predicate TwoSites(cfg: Config, original: Ast)
    requires ValidRun(cfg, original)
  {
    exists k | 0 <= k < |cfg.operators| :: |Sites(cfg, original, cfg.operators[k])| >= 2
  }

  lemma OverlapNeedsTwo(cfg: Config, original: Ast, start: Progress, run: seq<State>)
    requires ValidRun(cfg, original) && IsRun(cfg, original, start, run) && Overlaps(run)
    ensures TwoSites(cfg, original)
  {
    var i :| 0 <= i < |run| - 1 && OverlapAt(run, i);
    RunInvariant(cfg, original, start, run, i);
    assert StepAt(cfg, run, i);
    var s := run[i];
    UnawaitedChangeIff(cfg, original, s, run[i + 1]);
    PendingFits(cfg, original, s);
    assert |Sites(cfg, original, cfg.operators[s.op])| >= 2;
  }

  /** Every number of messages up to the last is reached on the way. */
  lemma {:induction false} MeetingsPass(cfg: Config, original: Ast, start: Progress, run: seq<State>, n: nat, i: nat)
    returns (j: nat)
    requires IsRun(cfg, original, start, run) && i < |run| && n <= run[i].meetings
    ensures j <= i && run[j].meetings == n
  {
    if run[i].meetings == n {
      j := i;
    } else {
      assert i > 0;
      assert StepAt(cfg, run, i - 1);
      MeetingsGrow(cfg, run[i - 1], run[i]);
      j := MeetingsPass(cfg, original, start, run, n, i - 1);
    }
  }

  lemma MeetingsGrow(cfg: Config, s: State, t: State)
    requires Next(cfg, s, t)
    ensures s.meetings <= t.meetings <= s.meetings + 1
  {
  }

  lemma {:induction false} CountsGrow(cfg: Config, ast: Ast, k: nat, n: nat)
    requires ValidRun(cfg, ast) && k <= n <= |cfg.operators|
    ensures SiteCount(cfg, ast, k) <= SiteCount(cfg, ast, n)
    decreases n - k
  {
    if k < n {
      CountsGrow(cfg, ast, k, n - 1);
    }
  }

  lemma ThirdOfFour(total: nat, s: State, x: nat)
    requires CountedFrom(total, s) && s.meetings == 4 * x + 3
    ensures s.driver == Acknowledging && total + s.id == x
  {
  }

  lemma IdInRange(cfg: Config, original: Ast, s: State)
    requires Sound(cfg, original, s) && OnCourse(cfg, original, s) && s.driver == Acknowledging
    ensures s.op < |cfg.operators| && s.id < |Sites(cfg, original, cfg.operators[s.op])|
  {
    PendingFits(cfg, original, s);
  }

  /** Counting mutations across operators tells which operator and which mutation it is. */
  lemma WhichOperator(cfg: Config, ast: Ast, op: nat, id: nat, k: nat)
    requires ValidRun(cfg, ast) && op < |cfg.operators| && k < |cfg.operators|
    requires id < |Sites(cfg, ast, cfg.operators[op])| && |Sites(cfg, ast, cfg.operators[k])| > 0
    requires SiteCount(cfg, ast, op) + id == SiteCount(cfg, ast, k)
    ensures op == k && id == 0
  {
    OneMoreCounted(cfg, ast, op);
    OneMoreCounted(cfg, ast, k);
    if op < k {
      CountsGrow(cfg, ast, op + 1, k);
    } else if op > k {
      CountsGrow(cfg, ast, k + 1, op);
    }
  }

  /** Three messages into the first mutation of operator `k` the driver is about to acknowledge it. */
  lemma ThirdMessage(cfg: Config, original: Ast, start: Progress, s: State, k: nat)
    requires Inv(cfg, original, start, s) && k < |cfg.operators|
    requires |Sites(cfg, original, cfg.operators[k])| >= 2
    requires s.meetings == 4 * SiteCount(cfg, original, k) + 3
    ensures s.driver == Acknowledging && s.op == k && s.id == 0
  {
    ThirdOfFour(SiteCount(cfg, original, s.op), s, SiteCount(cfg, original, k));
    IdInRange(cfg, original, s);
    WhichOperator(cfg, original, s.op, s.id, k);
  }

  /** More mutations of the current operator are to come after the one that the driver counts. */
  ghost predicate MoreToCome(cfg: Config, original: Ast, s: State)
    requires ValidRun(cfg, original)
  {
    && s.driver == Counting && s.ast == original && (s.walker.Walking? || s.walker.Looping?)
    && s.op < |cfg.operators| && s.id + 1 < |Sites(cfg, original, cfg.operators[s.op])|
  }

  lemma StillToCome(cfg: Config, original: Ast, s: State, t: State)
    requires Sound(cfg, original, s) && OnCourse(cfg, original, s) && MoreToCome(cfg, original, s)
    requires WalkerStep(cfg, s, t) && OnCourse(cfg, original, t)
    requires !(s.walker.Looping? && s.walker.pending != [])
    ensures MoreToCome(cfg, original, t)
  {
    NotIdle(cfg, original, t);
  }

  lemma NotIdle(cfg: Config, original: Ast, s: State)
    requires ValidRun(cfg, original) && OnCourse(cfg, original, s) && s.driver == Counting
    requires s.op < |cfg.operators| && s.id + 1 < |Sites(cfg, original, cfg.operators[s.op])|
    ensures s.walker != Idle
  {
    assert |Sites(cfg, original, cfg.operators[s.op])[s.id + 1..]| > 0;
  }

  lemma NextFits(cfg: Config, original: Ast, s: State)
    requires Sound(cfg, original, s) && OnCourse(cfg, original, s)
    requires s.walker.Looping? && s.walker.pending != []
    ensures Captured(original, s.walker.pending[0])
  {
    PendingFits(cfg, original, s);
  }

  lemma GoesOnToChange(cfg: Config, original: Ast, start: Progress, run: seq<State>) returns (more: seq<State>)
    requires IsRun(cfg, original, start, run) && ValidRun(cfg, original) && MoreToCome(cfg, original, Last(run))
    requires Sound(cfg, original, Last(run)) && OnCourse(cfg, original, Last(run))
    requires Last(run).walker.Looping? && Last(run).walker.pending != []
    ensures IsRun(cfg, original, start, more) && |more| == |run| + 1 && Overlaps(more)
  {
    var s := Last(run);
    NextFits(cfg, original, s);
    var t := WalkerCanStep(cfg, original, s);
    more := run + [t];
    Extended(cfg, original, start, run, t);
    UnawaitedChangeIff(cfg, original, s, t);
    assert OverlapAt(more, |run| - 1);
  }

  lemma WalkerGoesOn(cfg: Config, original: Ast, start: Progress, run: seq<State>) returns (more: seq<State>)
    requires ValidRun(cfg, original) && IsRun(cfg, original, start, run) && MoreToCome(cfg, original, Last(run))
    ensures IsRun(cfg, original, start, more) && |more| == |run| + 1
    ensures Overlaps(more) || MoreToCome(cfg, original, Last(more))
  {
    var s := Last(run);
    RunInvariant(cfg, original, start, run, |run| - 1);
    if s.walker.Looping? && s.walker.pending != [] {
      more := GoesOnToChange(cfg, original, start, run);
    } else {
      var t := QuietStep(cfg, original, s);
      Extended(cfg, original, start, run, t);
      more := run + [t];
    }
  }

  lemma QuietStep(cfg: Config, original: Ast, s: State) returns (t: State)
    requires Sound(cfg, original, s) && OnCourse(cfg, original, s) && MoreToCome(cfg, original, s)
    requires !(s.walker.Looping? && s.walker.pending != [])
    ensures Next(cfg, s, t) && MoreToCome(cfg, original, t)
  {
    t := WalkerCanStep(cfg, original, s);
    WalkerStaysSound(cfg, original, s, t);
    StillToCome(cfg, original, s, t);
  }

  /** On its own, the walker gets from the end of one mutation to the next Change. */
  lemma {:induction false} WalkerReaches(cfg: Config, original: Ast, start: Progress, run: seq<State>, left: nat,
                                         bound: nat) returns (more: seq<State>)
    requires ValidRun(cfg, original) && IsRun(cfg, original, start, run) && MoreToCome(cfg, original, Last(run))
    requires bound == Budget(cfg, original, Init(original, start)) && |run| + left == 1 + bound
    ensures IsRun(cfg, original, start, more) && Overlaps(more)
    decreases left
  {
    more := WalkerGoesOn(cfg, original, start, run);
    LengthBounded(cfg, original, start, more);
    if !Overlaps(more) {
      more := WalkerReaches(cfg, original, start, more, left - 1, bound);
    }
  }

  lemma WalkerReachesNext(cfg: Config, original: Ast, start: Progress, run: seq<State>) returns (more: seq<State>)
    requires ValidRun(cfg, original) && IsRun(cfg, original, start, run) && MoreToCome(cfg, original, Last(run))
    ensures IsRun(cfg, original, start, more) && Overlaps(more)
  {
    LengthBounded(cfg, original, start, run);
    var bound := Budget(cfg, original, Init(original, start));
    more := WalkerReaches(cfg, original, start, run, 1 + bound - |run|, bound);
  }

  lemma Prefix(cfg: Config, original: Ast, start: Progress, run: seq<State>, j: nat)
    requires IsRun(cfg, original, start, run) && j < |run|
    ensures IsRun(cfg, original, start, run[..j + 1]) && Last(run[..j + 1]) == run[j]
  {
    var prefix := run[..j + 1];
    forall i | 0 <= i < |prefix| - 1
      ensures StepAt(cfg, prefix, i)
    {
      assert StepAt(cfg, run, i);
    }
  }

  /** Some run gets to the point where the first of several mutations of operator `k` is acknowledged. */
  lemma ReachThirdMessage(cfg: Config, original: Ast, start: Progress, k: nat) returns (run: seq<State>)
    requires ValidRun(cfg, original) && k < |cfg.operators|
    requires |Sites(cfg, original, cfg.operators[k])| >= 2
    ensures IsRun(cfg, original, start, run)
    ensures Last(run).driver == Acknowledging && Last(run).op == k && Last(run).id == 0
  {
    var whole := EveryRunFinishes(cfg, original, start, [Init(original, start)]);
    FinishedRun(cfg, original, start, whole);
    OneMoreCounted(cfg, original, k);
    CountsGrow(cfg, original, k + 1, |cfg.operators|);
    var j := MeetingsPass(cfg, original, start, whole, 4 * SiteCount(cfg, original, k) + 3, |whole| - 1);
    RunInvariant(cfg, original, start, whole, j);
    ThirdMessage(cfg, original, start, whole[j], k);
    Prefix(cfg, original, start, whole, j);
    run := whole[..j + 1];
  }

  lemma Acknowledged(cfg: Config, original: Ast, start: Progress, s: State) returns (t: State)
    requires Inv(cfg, original, start, s) && s.driver == Acknowledging && s.id == 0
    requires s.op < |cfg.operators| && |Sites(cfg, original, cfg.operators[s.op])| >= 2
    ensures Next(cfg, s, t) && MoreToCome(cfg, original, t)
  {
    t := s.(walker := WalkerMoves(s.walker), driver := DriverMoves(s.driver), meetings := s.meetings + 1);
    assert Meeting(s, t);
  }

  lemma ReachCounting(cfg: Config, original: Ast, start: Progress, k: nat) returns (run: seq<State>)
    requires ValidRun(cfg, original) && k < |cfg.operators|
    requires |Sites(cfg, original, cfg.operators[k])| >= 2
    ensures IsRun(cfg, original, start, run) && MoreToCome(cfg, original, Last(run))
  {
    var prefix := ReachThirdMessage(cfg, original, start, k);
    RunInvariant(cfg, original, start, prefix, |prefix| - 1);
    var t := Acknowledged(cfg, original, start, Last(prefix));
    Extended(cfg, original, start, prefix, t);
    run := prefix + [t];
  }

  lemma TwoSitesOverlap(cfg: Config, original: Ast, start: Progress) returns (run: seq<State>)
    requires ValidRun(cfg, original) && TwoSites(cfg, original)
    ensures IsRun(cfg, original, start, run) && Overlaps(run)
  {
    var k :| 0 <= k < |cfg.operators| && |Sites(cfg, original, cfg.operators[k])| >= 2;
    var prefix := ReachCounting(cfg, original, start, k);
    run := WalkerReachesNext(cfg, original, start, prefix);
  }

  /** A run in which the tree changes while the driver is not waiting exists if and only if some operator finds two
      mutations in the file. */
  lemma OverlapIff(cfg: Config, original: Ast, start: Progress)
    requires ValidRun(cfg, original)
    ensures (exists run :: IsRun(cfg, original, start, run) && Overlaps(run)) <==> TwoSites(cfg, original)
  {
    if run :| IsRun(cfg, original, start, run) && Overlaps(run) {
      OverlapNeedsTwo(cfg, original, start, run);
    }
    if TwoSites(cfg, original) {
      var run := TwoSitesOverlap(cfg, original, start);
    }
  }
}
