/** Which way an `expression/remove` mutant can be wrong: with operands that have no effect, dropping an operand of
    `&&` only makes a condition weaker, dropping one of `||` only makes it stronger, and each negation above turns
    that around. */
module Polarity {
  import opened Options
  import opened GoAst
  import opened Mutators
  import opened Semantics

  /** `target` is the node or lies below it. */
  predicate Reaches(ast: Ast, id: NodeId, target: NodeId)
    requires Parsed(ast) && id in ast.nodes
    decreases id, 1, 0
  {
    ParsedChildren(ast, id);
    id == target || SomeReaches(ast, Children(ast, ast.nodes[id]), id, target)
  }

  predicate SomeReaches(ast: Ast, refs: seq<Ref>, bound: nat, target: NodeId)
    requires Parsed(ast) && AllOld(ast, refs, bound)
    decreases bound, 0, |refs|
  {
    refs != [] &&
    (assert IsOld(ast, refs[0], bound);
     Reaches(ast, refs[0].id, target) || SomeReaches(ast, refs[1..], bound, target))
  }

  lemma {:induction false} ReachesDown(ast: Ast, id: NodeId, target: NodeId)
    requires Parsed(ast) && id in ast.nodes && id < target
    ensures !Reaches(ast, id, target)
    decreases id, 1, 0
  {
    ParsedChildren(ast, id);
    NoneReaches(ast, Children(ast, ast.nodes[id]), id, target);
  }

  lemma {:induction false} NoneReaches(ast: Ast, refs: seq<Ref>, bound: nat, target: NodeId)
    requires Parsed(ast) && AllOld(ast, refs, bound) && bound <= target
    ensures !SomeReaches(ast, refs, bound, target)
    decreases bound, 0, |refs|
  {
    if refs != [] {
      assert IsOld(ast, refs[0], bound);
      ReachesDown(ast, refs[0].id, target);
      NoneReaches(ast, refs[1..], bound, target);
    }
  }

  lemma {:induction false} SomeReachesAt(ast: Ast, refs: seq<Ref>, bound: nat, target: NodeId, k: nat)
    requires Parsed(ast) && AllOld(ast, refs, bound) && k < |refs| && IsOld(ast, refs[k], bound)
    requires !SomeReaches(ast, refs, bound, target)
    ensures !Reaches(ast, refs[k].id, target)
    decreases |refs|
  {
    if k > 0 {
      SomeReachesAt(ast, refs[1..], bound, target, k - 1);
    }
  }

  /** Nothing in the subtree is a call. */
  predicate Quiet(ast: Ast, id: NodeId)
    requires Parsed(ast) && id in ast.nodes
    decreases id, 1, 0
  {
    ParsedChildren(ast, id);
    !ast.nodes[id].Call? && AllQuiet(ast, Children(ast, ast.nodes[id]), id)
  }

  predicate AllQuiet(ast: Ast, refs: seq<Ref>, bound: nat)
    requires Parsed(ast) && AllOld(ast, refs, bound)
    decreases bound, 0, |refs|
  {
    refs == [] || (assert IsOld(ast, refs[0], bound); Quiet(ast, refs[0].id) && AllQuiet(ast, refs[1..], bound))
  }

  lemma {:induction false} AllQuietAt(ast: Ast, refs: seq<Ref>, bound: nat, k: nat)
    requires Parsed(ast) && AllOld(ast, refs, bound) && k < |refs| && IsOld(ast, refs[k], bound)
    requires AllQuiet(ast, refs, bound)
    ensures Quiet(ast, refs[k].id)
    decreases |refs|
  {
    if k > 0 {
      AllQuietAt(ast, refs[1..], bound, k - 1);
    }
  }

  /** No call in the expression runs a function of this tree. */
  ghost predicate CallsElsewhere(ast: Ast, id: NodeId)
    requires Parsed(ast) && id in ast.nodes
  {
    Quiet(ast, id) || forall d | d in ast.nodes :: !ast.nodes[d].FuncDecl?
  }

  lemma KidsCallElsewhere(ast: Ast, id: NodeId, k: nat)
    requires Parsed(ast) && id in ast.nodes && CallsElsewhere(ast, id)
    requires k < |Children(ast, ast.nodes[id])|
    ensures IsOld(ast, Children(ast, ast.nodes[id])[k], id)
    ensures CallsElsewhere(ast, Children(ast, ast.nodes[id])[k].id)
  {
    ParsedChildren(ast, id);
    assert IsOld(ast, Children(ast, ast.nodes[id])[k], id);
    if Quiet(ast, id) {
      AllQuietAt(ast, Children(ast, ast.nodes[id]), id, k);
    }
  }

  /** One binary node is another one. */
  ghost predicate EditedAt(ast: Ast, a: Ast, target: NodeId) {
    && a.exprs == ast.exprs && a.stmts == ast.stmts
    && a.nodes.Keys == ast.nodes.Keys
    && (target in a.nodes ==> a.nodes[target].Binary?)
    && forall id | id in ast.nodes && id != target :: a.nodes[id] == ast.nodes[id]
  }

  /** An expression that neither contains the edited node nor calls a function of the tree keeps its value and
      effects. */
  lemma {:induction false} UntouchedNode(lang: Lang, ast: Ast, a: Ast, fuel: nat, id: NodeId, target: NodeId, w: World)
    requires Parsed(ast) && id in ast.nodes && !Reaches(ast, id, target) && CallsElsewhere(ast, id)
    requires EditedAt(ast, a, target)
    ensures EvalNode(lang, ast, fuel, id, w) == EvalNode(lang, a, fuel, id, w)
    decreases id, 1, 0
  {
    ParsedChildren(ast, id);
    var kids := Children(ast, ast.nodes[id]);
    assert a.nodes[id] == ast.nodes[id];
    forall k, w1 | 0 <= k < |kids|
      ensures kids[k].Old? && EvalRef(lang, ast, fuel, kids[k], id, w1) == EvalRef(lang, a, fuel, kids[k], id, w1)
    {
      KidsCallElsewhere(ast, id, k);
      SomeReachesAt(ast, kids, id, target, k);
      UntouchedNode(lang, ast, a, fuel, kids[k].id, target, w1);
    }
    match ast.nodes[id]
    case Selector(x, sel) =>
      assert kids[0] == x && kids[1] == sel;
      KidsCallElsewhere(ast, id, 1);
      SomeReachesAt(ast, kids, id, target, 1);
    case Not(x) => assert kids[0] == x;
    case Paren(x) => assert kids[0] == x;
    case Binary(_, x, y) => assert kids[0] == x && kids[1] == y;
    case Call(fun, args) =>
      assert kids[0] == fun && kids[1..] == ExprsOf(ast, args);
      var w1 := EvalRef(lang, ast, fuel, fun, id, w).1;
      UntouchedList(lang, ast, a, fuel, kids[1..], id, w1);
    case Other(list) => UntouchedList(lang, ast, a, fuel, list, id, w);
    case _ =>
  }

  lemma {:induction false} UntouchedList(lang: Lang, ast: Ast, a: Ast, fuel: nat, refs: seq<Ref>, limit: nat, w: World)
    requires forall k, w1 | 0 <= k < |refs| ::
               EvalRef(lang, ast, fuel, refs[k], limit, w1) == EvalRef(lang, a, fuel, refs[k], limit, w1)
    ensures EvalList(lang, ast, fuel, refs, limit, w) == EvalList(lang, a, fuel, refs, limit, w)
    decreases |refs|
  {
    if refs != [] {
      forall k, w1 | 0 <= k < |refs[1..]|
        ensures EvalRef(lang, ast, fuel, refs[1..][k], limit, w1) == EvalRef(lang, a, fuel, refs[1..][k], limit, w1)
      {
        assert refs[1..][k] == refs[k + 1];
      }
      var w1 := EvalRef(lang, ast, fuel, refs[0], limit, w).1;
      UntouchedList(lang, ast, a, fuel, refs[1..], limit, w1);
    }
  }

  // ----- logical expressions -----

  /** Everything below the connectives `!`, `&&`, `||` and parentheses has a truth value and no effect. */
  predicate Logical(lang: Lang, ast: Ast, fuel: nat, id: NodeId, w: World)
    requires Parsed(ast) && id in ast.nodes
    decreases id
  {
    ParsedChildren(ast, id);
    match ast.nodes[id]
    case Not(x) => assert Children(ast, ast.nodes[id])[0] == x; Logical(lang, ast, fuel, x.id, w)
    case Paren(x) => assert Children(ast, ast.nodes[id])[0] == x; Logical(lang, ast, fuel, x.id, w)
    case Binary(op, x, y) =>
      assert Children(ast, ast.nodes[id])[0] == x && Children(ast, ast.nodes[id])[1] == y;
      if op in {LAnd, LOr} then Logical(lang, ast, fuel, x.id, w) && Logical(lang, ast, fuel, y.id, w)
      else IsTruth(EvalNode(lang, ast, fuel, id, w), w)
    case _ => IsTruth(EvalNode(lang, ast, fuel, id, w), w)
  }

  predicate IsTruth(result: (Value, World), w: World) {
    result.0.Bool? && result.1 == w
  }

  /** Every occurrence of `target` is below the connectives and under an even (odd) number of negations. */
  predicate Under(ast: Ast, id: NodeId, target: NodeId, even: bool)
    requires Parsed(ast) && id in ast.nodes
    decreases id
  {
    ParsedChildren(ast, id);
    if id == target then even
    else
      match ast.nodes[id]
      case Not(x) => assert Children(ast, ast.nodes[id])[0] == x; Under(ast, x.id, target, !even)
      case Paren(x) => assert Children(ast, ast.nodes[id])[0] == x; Under(ast, x.id, target, even)
      case Binary(op, x, y) =>
        assert Children(ast, ast.nodes[id])[0] == x && Children(ast, ast.nodes[id])[1] == y;
        if op in {LAnd, LOr} then Under(ast, x.id, target, even) && Under(ast, y.id, target, even)
        else !Reaches(ast, id, target)
      case _ => !Reaches(ast, id, target)
  }

  /** What lies below the connectives means the same in both stores: it does not run the edited expression. */
  predicate Steady(lang: Lang, ast: Ast, a: Ast, fuel: nat, id: NodeId, w: World)
    requires Parsed(ast) && id in ast.nodes
    decreases id
  {
    ParsedChildren(ast, id);
    match ast.nodes[id]
    case Not(x) => assert Children(ast, ast.nodes[id])[0] == x; Steady(lang, ast, a, fuel, x.id, w)
    case Paren(x) => assert Children(ast, ast.nodes[id])[0] == x; Steady(lang, ast, a, fuel, x.id, w)
    case Binary(op, x, y) =>
      assert Children(ast, ast.nodes[id])[0] == x && Children(ast, ast.nodes[id])[1] == y;
      if op in {LAnd, LOr} then Steady(lang, ast, a, fuel, x.id, w) && Steady(lang, ast, a, fuel, y.id, w)
      else EvalNode(lang, ast, fuel, id, w) == EvalNode(lang, a, fuel, id, w)
    case _ => EvalNode(lang, ast, fuel, id, w) == EvalNode(lang, a, fuel, id, w)
  }

  /** So it is, in particular, if no call in the condition runs a function of the tree itself. */
  lemma {:induction false} CallingElsewhereIsSteady(lang: Lang, ast: Ast, a: Ast, fuel: nat, id: NodeId,
                                                    target: NodeId, even: bool, w: World)
    requires Parsed(ast) && id in ast.nodes && EditedAt(ast, a, target) && CallsElsewhere(ast, id)
    requires Under(ast, id, target, even) || !Reaches(ast, id, target)
    requires target in ast.nodes && ast.nodes[target].Binary? && ast.nodes[target].op in {LAnd, LOr}
    ensures Steady(lang, ast, a, fuel, id, w)
    decreases id
  {
    ParsedChildren(ast, id);
    var kids := Children(ast, ast.nodes[id]);
    match ast.nodes[id]
    case Not(x) =>
      assert kids[0] == x;
      KidsCallElsewhere(ast, id, 0);
      if !Reaches(ast, id, target) { SomeReachesAt(ast, kids, id, target, 0); }
      CallingElsewhereIsSteady(lang, ast, a, fuel, x.id, target, !even, w);
    case Paren(x) =>
      assert kids[0] == x;
      KidsCallElsewhere(ast, id, 0);
      if !Reaches(ast, id, target) { SomeReachesAt(ast, kids, id, target, 0); }
      CallingElsewhereIsSteady(lang, ast, a, fuel, x.id, target, even, w);
    case Binary(op, x, y) =>
      assert kids[0] == x && kids[1] == y;
      if op in {LAnd, LOr} {
        KidsCallElsewhere(ast, id, 0);
        KidsCallElsewhere(ast, id, 1);
        if id == target {
          ReachesDown(ast, x.id, target);
          ReachesDown(ast, y.id, target);
        } else if !Reaches(ast, id, target) {
          SomeReachesAt(ast, kids, id, target, 0);
          SomeReachesAt(ast, kids, id, target, 1);
        }
        CallingElsewhereIsSteady(lang, ast, a, fuel, x.id, target, even, w);
        CallingElsewhereIsSteady(lang, ast, a, fuel, y.id, target, even, w);
      } else {
        UntouchedNode(lang, ast, a, fuel, id, target, w);
      }
    case _ => UntouchedNode(lang, ast, a, fuel, id, target, w);
  }

  /** Steady operands away from the edited node keep the value of the whole. */
  lemma {:induction false} SteadyNode(lang: Lang, ast: Ast, a: Ast, fuel: nat, id: NodeId, target: NodeId, w: World)
    requires Parsed(ast) && id in ast.nodes && EditedAt(ast, a, target) && !Reaches(ast, id, target)
    requires Logical(lang, ast, fuel, id, w) && Steady(lang, ast, a, fuel, id, w)
    ensures EvalNode(lang, ast, fuel, id, w) == EvalNode(lang, a, fuel, id, w)
    decreases id
  {
    ParsedChildren(ast, id);
    var kids := Children(ast, ast.nodes[id]);
    assert a.nodes[id] == ast.nodes[id];
    match ast.nodes[id]
    case Not(x) =>
      assert kids[0] == x;
      SomeReachesAt(ast, kids, id, target, 0);
      SteadyNode(lang, ast, a, fuel, x.id, target, w);
    case Paren(x) =>
      assert kids[0] == x;
      SomeReachesAt(ast, kids, id, target, 0);
      SteadyNode(lang, ast, a, fuel, x.id, target, w);
    case Binary(op, x, y) =>
      assert kids[0] == x && kids[1] == y;
      if op in {LAnd, LOr} {
        SomeReachesAt(ast, kids, id, target, 0);
        SomeReachesAt(ast, kids, id, target, 1);
        SteadyNode(lang, ast, a, fuel, x.id, target, w);
        SteadyNode(lang, ast, a, fuel, y.id, target, w);
        LogicalIsTruth(lang, ast, fuel, x.id, w);
      }
    case _ =>
  }

  lemma {:induction false} LogicalIsTruth(lang: Lang, ast: Ast, fuel: nat, id: NodeId, w: World)
    requires Parsed(ast) && id in ast.nodes && Logical(lang, ast, fuel, id, w)
    ensures IsTruth(EvalNode(lang, ast, fuel, id, w), w)
    decreases id
  {
    ParsedChildren(ast, id);
    match ast.nodes[id]
    case Not(x) => assert Children(ast, ast.nodes[id])[0] == x; LogicalIsTruth(lang, ast, fuel, x.id, w);
    case Paren(x) => assert Children(ast, ast.nodes[id])[0] == x; LogicalIsTruth(lang, ast, fuel, x.id, w);
    case Binary(op, x, y) =>
      assert Children(ast, ast.nodes[id])[0] == x && Children(ast, ast.nodes[id])[1] == y;
      if op in {LAnd, LOr} {
        LogicalIsTruth(lang, ast, fuel, x.id, w);
        LogicalIsTruth(lang, ast, fuel, y.id, w);
      }
    case _ =>
  }

  /** `weaker`: the mutant holds whenever the original does; otherwise the original whenever the mutant does. */
  predicate Directed(before: (Value, World), after: (Value, World), w: World, weaker: bool) {
    && IsTruth(before, w) && IsTruth(after, w)
    && (if weaker then before.0.b ==> after.0.b else after.0.b ==> before.0.b)
  }

  predicate IsOperandRemoval(ast: Ast, info: Info, id: NodeId, m: Mutation)
    requires Parsed(ast) && id in ast.nodes
  {
    m in Mutations(ExpressionRemove, ast, info, id)
  }

  lemma EditIsAt(ast: Ast, info: Info, id: NodeId, m: Mutation)
    requires Parsed(ast) && id in ast.nodes && IsOperandRemoval(ast, info, id, m)
    ensures Captured(ast, m) && EditedAt(ast, Change(ast, info, m), id)
    ensures ast.nodes[id].Binary? && ast.nodes[id].op in {LAnd, LOr}
  {
    MutationsCaptured(ExpressionRemove, ast, info, id);
  }

  lemma AtTheNode(lang: Lang, ast: Ast, info: Info, fuel: nat, id: NodeId, m: Mutation, w: World)
    requires Parsed(ast) && id in ast.nodes && IsOperandRemoval(ast, info, id, m) && Captured(ast, m)
    requires ast.nodes[id].Binary? && ast.nodes[id].op in {LAnd, LOr} && Logical(lang, ast, fuel, id, w)
    requires Steady(lang, ast, Change(ast, info, m), fuel, id, w)
    ensures Directed(EvalNode(lang, ast, fuel, id, w), EvalNode(lang, Change(ast, info, m), fuel, id, w), w,
                     ast.nodes[id].op == LAnd)
  {
    EditIsAt(ast, info, id, m);
    ParsedChildren(ast, id);
    var n, a := ast.nodes[id], Change(ast, info, m);
    assert Children(ast, n)[0] == n.x && Children(ast, n)[1] == n.y;
    LogicalIsTruth(lang, ast, fuel, n.x.id, w);
    LogicalIsTruth(lang, ast, fuel, n.y.id, w);
    ReachesDown(ast, n.x.id, id);
    ReachesDown(ast, n.y.id, id);
    SteadyNode(lang, ast, a, fuel, n.x.id, id, w);
    SteadyNode(lang, ast, a, fuel, n.y.id, id, w);
    RemovedAt(ast, info, id, m);
    NeutralIsDirected(lang, ast, a, fuel, id, w);
  }

  /** One operand is replaced by the neutral element. */
  predicate NeutralAt(ast: Ast, a: Ast, id: NodeId) {
    && id in ast.nodes && ast.nodes[id].Binary? && ast.nodes[id].op in {LAnd, LOr} && id in a.nodes
    && var n := ast.nodes[id];
       var neutral := New(FIdent(if n.op == LAnd then "true" else "false"));
       a.nodes[id] == Binary(n.op, neutral, n.y) || a.nodes[id] == Binary(n.op, n.x, neutral)
  }

  lemma RemovedAt(ast: Ast, info: Info, id: NodeId, m: Mutation)
    requires Parsed(ast) && id in ast.nodes && IsOperandRemoval(ast, info, id, m) && Captured(ast, m)
    ensures NeutralAt(ast, Change(ast, info, m), id)
  {
  }

  lemma NeutralIsDirected(lang: Lang, ast: Ast, a: Ast, fuel: nat, id: NodeId, w: World)
    requires NeutralAt(ast, a, id)
    requires var n := ast.nodes[id];
             && n.x.Old? && n.x.id < id && n.y.Old? && n.y.id < id
             && EvalNode(lang, a, fuel, n.x.id, w) == EvalNode(lang, ast, fuel, n.x.id, w)
             && EvalNode(lang, a, fuel, n.y.id, w) == EvalNode(lang, ast, fuel, n.y.id, w)
             && IsTruth(EvalNode(lang, ast, fuel, n.x.id, w), w) && IsTruth(EvalNode(lang, ast, fuel, n.y.id, w), w)
    ensures Directed(EvalNode(lang, ast, fuel, id, w), EvalNode(lang, a, fuel, id, w), w, ast.nodes[id].op == LAnd)
  {
    var n := ast.nodes[id];
    var vx, vy := EvalNode(lang, ast, fuel, n.x.id, w), EvalNode(lang, ast, fuel, n.y.id, w);
    assert EvalRef(lang, ast, fuel, n.x, id, w) == vx && EvalRef(lang, ast, fuel, n.y, id, w) == vy;
    assert EvalRef(lang, a, fuel, n.x, id, w) == vx && EvalRef(lang, a, fuel, n.y, id, w) == vy;
    var neutral := New(FIdent(if n.op == LAnd then "true" else "false"));
    assert EvalRef(lang, a, fuel, neutral, id, w) == (Bool(n.op == LAnd), w);
  }

  lemma ConnectiveIsMonotone(lang: Lang, ast: Ast, a: Ast, fuel: nat, id: NodeId, w: World, weaker: bool)
    requires id in ast.nodes && ast.nodes[id].Binary? && ast.nodes[id].op in {LAnd, LOr}
    requires id in a.nodes && a.nodes[id] == ast.nodes[id]
    requires var n := ast.nodes[id];
             && n.x.Old? && n.x.id < id && n.y.Old? && n.y.id < id
             && Directed(EvalNode(lang, ast, fuel, n.x.id, w), EvalNode(lang, a, fuel, n.x.id, w), w, weaker)
             && Directed(EvalNode(lang, ast, fuel, n.y.id, w), EvalNode(lang, a, fuel, n.y.id, w), w, weaker)
    ensures Directed(EvalNode(lang, ast, fuel, id, w), EvalNode(lang, a, fuel, id, w), w, weaker)
  {
    var n := ast.nodes[id];
    assert EvalRef(lang, ast, fuel, n.x, id, w) == EvalNode(lang, ast, fuel, n.x.id, w);
    assert EvalRef(lang, ast, fuel, n.y, id, w) == EvalNode(lang, ast, fuel, n.y.id, w);
    assert EvalRef(lang, a, fuel, n.x, id, w) == EvalNode(lang, a, fuel, n.x.id, w);
    assert EvalRef(lang, a, fuel, n.y, id, w) == EvalNode(lang, a, fuel, n.y.id, w);
  }

  lemma NegationTurns(lang: Lang, ast: Ast, a: Ast, fuel: nat, id: NodeId, w: World, weaker: bool)
    requires id in ast.nodes && ast.nodes[id].Not? && id in a.nodes && a.nodes[id] == ast.nodes[id]
    requires var x := ast.nodes[id].x;
             && x.Old? && x.id < id
             && Directed(EvalNode(lang, ast, fuel, x.id, w), EvalNode(lang, a, fuel, x.id, w), w, !weaker)
    ensures Directed(EvalNode(lang, ast, fuel, id, w), EvalNode(lang, a, fuel, id, w), w, weaker)
  {
    var x := ast.nodes[id].x;
    assert EvalRef(lang, ast, fuel, x, id, w) == EvalNode(lang, ast, fuel, x.id, w);
    assert EvalRef(lang, a, fuel, x, id, w) == EvalNode(lang, a, fuel, x.id, w);
  }

  lemma ParenthesesKeep(lang: Lang, ast: Ast, a: Ast, fuel: nat, id: NodeId, w: World, weaker: bool)
    requires id in ast.nodes && ast.nodes[id].Paren? && id in a.nodes && a.nodes[id] == ast.nodes[id]
    requires var x := ast.nodes[id].x;
             && x.Old? && x.id < id
             && Directed(EvalNode(lang, ast, fuel, x.id, w), EvalNode(lang, a, fuel, x.id, w), w, weaker)
    ensures Directed(EvalNode(lang, ast, fuel, id, w), EvalNode(lang, a, fuel, id, w), w, weaker)
  {
    var x := ast.nodes[id].x;
    assert EvalRef(lang, ast, fuel, x, id, w) == EvalNode(lang, ast, fuel, x.id, w);
    assert EvalRef(lang, a, fuel, x, id, w) == EvalNode(lang, a, fuel, x.id, w);
  }

  /** The connectives carry the direction up from the edited node, and each negation turns it. */
  lemma {:induction false} CarriedUp(lang: Lang, ast: Ast, a: Ast, fuel: nat, id: NodeId, root: NodeId, even: bool,
                                     w: World, weaker: bool)
    requires Parsed(ast) && id in ast.nodes && root in ast.nodes && EditedAt(ast, a, id)
    requires Logical(lang, ast, fuel, root, w) && Steady(lang, ast, a, fuel, root, w) && Under(ast, root, id, even)
    requires Logical(lang, ast, fuel, id, w) && Steady(lang, ast, a, fuel, id, w) ==>
               Directed(EvalNode(lang, ast, fuel, id, w), EvalNode(lang, a, fuel, id, w), w, weaker)
    ensures Directed(EvalNode(lang, ast, fuel, root, w), EvalNode(lang, a, fuel, root, w), w, weaker == even)
    decreases root
  {
    if root != id {
      ParsedChildren(ast, root);
      assert a.nodes[root] == ast.nodes[root];
      LogicalIsTruth(lang, ast, fuel, root, w);
      match ast.nodes[root]
      case Not(x) =>
        assert Children(ast, ast.nodes[root])[0] == x;
        CarriedUp(lang, ast, a, fuel, id, x.id, !even, w, weaker);
        NegationTurns(lang, ast, a, fuel, root, w, weaker == even);
      case Paren(x) =>
        assert Children(ast, ast.nodes[root])[0] == x;
        CarriedUp(lang, ast, a, fuel, id, x.id, even, w, weaker);
        ParenthesesKeep(lang, ast, a, fuel, root, w, weaker == even);
      case Binary(op, x, y) =>
        if op in {LAnd, LOr} {
          assert Children(ast, ast.nodes[root])[0] == x && Children(ast, ast.nodes[root])[1] == y;
          CarriedUp(lang, ast, a, fuel, id, x.id, even, w, weaker);
          CarriedUp(lang, ast, a, fuel, id, y.id, even, w, weaker);
          ConnectiveIsMonotone(lang, ast, a, fuel, root, w, weaker == even);
        } else {
          SteadyNode(lang, ast, a, fuel, root, id, w);
        }
      case _ => SteadyNode(lang, ast, a, fuel, root, id, w);
    }
  }

  /** In a whole condition: an even number of negations above the edited `&&` keeps the mutant weaker, an odd number
      makes it stronger; for `||` the other way round. */
  lemma RemovalIsDirected(lang: Lang, ast: Ast, info: Info, fuel: nat, id: NodeId, m: Mutation, root: NodeId,
                          even: bool, w: World)
    requires Parsed(ast) && id in ast.nodes && root in ast.nodes
    requires IsOperandRemoval(ast, info, id, m) && Logical(lang, ast, fuel, root, w) && Under(ast, root, id, even)
    requires Captured(ast, m) && Steady(lang, ast, Change(ast, info, m), fuel, root, w)
    ensures ast.nodes[id].Binary?
    ensures Directed(EvalNode(lang, ast, fuel, root, w), EvalNode(lang, Change(ast, info, m), fuel, root, w), w,
                     (ast.nodes[id].op == LAnd) == even)
  {
    EditIsAt(ast, info, id, m);
    var a := Change(ast, info, m);
    if Logical(lang, ast, fuel, id, w) && Steady(lang, ast, a, fuel, id, w) {
      AtTheNode(lang, ast, info, fuel, id, m, w);
    }
    CarriedUp(lang, ast, a, fuel, id, root, even, w, ast.nodes[id].op == LAnd);
  }

  /** So it is whenever no call in the condition runs a function of the tree itself. */
  lemma RemovalIsDirectedElsewhere(lang: Lang, ast: Ast, info: Info, fuel: nat, id: NodeId, m: Mutation, root: NodeId,
                                   even: bool, w: World)
    requires Parsed(ast) && id in ast.nodes && root in ast.nodes
    requires IsOperandRemoval(ast, info, id, m) && Logical(lang, ast, fuel, root, w) && Under(ast, root, id, even)
    requires CallsElsewhere(ast, root)
    ensures ast.nodes[id].Binary? && Captured(ast, m)
    ensures Directed(EvalNode(lang, ast, fuel, root, w), EvalNode(lang, Change(ast, info, m), fuel, root, w), w,
                     (ast.nodes[id].op == LAnd) == even)
  {
    EditIsAt(ast, info, id, m);
    CallingElsewhereIsSteady(lang, ast, Change(ast, info, m), fuel, root, id, even, w);
    RemovalIsDirected(lang, ast, info, fuel, id, m, root, even, w);
  }
}
