/** The walk leaves nothing out: what a program does is settled by the nodes the walk visits below it and below the
    functions that the tree declares. */
module WalkMeaning {
  import opened Options
  import opened GoAst
  import opened Walk
  import opened Semantics

  // ----- stores that agree on what a walk visits -----

  /** The two stores hold the same statements and expressions in the lists of the node. */
  predicate SameLists(a1: Ast, a2: Ast, n: Node) {
    match n
    case Call(_, args) => ExprsOf(a1, args) == ExprsOf(a2, args)
    case Assign(lhs, _, rhs) => ExprsOf(a1, lhs) == ExprsOf(a2, lhs) && ExprsOf(a1, rhs) == ExprsOf(a2, rhs)
    case Block(list) => StmtsOf(a1, list) == StmtsOf(a2, list)
    case Case(exprs, stmts) => ExprsOf(a1, exprs) == ExprsOf(a2, exprs) && StmtsOf(a1, stmts) == StmtsOf(a2, stmts)
    case Return(results) => ExprsOf(a1, results) == ExprsOf(a2, results)
    case _ => true
  }

  predicate SameAt(a1: Ast, a2: Ast, id: NodeId) {
    id in a1.nodes && id in a2.nodes && a1.nodes[id] == a2.nodes[id] && SameLists(a1, a2, a1.nodes[id])
  }

  ghost predicate SameWalk(a1: Ast, a2: Ast, id: NodeId)
    requires Parsed(a1) && id in a1.nodes
  {
    forall n | n in PreOrder(a1, id) :: SameAt(a1, a2, n)
  }

  predicate Declares(ast: Ast, id: NodeId) {
    id in ast.nodes && ast.nodes[id].FuncDecl?
  }

  /** The same functions are declared, and the stores agree on them. */
  ghost predicate SameDeclarations(a1: Ast, a2: Ast)
    requires Parsed(a1)
  {
    && (forall d :: Declares(a1, d) <==> Declares(a2, d))
    && (forall d | Declares(a1, d) :: SameWalk(a1, a2, d))
  }

  // ----- a set of nodes that keeps to itself -----

  predicate In(visited: iset<NodeId>, r: Ref, bound: nat) {
    r.Old? && r.id < bound && r.id in visited
  }

  predicate AllIn(visited: iset<NodeId>, refs: seq<Ref>, bound: nat) {
    forall k | 0 <= k < |refs| :: In(visited, refs[k], bound)
  }

  predicate OptIn(visited: iset<NodeId>, r: Option<Ref>, bound: nat) {
    r.Some? ==> In(visited, r.value, bound)
  }

  /** Every part of the node is visited. */
  predicate PartsIn(ast: Ast, visited: iset<NodeId>, id: NodeId)
    requires id in ast.nodes
  {
    match ast.nodes[id]
    case Selector(x, sel) => In(visited, x, id) && In(visited, sel, id)
    case Not(x) => In(visited, x, id)
    case Paren(x) => In(visited, x, id)
    case Binary(_, x, y) => In(visited, x, id) && In(visited, y, id)
    case Call(fun, args) => In(visited, fun, id) && AllIn(visited, ExprsOf(ast, args), id)
    case ExprStmt(x) => In(visited, x, id)
    case IncDec(x, _) => In(visited, x, id)
    case Assign(lhs, _, rhs) => AllIn(visited, ExprsOf(ast, lhs), id) && AllIn(visited, ExprsOf(ast, rhs), id)
    case Block(list) => AllIn(visited, StmtsOf(ast, list), id)
    case If(init, cond, body, els) =>
      OptIn(visited, init, id) && In(visited, cond, id) && In(visited, body, id) && OptIn(visited, els, id)
    case Switch(init, tag, body) => OptIn(visited, init, id) && OptIn(visited, tag, id) && In(visited, body, id)
    case Case(exprs, stmts) => AllIn(visited, ExprsOf(ast, exprs), id) && AllIn(visited, StmtsOf(ast, stmts), id)
    case For(init, test, post, body) =>
      OptIn(visited, init, id) && OptIn(visited, test, id) && OptIn(visited, post, id) && In(visited, body, id)
    case Return(results) => AllIn(visited, ExprsOf(ast, results), id)
    case FuncDecl(ident, params, body) => In(visited, ident, id) && AllIn(visited, params, id) && In(visited, body, id)
    case Other(kids) => AllIn(visited, kids, id)
    case _ => true
  }

  predicate ClosedAt(a1: Ast, a2: Ast, visited: iset<NodeId>, id: NodeId) {
    SameAt(a1, a2, id) && PartsIn(a1, visited, id)
  }

  ghost predicate Closed(a1: Ast, a2: Ast, visited: iset<NodeId>) {
    && (forall id | id in visited :: ClosedAt(a1, a2, visited, id))
    && (forall d :: Declares(a1, d) <==> Declares(a2, d))
    && (forall d | Declares(a1, d) :: d in visited)
  }

  lemma AtVisited(a1: Ast, a2: Ast, visited: iset<NodeId>, id: NodeId)
    requires Closed(a1, a2, visited) && id in visited
    ensures id in a1.nodes && id in a2.nodes && a1.nodes[id] == a2.nodes[id] && SameLists(a1, a2, a1.nodes[id])
    ensures PartsIn(a1, visited, id)
  {
    assert ClosedAt(a1, a2, visited, id);
  }

  // ----- expressions -----

  lemma NameSame(a1: Ast, a2: Ast, visited: iset<NodeId>, r: Ref, bound: nat)
    requires Closed(a1, a2, visited) && In(visited, r, bound)
    ensures NameOf(a1, r) == NameOf(a2, r)
  {
    AtVisited(a1, a2, visited, r.id);
  }

  lemma {:induction false} EvalNodeSame(lang: Lang, a1: Ast, a2: Ast, visited: iset<NodeId>, fuel: nat, id: NodeId,
                                        w: World)
    requires Closed(a1, a2, visited) && id in visited
    ensures EvalNode(lang, a1, fuel, id, w) == EvalNode(lang, a2, fuel, id, w)
    decreases fuel, id, 3, 0
  {
    AtVisited(a1, a2, visited, id);
    match a1.nodes[id]
    case Selector(x, sel) =>
      EvalRefSame(lang, a1, a2, visited, fuel, x, id, w);
      NameSame(a1, a2, visited, sel, id);
    case Not(x) => EvalRefSame(lang, a1, a2, visited, fuel, x, id, w);
    case Paren(x) => EvalRefSame(lang, a1, a2, visited, fuel, x, id, w);
    case Binary(_, x, y) =>
      EvalRefSame(lang, a1, a2, visited, fuel, x, id, w);
      EvalRefSame(lang, a1, a2, visited, fuel, y, id, EvalRef(lang, a1, fuel, x, id, w).1);
    case Call(_, _) => EvalCallSame(lang, a1, a2, visited, fuel, id, w);
    case Other(kids) => EvalListSame(lang, a1, a2, visited, fuel, kids, id, w);
    case _ =>
  }

  lemma {:induction false} EvalCallSame(lang: Lang, a1: Ast, a2: Ast, visited: iset<NodeId>, fuel: nat, id: NodeId,
                                        w: World)
    requires Closed(a1, a2, visited) && id in visited && id in a1.nodes && a1.nodes[id].Call?
    ensures EvalNode(lang, a1, fuel, id, w) == EvalNode(lang, a2, fuel, id, w)
    decreases fuel, id, 2, 2
  {
    AtVisited(a1, a2, visited, id);
    var fun, args := a1.nodes[id].fun, a1.nodes[id].args;
    EvalRefSame(lang, a1, a2, visited, fuel, fun, id, w);
    var (f, w1) := EvalRef(lang, a1, fuel, fun, id, w);
    EvalListSame(lang, a1, a2, visited, fuel, ExprsOf(a1, args), id, w1);
    var (vs, w2) := EvalList(lang, a1, fuel, ExprsOf(a1, args), id, w1);
    CallSame(lang, a1, a2, visited, fuel, f, vs, w2.(trace := w2.trace + [Called(f, vs)]));
  }

  lemma {:induction false} CallSame(lang: Lang, a1: Ast, a2: Ast, visited: iset<NodeId>, fuel: nat, f: Value,
                                    args: seq<Value>, w: World)
    requires Closed(a1, a2, visited)
    ensures CallValue(lang, a1, fuel, f, args, w) == CallValue(lang, a2, fuel, f, args, w)
    decreases fuel, 0, 0, 0
  {
    if f.Fun? {
      assert Declares(a1, f.decl) <==> Declares(a2, f.decl);
      if Declares(a1, f.decl) && fuel > 0 {
        AtVisited(a1, a2, visited, f.decl);
        var decl := a1.nodes[f.decl];
        BindSame(a1, a2, visited, decl.params, f.decl, f.bound + args);
        var start := w.(vars := Bind(a1, decl.params, f.bound + args));
        ExecRefSame(lang, a1, a2, visited, fuel - 1, decl.body, f.decl, start);
      }
    }
  }

  lemma {:induction false} BindSame(a1: Ast, a2: Ast, visited: iset<NodeId>, params: seq<Ref>, bound: nat,
                                    args: seq<Value>)
    requires Closed(a1, a2, visited) && AllIn(visited, params, bound)
    ensures Bind(a1, params, args) == Bind(a2, params, args)
    decreases |params|
  {
    if params != [] && args != [] {
      NameSame(a1, a2, visited, params[0], bound);
      BindSame(a1, a2, visited, params[1..], bound, args[1..]);
    }
  }

  lemma {:induction false} DeclaredSame(a1: Ast, a2: Ast, visited: iset<NodeId>, lhs: seq<Ref>, bound: nat, w: World)
    requires Closed(a1, a2, visited) && AllIn(visited, lhs, bound)
    ensures Declared(a1, lhs, w) == Declared(a2, lhs, w)
    decreases |lhs|
  {
    if lhs != [] {
      NameSame(a1, a2, visited, lhs[0], bound);
      var name := NameOf(a1, lhs[0]);
      DeclaredSame(a1, a2, visited, lhs[1..], bound, if name in w.vars then w else w.(vars := w.vars[name := Nil]));
    }
  }

  lemma {:induction false} EvalRefSame(lang: Lang, a1: Ast, a2: Ast, visited: iset<NodeId>, fuel: nat, r: Ref,
                                       limit: nat, w: World)
    requires Closed(a1, a2, visited) && In(visited, r, limit)
    ensures EvalRef(lang, a1, fuel, r, limit, w) == EvalRef(lang, a2, fuel, r, limit, w)
    decreases fuel, limit, 0, 1
  {
    EvalNodeSame(lang, a1, a2, visited, fuel, r.id, w);
  }

  lemma {:induction false} EvalListSame(lang: Lang, a1: Ast, a2: Ast, visited: iset<NodeId>, fuel: nat,
                                        refs: seq<Ref>, limit: nat, w: World)
    requires Closed(a1, a2, visited) && AllIn(visited, refs, limit)
    ensures EvalList(lang, a1, fuel, refs, limit, w) == EvalList(lang, a2, fuel, refs, limit, w)
    decreases fuel, limit, 1, |refs|
  {
    if refs != [] {
      EvalRefSame(lang, a1, a2, visited, fuel, refs[0], limit, w);
      EvalListSame(lang, a1, a2, visited, fuel, refs[1..], limit, EvalRef(lang, a1, fuel, refs[0], limit, w).1);
    }
  }

  // ----- assignment -----

  lemma AssignNodeSame(lang: Lang, a1: Ast, a2: Ast, visited: iset<NodeId>, fuel: nat, id: NodeId, v: Value, w: World)
    requires Closed(a1, a2, visited) && id in visited
    ensures AssignNode(lang, a1, fuel, id, v, w) == AssignNode(lang, a2, fuel, id, v, w)
    decreases fuel, id, 2, 1
  {
    AtVisited(a1, a2, visited, id);
    match a1.nodes[id]
    case Selector(x, sel) =>
      EvalRefSame(lang, a1, a2, visited, fuel, x, id, w);
      NameSame(a1, a2, visited, sel, id);
    case Other(kids) => EvalListSame(lang, a1, a2, visited, fuel, kids, id, w);
    case _ => NoTargetSame(lang, a1, a2, fuel, id, v, w);
  }

  lemma NoTargetSame(lang: Lang, a1: Ast, a2: Ast, fuel: nat, id: NodeId, v: Value, w: World)
    requires id in a1.nodes && id in a2.nodes && a1.nodes[id] == a2.nodes[id]
    requires !a1.nodes[id].Selector? && !a1.nodes[id].Other?
    ensures AssignNode(lang, a1, fuel, id, v, w) == AssignNode(lang, a2, fuel, id, v, w)
  {
  }

  lemma AssignRefSame(lang: Lang, a1: Ast, a2: Ast, visited: iset<NodeId>, fuel: nat, r: Ref, limit: nat, v: Value,
                      w: World)
    requires Closed(a1, a2, visited) && In(visited, r, limit)
    ensures AssignRef(lang, a1, fuel, r, limit, v, w) == AssignRef(lang, a2, fuel, r, limit, v, w)
    decreases fuel, limit, 0, 2
  {
    AssignNodeSame(lang, a1, a2, visited, fuel, r.id, v, w);
  }

  lemma {:induction false} AssignAllSame(lang: Lang, a1: Ast, a2: Ast, visited: iset<NodeId>, fuel: nat,
                                         targets: seq<Ref>, limit: nat, vs: seq<Value>, w: World)
    requires Closed(a1, a2, visited) && AllIn(visited, targets, limit)
    ensures AssignAll(lang, a1, fuel, targets, limit, vs, w) == AssignAll(lang, a2, fuel, targets, limit, vs, w)
    decreases fuel, limit, 1, |targets|
  {
    if targets != [] && vs != [] {
      AssignRefSame(lang, a1, a2, visited, fuel, targets[0], limit, vs[0], w);
      var w1 := AssignRef(lang, a1, fuel, targets[0], limit, vs[0], w);
      AssignAllSame(lang, a1, a2, visited, fuel, targets[1..], limit, vs[1..], w1);
    }
  }

  lemma ExecAssignSame(lang: Lang, a1: Ast, a2: Ast, visited: iset<NodeId>, fuel: nat, lhs: seq<Ref>, tok: AssignTok,
                       rhs: seq<Ref>, limit: nat, w: World)
    requires Closed(a1, a2, visited) && AllIn(visited, lhs, limit) && AllIn(visited, rhs, limit)
    ensures ExecAssign(lang, a1, fuel, lhs, tok, rhs, limit, w) == ExecAssign(lang, a2, fuel, lhs, tok, rhs, limit, w)
    decreases fuel, limit, 2, 0
  {
    match tok
    case Compound(op) =>
      if lhs != [] && rhs != [] {
        EvalRefSame(lang, a1, a2, visited, fuel, lhs[0], limit, w);
        var (v, w1) := EvalRef(lang, a1, fuel, lhs[0], limit, w);
        EvalRefSame(lang, a1, a2, visited, fuel, rhs[0], limit, w1);
        var (u, w2) := EvalRef(lang, a1, fuel, rhs[0], limit, w1);
        AssignRefSame(lang, a1, a2, visited, fuel, lhs[0], limit, lang.operate(op, v, u), w2);
      }
    case _ =>
      EvalListSame(lang, a1, a2, visited, fuel, rhs, limit, w);
      var (vs, w1) := EvalList(lang, a1, fuel, rhs, limit, w);
      DeclaredSame(a1, a2, visited, lhs, limit, w1);
      var w2 := if tok.Define? then Declared(a1, lhs, w1) else w1;
      AssignAllSame(lang, a1, a2, visited, fuel, lhs, limit, Spread(vs), w2);
  }

  // ----- statements -----

  lemma {:induction false} ExecRefSame(lang: Lang, a1: Ast, a2: Ast, visited: iset<NodeId>, fuel: nat, r: Ref,
                                       limit: nat, w: World)
    requires Closed(a1, a2, visited) && In(visited, r, limit)
    ensures ExecRef(lang, a1, fuel, r, limit, w) == ExecRef(lang, a2, fuel, r, limit, w)
    decreases fuel, limit, 3, 0
  {
    ExecNodeSame(lang, a1, a2, visited, fuel, r.id, w);
  }

  lemma {:induction false} ExecOptSame(lang: Lang, a1: Ast, a2: Ast, visited: iset<NodeId>, fuel: nat, r: Option<Ref>,
                                       limit: nat, w: World)
    requires Closed(a1, a2, visited) && OptIn(visited, r, limit)
    ensures ExecOpt(lang, a1, fuel, r, limit, w) == ExecOpt(lang, a2, fuel, r, limit, w)
    decreases fuel, limit, 4, 0
  {
    if r.Some? {
      ExecRefSame(lang, a1, a2, visited, fuel, r.value, limit, w);
    }
  }

  lemma {:induction false} ExecListSame(lang: Lang, a1: Ast, a2: Ast, visited: iset<NodeId>, fuel: nat,
                                        refs: seq<Ref>, limit: nat, w: World)
    requires Closed(a1, a2, visited) && AllIn(visited, refs, limit)
    ensures ExecList(lang, a1, fuel, refs, limit, w) == ExecList(lang, a2, fuel, refs, limit, w)
    decreases fuel, limit, 4, |refs|
  {
    if refs != [] {
      ExecRefSame(lang, a1, a2, visited, fuel, refs[0], limit, w);
      var o := ExecRef(lang, a1, fuel, refs[0], limit, w);
      if o.Running? {
        ExecListSame(lang, a1, a2, visited, fuel, refs[1..], limit, o.w);
      }
    }
  }

  lemma {:induction false} ExecNodeSame(lang: Lang, a1: Ast, a2: Ast, visited: iset<NodeId>, fuel: nat, id: NodeId,
                                        w: World)
    requires Closed(a1, a2, visited) && id in visited
    ensures ExecNode(lang, a1, fuel, id, w) == ExecNode(lang, a2, fuel, id, w)
    decreases fuel, id, 7, 0
  {
    AtVisited(a1, a2, visited, id);
    match a1.nodes[id]
    case ExprStmt(x) => EvalRefSame(lang, a1, a2, visited, fuel, x, id, w);
    case IncDec(x, increment) =>
      EvalRefSame(lang, a1, a2, visited, fuel, x, id, w);
      var (v, w1) := EvalRef(lang, a1, fuel, x, id, w);
      var next := lang.operate(if increment then "++" else "--", v, Int(1));
      AssignRefSame(lang, a1, a2, visited, fuel, x, id, next, w1);
    case Assign(lhs, tok, rhs) =>
      ExecAssignSame(lang, a1, a2, visited, fuel, ExprsOf(a1, lhs), tok, ExprsOf(a1, rhs), id, w);
    case Block(list) => ExecListSame(lang, a1, a2, visited, fuel, StmtsOf(a1, list), id, w);
    case Case(_, stmts) => ExecListSame(lang, a1, a2, visited, fuel, StmtsOf(a1, stmts), id, w);
    case If(_, _, _, _) => ExecIfSame(lang, a1, a2, visited, fuel, id, w);
    case Switch(_, _, _) => ExecSwitchNodeSame(lang, a1, a2, visited, fuel, id, w);
    case For(_, _, _, _) => ExecForSame(lang, a1, a2, visited, fuel, id, w);
    case Return(results) => EvalListSame(lang, a1, a2, visited, fuel, ExprsOf(a1, results), id, w);
    case Other(kids) => ExecListSame(lang, a1, a2, visited, fuel, kids, id, w);
    case FuncDecl(ident, _, _) => NameSame(a1, a2, visited, ident, id);
    case Break =>
    case Continue =>
    case _ => EvalNodeSame(lang, a1, a2, visited, fuel, id, w);
  }

  lemma {:induction false} ExecIfSame(lang: Lang, a1: Ast, a2: Ast, visited: iset<NodeId>, fuel: nat, id: NodeId,
                                      w: World)
    requires Closed(a1, a2, visited) && id in visited && id in a1.nodes && a1.nodes[id].If?
    ensures ExecNode(lang, a1, fuel, id, w) == ExecNode(lang, a2, fuel, id, w)
    decreases fuel, id, 6, 0
  {
    AtVisited(a1, a2, visited, id);
    var n := a1.nodes[id];
    ExecOptSame(lang, a1, a2, visited, fuel, n.init, id, w);
    var o := ExecOpt(lang, a1, fuel, n.init, id, w);
    if o.Running? {
      EvalRefSame(lang, a1, a2, visited, fuel, n.cond, id, o.w);
      var w1 := EvalRef(lang, a1, fuel, n.cond, id, o.w).1;
      ExecRefSame(lang, a1, a2, visited, fuel, n.body, id, w1);
      ExecOptSame(lang, a1, a2, visited, fuel, n.els, id, w1);
    }
  }

  lemma {:induction false} ExecForSame(lang: Lang, a1: Ast, a2: Ast, visited: iset<NodeId>, fuel: nat, id: NodeId,
                                       w: World)
    requires Closed(a1, a2, visited) && id in visited && id in a1.nodes && a1.nodes[id].For?
    ensures ExecNode(lang, a1, fuel, id, w) == ExecNode(lang, a2, fuel, id, w)
    decreases fuel, id, 6, 0
  {
    AtVisited(a1, a2, visited, id);
    var n := a1.nodes[id];
    ExecOptSame(lang, a1, a2, visited, fuel, n.init, id, w);
    var o := ExecOpt(lang, a1, fuel, n.init, id, w);
    if o.Running? {
      ExecLoopSame(lang, a1, a2, visited, fuel, fuel, n.test, n.post, n.body, id, o.w);
    }
  }

  lemma {:induction false} ExecLoopSame(lang: Lang, a1: Ast, a2: Ast, visited: iset<NodeId>, fuel: nat, n: nat,
                                        test: Option<Ref>, post: Option<Ref>, body: Ref, limit: nat, w: World)
    requires Closed(a1, a2, visited) && OptIn(visited, test, limit) && OptIn(visited, post, limit)
    requires In(visited, body, limit)
    ensures ExecLoop(lang, a1, fuel, n, test, post, body, limit, w)
            == ExecLoop(lang, a2, fuel, n, test, post, body, limit, w)
    decreases fuel, limit, 5, n
  {
    if n > 0 {
      if test.Some? { EvalRefSame(lang, a1, a2, visited, fuel, test.value, limit, w); }
      var w1 := if test.Some? then EvalRef(lang, a1, fuel, test.value, limit, w).1 else w;
      ExecRefSame(lang, a1, a2, visited, fuel, body, limit, w1);
      var o := ExecRef(lang, a1, fuel, body, limit, w1);
      if o.Running? || o.Continued? {
        ExecOptSame(lang, a1, a2, visited, fuel, post, limit, o.w);
        var p := ExecOpt(lang, a1, fuel, post, limit, o.w);
        if p.Running? {
          ExecLoopSame(lang, a1, a2, visited, fuel, n - 1, test, post, body, limit, p.w);
        }
      }
    }
  }

  lemma {:induction false} ExecSwitchNodeSame(lang: Lang, a1: Ast, a2: Ast, visited: iset<NodeId>, fuel: nat,
                                              id: NodeId, w: World)
    requires Closed(a1, a2, visited) && id in visited && id in a1.nodes && a1.nodes[id].Switch?
    ensures ExecNode(lang, a1, fuel, id, w) == ExecNode(lang, a2, fuel, id, w)
    decreases fuel, id, 6, 0
  {
    AtVisited(a1, a2, visited, id);
    var n := a1.nodes[id];
    ExecOptSame(lang, a1, a2, visited, fuel, n.init, id, w);
    var o := ExecOpt(lang, a1, fuel, n.init, id, w);
    if o.Running? {
      if n.tag.Some? { EvalRefSame(lang, a1, a2, visited, fuel, n.tag.value, id, o.w); }
      var (t, w1) := if n.tag.Some? then EvalRef(lang, a1, fuel, n.tag.value, id, o.w) else (Bool(true), o.w);
      ExecSwitchSame(lang, a1, a2, visited, fuel, n.body, id, t, w1);
    }
  }

  lemma {:induction false} ExecSwitchSame(lang: Lang, a1: Ast, a2: Ast, visited: iset<NodeId>, fuel: nat, body: Ref,
                                          limit: nat, tag: Value, w: World)
    requires Closed(a1, a2, visited) && In(visited, body, limit)
    ensures ExecSwitch(lang, a1, fuel, body, limit, tag, w) == ExecSwitch(lang, a2, fuel, body, limit, tag, w)
    decreases fuel, limit, 5, 0
  {
    ClausesSame(a1, a2, visited, body, limit);
    var clauses := Clauses(a1, body, limit);
    SelectSame(lang, a1, a2, visited, fuel, clauses, limit, tag, None, w);
    var (clause, w1) := SelectClause(lang, a1, fuel, clauses, limit, tag, None, w);
    ExecOptSame(lang, a1, a2, visited, fuel, clause, limit, w1);
  }

  lemma ClausesSame(a1: Ast, a2: Ast, visited: iset<NodeId>, body: Ref, limit: nat)
    requires Closed(a1, a2, visited) && In(visited, body, limit)
    ensures Clauses(a1, body, limit) == Clauses(a2, body, limit)
    ensures AllIn(visited, Clauses(a1, body, limit), limit)
  {
    AtVisited(a1, a2, visited, body.id);
  }

  lemma {:induction false} SelectSame(lang: Lang, a1: Ast, a2: Ast, visited: iset<NodeId>, fuel: nat,
                                      clauses: seq<Ref>, limit: nat, tag: Value, default: Option<Ref>, w: World)
    requires Closed(a1, a2, visited) && AllIn(visited, clauses, limit) && OptIn(visited, default, limit)
    ensures SelectClause(lang, a1, fuel, clauses, limit, tag, default, w)
            == SelectClause(lang, a2, fuel, clauses, limit, tag, default, w)
    ensures OptIn(visited, SelectClause(lang, a1, fuel, clauses, limit, tag, default, w).0, limit)
    decreases fuel, limit, 2, |clauses|
  {
    if clauses != [] {
      var r := clauses[0];
      AtVisited(a1, a2, visited, r.id);
      if !IsClause(a1, r, limit) {
        SelectSame(lang, a1, a2, visited, fuel, clauses[1..], limit, tag, default, w);
      } else {
        var exprs := ExprsOf(a1, a1.nodes[r.id].exprs);
        if exprs == [] {
          SelectSame(lang, a1, a2, visited, fuel, clauses[1..], limit, tag, Some(r), w);
        } else {
          MatchesSame(lang, a1, a2, visited, fuel, exprs, r.id, tag, w);
          SelectSame(lang, a1, a2, visited, fuel, clauses[1..], limit, tag, default,
                     Matches(lang, a1, fuel, exprs, r.id, tag, w).1);
        }
      }
    }
  }

  lemma {:induction false} MatchesSame(lang: Lang, a1: Ast, a2: Ast, visited: iset<NodeId>, fuel: nat,
                                       exprs: seq<Ref>, limit: nat, tag: Value, w: World)
    requires Closed(a1, a2, visited) && AllIn(visited, exprs, limit)
    ensures Matches(lang, a1, fuel, exprs, limit, tag, w) == Matches(lang, a2, fuel, exprs, limit, tag, w)
    decreases fuel, limit, 1, |exprs|
  {
    if exprs != [] {
      EvalRefSame(lang, a1, a2, visited, fuel, exprs[0], limit, w);
      MatchesSame(lang, a1, a2, visited, fuel, exprs[1..], limit, tag, EvalRef(lang, a1, fuel, exprs[0], limit, w).1);
    }
  }

  // ----- what the walk visits keeps to itself -----

  /** Everything the walk visits below a node. */
  ghost function Visited(ast: Ast, id: NodeId): iset<NodeId>
    requires Parsed(ast) && id in ast.nodes
  {
    iset n | n in PreOrder(ast, id)
  }

  lemma {:induction false} WalkStaysIn(ast: Ast, id: NodeId, n: NodeId)
    requires Parsed(ast) && id in ast.nodes && n in PreOrder(ast, id)
    ensures n in ast.nodes && n <= id
    ensures forall k | k in PreOrder(ast, n) :: k in PreOrder(ast, id)
    decreases id, 1, 0
  {
    if n != id {
      ParsedChildren(ast, id);
      AllWalksStayIn(ast, Children(ast, ast.nodes[id]), id, n);
    }
  }

  lemma {:induction false} AllWalksStayIn(ast: Ast, refs: seq<Ref>, bound: nat, n: NodeId)
    requires Parsed(ast) && AllOld(ast, refs, bound) && n in PreOrderOfAll(ast, refs, bound)
    ensures n in ast.nodes && n < bound
    ensures forall k | k in PreOrder(ast, n) :: k in PreOrderOfAll(ast, refs, bound)
    decreases bound, 0, |refs|
  {
    assert IsOld(ast, refs[0], bound);
    if n in PreOrder(ast, refs[0].id) {
      WalkStaysIn(ast, refs[0].id, n);
    } else {
      AllWalksStayIn(ast, refs[1..], bound, n);
    }
  }

  lemma {:induction false} ChildVisited(ast: Ast, refs: seq<Ref>, bound: nat, k: nat)
    requires Parsed(ast) && AllOld(ast, refs, bound) && k < |refs|
    ensures IsOld(ast, refs[k], bound) && refs[k].id in PreOrderOfAll(ast, refs, bound)
    decreases |refs|
  {
    assert IsOld(ast, refs[0], bound);
    if k > 0 {
      assert refs[1..][k - 1] == refs[k];
      ChildVisited(ast, refs[1..], bound, k - 1);
    }
  }

  /** The parts of a node, by number, are visited below it. */
  lemma ChildrenIn(ast: Ast, id: NodeId)
    requires Parsed(ast) && id in ast.nodes
    ensures AllIn(Visited(ast, id), Children(ast, ast.nodes[id]), id)
  {
    ParsedChildren(ast, id);
    var kids := Children(ast, ast.nodes[id]);
    forall k | 0 <= k < |kids|
      ensures In(Visited(ast, id), kids[k], id)
    {
      ChildVisited(ast, kids, id, k);
    }
  }

  lemma ListPart(visited: iset<NodeId>, all: seq<Ref>, part: seq<Ref>, from: nat, bound: nat)
    requires AllIn(visited, all, bound) && from + |part| <= |all|
    requires all[from..from + |part|] == part
    ensures AllIn(visited, part, bound)
  {
    forall k | 0 <= k < |part|
      ensures In(visited, part[k], bound)
    {
      assert part[k] == all[from + k];
    }
  }

  lemma OwnPartsIn(ast: Ast, id: NodeId)
    requires Parsed(ast) && id in ast.nodes
    ensures PartsIn(ast, Visited(ast, id), id)
  {
    ChildrenIn(ast, id);
    var visited, kids := Visited(ast, id), Children(ast, ast.nodes[id]);
    match ast.nodes[id]
    case Selector(x, sel) => assert kids[0] == x && kids[1] == sel;
    case Not(x) => assert kids[0] == x;
    case Paren(x) => assert kids[0] == x;
    case Binary(_, x, y) => assert kids[0] == x && kids[1] == y;
    case Call(fun, args) =>
      assert kids[0] == fun;
      ListPart(visited, kids, ExprsOf(ast, args), 1, id);
    case ExprStmt(x) => assert kids[0] == x;
    case IncDec(x, _) => assert kids[0] == x;
    case Assign(lhs, _, rhs) =>
      ListPart(visited, kids, ExprsOf(ast, lhs), 0, id);
      ListPart(visited, kids, ExprsOf(ast, rhs), |ExprsOf(ast, lhs)|, id);
    case If(init, cond, body, els) => IfPartsIn(ast, id);
    case Switch(init, tag, body) => SwitchPartsIn(ast, id);
    case Case(exprs, stmts) =>
      ListPart(visited, kids, ExprsOf(ast, exprs), 0, id);
      ListPart(visited, kids, StmtsOf(ast, stmts), |ExprsOf(ast, exprs)|, id);
    case For(init, test, post, body) => ForPartsIn(ast, id);
    case FuncDecl(ident, params, body) =>
      assert kids[0] == ident && kids[|params| + 1] == body;
      ListPart(visited, kids, params, 1, id);
    case _ =>
  }

  lemma IfPartsIn(ast: Ast, id: NodeId)
    requires Parsed(ast) && id in ast.nodes && ast.nodes[id].If?
    ensures PartsIn(ast, Visited(ast, id), id)
  {
    ChildrenIn(ast, id);
    var n, kids := ast.nodes[id], Children(ast, ast.nodes[id]);
    var k := |Opt(n.init)|;
    assert n.init.Some? ==> kids[0] == n.init.value;
    assert kids[k] == n.cond && kids[k + 1] == n.body;
    assert n.els.Some? ==> kids[k + 2] == n.els.value;
  }

  lemma SwitchPartsIn(ast: Ast, id: NodeId)
    requires Parsed(ast) && id in ast.nodes && ast.nodes[id].Switch?
    ensures PartsIn(ast, Visited(ast, id), id)
  {
    ChildrenIn(ast, id);
    var n, kids := ast.nodes[id], Children(ast, ast.nodes[id]);
    var k := |Opt(n.init)|;
    assert n.init.Some? ==> kids[0] == n.init.value;
    assert n.tag.Some? ==> kids[k] == n.tag.value;
    assert kids[k + |Opt(n.tag)|] == n.body;
  }

  lemma ForPartsIn(ast: Ast, id: NodeId)
    requires Parsed(ast) && id in ast.nodes && ast.nodes[id].For?
    ensures PartsIn(ast, Visited(ast, id), id)
  {
    ChildrenIn(ast, id);
    var n, kids := ast.nodes[id], Children(ast, ast.nodes[id]);
    var j := |Opt(n.init)|;
    var k := j + |Opt(n.test)|;
    assert n.init.Some? ==> kids[0] == n.init.value;
    assert n.test.Some? ==> kids[j] == n.test.value;
    assert n.post.Some? ==> kids[k] == n.post.value;
    assert kids[k + |Opt(n.post)|] == n.body;
  }

  lemma PartsInMore(ast: Ast, few: iset<NodeId>, many: iset<NodeId>, id: NodeId)
    requires id in ast.nodes && PartsIn(ast, few, id) && few <= many
    ensures PartsIn(ast, many, id)
  {
  }

  // ----- the result -----

  /** What the walk visits below the node and below every declared function. */
  ghost function VisitedFrom(ast: Ast, id: NodeId): iset<NodeId>
    requires Parsed(ast) && id in ast.nodes
  {
    iset n | Reached(ast, id, n)
  }

  ghost predicate Reached(ast: Ast, id: NodeId, n: NodeId)
    requires Parsed(ast) && id in ast.nodes
  {
    exists top :: ReachedFrom(ast, id, top, n)
  }

  ghost predicate ReachedFrom(ast: Ast, id: NodeId, top: NodeId, n: NodeId)
    requires Parsed(ast) && id in ast.nodes
  {
    (top == id || Declares(ast, top)) && n in PreOrder(ast, top)
  }

  lemma VisitedCloses(a1: Ast, a2: Ast, id: NodeId)
    requires Parsed(a1) && id in a1.nodes && SameWalk(a1, a2, id) && SameDeclarations(a1, a2)
    ensures Closed(a1, a2, VisitedFrom(a1, id)) && id in VisitedFrom(a1, id)
  {
    var visited := VisitedFrom(a1, id);
    forall n | n in visited
      ensures ClosedAt(a1, a2, visited, n)
    {
      assert Reached(a1, id, n);
      var top :| ReachedFrom(a1, id, top, n);
      VisitedAt(a1, a2, id, top, n);
    }
    assert PreOrder(a1, id)[0] == id;
    assert ReachedFrom(a1, id, id, id);
    forall d | Declares(a1, d)
      ensures d in visited
    {
      assert PreOrder(a1, d)[0] == d;
      assert ReachedFrom(a1, id, d, d);
    }
  }

  lemma VisitedAt(a1: Ast, a2: Ast, id: NodeId, top: NodeId, n: NodeId)
    requires Parsed(a1) && id in a1.nodes && (top == id || Declares(a1, top)) && ReachedFrom(a1, id, top, n)
    requires SameWalk(a1, a2, top)
    ensures ClosedAt(a1, a2, VisitedFrom(a1, id), n)
  {
    WalkStaysIn(a1, top, n);
    OwnPartsIn(a1, n);
    forall k | k in Visited(a1, n)
      ensures k in VisitedFrom(a1, id)
    {
      assert ReachedFrom(a1, id, top, k);
    }
    PartsInMore(a1, Visited(a1, n), VisitedFrom(a1, id), n);
    assert SameAt(a1, a2, n);
  }

  /** If two stores hold the same nodes, with the same lists, wherever the walk goes below a node and below the
      declared functions, then the node has the same value and effects in both, and runs and is assigned to alike. */
  lemma WalkedIsAllThatRuns(lang: Lang, a1: Ast, a2: Ast, fuel: nat, id: NodeId, v: Value, w: World)
    requires Parsed(a1) && id in a1.nodes && SameWalk(a1, a2, id) && SameDeclarations(a1, a2)
    ensures EvalNode(lang, a1, fuel, id, w) == EvalNode(lang, a2, fuel, id, w)
    ensures ExecNode(lang, a1, fuel, id, w) == ExecNode(lang, a2, fuel, id, w)
    ensures AssignNode(lang, a1, fuel, id, v, w) == AssignNode(lang, a2, fuel, id, v, w)
  {
    VisitedCloses(a1, a2, id);
    EvalNodeSame(lang, a1, a2, VisitedFrom(a1, id), fuel, id, w);
    ExecNodeSame(lang, a1, a2, VisitedFrom(a1, id), fuel, id, w);
    AssignNodeSame(lang, a1, a2, VisitedFrom(a1, id), fuel, id, v, w);
  }

  /** So the calls of a declared function, with whatever arguments, are settled by the walks of the declarations. */
  lemma WalkedIsAllThatIsCalled(lang: Lang, a1: Ast, a2: Ast, fuel: nat, id: NodeId, bound: seq<Value>,
                                args: seq<Value>, w: World)
    requires Parsed(a1) && Declares(a1, id) && SameDeclarations(a1, a2)
    ensures CallValue(lang, a1, fuel, Fun(id, bound), args, w) == CallValue(lang, a2, fuel, Fun(id, bound), args, w)
  {
    VisitedCloses(a1, a2, id);
    CallSame(lang, a1, a2, VisitedFrom(a1, id), fuel, Fun(id, bound), args, w);
  }
}
