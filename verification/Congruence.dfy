/** Two stores that differ only where one of them holds a neutral operand or a statement without effect behave alike,
    in every expression and statement of the program. */
module Congruence {
  import opened Options
  import opened GoAst
  import opened Noops
  import opened Semantics

  // ----- terms without effect -----

  predicate Harmless(ast: Ast, tree: Fresh) {
    match tree
    case FIdent(_) => true
    case FComposite(_) => true
    case FShared(id) => Rooted(ast, Old(id), id + 1)
    case _ => false
  }

  /** The empty statement, or an assignment of harmless terms to the blank identifier. */
  predicate NoEffect(ast: Ast, r: Ref) {
    r.New? &&
    match r.tree
    case FEmpty => true
    case FAssign(lhs, rhs) =>
      (forall k | 0 <= k < |lhs| :: lhs[k] == FIdent("_")) && (forall x | x in rhs :: Harmless(ast, x))
    case _ => false
  }

  lemma {:induction false} RootedIsPure(lang: Lang, ast: Ast, fuel: nat, id: NodeId, w: World)
    requires Rooted(ast, Old(id), id + 1)
    ensures EvalNode(lang, ast, fuel, id, w).1 == w
    decreases id
  {
    match ast.nodes[id]
    case Selector(x, _) =>
      RootedAt(ast, x, id);
      RootedIsPure(lang, ast, fuel, x.id, w);
    case _ =>
  }

  lemma RootedAt(ast: Ast, r: Ref, bound: nat)
    requires Rooted(ast, r, bound)
    ensures r.Old? && r.id < bound && Rooted(ast, r, r.id + 1)
  {
  }

  lemma {:induction false} HarmlessListIsPure(lang: Lang, ast: Ast, fuel: nat, trees: seq<Fresh>, limit: nat, w: World)
    requires forall x | x in trees :: Harmless(ast, x)
    ensures EvalFreshList(lang, ast, fuel, trees, limit, w).1 == w
    decreases |trees|
  {
    if trees != [] {
      assert Harmless(ast, trees[0]);
      if trees[0].FShared? && trees[0].id < limit {
        RootedIsPure(lang, ast, fuel, trees[0].id, w);
      }
      HarmlessListIsPure(lang, ast, fuel, trees[1..], limit, w);
    }
  }

  lemma {:induction false} BlanksAreLost(lang: Lang, ast: Ast, fuel: nat, targets: seq<Ref>, limit: nat,
                                         vs: seq<Value>, w: World)
    requires forall k | 0 <= k < |targets| :: targets[k] == New(FIdent("_"))
    ensures AssignAll(lang, ast, fuel, targets, limit, vs, w) == w
    decreases |targets|
  {
    if targets != [] && vs != [] {
      BlanksAreLost(lang, ast, fuel, targets[1..], limit, vs[1..], w);
    }
  }

  lemma NoEffectRuns(lang: Lang, ast: Ast, fuel: nat, r: Ref, limit: nat, w: World)
    requires NoEffect(ast, r)
    ensures ExecRef(lang, ast, fuel, r, limit, w) == Running(w)
  {
    match r.tree
    case FAssign(lhs, rhs) =>
      HarmlessListIsPure(lang, ast, fuel, rhs, limit, w);
      BlanksAreLost(lang, ast, fuel, AsRefs(lhs), limit, EvalFreshList(lang, ast, fuel, rhs, limit, w).0, w);
    case _ =>
  }

  // ----- stores that behave alike -----

  /** `l2` is `l1` without some of its statements that have no effect. */
  predicate Thinned(a1: Ast, l1: seq<Ref>, l2: seq<Ref>) {
    l1 == l2
    || (l1 != [] && NoEffect(a1, l1[0]) && Thinned(a1, l1[1..], l2))
    || (l1 != [] && l2 != [] && l1[0] == l2[0] && Thinned(a1, l1[1..], l2[1..]))
  }

  predicate NeutralOperand(n1: Node, n2: Node) {
    n1.Binary? && n2.Paren? && n1.op in {LAnd, LOr} &&
    var neutral := New(FIdent(if n1.op == LAnd then "true" else "false"));
    || (n1.x == neutral && n1.y == n2.x)
    || (n1.y == neutral && n1.x == n2.x)
  }

  /** The only argument is the literal 0, in the one store as a fresh term, in the other as a node. */
  predicate ZeroArgument(a2: Ast, id: NodeId, n1: Node, n2: Node) {
    n1.Call? && n2.Call? && n1.fun == n2.fun && n1.args == Built([New(FZero)]) &&
    n2.args.Built? && |n2.args.elems| == 1 &&
    var r := n2.args.elems[0];
    r.Old? && r.id < id && r.id in a2.nodes && a2.nodes[r.id] == BasicLit(0)
  }

  predicate SameNode(a1: Ast, a2: Ast, id: NodeId) {
    id in a1.nodes && id in a2.nodes &&
    var n1, n2 := a1.nodes[id], a2.nodes[id];
    || n1 == n2
    || NeutralOperand(n1, n2)
    || ZeroArgument(a2, id, n1, n2)
    || (n1.Block? && n2.Block? && n1.list.Built? && n2.list.Built? && Thinned(a1, n1.list.elems, n2.list.elems))
    || (n1.Case? && n2.Case? && n1.exprs == n2.exprs && n1.stmts.Built? && n2.stmts.Built?
        && Thinned(a1, n1.stmts.elems, n2.stmts.elems))
    || (n1.If? && n2 == n1.(els := None) && n1.els.Some? && NoEffect(a1, n1.els.value))
  }

  ghost predicate Alike(a1: Ast, a2: Ast) {
    && a1.exprs == a2.exprs
    && a1.nodes.Keys == a2.nodes.Keys
    && a1.stmts.Keys == a2.stmts.Keys
    && (forall id {:trigger SameNode(a1, a2, id)} | id in a1.nodes :: SameNode(a1, a2, id))
    && (forall k {:trigger a1.stmts[k]} | k in a1.stmts :: Thinned(a1, a1.stmts[k], a2.stmts[k]))
  }

  lemma AlikeAt(a1: Ast, a2: Ast, id: NodeId)
    requires Alike(a1, a2) && id in a1.nodes
    ensures SameNode(a1, a2, id)
  {
    assert SameNode(a1, a2, id);
  }

  /** Nodes of most kinds are equal. */
  predicate MayDiffer(n: Node) {
    n.Binary? || n.Call? || n.Block? || n.Case? || n.If?
  }

  lemma EqualAt(a1: Ast, a2: Ast, id: NodeId)
    requires Alike(a1, a2)
    ensures id in a1.nodes <==> id in a2.nodes
    ensures id in a1.nodes && !MayDiffer(a1.nodes[id]) ==> a2.nodes[id] == a1.nodes[id]
  {
    if id in a1.nodes {
      AlikeAt(a1, a2, id);
    }
  }

  lemma SameKind(a1: Ast, a2: Ast, id: NodeId)
    requires Alike(a1, a2) && id in a1.nodes
    ensures id in a2.nodes && (a1.nodes[id].Ident? <==> a2.nodes[id].Ident?)
    ensures a1.nodes[id].FuncDecl? <==> a2.nodes[id].FuncDecl?
    ensures a1.nodes[id].Block? <==> a2.nodes[id].Block?
    ensures a1.nodes[id].Case? <==> a2.nodes[id].Case?
  {
    AlikeAt(a1, a2, id);
  }

  // ----- expressions -----

  lemma {:induction false} EvalNodeAlike(lang: Lang, a1: Ast, a2: Ast, fuel: nat, id: NodeId, w: World)
    requires Alike(a1, a2)
    ensures EvalNode(lang, a1, fuel, id, w) == EvalNode(lang, a2, fuel, id, w)
    decreases fuel, id, 3, 0
  {
    EqualAt(a1, a2, id);
    if id in a1.nodes {
      match a1.nodes[id]
      case Binary(_, _, _) => EvalBinaryAlike(lang, a1, a2, fuel, id, w);
      case Call(_, _) => EvalCallAlike(lang, a1, a2, fuel, id, w);
      case Selector(x, sel) =>
        EvalRefAlike(lang, a1, a2, fuel, x, id, w);
        NameAlike(a1, a2, sel);
      case Not(x) => EvalRefAlike(lang, a1, a2, fuel, x, id, w);
      case Paren(x) => EvalRefAlike(lang, a1, a2, fuel, x, id, w);
      case Other(kids) => EvalListAlike(lang, a1, a2, fuel, kids, id, w);
      case _ => StatementIsNil(lang, a1, a2, fuel, id, w);
    }
  }

  predicate IsExpr(n: Node) {
    n.Ident? || n.BasicLit? || n.Selector? || n.Not? || n.Paren? || n.Binary? || n.Call? || n.Other?
  }

  lemma StatementIsNil(lang: Lang, a1: Ast, a2: Ast, fuel: nat, id: NodeId, w: World)
    requires Alike(a1, a2) && id in a1.nodes && (MayDiffer(a1.nodes[id]) ==> !IsExpr(a1.nodes[id]))
    requires !a1.nodes[id].Selector? && !a1.nodes[id].Not? && !a1.nodes[id].Paren? && !a1.nodes[id].Other?
    ensures EvalNode(lang, a1, fuel, id, w) == EvalNode(lang, a2, fuel, id, w)
  {
    AlikeAt(a1, a2, id);
  }

  lemma {:induction false} EvalCallAlike(lang: Lang, a1: Ast, a2: Ast, fuel: nat, id: NodeId, w: World)
    requires Alike(a1, a2) && id in a1.nodes && a1.nodes[id].Call?
    ensures EvalNode(lang, a1, fuel, id, w) == EvalNode(lang, a2, fuel, id, w)
    decreases fuel, id, 2, 2
  {
    var fun, args := a1.nodes[id].fun, a1.nodes[id].args;
    AlikeAt(a1, a2, id);
    EvalRefAlike(lang, a1, a2, fuel, fun, id, w);
    var (f, w1) := EvalRef(lang, a1, fuel, fun, id, w);
    ArgumentsAlike(lang, a1, a2, fuel, id, w1);
    var (vs, w2) := EvalList(lang, a1, fuel, ExprsOf(a1, args), id, w1);
    CallAlike(lang, a1, a2, fuel, f, vs, w2.(trace := w2.trace + [Called(f, vs)]));
  }

  lemma ArgumentsAlike(lang: Lang, a1: Ast, a2: Ast, fuel: nat, id: NodeId, w: World)
    requires Alike(a1, a2) && SameNode(a1, a2, id) && a1.nodes[id].Call?
    ensures a2.nodes[id].Call? && a2.nodes[id].fun == a1.nodes[id].fun
    ensures EvalList(lang, a1, fuel, ExprsOf(a1, a1.nodes[id].args), id, w)
            == EvalList(lang, a2, fuel, ExprsOf(a2, a2.nodes[id].args), id, w)
    decreases fuel, id, 2, 0
  {
    var l1, l2 := ExprsOf(a1, a1.nodes[id].args), ExprsOf(a2, a2.nodes[id].args);
    if a1.nodes[id] == a2.nodes[id] {
      EvalListAlike(lang, a1, a2, fuel, l1, id, w);
    } else {
      OneZero(lang, a1, fuel, l1[0], id, w);
      OneZero(lang, a2, fuel, l2[0], id, w);
      assert l1 == [l1[0]] && l2 == [l2[0]];
    }
  }

  lemma OneZero(lang: Lang, ast: Ast, fuel: nat, r: Ref, limit: nat, w: World)
    requires r == New(FZero) || (r.Old? && r.id < limit && r.id in ast.nodes && ast.nodes[r.id] == BasicLit(0))
    ensures EvalList(lang, ast, fuel, [r], limit, w) == ([Int(0)], w)
  {
    assert EvalRef(lang, ast, fuel, r, limit, w) == (Int(0), w) by {
      if r.New? {
        assert EvalFresh(lang, ast, fuel, FZero, limit, w) == (Int(0), w);
      } else {
        assert EvalNode(lang, ast, fuel, r.id, w) == (Int(0), w);
      }
    }
    assert [r][1..] == [];
    assert EvalList(lang, ast, fuel, [], limit, w) == ([], w);
    assert [Int(0)] + [] == [Int(0)];
  }

  lemma EvalBinaryAlike(lang: Lang, a1: Ast, a2: Ast, fuel: nat, id: NodeId, w: World)
    requires Alike(a1, a2) && id in a1.nodes && a1.nodes[id].Binary?
    ensures EvalNode(lang, a1, fuel, id, w) == EvalNode(lang, a2, fuel, id, w)
    decreases fuel, id, 1, 0
  {
    var n := a1.nodes[id];
    AlikeAt(a1, a2, id);
    EvalRefAlike(lang, a1, a2, fuel, n.x, id, w);
    EvalRefAlike(lang, a1, a2, fuel, n.y, id, w);
    EvalRefAlike(lang, a1, a2, fuel, n.y, id, EvalRef(lang, a1, fuel, n.x, id, w).1);
  }

  /** A call of a declared function runs alike in both stores, wherever in them the difference lies. */
  lemma {:induction false} CallAlike(lang: Lang, a1: Ast, a2: Ast, fuel: nat, f: Value, args: seq<Value>, w: World)
    requires Alike(a1, a2)
    ensures CallValue(lang, a1, fuel, f, args, w) == CallValue(lang, a2, fuel, f, args, w)
    decreases fuel, 0, 0, 0
  {
    if f.Fun? && f.decl in a1.nodes {
      EqualAt(a1, a2, f.decl);
      SameKind(a1, a2, f.decl);
      if a1.nodes[f.decl].FuncDecl? && fuel > 0 {
        var decl := a1.nodes[f.decl];
        BindAlike(a1, a2, decl.params, f.bound + args);
        var start := w.(vars := Bind(a1, decl.params, f.bound + args));
        ExecRefAlike(lang, a1, a2, fuel - 1, decl.body, f.decl, start);
      }
    }
  }

  lemma {:induction false} BindAlike(a1: Ast, a2: Ast, params: seq<Ref>, args: seq<Value>)
    requires Alike(a1, a2)
    ensures Bind(a1, params, args) == Bind(a2, params, args)
    decreases |params|
  {
    if params != [] && args != [] {
      NameAlike(a1, a2, params[0]);
      BindAlike(a1, a2, params[1..], args[1..]);
    }
  }

  lemma {:induction false} DeclaredAlike(a1: Ast, a2: Ast, lhs: seq<Ref>, w: World)
    requires Alike(a1, a2)
    ensures Declared(a1, lhs, w) == Declared(a2, lhs, w)
    decreases |lhs|
  {
    if lhs != [] {
      NameAlike(a1, a2, lhs[0]);
      var name := NameOf(a1, lhs[0]);
      DeclaredAlike(a1, a2, lhs[1..], if name in w.vars then w else w.(vars := w.vars[name := Nil]));
    }
  }

  lemma NameAlike(a1: Ast, a2: Ast, r: Ref)
    requires Alike(a1, a2)
    ensures NameOf(a1, r) == NameOf(a2, r)
  {
    if r.Old? && r.id in a1.nodes {
      EqualAt(a1, a2, r.id);
      SameKind(a1, a2, r.id);
    }
  }

  lemma {:induction false} EvalRefAlike(lang: Lang, a1: Ast, a2: Ast, fuel: nat, r: Ref, limit: nat, w: World)
    requires Alike(a1, a2)
    ensures EvalRef(lang, a1, fuel, r, limit, w) == EvalRef(lang, a2, fuel, r, limit, w)
    decreases fuel, limit, 0, 1
  {
    match r
    case Old(id) => if id < limit { EvalNodeAlike(lang, a1, a2, fuel, id, w); }
    case New(tree) => EvalFreshAlike(lang, a1, a2, fuel, tree, limit, w);
  }

  lemma {:induction false} EvalFreshAlike(lang: Lang, a1: Ast, a2: Ast, fuel: nat, tree: Fresh, limit: nat, w: World)
    requires Alike(a1, a2)
    ensures EvalFresh(lang, a1, fuel, tree, limit, w) == EvalFresh(lang, a2, fuel, tree, limit, w)
    decreases fuel, limit, 0, 0
  {
    if tree.FShared? && tree.id < limit {
      EvalNodeAlike(lang, a1, a2, fuel, tree.id, w);
    }
  }

  lemma {:induction false} EvalListAlike(lang: Lang, a1: Ast, a2: Ast, fuel: nat, refs: seq<Ref>, limit: nat, w: World)
    requires Alike(a1, a2)
    ensures EvalList(lang, a1, fuel, refs, limit, w) == EvalList(lang, a2, fuel, refs, limit, w)
    decreases fuel, limit, 1, |refs|
  {
    if refs != [] {
      EvalRefAlike(lang, a1, a2, fuel, refs[0], limit, w);
      EvalListAlike(lang, a1, a2, fuel, refs[1..], limit, EvalRef(lang, a1, fuel, refs[0], limit, w).1);
    }
  }

  lemma {:induction false} EvalFreshListAlike(lang: Lang, a1: Ast, a2: Ast, fuel: nat, trees: seq<Fresh>, limit: nat,
                                              w: World)
    requires Alike(a1, a2)
    ensures EvalFreshList(lang, a1, fuel, trees, limit, w) == EvalFreshList(lang, a2, fuel, trees, limit, w)
    decreases fuel, limit, 1, |trees|
  {
    if trees != [] {
      EvalFreshAlike(lang, a1, a2, fuel, trees[0], limit, w);
      EvalFreshListAlike(lang, a1, a2, fuel, trees[1..], limit, EvalFresh(lang, a1, fuel, trees[0], limit, w).1);
    }
  }

  // ----- assignment -----

  lemma AssignNodeAlike(lang: Lang, a1: Ast, a2: Ast, fuel: nat, id: NodeId, v: Value, w: World)
    requires Alike(a1, a2)
    ensures AssignNode(lang, a1, fuel, id, v, w) == AssignNode(lang, a2, fuel, id, v, w)
    decreases fuel, id, 2, 1
  {
    EqualAt(a1, a2, id);
    if id in a1.nodes {
      match a1.nodes[id]
      case Selector(x, sel) =>
        EvalRefAlike(lang, a1, a2, fuel, x, id, w);
        NameAlike(a1, a2, sel);
      case Other(kids) => EvalListAlike(lang, a1, a2, fuel, kids, id, w);
      case _ => NotAssignable(lang, a1, a2, fuel, id, v, w);
    }
  }

  lemma NotAssignable(lang: Lang, a1: Ast, a2: Ast, fuel: nat, id: NodeId, v: Value, w: World)
    requires Alike(a1, a2) && id in a1.nodes && !a1.nodes[id].Selector? && !a1.nodes[id].Other?
    ensures AssignNode(lang, a1, fuel, id, v, w) == AssignNode(lang, a2, fuel, id, v, w)
  {
    AlikeAt(a1, a2, id);
  }

  lemma AssignRefAlike(lang: Lang, a1: Ast, a2: Ast, fuel: nat, r: Ref, limit: nat, v: Value, w: World)
    requires Alike(a1, a2)
    ensures AssignRef(lang, a1, fuel, r, limit, v, w) == AssignRef(lang, a2, fuel, r, limit, v, w)
    decreases fuel, limit, 0, 2
  {
    match r
    case Old(id) => if id < limit { AssignNodeAlike(lang, a1, a2, fuel, id, v, w); }
    case New(FShared(id)) => if id < limit { AssignNodeAlike(lang, a1, a2, fuel, id, v, w); }
    case _ =>
  }

  lemma {:induction false} AssignAllAlike(lang: Lang, a1: Ast, a2: Ast, fuel: nat, targets: seq<Ref>, limit: nat,
                                          vs: seq<Value>,
                                          w: World)
    requires Alike(a1, a2)
    ensures AssignAll(lang, a1, fuel, targets, limit, vs, w) == AssignAll(lang, a2, fuel, targets, limit, vs, w)
    decreases fuel, limit, 1, |targets|
  {
    if targets != [] && vs != [] {
      AssignRefAlike(lang, a1, a2, fuel, targets[0], limit, vs[0], w);
      var w1 := AssignRef(lang, a1, fuel, targets[0], limit, vs[0], w);
      AssignAllAlike(lang, a1, a2, fuel, targets[1..], limit, vs[1..], w1);
    }
  }

  lemma ExecAssignAlike(lang: Lang, a1: Ast, a2: Ast, fuel: nat, lhs: seq<Ref>, tok: AssignTok, rhs: seq<Ref>,
                        limit: nat,
                        w: World)
    requires Alike(a1, a2)
    ensures ExecAssign(lang, a1, fuel, lhs, tok, rhs, limit, w) == ExecAssign(lang, a2, fuel, lhs, tok, rhs, limit, w)
    decreases fuel, limit, 2, 0
  {
    match tok
    case Compound(op) =>
      if lhs != [] && rhs != [] {
        EvalRefAlike(lang, a1, a2, fuel, lhs[0], limit, w);
        var (v, w1) := EvalRef(lang, a1, fuel, lhs[0], limit, w);
        EvalRefAlike(lang, a1, a2, fuel, rhs[0], limit, w1);
        var (u, w2) := EvalRef(lang, a1, fuel, rhs[0], limit, w1);
        AssignRefAlike(lang, a1, a2, fuel, lhs[0], limit, lang.operate(op, v, u), w2);
      }
    case _ =>
      EvalListAlike(lang, a1, a2, fuel, rhs, limit, w);
      var (vs, w1) := EvalList(lang, a1, fuel, rhs, limit, w);
      DeclaredAlike(a1, a2, lhs, w1);
      AssignAllAlike(lang, a1, a2, fuel, lhs, limit, Spread(vs), if tok.Define? then Declared(a1, lhs, w1) else w1);
  }

  // ----- statements -----

  lemma ExecFreshAlike(lang: Lang, a1: Ast, a2: Ast, fuel: nat, tree: Fresh, limit: nat, w: World)
    requires Alike(a1, a2)
    ensures ExecFresh(lang, a1, fuel, tree, limit, w) == ExecFresh(lang, a2, fuel, tree, limit, w)
    decreases fuel, limit, 2, 0
  {
    match tree
    case FAssign(lhs, rhs) =>
      EvalFreshListAlike(lang, a1, a2, fuel, rhs, limit, w);
      var (vs, w1) := EvalFreshList(lang, a1, fuel, rhs, limit, w);
      AssignAllAlike(lang, a1, a2, fuel, AsRefs(lhs), limit, vs, w1);
    case _ =>
  }

  lemma {:induction false} ExecRefAlike(lang: Lang, a1: Ast, a2: Ast, fuel: nat, r: Ref, limit: nat, w: World)
    requires Alike(a1, a2)
    ensures ExecRef(lang, a1, fuel, r, limit, w) == ExecRef(lang, a2, fuel, r, limit, w)
    decreases fuel, limit, 3, 0
  {
    match r
    case Old(id) => if id < limit { ExecNodeAlike(lang, a1, a2, fuel, id, w); }
    case New(tree) => ExecFreshAlike(lang, a1, a2, fuel, tree, limit, w);
  }

  lemma {:induction false} ExecOptAlike(lang: Lang, a1: Ast, a2: Ast, fuel: nat, r: Option<Ref>, limit: nat, w: World)
    requires Alike(a1, a2)
    ensures ExecOpt(lang, a1, fuel, r, limit, w) == ExecOpt(lang, a2, fuel, r, limit, w)
    decreases fuel, limit, 4, 0
  {
    if r.Some? {
      ExecRefAlike(lang, a1, a2, fuel, r.value, limit, w);
    }
  }

  lemma {:induction false} ExecListAlike(lang: Lang, a1: Ast, a2: Ast, fuel: nat, l1: seq<Ref>, l2: seq<Ref>,
                                         limit: nat, w: World)
    requires Alike(a1, a2) && Thinned(a1, l1, l2)
    ensures ExecList(lang, a1, fuel, l1, limit, w) == ExecList(lang, a2, fuel, l2, limit, w)
    decreases fuel, limit, 4, |l1|
  {
    if l1 != [] {
      if l1 != l2 && NoEffect(a1, l1[0]) && Thinned(a1, l1[1..], l2) {
        NoEffectRuns(lang, a1, fuel, l1[0], limit, w);
        ExecListAlike(lang, a1, a2, fuel, l1[1..], l2, limit, w);
      } else {
        ExecRefAlike(lang, a1, a2, fuel, l1[0], limit, w);
        var o := ExecRef(lang, a1, fuel, l1[0], limit, w);
        if o.Running? {
          ExecListAlike(lang, a1, a2, fuel, l1[1..], l2[1..], limit, o.w);
        }
      }
    }
  }

  /** The statements of two lists of alike stores. */
  lemma StmtsAlike(a1: Ast, a2: Ast, l: List)
    requires Alike(a1, a2)
    ensures Thinned(a1, StmtsOf(a1, l), StmtsOf(a2, l))
  {
    if l.Shared? && l.backing in a1.stmts {
      assert Thinned(a1, a1.stmts[l.backing], a2.stmts[l.backing]);
    }
  }

  lemma BodiesAlike(a1: Ast, a2: Ast, id: NodeId)
    requires Alike(a1, a2) && id in a1.nodes
    ensures a1.nodes[id].Block? ==>
              && id in a2.nodes && a2.nodes[id].Block?
              && Thinned(a1, StmtsOf(a1, a1.nodes[id].list), StmtsOf(a2, a2.nodes[id].list))
    ensures a1.nodes[id].Case? ==>
              && id in a2.nodes && a2.nodes[id].Case? && a2.nodes[id].exprs == a1.nodes[id].exprs
              && Thinned(a1, StmtsOf(a1, a1.nodes[id].stmts), StmtsOf(a2, a2.nodes[id].stmts))
  {
    AlikeAt(a1, a2, id);
    match a1.nodes[id]
    case Block(list) => StmtsAlike(a1, a2, list);
    case Case(_, list) => StmtsAlike(a1, a2, list);
    case _ =>
  }

  lemma {:induction false} ExecNodeAlike(lang: Lang, a1: Ast, a2: Ast, fuel: nat, id: NodeId, w: World)
    requires Alike(a1, a2)
    ensures ExecNode(lang, a1, fuel, id, w) == ExecNode(lang, a2, fuel, id, w)
    decreases fuel, id, 7, 0
  {
    EqualAt(a1, a2, id);
    if id in a1.nodes {
      match a1.nodes[id]
      case ExprStmt(x) => EvalRefAlike(lang, a1, a2, fuel, x, id, w);
      case IncDec(x, increment) =>
        EvalRefAlike(lang, a1, a2, fuel, x, id, w);
        var (v, w1) := EvalRef(lang, a1, fuel, x, id, w);
        AssignRefAlike(lang, a1, a2, fuel, x, id, lang.operate(if increment then "++" else "--", v, Int(1)), w1);
      case Assign(lhs, tok, rhs) =>
        ExecAssignAlike(lang, a1, a2, fuel, ExprsOf(a1, lhs), tok, ExprsOf(a1, rhs), id, w);
      case Block(_) => ExecBodyAlike(lang, a1, a2, fuel, id, w);
      case Case(_, _) => ExecBodyAlike(lang, a1, a2, fuel, id, w);
      case If(_, _, _, _) => ExecIfAlike(lang, a1, a2, fuel, id, w);
      case Switch(_, _, _) => ExecSwitchNodeAlike(lang, a1, a2, fuel, id, w);
      case For(_, _, _, _) => ExecForAlike(lang, a1, a2, fuel, id, w);
      case Return(results) => EvalListAlike(lang, a1, a2, fuel, ExprsOf(a1, results), id, w);
      case Other(kids) => ExecListAlike(lang, a1, a2, fuel, kids, kids, id, w);
      case FuncDecl(ident, _, _) => NameAlike(a1, a2, ident);
      case Break =>
      case Continue =>
      case _ => EvaluatedAlike(lang, a1, a2, fuel, id, w);
    }
  }

  /** An expression in the place of a statement. */
  lemma {:induction false} EvaluatedAlike(lang: Lang, a1: Ast, a2: Ast, fuel: nat, id: NodeId, w: World)
    requires Alike(a1, a2) && id in a1.nodes && (IsExpr(a1.nodes[id]) || a1.nodes[id].Empty?) && !a1.nodes[id].Other?
    ensures ExecNode(lang, a1, fuel, id, w) == ExecNode(lang, a2, fuel, id, w)
    decreases fuel, id, 6, 0
  {
    AlikeAt(a1, a2, id);
    EvalNodeAlike(lang, a1, a2, fuel, id, w);
  }

  lemma {:induction false} ExecBodyAlike(lang: Lang, a1: Ast, a2: Ast, fuel: nat, id: NodeId, w: World)
    requires Alike(a1, a2) && id in a1.nodes && (a1.nodes[id].Block? || a1.nodes[id].Case?)
    ensures ExecNode(lang, a1, fuel, id, w) == ExecNode(lang, a2, fuel, id, w)
    decreases fuel, id, 6, 0
  {
    BodiesAlike(a1, a2, id);
    if a1.nodes[id].Block? {
      ExecListAlike(lang, a1, a2, fuel, StmtsOf(a1, a1.nodes[id].list), StmtsOf(a2, a2.nodes[id].list), id, w);
    } else {
      ExecListAlike(lang, a1, a2, fuel, StmtsOf(a1, a1.nodes[id].stmts), StmtsOf(a2, a2.nodes[id].stmts), id, w);
    }
  }

  lemma {:induction false} ExecIfAlike(lang: Lang, a1: Ast, a2: Ast, fuel: nat, id: NodeId, w: World)
    requires Alike(a1, a2) && id in a1.nodes && a1.nodes[id].If?
    ensures ExecNode(lang, a1, fuel, id, w) == ExecNode(lang, a2, fuel, id, w)
    decreases fuel, id, 6, 0
  {
    AlikeAt(a1, a2, id);
    var n := a1.nodes[id];
    ExecOptAlike(lang, a1, a2, fuel, n.init, id, w);
    var o := ExecOpt(lang, a1, fuel, n.init, id, w);
    if o.Running? {
      EvalRefAlike(lang, a1, a2, fuel, n.cond, id, o.w);
      var w1 := EvalRef(lang, a1, fuel, n.cond, id, o.w).1;
      ExecRefAlike(lang, a1, a2, fuel, n.body, id, w1);
      if a2.nodes[id].els == n.els {
        ExecOptAlike(lang, a1, a2, fuel, n.els, id, w1);
      } else {
        NoEffectRuns(lang, a1, fuel, n.els.value, id, w1);
      }
    }
  }

  lemma {:induction false} ExecForAlike(lang: Lang, a1: Ast, a2: Ast, fuel: nat, id: NodeId, w: World)
    requires Alike(a1, a2) && id in a1.nodes && a1.nodes[id].For?
    ensures ExecNode(lang, a1, fuel, id, w) == ExecNode(lang, a2, fuel, id, w)
    decreases fuel, id, 6, 0
  {
    AlikeAt(a1, a2, id);
    var n := a1.nodes[id];
    ExecOptAlike(lang, a1, a2, fuel, n.init, id, w);
    var o := ExecOpt(lang, a1, fuel, n.init, id, w);
    if o.Running? {
      ExecLoopAlike(lang, a1, a2, fuel, fuel, n.test, n.post, n.body, id, o.w);
    }
  }

  lemma {:induction false} ExecLoopAlike(lang: Lang, a1: Ast, a2: Ast, fuel: nat, n: nat, test: Option<Ref>,
                                         post: Option<Ref>, body: Ref, limit: nat, w: World)
    requires Alike(a1, a2)
    ensures ExecLoop(lang, a1, fuel, n, test, post, body, limit, w)
            == ExecLoop(lang, a2, fuel, n, test, post, body, limit, w)
    decreases fuel, limit, 5, n
  {
    if n > 0 {
      if test.Some? { EvalRefAlike(lang, a1, a2, fuel, test.value, limit, w); }
      var w1 := if test.Some? then EvalRef(lang, a1, fuel, test.value, limit, w).1 else w;
      ExecRefAlike(lang, a1, a2, fuel, body, limit, w1);
      var o := ExecRef(lang, a1, fuel, body, limit, w1);
      if o.Running? || o.Continued? {
        ExecOptAlike(lang, a1, a2, fuel, post, limit, o.w);
        var p := ExecOpt(lang, a1, fuel, post, limit, o.w);
        if p.Running? {
          ExecLoopAlike(lang, a1, a2, fuel, n - 1, test, post, body, limit, p.w);
        }
      }
    }
  }

  lemma {:induction false} ExecSwitchNodeAlike(lang: Lang, a1: Ast, a2: Ast, fuel: nat, id: NodeId, w: World)
    requires Alike(a1, a2) && id in a1.nodes && a1.nodes[id].Switch?
    ensures ExecNode(lang, a1, fuel, id, w) == ExecNode(lang, a2, fuel, id, w)
    decreases fuel, id, 6, 0
  {
    AlikeAt(a1, a2, id);
    var n := a1.nodes[id];
    ExecOptAlike(lang, a1, a2, fuel, n.init, id, w);
    var o := ExecOpt(lang, a1, fuel, n.init, id, w);
    if o.Running? {
      if n.tag.Some? { EvalRefAlike(lang, a1, a2, fuel, n.tag.value, id, o.w); }
      var (t, w1) := if n.tag.Some? then EvalRef(lang, a1, fuel, n.tag.value, id, o.w) else (Bool(true), o.w);
      ExecSwitchAlike(lang, a1, a2, fuel, n.body, id, t, w1);
    }
  }

  lemma {:induction false} ExecSwitchAlike(lang: Lang, a1: Ast, a2: Ast, fuel: nat, body: Ref, limit: nat, tag: Value,
                                           w: World)
    requires Alike(a1, a2)
    ensures ExecSwitch(lang, a1, fuel, body, limit, tag, w) == ExecSwitch(lang, a2, fuel, body, limit, tag, w)
    decreases fuel, limit, 5, 0
  {
    ClausesAlike(a1, a2, body, limit);
    SelectAlike(lang, a1, a2, fuel, Clauses(a1, body, limit), Clauses(a2, body, limit), limit, tag, None, w);
    var (clause, w1) := SelectClause(lang, a1, fuel, Clauses(a1, body, limit), limit, tag, None, w);
    ExecOptAlike(lang, a1, a2, fuel, clause, limit, w1);
  }

  lemma ClausesAlike(a1: Ast, a2: Ast, body: Ref, limit: nat)
    requires Alike(a1, a2)
    ensures Thinned(a1, Clauses(a1, body, limit), Clauses(a2, body, limit))
  {
    if body.Old? && body.id < limit && body.id in a1.nodes {
      SameKind(a1, a2, body.id);
      BodiesAlike(a1, a2, body.id);
    }
  }

  lemma ClauseAlike(a1: Ast, a2: Ast, r: Ref, limit: nat)
    requires Alike(a1, a2)
    ensures IsClause(a1, r, limit) == IsClause(a2, r, limit)
    ensures IsClause(a1, r, limit) ==> a1.nodes[r.id].exprs == a2.nodes[r.id].exprs
  {
    if r.Old? && r.id in a1.nodes {
      AlikeAt(a1, a2, r.id);
    }
  }

  /** A statement without effect is no clause. */
  lemma {:induction false} SelectAlike(lang: Lang, a1: Ast, a2: Ast, fuel: nat, l1: seq<Ref>, l2: seq<Ref>,
                                       limit: nat, tag: Value,
                                       default: Option<Ref>, w: World)
    requires Alike(a1, a2) && Thinned(a1, l1, l2)
    ensures SelectClause(lang, a1, fuel, l1, limit, tag, default, w)
            == SelectClause(lang, a2, fuel, l2, limit, tag, default, w)
    decreases fuel, limit, 2, |l1|, 1
  {
    if l1 != [] {
      if l1 != l2 && NoEffect(a1, l1[0]) && Thinned(a1, l1[1..], l2) {
        SelectAlike(lang, a1, a2, fuel, l1[1..], l2, limit, tag, default, w);
      } else {
        SelectHeadAlike(lang, a1, a2, fuel, l1, l2, limit, tag, default, w);
      }
    }
  }

  lemma {:induction false} SelectHeadAlike(lang: Lang, a1: Ast, a2: Ast, fuel: nat, l1: seq<Ref>, l2: seq<Ref>,
                                           limit: nat, tag: Value, default: Option<Ref>, w: World)
    requires Alike(a1, a2) && l1 != [] && l2 != [] && l1[0] == l2[0] && Thinned(a1, l1[1..], l2[1..])
    ensures SelectClause(lang, a1, fuel, l1, limit, tag, default, w)
            == SelectClause(lang, a2, fuel, l2, limit, tag, default, w)
    decreases fuel, limit, 2, |l1|, 0
  {
    ClauseAlike(a1, a2, l1[0], limit);
    if !IsClause(a1, l1[0], limit) {
      SelectAlike(lang, a1, a2, fuel, l1[1..], l2[1..], limit, tag, default, w);
    } else {
      var exprs := ExprsOf(a1, a1.nodes[l1[0].id].exprs);
      if exprs == [] {
        SelectAlike(lang, a1, a2, fuel, l1[1..], l2[1..], limit, tag, Some(l1[0]), w);
      } else {
        MatchesAlike(lang, a1, a2, fuel, exprs, l1[0].id, tag, w);
        SelectAlike(lang, a1, a2, fuel, l1[1..], l2[1..], limit, tag, default,
                    Matches(lang, a1, fuel, exprs, l1[0].id, tag, w).1);
      }
    }
  }

  lemma {:induction false} MatchesAlike(lang: Lang, a1: Ast, a2: Ast, fuel: nat, exprs: seq<Ref>, limit: nat,
                                        tag: Value, w: World)
    requires Alike(a1, a2)
    ensures Matches(lang, a1, fuel, exprs, limit, tag, w) == Matches(lang, a2, fuel, exprs, limit, tag, w)
    decreases fuel, limit, 1, |exprs|
  {
    if exprs != [] {
      EvalRefAlike(lang, a1, a2, fuel, exprs[0], limit, w);
      MatchesAlike(lang, a1, a2, fuel, exprs[1..], limit, tag, EvalRef(lang, a1, fuel, exprs[0], limit, w).1);
    }
  }
}
