/** What each mutant is documented to be, and that the edited tree runs as just that. */
module Meaning {
  import opened Options
  import opened GoAst
  import opened Noops
  import opened Locate
  import opened Mutators
  import opened Semantics
  import opened Congruence

  /** The program a mutation stands for: the statement is gone from its list, the logical expression is its other
      operand, the branch or the case is empty, the else is gone. */
  function Intended(ast: Ast, m: Mutation): Ast
    requires Parsed(ast) && Captured(ast, m)
    requires !m.ZeroTimeout? && !m.InsertStmt?
  {
    match m
    case ReplaceStmt(backing, i, _) =>
      var l := ast.stmts[backing]; ast.(stmts := ast.stmts[backing := l[..i] + l[i + 1..]])
    case ReplaceX(node, _, _) => ast.(nodes := ast.nodes[node := Paren(ast.nodes[node].y)])
    case ReplaceY(node, _, _) => ast.(nodes := ast.nodes[node := Paren(ast.nodes[node].x)])
    case EmptyBranch(node, _) => ast.(nodes := ast.nodes[ast.nodes[node].body.id := Block(Built([]))])
    case EmptyCase(node, _) => ast.(nodes := ast.nodes[node := Case(ast.nodes[node].exprs, Built([]))])
    case EmptyElse(node, _) => ast.(nodes := ast.nodes[node := ast.nodes[node].(els := None)])
  }

  /** The no-op of any statements has no effect, in every store that keeps the identifiers and selectors. */
  predicate KeepsNames(ast: Ast, a: Ast) {
    forall id | id in ast.nodes && (ast.nodes[id].Ident? || ast.nodes[id].Selector?) ::
      id in a.nodes && a.nodes[id] == ast.nodes[id]
  }

  lemma {:induction false} RootedStays(ast: Ast, a: Ast, r: Ref, bound: nat)
    requires KeepsNames(ast, a) && Rooted(ast, r, bound)
    ensures Rooted(a, r, bound)
    decreases bound
  {
    if ast.nodes[r.id].Selector? {
      RootedStays(ast, a, ast.nodes[r.id].x, r.id);
    }
  }

  lemma {:induction false} CollectedAreHarmless(ast: Ast, a: Ast, info: Info, id: NodeId)
    requires Parsed(ast) && id in ast.nodes && KeepsNames(ast, a)
    ensures forall x | x in Identifiers(ast, info, id) :: Harmless(a, x)
    decreases id, 1, 0
  {
    ParsedChildren(ast, id);
    match ast.nodes[id]
    case Ident(_) =>
    case Selector(_, _) =>
      if Rooted(ast, Old(id), id + 1) {
        RootedStays(ast, a, Old(id), id + 1);
      }
    case _ => AllCollectedAreHarmless(ast, a, info, Children(ast, ast.nodes[id]), id);
  }

  lemma {:induction false} AllCollectedAreHarmless(ast: Ast, a: Ast, info: Info, refs: seq<Ref>, bound: nat)
    requires Parsed(ast) && AllOld(ast, refs, bound) && KeepsNames(ast, a)
    ensures forall x | x in IdentifiersOfAll(ast, info, refs, bound) :: Harmless(a, x)
    decreases bound, 0, |refs|
  {
    if refs != [] {
      assert IsOld(ast, refs[0], bound);
      CollectedAreHarmless(ast, a, info, refs[0].id);
      AllCollectedAreHarmless(ast, a, info, refs[1..], bound);
    }
  }

  lemma NoopHasNoEffect(ast: Ast, a: Ast, info: Info, stmts: seq<Ref>, bound: nat)
    requires Parsed(ast) && AllOld(ast, stmts, bound) && KeepsNames(ast, a)
    ensures NoEffect(a, New(Noop(ast, info, stmts, bound)))
  {
    AllCollectedAreHarmless(ast, a, info, stmts, bound);
  }

  /** Running it changes no variable, no heap cell and no trace. */
  lemma NoopRuns(lang: Lang, ast: Ast, a: Ast, info: Info, stmts: seq<Ref>, bound: nat, fuel: nat, limit: nat, w: World)
    requires Parsed(ast) && AllOld(ast, stmts, bound) && KeepsNames(ast, a)
    ensures ExecRef(lang, a, fuel, New(Noop(ast, info, stmts, bound)), limit, w) == Running(w)
  {
    NoopHasNoEffect(ast, a, info, stmts, bound);
    NoEffectRuns(lang, a, fuel, New(Noop(ast, info, stmts, bound)), limit, w);
  }

  lemma {:induction false} ThinnedAt(a: Ast, l: seq<Ref>, i: nat, noop: Ref)
    requires i < |l| && NoEffect(a, noop)
    ensures Thinned(a, l[i := noop], l[..i] + l[i + 1..])
    decreases |l|
  {
    var l1, l2 := l[i := noop], l[..i] + l[i + 1..];
    if i == 0 {
      assert l1[1..] == l2;
    } else {
      ThinnedAt(a, l[1..], i - 1, noop);
      assert l1[1..] == l[1..][i - 1 := noop];
      assert l2[1..] == l[1..][..i - 1] + l[1..][i - 1 + 1..];
    }
  }

  lemma ThinnedOne(a: Ast, noop: Ref)
    requires NoEffect(a, noop)
    ensures Thinned(a, [noop], [])
  {
    assert [noop][1..] == [];
  }

  predicate Removes(op: Operator) {
    op !in {StatementTimeout, DistributedReadZero}
  }

  /** The operand that is put in is the neutral one of the operator. */
  predicate NeutralTerm(ast: Ast, m: Mutation) {
    (m.ReplaceX? || m.ReplaceY?) ==>
      m.node in ast.nodes && ast.nodes[m.node].Binary? && ast.nodes[m.node].op in {LAnd, LOr} &&
      m.with == FIdent(if ast.nodes[m.node].op == LAnd then "true" else "false")
  }

  lemma RemovalKinds(op: Operator, ast: Ast, info: Info, id: NodeId, m: Mutation)
    requires Parsed(ast) && id in ast.nodes && m in Mutations(op, ast, info, id) && Removes(op)
    ensures Captured(ast, m) && !m.ZeroTimeout? && !m.InsertStmt? && NeutralTerm(ast, m)
  {
    MutationsCaptured(op, ast, info, id);
    match op
    case StatementRemove => RemovalsCaptured(ast, id);
    case StatementRemoveBlock =>
      if IsErrorHandlingCode(ast, info, id).Some? {
        RemovalsCaptured(ast, IsErrorHandlingCode(ast, info, id).value);
      }
    case _ =>
  }

  lemma ChangeKeepsNames(ast: Ast, info: Info, m: Mutation)
    requires Parsed(ast) && Captured(ast, m)
    ensures KeepsNames(ast, Change(ast, info, m))
  {
  }

  lemma AlikeAtNode(a1: Ast, n: NodeId, x: Node)
    requires n in a1.nodes && SameNode(a1, a1.(nodes := a1.nodes[n := x]), n)
    ensures Alike(a1, a1.(nodes := a1.nodes[n := x]))
  {
  }

  lemma AlikeAtList(a1: Ast, k: ArrayId, l: seq<Ref>)
    requires k in a1.stmts && Thinned(a1, a1.stmts[k], l)
    ensures Alike(a1, a1.(stmts := a1.stmts[k := l]))
  {
  }

  lemma Overwritten<K, V>(m: map<K, V>, k: K, v: V, u: V)
    ensures m[k := v][k := u] == m[k := u]
  {
  }

  lemma StatementAlike(ast: Ast, info: Info, m: Mutation)
    requires Parsed(ast) && Captured(ast, m) && m.ReplaceStmt?
    ensures Alike(Change(ast, info, m), Intended(ast, m))
  {
    var a := Change(ast, info, m);
    var l := ast.stmts[m.backing];
    var gone := l[..m.index] + l[m.index + 1..];
    ChangeKeepsNames(ast, info, m);
    NoopHasNoEffect(ast, a, info, [m.oldTerm], m.oldTerm.id + 1);
    ThinnedAt(a, l, m.index, a.stmts[m.backing][m.index]);
    AlikeAtList(a, m.backing, gone);
    Overwritten(ast.stmts, m.backing, a.stmts[m.backing], gone);
  }

  lemma OperandAlike(ast: Ast, info: Info, m: Mutation)
    requires Parsed(ast) && Captured(ast, m) && (m.ReplaceX? || m.ReplaceY?) && NeutralTerm(ast, m)
    ensures Alike(Change(ast, info, m), Intended(ast, m))
  {
    var a := Change(ast, info, m);
    var n := ast.nodes[m.node];
    var other := Paren(if m.ReplaceX? then n.y else n.x);
    AlikeAtNode(a, m.node, other);
    Overwritten(ast.nodes, m.node, a.nodes[m.node], other);
  }

  lemma BranchAlike(ast: Ast, info: Info, m: Mutation)
    requires Parsed(ast) && Captured(ast, m) && m.EmptyBranch?
    ensures Alike(Change(ast, info, m), Intended(ast, m))
  {
    var a := Change(ast, info, m);
    var body := ast.nodes[m.node].body;
    ChangeKeepsNames(ast, info, m);
    NoopHasNoEffect(ast, a, info, [body], body.id + 1);
    ThinnedOne(a, a.nodes[body.id].list.elems[0]);
    AlikeAtNode(a, body.id, Block(Built([])));
    Overwritten(ast.nodes, body.id, a.nodes[body.id], Block(Built([])));
  }

  lemma CaseAlike(ast: Ast, info: Info, m: Mutation)
    requires Parsed(ast) && Captured(ast, m) && m.EmptyCase?
    ensures Alike(Change(ast, info, m), Intended(ast, m))
  {
    var a := Change(ast, info, m);
    CaseBodyOld(ast, m.node);
    ChangeKeepsNames(ast, info, m);
    NoopHasNoEffect(ast, a, info, StmtsOf(ast, m.oldList), m.node);
    ThinnedOne(a, a.nodes[m.node].stmts.elems[0]);
    var empty := Case(ast.nodes[m.node].exprs, Built([]));
    AlikeAtNode(a, m.node, empty);
    Overwritten(ast.nodes, m.node, a.nodes[m.node], empty);
  }

  lemma ElseAlike(ast: Ast, info: Info, m: Mutation)
    requires Parsed(ast) && Captured(ast, m) && m.EmptyElse?
    ensures Alike(Change(ast, info, m), Intended(ast, m))
  {
    var a := Change(ast, info, m);
    ChangeKeepsNames(ast, info, m);
    NoopHasNoEffect(ast, a, info, [m.oldTerm], m.oldTerm.id + 1);
    var bare := ast.nodes[m.node].(els := None);
    AlikeAtNode(a, m.node, bare);
    Overwritten(ast.nodes, m.node, a.nodes[m.node], bare);
  }

  lemma ChangeIsAlike(ast: Ast, info: Info, m: Mutation)
    requires Parsed(ast) && Captured(ast, m) && !m.ZeroTimeout? && !m.InsertStmt? && NeutralTerm(ast, m)
    ensures Alike(Change(ast, info, m), Intended(ast, m))
  {
    match m
    case ReplaceStmt(_, _, _) => StatementAlike(ast, info, m);
    case EmptyBranch(_, _) => BranchAlike(ast, info, m);
    case EmptyCase(_, _) => CaseAlike(ast, info, m);
    case EmptyElse(_, _) => ElseAlike(ast, info, m);
    case _ => OperandAlike(ast, info, m);
  }

  /** Running a removing mutant is running the program with that part removed: every expression has the same value
      and effects, and every statement ends the same way in the same world with the same trace, wherever in the
      program the mutation sits, also when that is inside a function the program calls, and whatever the rest of the
      program does. */
  lemma MutantMeansIntended(lang: Lang, op: Operator, ast: Ast, info: Info, id: NodeId, m: Mutation,
                            fuel: nat, r: Ref, limit: nat, w: World)
    requires Parsed(ast) && id in ast.nodes && m in Mutations(op, ast, info, id) && Removes(op)
    ensures Captured(ast, m) && !m.ZeroTimeout? && !m.InsertStmt?
    ensures EvalRef(lang, Change(ast, info, m), fuel, r, limit, w) == EvalRef(lang, Intended(ast, m), fuel, r, limit, w)
    ensures ExecRef(lang, Change(ast, info, m), fuel, r, limit, w) == ExecRef(lang, Intended(ast, m), fuel, r, limit, w)
  {
    RemovalKinds(op, ast, info, id, m);
    ChangeIsAlike(ast, info, m);
    EvalRefAlike(lang, Change(ast, info, m), Intended(ast, m), fuel, r, limit, w);
    ExecRefAlike(lang, Change(ast, info, m), Intended(ast, m), fuel, r, limit, w);
  }

  // ----- distributed/readzero -----

  lemma {:induction false} ExecAppend(lang: Lang, ast: Ast, fuel: nat, a: seq<Ref>, b: seq<Ref>, limit: nat, w: World)
    ensures ExecList(lang, ast, fuel, a + b, limit, w)
            == var o := ExecList(lang, ast, fuel, a, limit, w);
               if o.Running? then ExecList(lang, ast, fuel, b, limit, o.w) else o
    decreases |a|
  {
    if a == [] {
      assert a + b == b;
    } else {
      assert (a + b)[1..] == a[1..] + b;
      var o := ExecRef(lang, ast, fuel, a[0], limit, w);
      if o.Running? {
        ExecAppend(lang, ast, fuel, a[1..], b, limit, o.w);
      }
    }
  }

  lemma {:induction false} ZeroTarget(ast: Ast, info: Info, lhs: seq<Ref>)
    requires CreateZeroAssignment(ast, info, lhs).Some?
    ensures var added := CreateZeroAssignment(ast, info, lhs).value;
            && added.FAssign? && |added.lhs| == 1 && added.rhs == [FZero] && added.lhs[0].FShared?
            && FirstHolder(ast, info, lhs, Old(added.lhs[0].id))
  {
    if HoldsBytesRead(ast, info, lhs[0]) {
      assert IsFirstHolder(ast, info, lhs, 0);
    } else {
      ZeroTarget(ast, info, lhs[1..]);
      var target := CreateZeroAssignment(ast, info, lhs[1..]).value.lhs[0].id;
      var k :| 0 <= k < |lhs[1..]| && IsFirstHolder(ast, info, lhs[1..], k) && lhs[1..][k] == Old(target);
      assert lhs[k + 1] == lhs[1..][k];
      assert IsFirstHolder(ast, info, lhs, k + 1) by {
        forall j | 0 <= j < k + 1
          ensures !HoldsBytesRead(ast, info, lhs[j])
        {
          if j > 0 { assert lhs[j] == lhs[1..][j - 1]; }
        }
      }
    }
  }

  ghost predicate IsFirstHolder(ast: Ast, info: Info, lhs: seq<Ref>, k: nat) {
    k < |lhs| && HoldsBytesRead(ast, info, lhs[k]) && forall j | 0 <= j < k :: !HoldsBytesRead(ast, info, lhs[j])
  }

  /** The first variable on the left that has an object of another type than `error`. */
  ghost predicate FirstHolder(ast: Ast, info: Info, lhs: seq<Ref>, r: Ref) {
    exists k | 0 <= k < |lhs| :: IsFirstHolder(ast, info, lhs, k) && lhs[k] == r
  }

  /** No zero assignment is made only if no variable on the left qualifies. */
  lemma {:induction false} NoTarget(ast: Ast, info: Info, lhs: seq<Ref>)
    requires CreateZeroAssignment(ast, info, lhs).None?
    ensures forall k | 0 <= k < |lhs| :: !HoldsBytesRead(ast, info, lhs[k])
  {
    if lhs != [] {
      NoTarget(ast, info, lhs[1..]);
      forall k | 0 <= k < |lhs|
        ensures !HoldsBytesRead(ast, info, lhs[k])
      {
        if k > 0 { assert lhs[k] == lhs[1..][k - 1]; }
      }
    }
  }

  /** An assignment with a read on its right and a variable for the byte count on its left. */
  ghost predicate TakesRead(ast: Ast, info: Info, stmt: Ref) {
    stmt.Old? && stmt.id in ast.nodes && ast.nodes[stmt.id].Assign? &&
    (exists k | 0 <= k < |ExprsOf(ast, ast.nodes[stmt.id].rhs)| ::
       IsReadOperation(ast, ExprsOf(ast, ast.nodes[stmt.id].rhs)[k])) &&
    (exists k | 0 <= k < |ExprsOf(ast, ast.nodes[stmt.id].lhs)| ::
       HoldsBytesRead(ast, info, ExprsOf(ast, ast.nodes[stmt.id].lhs)[k]))
  }

  lemma CreatedIff(ast: Ast, info: Info, stmt: Ref)
    ensures CreateReadZeroAssignment(ast, info, stmt).Some? <==> TakesRead(ast, info, stmt)
  {
    if stmt.Old? && stmt.id in ast.nodes && ast.nodes[stmt.id].Assign? {
      var lhs := ExprsOf(ast, ast.nodes[stmt.id].lhs);
      if CreateZeroAssignment(ast, info, lhs).Some? {
        ZeroTarget(ast, info, lhs);
      } else {
        NoTarget(ast, info, lhs);
      }
    }
  }

  /** Exactly the reads of a block get an insertion, each directly after it. */
  lemma {:induction false} InsertionsExact(ast: Ast, info: Info, id: NodeId, list: List, l: seq<Ref>, from: nat, i: nat)
    requires from <= i < |l|
    ensures (exists m :: m in ReadZeroMutations(ast, info, id, list, l, from) && m.InsertStmt? && m.at == i + 1)
            <==> TakesRead(ast, info, l[i])
    decreases |l| - from
  {
    CreatedIff(ast, info, l[from]);
    if from < i {
      InsertionsExact(ast, info, id, list, l, from + 1, i);
      if m :| m in ReadZeroMutations(ast, info, id, list, l, from) && m.InsertStmt? && m.at == i + 1 {
        assert m in ReadZeroMutations(ast, info, id, list, l, from + 1);
      }
      if m :| m in ReadZeroMutations(ast, info, id, list, l, from + 1) && m.InsertStmt? && m.at == i + 1 {
        assert m in ReadZeroMutations(ast, info, id, list, l, from);
      }
    } else {
      InsertionsLater(ast, info, id, list, l, from + 1);
      if TakesRead(ast, info, l[i]) {
        var m := InsertStmt(id, list, CreateReadZeroAssignment(ast, info, l[i]).value, i + 1);
        assert m in ReadZeroMutations(ast, info, id, list, l, from);
      }
    }
  }

  lemma {:induction false} InsertionsLater(ast: Ast, info: Info, id: NodeId, list: List, l: seq<Ref>, from: nat)
    requires from <= |l|
    ensures forall m | m in ReadZeroMutations(ast, info, id, list, l, from) :: m.InsertStmt? && m.at > from
    decreases |l| - from
  {
    if from < |l| {
      InsertionsLater(ast, info, id, list, l, from + 1);
    }
  }

  lemma {:induction false} AddedAfterRead(ast: Ast, info: Info, id: NodeId, list: List, l: seq<Ref>, from: nat,
                                          m: Mutation)
    requires from <= |l| && m in ReadZeroMutations(ast, info, id, list, l, from)
    ensures m.InsertStmt? && m.oldList == list && 1 <= m.at <= |l|
    ensures CreateReadZeroAssignment(ast, info, l[m.at - 1]) == Some(m.added)
    decreases |l| - from
  {
    if from < |l| && m in ReadZeroMutations(ast, info, id, list, l, from + 1) {
      AddedAfterRead(ast, info, id, list, l, from + 1, m);
    }
  }

  lemma ReadTarget(ast: Ast, info: Info, id: NodeId, m: Mutation)
    requires Parsed(ast) && id in ast.nodes && ast.nodes[id].Block?
    requires var l := StmtsOf(ast, ast.nodes[id].list);
             m in ReadZeroMutations(ast, info, id, ast.nodes[id].list, l, 0)
    ensures var l := StmtsOf(ast, ast.nodes[id].list);
            && m.InsertStmt? && m.oldList == ast.nodes[id].list && 1 <= m.at <= |l|
            && m.added.FAssign? && |m.added.lhs| == 1 && m.added.rhs == [FZero] && m.added.lhs[0].FShared?
            && IsOld(ast, l[m.at - 1], id) && ast.nodes[l[m.at - 1].id].Assign?
            && FirstHolder(ast, info, ExprsOf(ast, ast.nodes[l[m.at - 1].id].lhs), Old(m.added.lhs[0].id))
            && m.added.lhs[0].id < id
  {
    var l := StmtsOf(ast, ast.nodes[id].list);
    AddedAfterRead(ast, info, id, ast.nodes[id].list, l, 0, m);
    ParsedChildren(ast, id);
    assert IsOld(ast, l[m.at - 1], id);
    var read := l[m.at - 1].id;
    ParsedChildren(ast, read);
    var lhs, rhs := ExprsOf(ast, ast.nodes[read].lhs), ExprsOf(ast, ast.nodes[read].rhs);
    ZeroTarget(ast, info, lhs);
    var k :| 0 <= k < |lhs| && lhs[k] == Old(m.added.lhs[0].id);
    assert (lhs + rhs)[k] == lhs[k];
    assert IsOld(ast, (lhs + rhs)[k], read);
  }

  /** The block runs up to and including the read, the variable that took the byte count becomes zero, and the block
      goes on from there. */
  lemma ReadZeroMeans(lang: Lang, ast: Ast, info: Info, id: NodeId, m: Mutation, fuel: nat, w: World)
    requires Parsed(ast) && id in ast.nodes && m in Mutations(DistributedReadZero, ast, info, id)
    ensures Captured(ast, m) && m.InsertStmt? && m.node == id && m.at >= 1
    ensures m.added.FAssign? && |m.added.lhs| == 1 && m.added.lhs[0].FShared?
    ensures IsOld(ast, StmtsOf(ast, m.oldList)[m.at - 1], id)
    ensures ast.nodes[StmtsOf(ast, m.oldList)[m.at - 1].id].Assign?
    ensures var l := StmtsOf(ast, m.oldList);
            var a := Change(ast, info, m);
            var target := m.added.lhs[0].id;
            && target in ast.nodes && ast.nodes[target].Ident?
            && FirstHolder(ast, info, ExprsOf(ast, ast.nodes[l[m.at - 1].id].lhs), Old(target))
            && ExecNode(lang, a, fuel, id, w)
               == var o := ExecList(lang, a, fuel, l[..m.at], id, w);
                  if o.Running?
                  then ExecList(lang, a, fuel, l[m.at..], id, SetVar(o.w, ast.nodes[target].name, Int(0)))
                  else o
  {
    assert NodeParsed(ast, id);
    var l := StmtsOf(ast, ast.nodes[id].list);
    ReadsCaptured(ast, info, id, ast.nodes[id].list, l, 0);
    ReadTarget(ast, info, id, m);
    var a := Change(ast, info, m);
    var name := ast.nodes[m.added.lhs[0].id].name;
    ExecAppend(lang, a, fuel, l[..m.at] + [New(m.added)], l[m.at..], id, w);
    ExecAppend(lang, a, fuel, l[..m.at], [New(m.added)], id, w);
    var o := ExecList(lang, a, fuel, l[..m.at], id, w);
    if o.Running? {
      ZeroAssigned(lang, a, fuel, m.added, id, o.w, name);
    }
  }

  lemma ZeroAssigned(lang: Lang, a: Ast, fuel: nat, added: Fresh, limit: nat, w: World, name: string)
    requires added.FAssign? && |added.lhs| == 1 && added.rhs == [FZero] && added.lhs[0].FShared?
    requires var t := added.lhs[0].id; t < limit && t in a.nodes && a.nodes[t] == Ident(name)
    ensures ExecList(lang, a, fuel, [New(added)], limit, w) == Running(SetVar(w, name, Int(0)))
  {
    var one := [New(added)];
    assert one[1..] == [];
    assert added.rhs[1..] == [];
    assert EvalFreshList(lang, a, fuel, [], limit, w) == ([], w);
    assert EvalFreshList(lang, a, fuel, added.rhs, limit, w) == ([Int(0)] + [], w);
    var targets := AsRefs(added.lhs);
    assert targets == [New(added.lhs[0])];
    assert targets[1..] == [];
    assert [Int(0)] + [] == [Int(0)];
    assert AssignRef(lang, a, fuel, targets[0], limit, Int(0), w) == SetVar(w, name, Int(0));
    assert AssignAll(lang, a, fuel, targets, limit, [Int(0)], w) == SetVar(w, name, Int(0));
    assert ExecFresh(lang, a, fuel, added, limit, w) == SetVar(w, name, Int(0));
  }

  // ----- statement/timeout -----

  /** The program in which the literal at `zero` is the only argument of the call. */
  function WithArgument(ast: Ast, id: NodeId, zero: NodeId): Ast
    requires id in ast.nodes && ast.nodes[id].Call?
  {
    ast.(nodes := ast.nodes[id := Call(ast.nodes[id].fun, Built([Old(zero)]))])
  }

  lemma TimeoutKind(ast: Ast, info: Info, id: NodeId, m: Mutation)
    requires Parsed(ast) && id in ast.nodes && m in Mutations(StatementTimeout, ast, info, id)
    ensures Captured(ast, m) && m.ZeroTimeout? && m.node == id && id in info.timeouts && ast.nodes[id].Call?
  {
  }

  lemma TimeoutAlike(ast: Ast, info: Info, id: NodeId, m: Mutation, zero: NodeId)
    requires Parsed(ast) && id in ast.nodes && m in Mutations(StatementTimeout, ast, info, id)
    requires zero < id && zero in ast.nodes && ast.nodes[zero] == BasicLit(0)
    ensures Captured(ast, m) && ast.nodes[id].Call? && Alike(Change(ast, info, m), WithArgument(ast, id, zero))
  {
    TimeoutKind(ast, info, id, m);
    var a, call := Change(ast, info, m), Call(ast.nodes[id].fun, Built([Old(zero)]));
    AlikeAtNode(a, id, call);
    Overwritten(ast.nodes, id, a.nodes[id], call);
  }

  /** A literal that nothing refers to can always be added. */
  lemma LiteralAdded(ast: Ast, zero: NodeId)
    requires Parsed(ast) && zero !in ast.nodes
    ensures Parsed(ast.(nodes := ast.nodes[zero := BasicLit(0)]))
  {
    var more := ast.(nodes := ast.nodes[zero := BasicLit(0)]);
    forall id | id in more.nodes
      ensures NodeParsed(more, id)
    {
      if id != zero {
        assert NodeParsed(ast, id);
        assert Children(more, more.nodes[id]) == Children(ast, ast.nodes[id]);
      }
    }
  }

  /** The mutant runs as the program whose call has a literal 0 as its argument, whichever literal of the tree that is
      (`LiteralAdded` gives one to a tree without). */
  lemma TimeoutMeans(lang: Lang, ast: Ast, info: Info, id: NodeId, m: Mutation, zero: NodeId, fuel: nat, r: Ref,
                     limit: nat, w: World)
    requires Parsed(ast) && id in ast.nodes && m in Mutations(StatementTimeout, ast, info, id)
    requires zero < id && zero in ast.nodes && ast.nodes[zero] == BasicLit(0)
    ensures Captured(ast, m) && m.ZeroTimeout? && m.node == id && id in info.timeouts && ast.nodes[id].Call?
    ensures EvalRef(lang, Change(ast, info, m), fuel, r, limit, w)
            == EvalRef(lang, WithArgument(ast, id, zero), fuel, r, limit, w)
    ensures ExecRef(lang, Change(ast, info, m), fuel, r, limit, w)
            == ExecRef(lang, WithArgument(ast, id, zero), fuel, r, limit, w)
  {
    TimeoutKind(ast, info, id, m);
    TimeoutAlike(ast, info, id, m, zero);
    EvalRefAlike(lang, Change(ast, info, m), WithArgument(ast, id, zero), fuel, r, limit, w);
    ExecRefAlike(lang, Change(ast, info, m), WithArgument(ast, id, zero), fuel, r, limit, w);
  }

  /** At the call itself: the function is evaluated as before, the old arguments are not, and zero is passed. */
  lemma TimeoutCall(lang: Lang, ast: Ast, info: Info, id: NodeId, m: Mutation, fuel: nat, w: World)
    requires Parsed(ast) && id in ast.nodes && m in Mutations(StatementTimeout, ast, info, id)
    ensures Captured(ast, m) && ast.nodes[id].Call?
    ensures var a := Change(ast, info, m);
            EvalNode(lang, a, fuel, id, w)
            == var (f, w1) := EvalRef(lang, a, fuel, ast.nodes[id].fun, id, w);
               CallValue(lang, a, fuel, f, [Int(0)], w1.(trace := w1.trace + [Called(f, [Int(0)])]))
  {
    TimeoutKind(ast, info, id, m);
    var a := Change(ast, info, m);
    OneZero(lang, a, fuel, New(FZero), id, EvalRef(lang, a, fuel, ast.nodes[id].fun, id, w).1);
  }
}
