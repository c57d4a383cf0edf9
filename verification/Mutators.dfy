/** The mutators as edits of the node store. A `Mutation` holds what the Change and Reset closures of the source
    capture: pointers, slice headers and the values to put back. */
module Mutators {
  import opened Options
  import opened GoAst
  import opened Noops
  import opened Locate

  datatype Operator =
    | BranchCase | BranchElse | BranchIf | ExpressionRemove
    | StatementRemove | StatementRemoveBlock | StatementTimeout | DistributedReadZero

  /** The name each mutator registers itself under. */
  function RegisteredName(op: Operator): string {
    match op
    case BranchCase => "branch/case"
    case BranchElse => "branch/else"
    case BranchIf => "branch/if"
    case ExpressionRemove => "expression/remove"
    case StatementRemove => "statement/remove"
    case StatementRemoveBlock => "statement/removeblock"
    case StatementTimeout => "statement/timeout"
    case DistributedReadZero => "distributed/readzero"
  }

  datatype Mutation =
    | ReplaceStmt(backing: ArrayId, index: nat, oldTerm: Ref)          // l[li] = no-op
    | ReplaceX(node: NodeId, with: Fresh, oldTerm: Ref)            // n.X = r
    | ReplaceY(node: NodeId, with: Fresh, oldTerm: Ref)            // n.Y = r
    | EmptyBranch(node: NodeId, oldList: List)                     // n.Body.List = { no-op }
    | EmptyCase(node: NodeId, oldList: List)                       // n.Body = { no-op }
    | EmptyElse(node: NodeId, oldTerm: Ref)                        // n.Else = no-op
    | ZeroTimeout(node: NodeId, oldList: List)                     // n.Args = { 0 }
    | InsertStmt(node: NodeId, oldList: List, added: Fresh, at: nat) // block.List = list with one more

  // ----- which mutations a node offers -----

  predicate CheckRemoveStatement(ast: Ast, stmt: Ref) {
    stmt.Old? && stmt.id in ast.nodes &&
    match ast.nodes[stmt.id]
    case Assign(_, tok, _) => tok != Define
    case ExprStmt(_) => true
    case IncDec(_, _) => true
    case _ => false
  }

  function StatementMutations(ast: Ast, backing: ArrayId, l: seq<Ref>, from: nat): seq<Mutation>
    requires from <= |l|
    decreases |l| - from
  {
    if from == |l| then []
    else (if CheckRemoveStatement(ast, l[from]) then [ReplaceStmt(backing, from, l[from])] else [])
         + StatementMutations(ast, backing, l, from + 1)
  }

  function MutatorRemoveStatement(ast: Ast, id: NodeId): seq<Mutation>
    requires Parsed(ast) && id in ast.nodes
  {
    assert NodeParsed(ast, id);
    match ast.nodes[id]
    case Block(list) => StatementMutations(ast, list.backing, StmtsOf(ast, list), 0)
    case Case(_, list) => StatementMutations(ast, list.backing, StmtsOf(ast, list), 0)
    case _ => []
  }

  function MutatorRemoveTerm(ast: Ast, id: NodeId): seq<Mutation>
    requires id in ast.nodes
  {
    match ast.nodes[id]
    case Binary(op, x, y) =>
      if op == LAnd then [ReplaceX(id, FIdent("true"), x), ReplaceY(id, FIdent("true"), y)]
      else if op == LOr then [ReplaceX(id, FIdent("false"), x), ReplaceY(id, FIdent("false"), y)]
      else []
    case _ => []
  }

  function ReadZeroMutations(ast: Ast, info: Info, id: NodeId, list: List, l: seq<Ref>, from: nat): seq<Mutation>
    requires from <= |l|
    decreases |l| - from
  {
    if from == |l| then []
    else (match CreateReadZeroAssignment(ast, info, l[from])
          case None => []
          case Some(added) => [InsertStmt(id, list, added, from + 1)])
         + ReadZeroMutations(ast, info, id, list, l, from + 1)
  }

  function Mutations(op: Operator, ast: Ast, info: Info, id: NodeId): seq<Mutation>
    requires Parsed(ast) && id in ast.nodes
  {
    assert NodeParsed(ast, id);
    var node := ast.nodes[id];
    match op
    case BranchCase => if node.Case? then [EmptyCase(id, node.stmts)] else []
    case BranchElse =>
      if node.If? && node.els.Some? && !ast.nodes[node.els.value.id].If? then [EmptyElse(id, node.els.value)] else []
    case BranchIf => if node.If? then [EmptyBranch(id, ast.nodes[node.body.id].list)] else []
    case ExpressionRemove => MutatorRemoveTerm(ast, id)
    case StatementRemove => MutatorRemoveStatement(ast, id)
    case StatementRemoveBlock =>
      (match IsErrorHandlingCode(ast, info, id)
       case None => []
       case Some(block) => MutatorRemoveStatement(ast, block))
    case StatementTimeout => if node.Call? && id in info.timeouts then [ZeroTimeout(id, node.args)] else []
    case DistributedReadZero =>
      if node.Block? then ReadZeroMutations(ast, info, id, node.list, StmtsOf(ast, node.list), 0) else []
  }

  // ----- Change and Reset -----

  /** The captured values are what the store holds: the state in which a mutator has just been called. */
  ghost predicate Captured(ast: Ast, m: Mutation) {
    match m
    case ReplaceStmt(backing, index, stmt) =>
      && backing in ast.stmts && index < |ast.stmts[backing]| && stmt == ast.stmts[backing][index]
      && stmt.Old? && stmt.id in ast.nodes
    case ReplaceX(node, _, x) => node in ast.nodes && ast.nodes[node].Binary? && ast.nodes[node].x == x
    case ReplaceY(node, _, y) => node in ast.nodes && ast.nodes[node].Binary? && ast.nodes[node].y == y
    case EmptyBranch(node, list) =>
      && node in ast.nodes && ast.nodes[node].If? && IsOld(ast, ast.nodes[node].body, node)
      && ast.nodes[ast.nodes[node].body.id] == Block(list)
    case EmptyCase(node, list) => node in ast.nodes && ast.nodes[node].Case? && ast.nodes[node].stmts == list
    case EmptyElse(node, els) =>
      node in ast.nodes && ast.nodes[node].If? && ast.nodes[node].els == Some(els) && IsOld(ast, els, node)
    case ZeroTimeout(node, args) => node in ast.nodes && ast.nodes[node].Call? && ast.nodes[node].args == args
    case InsertStmt(node, list, _, at) =>
      node in ast.nodes && ast.nodes[node] == Block(list) && at <= |StmtsOf(ast, list)|
  }

  function Inserted(l: seq<Ref>, at: nat, added: Ref): seq<Ref>
    requires at <= |l|
  {
    l[..at] + [added] + l[at..]
  }

  /** The Change closure. The no-op is computed when it runs, from the tree as it then is. */
  function Change(ast: Ast, info: Info, m: Mutation): Ast
    requires Parsed(ast) && Captured(ast, m)
  {
    match m
    case ReplaceStmt(backing, index, stmt) =>
      var noop := New(Noop(ast, info, [stmt], stmt.id + 1));
      ast.(stmts := ast.stmts[backing := ast.stmts[backing][index := noop]])
    case ReplaceX(node, with, _) =>
      var n := ast.nodes[node]; ast.(nodes := ast.nodes[node := Binary(n.op, New(with), n.y)])
    case ReplaceY(node, with, _) =>
      var n := ast.nodes[node]; ast.(nodes := ast.nodes[node := Binary(n.op, n.x, New(with))])
    case EmptyBranch(node, _) =>
      var body := ast.nodes[node].body;
      ast.(nodes := ast.nodes[body.id := Block(Built([New(Noop(ast, info, [body], body.id + 1))]))])
    case EmptyCase(node, list) =>
      assert NodeParsed(ast, node);
      CaseBodyOld(ast, node);
      ast.(nodes := ast.nodes[node := ast.nodes[node].(
        stmts := Built([New(Noop(ast, info, StmtsOf(ast, list), node))]))])
    case EmptyElse(node, els) =>
      ast.(nodes := ast.nodes[node := ast.nodes[node].(els := Some(New(Noop(ast, info, [els], els.id + 1))))])
    case ZeroTimeout(node, _) => ast.(nodes := ast.nodes[node := ast.nodes[node].(args := Built([New(FZero)]))])
    case InsertStmt(node, list, added, at) =>
      ast.(nodes := ast.nodes[node := Block(Built(Inserted(StmtsOf(ast, list), at, New(added))))])
  }

  /** The Reset closure, on whatever store it finds; it writes nothing if the captured pointer leads nowhere. */
  function Reset(ast: Ast, m: Mutation): Ast {
    match m
    case ReplaceStmt(backing, index, stmt) =>
      if backing in ast.stmts && index < |ast.stmts[backing]|
      then ast.(stmts := ast.stmts[backing := ast.stmts[backing][index := stmt]]) else ast
    case ReplaceX(node, _, x) =>
      if node in ast.nodes && ast.nodes[node].Binary?
      then ast.(nodes := ast.nodes[node := Binary(ast.nodes[node].op, x, ast.nodes[node].y)]) else ast
    case ReplaceY(node, _, y) =>
      if node in ast.nodes && ast.nodes[node].Binary?
      then ast.(nodes := ast.nodes[node := Binary(ast.nodes[node].op, ast.nodes[node].x, y)]) else ast
    case EmptyBranch(node, list) =>
      if node in ast.nodes && ast.nodes[node].If? && ast.nodes[node].body.Old?
      then ast.(nodes := ast.nodes[ast.nodes[node].body.id := Block(list)]) else ast
    case EmptyCase(node, list) =>
      if node in ast.nodes && ast.nodes[node].Case?
      then ast.(nodes := ast.nodes[node := ast.nodes[node].(stmts := list)]) else ast
    case EmptyElse(node, els) =>
      if node in ast.nodes && ast.nodes[node].If?
      then ast.(nodes := ast.nodes[node := ast.nodes[node].(els := Some(els))]) else ast
    case ZeroTimeout(node, args) =>
      if node in ast.nodes && ast.nodes[node].Call?
      then ast.(nodes := ast.nodes[node := ast.nodes[node].(args := args)]) else ast
    case InsertStmt(node, list, _, _) =>
      if node in ast.nodes && ast.nodes[node].Block?
      then ast.(nodes := ast.nodes[node := Block(list)]) else ast
  }

  lemma CaseBodyOld(ast: Ast, node: NodeId)
    requires Parsed(ast) && node in ast.nodes && ast.nodes[node].Case?
    ensures AllOld(ast, StmtsOf(ast, ast.nodes[node].stmts), node)
  {
    ParsedChildren(ast, node);
    var exprs, stmts := ExprsOf(ast, ast.nodes[node].exprs), StmtsOf(ast, ast.nodes[node].stmts);
    forall k | 0 <= k < |stmts|
      ensures IsOld(ast, stmts[k], node)
    {
      assert (exprs + stmts)[|exprs| + k] == stmts[k];
    }
  }

  /** Resetting a change gives back the very store, node for node and slot for slot. */
  lemma ResetUndoesChange(ast: Ast, info: Info, m: Mutation)
    requires Parsed(ast) && Captured(ast, m)
    ensures Reset(Change(ast, info, m), m) == ast
  {
    var changed := Change(ast, info, m);
    match m
    case ReplaceStmt(backing, index, stmt) =>
      assert changed.stmts[backing][index := stmt] == ast.stmts[backing];
      assert changed.stmts[backing := ast.stmts[backing]] == ast.stmts;
    case EmptyBranch(node, list) =>
      var body := ast.nodes[node].body;
      assert changed.nodes[body.id := ast.nodes[body.id]] == ast.nodes;
    case _ =>
      assert changed.nodes[m.node := ast.nodes[m.node]] == ast.nodes;
  }

  // ----- every mutation a mutator offers can be applied and undone -----

  lemma {:induction false} StatementsCaptured(ast: Ast, backing: ArrayId, l: seq<Ref>, from: nat)
    requires backing in ast.stmts && ast.stmts[backing] == l && from <= |l|
    ensures forall m | m in StatementMutations(ast, backing, l, from) ::
              Captured(ast, m) && m.ReplaceStmt? && m.backing == backing && CheckRemoveStatement(ast, m.oldTerm)
    decreases |l| - from
  {
    if from < |l| {
      StatementsCaptured(ast, backing, l, from + 1);
    }
  }

  lemma {:induction false} ReadsCaptured(ast: Ast, info: Info, id: NodeId, list: List, l: seq<Ref>, from: nat)
    requires id in ast.nodes && ast.nodes[id] == Block(list) && l == StmtsOf(ast, list) && from <= |l|
    ensures forall m | m in ReadZeroMutations(ast, info, id, list, l, from) ::
              Captured(ast, m) && m.InsertStmt? && m.node == id && m.at >= 1
    decreases |l| - from
  {
    if from < |l| {
      ReadsCaptured(ast, info, id, list, l, from + 1);
    }
  }

  lemma RemovalsCaptured(ast: Ast, id: NodeId)
    requires Parsed(ast) && id in ast.nodes
    ensures forall m | m in MutatorRemoveStatement(ast, id) :: Captured(ast, m) && m.ReplaceStmt?
  {
    assert NodeParsed(ast, id);
    match ast.nodes[id]
    case Block(list) => StatementsCaptured(ast, list.backing, StmtsOf(ast, list), 0);
    case Case(_, list) => StatementsCaptured(ast, list.backing, StmtsOf(ast, list), 0);
    case _ =>
  }

  lemma MutationsCaptured(op: Operator, ast: Ast, info: Info, id: NodeId)
    requires Parsed(ast) && id in ast.nodes
    ensures forall m | m in Mutations(op, ast, info, id) :: Captured(ast, m)
  {
    assert NodeParsed(ast, id);
    match op
    case StatementRemove => RemovalsCaptured(ast, id);
    case StatementRemoveBlock =>
      if IsErrorHandlingCode(ast, info, id).Some? {
        RemovalsCaptured(ast, IsErrorHandlingCode(ast, info, id).value);
      }
    case DistributedReadZero =>
      if ast.nodes[id].Block? {
        ReadsCaptured(ast, info, id, ast.nodes[id].list, StmtsOf(ast, ast.nodes[id].list), 0);
      }
    case _ =>
  }

  /** Whatever a mutator offers at any node: Change makes a real difference and Reset takes exactly it back,
      also when several mutations of one visit write through the same slice. */
  lemma OfferedMutationsRestore(op: Operator, ast: Ast, info: Info, id: NodeId, m: Mutation)
    requires Parsed(ast) && id in ast.nodes && m in Mutations(op, ast, info, id)
    ensures Captured(ast, m)
    ensures Change(ast, info, m) != ast
    ensures Reset(Change(ast, info, m), m) == ast
  {
    MutationsCaptured(op, ast, info, id);
    ResetUndoesChange(ast, info, m);
    ChangeIsReal(op, ast, info, id, m);
  }

  lemma ChangeIsReal(op: Operator, ast: Ast, info: Info, id: NodeId, m: Mutation)
    requires Parsed(ast) && id in ast.nodes && m in Mutations(op, ast, info, id) && Captured(ast, m)
    ensures Change(ast, info, m) != ast
  {
    var changed := Change(ast, info, m);
    match m
    case ReplaceStmt(backing, index, _) =>
      assert changed.stmts[backing][index].New?;
    case EmptyBranch(node, list) =>
      assert NodeParsed(ast, node);
      assert NodeParsed(ast, ast.nodes[node].body.id);
      assert changed.nodes[ast.nodes[node].body.id].list.Built?;
    case EmptyCase(node, _) =>
      assert NodeParsed(ast, node);
      assert changed.nodes[node].stmts.Built?;
    case EmptyElse(node, _) =>
      assert changed.nodes[node].els.value.New?;
    case _ =>
      assert NodeParsed(ast, m.node);
      assert AllOld(ast, Children(ast, ast.nodes[m.node]), m.node);
      RealAtNode(ast, info, m);
  }

  lemma RealAtNode(ast: Ast, info: Info, m: Mutation)
    requires Parsed(ast) && Captured(ast, m)
    requires m.ReplaceX? || m.ReplaceY? || m.ZeroTimeout? || m.InsertStmt?
    ensures Change(ast, info, m).nodes[m.node] != ast.nodes[m.node]
  {
    assert NodeParsed(ast, m.node);
    var kids := Children(ast, ast.nodes[m.node]);
    match m
    case ReplaceX(_, _, _) => assert kids[0].Old?;
    case ReplaceY(_, _, _) => assert kids[1].Old?;
    case _ =>
  }

  /** Where a mutation writes: one field of one node, or one slot of one backing array. */
  datatype Place = AtNode(id: NodeId) | AtSlot(backing: ArrayId, index: nat)

  function PlaceOf(ast: Ast, m: Mutation): Place {
    match m
    case ReplaceStmt(backing, index, _) => AtSlot(backing, index)
    case EmptyBranch(node, _) =>
      if node in ast.nodes && ast.nodes[node].If? && ast.nodes[node].body.Old?
      then AtNode(ast.nodes[node].body.id) else AtNode(node)
    case _ => AtNode(m.node)
  }

  /** Two stores agree everywhere but at one place. */
  ghost predicate SameElsewhere(a: Ast, b: Ast, place: Place) {
    && a.exprs == b.exprs
    && (match place
        case AtNode(id) =>
          a.stmts == b.stmts && a.nodes.Keys == b.nodes.Keys &&
          forall n | n in a.nodes && n != id :: a.nodes[n] == b.nodes[n]
        case AtSlot(backing, index) =>
          a.nodes == b.nodes && a.stmts.Keys == b.stmts.Keys &&
          (forall k | k in a.stmts && k != backing :: a.stmts[k] == b.stmts[k]) &&
          (backing in a.stmts ==>
             |a.stmts[backing]| == |b.stmts[backing]| &&
             forall i | 0 <= i < |a.stmts[backing]| && i != index :: a.stmts[backing][i] == b.stmts[backing][i]))
  }

  /** A mutant differs from the original at one place only. */
  lemma ChangeIsLocal(ast: Ast, info: Info, m: Mutation)
    requires Parsed(ast) && Captured(ast, m)
    ensures SameElsewhere(ast, Change(ast, info, m), PlaceOf(ast, m))
  {
  }

  /** `statement/removeblock` edits only elements of the statement list of the error-handling block. */
  lemma RemoveBlockStaysInBlock(ast: Ast, info: Info, id: NodeId, m: Mutation)
    requires Parsed(ast) && id in ast.nodes && m in Mutations(StatementRemoveBlock, ast, info, id)
    ensures var block := IsErrorHandlingCode(ast, info, id);
            && block.Some? && Captured(ast, m)
            && m.ReplaceStmt? && ast.nodes[block.value].list == Shared(m.backing)
            && SameElsewhere(ast, Change(ast, info, m), AtSlot(m.backing, m.index))
  {
    var block := IsErrorHandlingCode(ast, info, id).value;
    assert NodeParsed(ast, block);
    StatementsCaptured(ast, ast.nodes[block].list.backing, StmtsOf(ast, ast.nodes[block].list), 0);
    ChangeIsLocal(ast, info, m);
  }

  /** Exactly the removable statements of a list are offered, each at its own position, in order. */
  lemma {:induction false} StatementMutationsExact(ast: Ast, backing: ArrayId, l: seq<Ref>, from: nat, i: nat)
    requires from <= i < |l|
    ensures ReplaceStmt(backing, i, l[i]) in StatementMutations(ast, backing, l, from)
            <==> CheckRemoveStatement(ast, l[i])
    decreases |l| - from
  {
    if from < i {
      StatementMutationsExact(ast, backing, l, from + 1, i);
    } else if from + 1 <= |l| {
      LaterIndices(ast, backing, l, from + 1);
    }
  }

  lemma {:induction false} LaterIndices(ast: Ast, backing: ArrayId, l: seq<Ref>, from: nat)
    requires from <= |l|
    ensures forall m | m in StatementMutations(ast, backing, l, from) :: m.ReplaceStmt? && m.index >= from
    decreases |l| - from
  {
    if from < |l| {
      LaterIndices(ast, backing, l, from + 1);
    }
  }

  // ----- the same as it runs -----

  /** The loop of `MutatorRemoveStatement`. */
  method CollectStatementMutations(ast: Ast, backing: ArrayId, l: seq<Ref>) returns (mutations: seq<Mutation>)
    ensures mutations == StatementMutations(ast, backing, l, 0)
  {
    mutations := [];
    for i := 0 to |l|
      invariant mutations + StatementMutations(ast, backing, l, i) == StatementMutations(ast, backing, l, 0)
    {
      if CheckRemoveStatement(ast, l[i]) {
        mutations := mutations + [ReplaceStmt(backing, i, l[i])];
      }
    }
  }

  /** The loop of `MutatorReadZero`. */
  method CollectReadZeroMutations(ast: Ast, info: Info, id: NodeId, list: List, l: seq<Ref>)
    returns (mutationList: seq<Mutation>)
    ensures mutationList == ReadZeroMutations(ast, info, id, list, l, 0)
  {
    mutationList := [];
    for i := 0 to |l|
      invariant mutationList + ReadZeroMutations(ast, info, id, list, l, i)
                == ReadZeroMutations(ast, info, id, list, l, 0)
    {
      var newAssign := CreateReadZeroAssignment(ast, info, l[i]);
      if newAssign.Some? {
        mutationList := mutationList + [InsertStmt(id, list, newAssign.value, i + 1)];
      }
    }
  }

  /** `createMutant` of readzero.go: copy, grow by one, shift the tail right with an overlapping copy, overwrite.
      The old slice is only read. */
  method GrowList(oldStmtList: array<Ref>, newAssign: Ref, index: nat) returns (newList: array<Ref>)
    requires index <= oldStmtList.Length
    ensures fresh(newList)
    ensures newList[..] == Inserted(oldStmtList[..], index, newAssign)
  {
    var n := oldStmtList.Length;
    ghost var grown := Inserted(oldStmtList[..], index, newAssign);
    assert |grown| == n + 1;
    assert forall k | 0 <= k <= n :: grown[k] == if k < index then oldStmtList[k]
                                                 else if k == index then newAssign else oldStmtList[k - 1];
    newList := new Ref[n + 1](_ => newAssign);
    forall k | 0 <= k < n {
      newList[k] := oldStmtList[k];
    }
    newList[n] := newAssign;
    if newList.Length != index + 1 {
      forall k | index < k < newList.Length {
        newList[k] := newList[k - 1];
      }
      newList[index] := newAssign;
    }
  }

  /** Taking the inserted position out again gives back the old list. */
  lemma InsertedThenRemoved(l: seq<Ref>, at: nat, added: Ref)
    requires at <= |l|
    ensures var grown := Inserted(l, at, added);
            && |grown| == |l| + 1 && grown[at] == added
            && grown[..at] + grown[at + 1..] == l
  {
    var grown := Inserted(l, at, added);
    assert grown[..at] == l[..at];
    assert grown[at + 1..] == l[at..];
  }

  /** The tree shared by the walk and its driver, edited in place by the closures. */
  class AstHeap {
    var ast: Ast

    constructor (ast: Ast)
      ensures this.ast == ast
    {
      this.ast := ast;
    }

    method RunChange(info: Info, m: Mutation)
      requires Parsed(ast) && Captured(ast, m)
      modifies this
      ensures ast == Change(old(ast), info, m)
    {
      match m {
        case ReplaceStmt(backing, index, stmt) =>
          var noop := CreateNoopOfStatements(ast, info, [stmt], stmt.id + 1);
          var l := ast.stmts[backing];
          ast := ast.(stmts := ast.stmts[backing := l[index := New(noop)]]);
        case EmptyBranch(node, _) =>
          var body := ast.nodes[node].body;
          var noop := CreateNoopOfStatements(ast, info, [body], body.id + 1);
          ast := ast.(nodes := ast.nodes[body.id := Block(Built([New(noop)]))]);
        case EmptyCase(node, list) =>
          CaseBodyOld(ast, node);
          var noop := CreateNoopOfStatements(ast, info, StmtsOf(ast, list), node);
          ast := ast.(nodes := ast.nodes[node := ast.nodes[node].(stmts := Built([New(noop)]))]);
        case EmptyElse(node, els) =>
          var noop := CreateNoopOfStatements(ast, info, [els], els.id + 1);
          ast := ast.(nodes := ast.nodes[node := ast.nodes[node].(els := Some(New(noop)))]);
        case InsertStmt(node, list, added, at) =>
          var elems := StmtsOf(ast, list);
          var oldStmtList := new Ref[|elems|](i requires 0 <= i < |elems| => elems[i]);
          assert oldStmtList[..] == elems;
          var newList := GrowList(oldStmtList, New(added), at);
          ast := ast.(nodes := ast.nodes[node := Block(Built(newList[..]))]);
        case ReplaceX(node, with, _) =>
          var n := ast.nodes[node];
          ast := ast.(nodes := ast.nodes[node := Binary(n.op, New(with), n.y)]);
        case ReplaceY(node, with, _) =>
          var n := ast.nodes[node];
          ast := ast.(nodes := ast.nodes[node := Binary(n.op, n.x, New(with))]);
        case ZeroTimeout(node, _) =>
          var n := ast.nodes[node];
          ast := ast.(nodes := ast.nodes[node := n.(args := Built([New(FZero)]))]);
      }
    }

    method RunReset(m: Mutation)
      modifies this
      ensures ast == Reset(old(ast), m)
    {
      match m {
        case ReplaceStmt(backing, index, stmt) =>
          if backing in ast.stmts && index < |ast.stmts[backing]| {
            ast := ast.(stmts := ast.stmts[backing := ast.stmts[backing][index := stmt]]);
          }
        case EmptyBranch(node, list) =>
          if node in ast.nodes && ast.nodes[node].If? && ast.nodes[node].body.Old? {
            ast := ast.(nodes := ast.nodes[ast.nodes[node].body.id := Block(list)]);
          }
        case InsertStmt(node, list, _, _) =>
          if node in ast.nodes && ast.nodes[node].Block? {
            ast := ast.(nodes := ast.nodes[node := Block(list)]);
          }
        case ReplaceX(node, _, x) =>
          if node in ast.nodes && ast.nodes[node].Binary? {
            var n := ast.nodes[node];
            ast := ast.(nodes := ast.nodes[node := Binary(n.op, x, n.y)]);
          }
        case ReplaceY(node, _, y) =>
          if node in ast.nodes && ast.nodes[node].Binary? {
            var n := ast.nodes[node];
            ast := ast.(nodes := ast.nodes[node := Binary(n.op, n.x, y)]);
          }
        case EmptyCase(node, list) =>
          if node in ast.nodes && ast.nodes[node].Case? {
            var n := ast.nodes[node];
            ast := ast.(nodes := ast.nodes[node := Case(n.exprs, list)]);
          }
        case EmptyElse(node, els) =>
          if node in ast.nodes && ast.nodes[node].If? {
            var n := ast.nodes[node];
            ast := ast.(nodes := ast.nodes[node := If(n.init, n.cond, n.body, Some(els))]);
          }
        case ZeroTimeout(node, args) =>
          if node in ast.nodes && ast.nodes[node].Call? {
            var n := ast.nodes[node];
            ast := ast.(nodes := ast.nodes[node := Call(n.fun, args)]);
          }
      }
    }
  }
}
