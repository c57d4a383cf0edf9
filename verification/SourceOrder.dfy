/** The order of the walk is the order of the source text: it meets every node once, where its text begins. */
module SourceOrder {
  import opened Options
  import opened Sequences
  import opened GoAst
  import opened Walk

  /** The text of a node, with a mark where each node begins. */
  datatype Token = Begin(id: NodeId) | Word(text: string) | Number(n: int)

  function OpText(op: BinaryOp): string {
    match op
    case LAnd => "&&"
    case LOr => "||"
    case Eql => "=="
    case Neq => "!="
    case Arith(name) => name
  }

  function TokText(tok: AssignTok): string {
    match tok
    case Define => ":="
    case Set => "="
    case Compound(op) => op
  }

  /** Go's syntax, kind by kind. */
  function Print(ast: Ast, id: NodeId): seq<Token>
    requires Parsed(ast) && id in ast.nodes
    decreases id, 3, 0
  {
    [Begin(id)] + PrintParts(ast, id)
  }

  function PrintParts(ast: Ast, id: NodeId): seq<Token>
    requires Parsed(ast) && id in ast.nodes
    decreases id, 2, 0
  {
    match ast.nodes[id]
    case Ident(name) => [Word(name)]
    case BasicLit(value) => [Number(value)]
    case Selector(x, sel) => PrintRef(ast, x, id) + [Word(".")] + PrintRef(ast, sel, id)
    case Not(x) => [Word("!")] + PrintRef(ast, x, id)
    case Paren(x) => [Word("(")] + PrintRef(ast, x, id) + [Word(")")]
    case Binary(op, x, y) => PrintRef(ast, x, id) + [Word(OpText(op))] + PrintRef(ast, y, id)
    case Call(fun, args) => PrintRef(ast, fun, id) + [Word("(")] + PrintList(ast, ExprsOf(ast, args), id) + [Word(")")]
    case ExprStmt(x) => PrintRef(ast, x, id)
    case IncDec(x, increment) => PrintRef(ast, x, id) + [Word(if increment then "++" else "--")]
    case Assign(lhs, tok, rhs) =>
      PrintList(ast, ExprsOf(ast, lhs), id) + [Word(TokText(tok))] + PrintList(ast, ExprsOf(ast, rhs), id)
    case Block(list) => [Word("{")] + PrintList(ast, StmtsOf(ast, list), id) + [Word("}")]
    case If(init, cond, body, els) =>
      [Word("if")] + PrintOpt(ast, init, ";", id) + PrintRef(ast, cond, id) + PrintRef(ast, body, id)
      + PrintOpt(ast, els, "", id)
    case Switch(init, tag, body) =>
      [Word("switch")] + PrintOpt(ast, init, ";", id) + PrintOpt(ast, tag, "", id) + PrintRef(ast, body, id)
    case Case(exprs, stmts) =>
      [Word("case")] + PrintList(ast, ExprsOf(ast, exprs), id) + [Word(":")] + PrintList(ast, StmtsOf(ast, stmts), id)
    case For(init, test, post, body) =>
      [Word("for")] + PrintOpt(ast, init, ";", id) + PrintOpt(ast, test, ";", id) + PrintOpt(ast, post, "", id)
      + PrintRef(ast, body, id)
    case Break => [Word("break")]
    case Continue => [Word("continue")]
    case Return(results) => [Word("return")] + PrintList(ast, ExprsOf(ast, results), id)
    case FuncDecl(ident, params, body) =>
      [Word("func")] + PrintRef(ast, ident, id) + [Word("(")] + PrintList(ast, params, id) + [Word(")")]
      + PrintRef(ast, body, id)
    case Empty => []
    case Other(kids) => PrintList(ast, kids, id)
  }

  function PrintRef(ast: Ast, r: Ref, bound: nat): seq<Token>
    requires Parsed(ast)
    decreases bound, 0, 0
  {
    if IsOld(ast, r, bound) then Print(ast, r.id) else []
  }

  /** What follows an optional part is only there with it. */
  function PrintOpt(ast: Ast, r: Option<Ref>, after: string, bound: nat): seq<Token>
    requires Parsed(ast)
    decreases bound, 1, 0
  {
    if r.None? then [] else PrintRef(ast, r.value, bound) + [Word(after)]
  }

  function PrintList(ast: Ast, refs: seq<Ref>, bound: nat): seq<Token>
    requires Parsed(ast)
    decreases bound, 1, |refs|
  {
    if refs == [] then [] else PrintRef(ast, refs[0], bound) + [Word(",")] + PrintList(ast, refs[1..], bound)
  }

  /** The nodes that begin in a text, in order. */
  function Begins(text: seq<Token>): seq<NodeId> {
    if text == [] then [] else (if text[0].Begin? then [text[0].id] else []) + Begins(text[1..])
  }

  lemma {:induction false} BeginsConcat(a: seq<Token>, b: seq<Token>)
    ensures Begins(a + b) == Begins(a) + Begins(b)
  {
    if a == [] {
      assert a + b == b;
    } else {
      BeginsConcat(a[1..], b);
      assert (a + b)[1..] == a[1..] + b;
      Assoc(if a[0].Begin? then [a[0].id] else [], Begins(a[1..]), Begins(b));
    }
  }

  lemma WordBeginsNothing(text: string)
    ensures Begins([Word(text)]) == []
  {
    assert [Word(text)][1..] == [];
  }

  /** A text that begins the nodes of `refs` below it, and nothing else. */
  ghost predicate Follows(ast: Ast, text: seq<Token>, refs: seq<Ref>, bound: nat)
    requires Parsed(ast)
  {
    AllOld(ast, refs, bound) && Begins(text) == PreOrderOfAll(ast, refs, bound)
  }

  lemma {:induction false} PreOrderConcat(ast: Ast, a: seq<Ref>, b: seq<Ref>, bound: nat)
    requires Parsed(ast) && AllOld(ast, a, bound) && AllOld(ast, b, bound)
    ensures AllOld(ast, a + b, bound)
    ensures PreOrderOfAll(ast, a + b, bound) == PreOrderOfAll(ast, a, bound) + PreOrderOfAll(ast, b, bound)
  {
    assert AllOld(ast, a + b, bound);
    if a == [] {
      assert a + b == b;
    } else {
      assert IsOld(ast, a[0], bound);
      assert (a + b)[1..] == a[1..] + b;
      PreOrderConcat(ast, a[1..], b, bound);
      Assoc(PreOrder(ast, a[0].id), PreOrderOfAll(ast, a[1..], bound), PreOrderOfAll(ast, b, bound));
    }
  }

  lemma FollowsConcat(ast: Ast, a: seq<Token>, b: seq<Token>, refs: seq<Ref>, more: seq<Ref>, bound: nat)
    requires Parsed(ast) && Follows(ast, a, refs, bound) && Follows(ast, b, more, bound)
    ensures Follows(ast, a + b, refs + more, bound)
  {
    BeginsConcat(a, b);
    PreOrderConcat(ast, refs, more, bound);
  }

  lemma WordFollows(ast: Ast, text: string, bound: nat)
    requires Parsed(ast)
    ensures Follows(ast, [Word(text)], [], bound)
  {
    WordBeginsNothing(text);
  }

  lemma {:induction false} RefFollows(ast: Ast, r: Ref, bound: nat)
    requires Parsed(ast) && IsOld(ast, r, bound)
    ensures Follows(ast, PrintRef(ast, r, bound), [r], bound)
    decreases bound, 0, 0
  {
    WalkFollowsText(ast, r.id);
    assert [r][1..] == [];
    assert PreOrderOfAll(ast, [r], bound) == PreOrder(ast, r.id) + [];
  }

  lemma {:induction false} OptFollows(ast: Ast, r: Option<Ref>, after: string, bound: nat)
    requires Parsed(ast) && AllOld(ast, Opt(r), bound)
    ensures Follows(ast, PrintOpt(ast, r, after, bound), Opt(r), bound)
    decreases bound, 1, 0
  {
    if r.Some? {
      assert IsOld(ast, Opt(r)[0], bound);
      RefFollows(ast, r.value, bound);
      WordFollows(ast, after, bound);
      FollowsConcat(ast, PrintRef(ast, r.value, bound), [Word(after)], [r.value], [], bound);
      assert [r.value] + [] == Opt(r);
    }
  }

  lemma {:induction false} ListFollows(ast: Ast, refs: seq<Ref>, bound: nat)
    requires Parsed(ast) && AllOld(ast, refs, bound)
    ensures Follows(ast, PrintList(ast, refs, bound), refs, bound)
    decreases bound, 1, |refs|
  {
    if refs != [] {
      var r, rest := refs[0], refs[1..];
      assert IsOld(ast, r, bound);
      RefFollows(ast, r, bound);
      WordFollows(ast, ",", bound);
      ListFollows(ast, rest, bound);
      FollowsConcat(ast, PrintRef(ast, r, bound), [Word(",")], [r], [], bound);
      FollowsConcat(ast, PrintRef(ast, r, bound) + [Word(",")], PrintList(ast, rest, bound), [r] + [], rest, bound);
      assert [r] + [] + rest == refs;
    }
  }

  /** A word between parts begins nothing. */
  lemma AfterWord(ast: Ast, text: string, a: seq<Token>, refs: seq<Ref>, bound: nat)
    requires Parsed(ast) && Follows(ast, a, refs, bound)
    ensures Follows(ast, [Word(text)] + a, refs, bound)
  {
    WordFollows(ast, text, bound);
    FollowsConcat(ast, [Word(text)], a, [], refs, bound);
    assert [] + refs == refs;
  }

  lemma BeforeWord(ast: Ast, a: seq<Token>, refs: seq<Ref>, text: string, bound: nat)
    requires Parsed(ast) && Follows(ast, a, refs, bound)
    ensures Follows(ast, a + [Word(text)], refs, bound)
  {
    WordFollows(ast, text, bound);
    FollowsConcat(ast, a, [Word(text)], refs, [], bound);
    assert refs + [] == refs;
  }

  /** Two parts with a word between them. */
  lemma WordBetween(ast: Ast, a: seq<Token>, text: string, b: seq<Token>, refs: seq<Ref>, more: seq<Ref>, bound: nat)
    requires Parsed(ast) && Follows(ast, a, refs, bound) && Follows(ast, b, more, bound)
    ensures Follows(ast, a + [Word(text)] + b, refs + more, bound)
  {
    BeforeWord(ast, a, refs, text, bound);
    FollowsConcat(ast, a + [Word(text)], b, refs, more, bound);
  }

  lemma ChildrenOld(ast: Ast, refs: seq<Ref>, part: seq<Ref>, from: nat, bound: nat)
    requires AllOld(ast, refs, bound) && from + |part| <= |refs| && refs[from..from + |part|] == part
    ensures AllOld(ast, part, bound)
  {
    forall k | 0 <= k < |part|
      ensures IsOld(ast, part[k], bound)
    {
      assert part[k] == refs[from + k];
    }
  }

  /** The parts of a node are printed in the order of its children. */
  lemma {:induction false} PartsFollow(ast: Ast, id: NodeId)
    requires Parsed(ast) && id in ast.nodes
    ensures Follows(ast, PrintParts(ast, id), Children(ast, ast.nodes[id]), id)
    decreases id, 2, 2
  {
    ParsedChildren(ast, id);
    var kids := Children(ast, ast.nodes[id]);
    match ast.nodes[id]
    case Ident(name) => WordFollows(ast, name, id);
    case BasicLit(n) => assert [Number(n)][1..] == [];
    case Selector(x, sel) =>
      assert kids[0] == x && kids[1] == sel;
      PairFollows(ast, x, ".", sel, id);
    case Not(x) =>
      assert kids[0] == x;
      RefFollows(ast, x, id);
      AfterWord(ast, "!", PrintRef(ast, x, id), [x], id);
    case Paren(x) =>
      assert kids[0] == x;
      RefFollows(ast, x, id);
      AfterWord(ast, "(", PrintRef(ast, x, id), [x], id);
      BeforeWord(ast, [Word("(")] + PrintRef(ast, x, id), [x], ")", id);
    case Binary(op, x, y) =>
      assert kids[0] == x && kids[1] == y;
      PairFollows(ast, x, OpText(op), y, id);
    case Call(_, _) => CallFollows(ast, id);
    case ExprStmt(x) =>
      assert kids[0] == x;
      RefFollows(ast, x, id);
    case IncDec(x, increment) =>
      assert kids[0] == x;
      RefFollows(ast, x, id);
      BeforeWord(ast, PrintRef(ast, x, id), [x], if increment then "++" else "--", id);
    case Assign(lhs, tok, rhs) =>
      ListsFollow(ast, ExprsOf(ast, lhs), TokText(tok), ExprsOf(ast, rhs), id);
    case Block(list) =>
      var l := StmtsOf(ast, list);
      ListFollows(ast, l, id);
      AfterWord(ast, "{", PrintList(ast, l, id), l, id);
      BeforeWord(ast, [Word("{")] + PrintList(ast, l, id), l, "}", id);
    case If(_, _, _, _) => IfFollows(ast, id);
    case Switch(_, _, _) => SwitchFollows(ast, id);
    case Case(_, _) => CaseFollows(ast, id);
    case For(_, _, _, _) => ForFollows(ast, id);
    case Break => WordFollows(ast, "break", id);
    case Continue => WordFollows(ast, "continue", id);
    case Return(results) =>
      ListFollows(ast, ExprsOf(ast, results), id);
      AfterWord(ast, "return", PrintList(ast, ExprsOf(ast, results), id), ExprsOf(ast, results), id);
    case FuncDecl(_, _, _) => FuncFollows(ast, id);
    case Empty =>
    case Other(list) => ListFollows(ast, list, id);
  }

  lemma {:induction false} PairFollows(ast: Ast, x: Ref, text: string, y: Ref, id: NodeId)
    requires Parsed(ast) && IsOld(ast, x, id) && IsOld(ast, y, id)
    ensures Follows(ast, PrintRef(ast, x, id) + [Word(text)] + PrintRef(ast, y, id), [x, y], id)
    decreases id, 1, 0
  {
    RefFollows(ast, x, id);
    RefFollows(ast, y, id);
    WordBetween(ast, PrintRef(ast, x, id), text, PrintRef(ast, y, id), [x], [y], id);
    assert [x] + [y] == [x, y];
  }

  lemma {:induction false} ListsFollow(ast: Ast, l1: seq<Ref>, text: string, l2: seq<Ref>, id: NodeId)
    requires Parsed(ast) && AllOld(ast, l1 + l2, id)
    ensures Follows(ast, PrintList(ast, l1, id) + [Word(text)] + PrintList(ast, l2, id), l1 + l2, id)
    decreases id, 2, 0
  {
    ChildrenOld(ast, l1 + l2, l1, 0, id);
    ChildrenOld(ast, l1 + l2, l2, |l1|, id);
    ListFollows(ast, l1, id);
    ListFollows(ast, l2, id);
    WordBetween(ast, PrintList(ast, l1, id), text, PrintList(ast, l2, id), l1, l2, id);
  }

  lemma {:induction false} CaseFollows(ast: Ast, id: NodeId)
    requires Parsed(ast) && id in ast.nodes && ast.nodes[id].Case?
    ensures Follows(ast, PrintParts(ast, id), Children(ast, ast.nodes[id]), id)
    decreases id, 2, 1
  {
    ParsedChildren(ast, id);
    var l1, l2 := ExprsOf(ast, ast.nodes[id].exprs), StmtsOf(ast, ast.nodes[id].stmts);
    ListsFollow(ast, l1, ":", l2, id);
    AfterWord(ast, "case", PrintList(ast, l1, id) + [Word(":")] + PrintList(ast, l2, id), l1 + l2, id);
    WordFirst("case", PrintList(ast, l1, id), ":", PrintList(ast, l2, id));
  }

  lemma WordFirst(first: string, a: seq<Token>, text: string, b: seq<Token>)
    ensures [Word(first)] + a + [Word(text)] + b == [Word(first)] + (a + [Word(text)] + b)
  {
  }

  lemma {:induction false} CallFollows(ast: Ast, id: NodeId)
    requires Parsed(ast) && id in ast.nodes && ast.nodes[id].Call?
    ensures Follows(ast, PrintParts(ast, id), Children(ast, ast.nodes[id]), id)
    decreases id, 2, 0
  {
    ParsedChildren(ast, id);
    var fun, args := ast.nodes[id].fun, ExprsOf(ast, ast.nodes[id].args);
    assert Children(ast, ast.nodes[id]) == [fun] + args;
    assert ([fun] + args)[0] == fun;
    ChildrenOld(ast, [fun] + args, args, 1, id);
    RefFollows(ast, fun, id);
    ListFollows(ast, args, id);
    var f, l := PrintRef(ast, fun, id), PrintList(ast, args, id);
    WordBetween(ast, f, "(", l, [fun], args, id);
    BeforeWord(ast, f + [Word("(")] + l, [fun] + args, ")", id);
  }

  lemma {:induction false} IfFollows(ast: Ast, id: NodeId)
    requires Parsed(ast) && id in ast.nodes && ast.nodes[id].If?
    ensures Follows(ast, PrintParts(ast, id), Children(ast, ast.nodes[id]), id)
    decreases id, 2, 0
  {
    ParsedChildren(ast, id);
    var n := ast.nodes[id];
    var kids := Opt(n.init) + [n.cond, n.body] + Opt(n.els);
    assert kids[|Opt(n.init)|] == n.cond && kids[|Opt(n.init)| + 1] == n.body;
    ChildrenOld(ast, kids, Opt(n.init), 0, id);
    ChildrenOld(ast, kids, Opt(n.els), |Opt(n.init)| + 2, id);
    OptFollows(ast, n.init, ";", id);
    RefFollows(ast, n.cond, id);
    RefFollows(ast, n.body, id);
    OptFollows(ast, n.els, "", id);
    var t := [Word("if")] + PrintOpt(ast, n.init, ";", id);
    AfterWord(ast, "if", PrintOpt(ast, n.init, ";", id), Opt(n.init), id);
    FourFollow(ast, t, PrintRef(ast, n.cond, id), PrintRef(ast, n.body, id), PrintOpt(ast, n.els, "", id),
               Opt(n.init), [n.cond], [n.body], Opt(n.els), id);
    assert Opt(n.init) + [n.cond] + [n.body] + Opt(n.els) == kids;
  }

  lemma FourFollow(ast: Ast, a: seq<Token>, b: seq<Token>, c: seq<Token>, d: seq<Token>, ra: seq<Ref>, rb: seq<Ref>,
                   rc: seq<Ref>, rd: seq<Ref>, bound: nat)
    requires Parsed(ast) && Follows(ast, a, ra, bound) && Follows(ast, b, rb, bound)
    requires Follows(ast, c, rc, bound) && Follows(ast, d, rd, bound)
    ensures Follows(ast, a + b + c + d, ra + rb + rc + rd, bound)
  {
    FollowsConcat(ast, a, b, ra, rb, bound);
    FollowsConcat(ast, a + b, c, ra + rb, rc, bound);
    FollowsConcat(ast, a + b + c, d, ra + rb + rc, rd, bound);
  }

  lemma {:induction false} SwitchFollows(ast: Ast, id: NodeId)
    requires Parsed(ast) && id in ast.nodes && ast.nodes[id].Switch?
    ensures Follows(ast, PrintParts(ast, id), Children(ast, ast.nodes[id]), id)
    decreases id, 2, 0
  {
    ParsedChildren(ast, id);
    var n := ast.nodes[id];
    var kids := Opt(n.init) + Opt(n.tag) + [n.body];
    assert kids[|Opt(n.init)| + |Opt(n.tag)|] == n.body;
    ChildrenOld(ast, kids, Opt(n.init), 0, id);
    ChildrenOld(ast, kids, Opt(n.tag), |Opt(n.init)|, id);
    OptFollows(ast, n.init, ";", id);
    OptFollows(ast, n.tag, "", id);
    RefFollows(ast, n.body, id);
    WordFollows(ast, "switch", id);
    FourFollow(ast, [Word("switch")], PrintOpt(ast, n.init, ";", id), PrintOpt(ast, n.tag, "", id),
               PrintRef(ast, n.body, id), [], Opt(n.init), Opt(n.tag), [n.body], id);
    assert [] + Opt(n.init) + Opt(n.tag) + [n.body] == kids;
  }

  lemma {:induction false} ForFollows(ast: Ast, id: NodeId)
    requires Parsed(ast) && id in ast.nodes && ast.nodes[id].For?
    ensures Follows(ast, PrintParts(ast, id), Children(ast, ast.nodes[id]), id)
    decreases id, 2, 0
  {
    ParsedChildren(ast, id);
    var n := ast.nodes[id];
    var kids := Opt(n.init) + Opt(n.test) + Opt(n.post) + [n.body];
    assert kids[|Opt(n.init)| + |Opt(n.test)| + |Opt(n.post)|] == n.body;
    ChildrenOld(ast, kids, Opt(n.init), 0, id);
    ChildrenOld(ast, kids, Opt(n.test), |Opt(n.init)|, id);
    ChildrenOld(ast, kids, Opt(n.post), |Opt(n.init)| + |Opt(n.test)|, id);
    OptFollows(ast, n.init, ";", id);
    OptFollows(ast, n.test, ";", id);
    OptFollows(ast, n.post, "", id);
    RefFollows(ast, n.body, id);
    AfterWord(ast, "for", PrintOpt(ast, n.init, ";", id), Opt(n.init), id);
    FourFollow(ast, [Word("for")] + PrintOpt(ast, n.init, ";", id), PrintOpt(ast, n.test, ";", id),
               PrintOpt(ast, n.post, "", id), PrintRef(ast, n.body, id),
               Opt(n.init), Opt(n.test), Opt(n.post), [n.body], id);
  }

  lemma {:induction false} FuncFollows(ast: Ast, id: NodeId)
    requires Parsed(ast) && id in ast.nodes && ast.nodes[id].FuncDecl?
    ensures Follows(ast, PrintParts(ast, id), Children(ast, ast.nodes[id]), id)
    decreases id, 2, 0
  {
    ParsedChildren(ast, id);
    var n := ast.nodes[id];
    var kids := [n.ident] + n.params + [n.body];
    assert kids[0] == n.ident && kids[|n.params| + 1] == n.body;
    ChildrenOld(ast, kids, n.params, 1, id);
    RefFollows(ast, n.ident, id);
    ListFollows(ast, n.params, id);
    RefFollows(ast, n.body, id);
    var t, l, b := PrintRef(ast, n.ident, id), PrintList(ast, n.params, id), PrintRef(ast, n.body, id);
    AfterWord(ast, "func", t, [n.ident], id);
    WordBetween(ast, [Word("func")] + t, "(", l, [n.ident], n.params, id);
    WordBetween(ast, [Word("func")] + t + [Word("(")] + l, ")", b, [n.ident] + n.params, [n.body], id);
  }

  /** The walk visits exactly the nodes that the text of the tree begins, each once, from first to last. */
  lemma {:induction false} WalkFollowsText(ast: Ast, id: NodeId)
    requires Parsed(ast) && id in ast.nodes
    ensures PreOrder(ast, id) == Begins(Print(ast, id))
    decreases id, 3, 0
  {
    PartsFollow(ast, id);
    assert ([Begin(id)] + PrintParts(ast, id))[1..] == PrintParts(ast, id);
  }
}
