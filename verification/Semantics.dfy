/** What a tree means when it runs: expressions with effects and short-circuit evaluation, statements with branches,
    switches, loops, break, continue and return, and calls of the functions the tree declares, recursion included.

    Reading identifiers and fields is total and has no effect; everything else a program can do to the world is a
    parameter. A node is only followed to nodes with smaller ids, which is how the parser numbers them; only a call
    goes back to the body of a declaration, at the cost of fuel. */
module Semantics {
  import opened Options
  import opened GoAst

  /** `Fun` is a function the tree declares, with the arguments it is already bound to, such as the receiver of a
      method value; `Tuple` is what a call returns that does not return exactly one value. */
  datatype Value =
    | Int(n: int) | Bool(b: bool) | Nil | Other(tag: nat)
    | Fun(decl: NodeId, bound: seq<Value>)
    | Tuple(elems: seq<Value>)

  datatype Event = Called(fun: Value, args: seq<Value>)

  /** `vars` are the variables of the current call. `spent`: a call inside an expression has used up its fuel, and
      nothing is said about the world any more. */
  datatype World = World(
    vars: map<string, Value>, globals: map<string, Value>, heap: map<nat, Value>, trace: seq<Event>, spent: bool)

  /** The parts of the language that the mutators do not depend on; `call` is for functions declared elsewhere. */
  datatype Lang = Lang(
    call: (Value, seq<Value>, World) -> (Value, World),
    field: (Value, string, World) -> Value,
    setField: (Value, string, Value, World) -> World,
    setElement: (seq<Value>, Value, World) -> World,
    operate: (string, Value, Value) -> Value,
    build: seq<Value> -> Value)

  /** `Unfinished`: some loop used up its fuel. */
  datatype Outcome =
    Running(w: World) | Broke(w: World) | Continued(w: World) | Returned(w: World, results: seq<Value>) | Unfinished

  function Read(w: World, name: string): Value {
    if name == "true" then Bool(true)
    else if name == "false" then Bool(false)
    else if name == "nil" then Nil
    else if name in w.vars then w.vars[name]
    else if name in w.globals then w.globals[name] else Nil
  }

  function NameOf(ast: Ast, r: Ref): string {
    if r.Old? && r.id in ast.nodes && ast.nodes[r.id].Ident? then ast.nodes[r.id].name else ""
  }

  // ----- expressions -----

  function EvalNode(lang: Lang, ast: Ast, fuel: nat, id: NodeId, w: World): (Value, World)
    decreases fuel, id, 2, 0
  {
    if id !in ast.nodes then (Nil, w)
    else
      match ast.nodes[id]
      case Ident(name) => (Read(w, name), w)
      case BasicLit(n) => (Int(n), w)
      case Selector(x, sel) =>
        var (v, w1) := EvalRef(lang, ast, fuel, x, id, w);
        (lang.field(v, NameOf(ast, sel), w1), w1)
      case Not(x) =>
        var (v, w1) := EvalRef(lang, ast, fuel, x, id, w);
        (if v == Bool(true) then Bool(false) else if v == Bool(false) then Bool(true) else v, w1)
      case Paren(x) => EvalRef(lang, ast, fuel, x, id, w)
      case Binary(op, x, y) =>
        var (v, w1) := EvalRef(lang, ast, fuel, x, id, w);
        if op == LAnd then (if v == Bool(true) then EvalRef(lang, ast, fuel, y, id, w1) else (v, w1))
        else if op == LOr then (if v == Bool(false) then EvalRef(lang, ast, fuel, y, id, w1) else (v, w1))
        else var (u, w2) := EvalRef(lang, ast, fuel, y, id, w1); (Operate(lang, op, v, u), w2)
      case Call(fun, args) =>
        var (f, w1) := EvalRef(lang, ast, fuel, fun, id, w);
        var (vs, w2) := EvalList(lang, ast, fuel, ExprsOf(ast, args), id, w1);
        CallValue(lang, ast, fuel, f, vs, w2.(trace := w2.trace + [Called(f, vs)]))
      case Other(kids) => var (vs, w1) := EvalList(lang, ast, fuel, kids, id, w); (lang.build(vs), w1)
      case _ => (Nil, w)
  }

  /** A call of a declared function runs its body on variables of its own. */
  function CallValue(lang: Lang, ast: Ast, fuel: nat, f: Value, args: seq<Value>, w: World): (Value, World)
    decreases fuel, 0, 0, 0
  {
    if !f.Fun? || f.decl !in ast.nodes || !ast.nodes[f.decl].FuncDecl? then lang.call(f, args, w)
    else if fuel == 0 then (Nil, w.(spent := true))
    else
      var decl := ast.nodes[f.decl];
      var start := w.(vars := Bind(ast, decl.params, f.bound + args));
      AfterCall(w, ExecRef(lang, ast, fuel - 1, decl.body, f.decl, start))
  }

  function Bind(ast: Ast, params: seq<Ref>, args: seq<Value>): map<string, Value> {
    if params == [] || args == [] then map[]
    else map[NameOf(ast, params[0]) := args[0]] + Bind(ast, params[1..], args[1..])
  }

  /** The caller gets its own variables back. */
  function AfterCall(caller: World, o: Outcome): (Value, World) {
    match o
    case Unfinished => (Nil, caller.(spent := true))
    case Returned(w, results) =>
      (if |results| == 1 then results[0] else Tuple(results), w.(vars := caller.vars))
    case _ => (Tuple([]), o.w.(vars := caller.vars))
  }

  function Operate(lang: Lang, op: BinaryOp, v: Value, u: Value): Value {
    match op
    case Eql => Bool(v == u)
    case Neq => Bool(v != u)
    case Arith(name) => lang.operate(name, v, u)
    case _ => Nil
  }

  function EvalRef(lang: Lang, ast: Ast, fuel: nat, r: Ref, limit: nat, w: World): (Value, World)
    decreases fuel, limit, 0, 1
  {
    match r
    case Old(id) => if id < limit then EvalNode(lang, ast, fuel, id, w) else (Nil, w)
    case New(tree) => EvalFresh(lang, ast, fuel, tree, limit, w)
  }

  /** A fresh term: a name, a zero, a shared selector, or the zero value of a composite type. */
  function EvalFresh(lang: Lang, ast: Ast, fuel: nat, tree: Fresh, limit: nat, w: World): (Value, World)
    decreases fuel, limit, 0, 0
  {
    match tree
    case FIdent(name) => (Read(w, name), w)
    case FZero => (Int(0), w)
    case FShared(id) => if id < limit then EvalNode(lang, ast, fuel, id, w) else (Nil, w)
    case FComposite(_) => (lang.build([]), w)
    case _ => (Nil, w)
  }

  function EvalList(lang: Lang, ast: Ast, fuel: nat, refs: seq<Ref>, limit: nat, w: World): (seq<Value>, World)
    decreases fuel, limit, 1, |refs|
  {
    if refs == [] then ([], w)
    else
      var (v, w1) := EvalRef(lang, ast, fuel, refs[0], limit, w);
      var (vs, w2) := EvalList(lang, ast, fuel, refs[1..], limit, w1);
      ([v] + vs, w2)
  }

  function EvalFreshList(lang: Lang, ast: Ast, fuel: nat, trees: seq<Fresh>, limit: nat, w: World): (seq<Value>, World)
    decreases fuel, limit, 1, |trees|
  {
    if trees == [] then ([], w)
    else
      var (v, w1) := EvalFresh(lang, ast, fuel, trees[0], limit, w);
      var (vs, w2) := EvalFreshList(lang, ast, fuel, trees[1..], limit, w1);
      ([v] + vs, w2)
  }

  // ----- assignment -----

  /** A local variable hides the global one of its name. */
  function SetVar(w: World, name: string, v: Value): World {
    if name == "_" then w
    else if name !in w.vars && name in w.globals then w.(globals := w.globals[name := v])
    else w.(vars := w.vars[name := v])
  }

  /** The names on the left of `:=` become local. */
  function Declared(ast: Ast, lhs: seq<Ref>, w: World): World {
    if lhs == [] then w
    else
      var name := NameOf(ast, lhs[0]);
      Declared(ast, lhs[1..], if name in w.vars then w else w.(vars := w.vars[name := Nil]))
  }

  /** One call on the right may give all values. */
  function Spread(vs: seq<Value>): seq<Value> {
    if |vs| == 1 && vs[0].Tuple? then vs[0].elems else vs
  }

  function AssignNode(lang: Lang, ast: Ast, fuel: nat, id: NodeId, v: Value, w: World): World
    decreases fuel, id, 2, 1
  {
    if id !in ast.nodes then w
    else
      match ast.nodes[id]
      case Ident(name) => SetVar(w, name, v)
      case Selector(x, sel) =>
        var (target, w1) := EvalRef(lang, ast, fuel, x, id, w); lang.setField(target, NameOf(ast, sel), v, w1)
      case Other(kids) => var (vs, w1) := EvalList(lang, ast, fuel, kids, id, w); lang.setElement(vs, v, w1)
      case _ => w
  }

  function AssignRef(lang: Lang, ast: Ast, fuel: nat, r: Ref, limit: nat, v: Value, w: World): World
    decreases fuel, limit, 0, 2
  {
    match r
    case Old(id) => if id < limit then AssignNode(lang, ast, fuel, id, v, w) else w
    case New(FIdent(name)) => SetVar(w, name, v)
    case New(FShared(id)) => if id < limit then AssignNode(lang, ast, fuel, id, v, w) else w
    case New(_) => w
  }

  /** Values beyond the shorter list are dropped; the type checker rules that out. */
  function AssignAll(lang: Lang, ast: Ast, fuel: nat, targets: seq<Ref>, limit: nat, vs: seq<Value>, w: World): World
    decreases fuel, limit, 1, |targets|
  {
    if targets == [] || vs == [] then w
    else
      var w1 := AssignRef(lang, ast, fuel, targets[0], limit, vs[0], w);
      AssignAll(lang, ast, fuel, targets[1..], limit, vs[1..], w1)
  }

  function AsRefs(trees: seq<Fresh>): seq<Ref> {
    seq(|trees|, i requires 0 <= i < |trees| => New(trees[i]))
  }

  // ----- statements -----

  function ExecNode(lang: Lang, ast: Ast, fuel: nat, id: NodeId, w: World): Outcome
    decreases fuel, id, 6, 0
  {
    if id !in ast.nodes then Running(w)
    else
      match ast.nodes[id]
      case ExprStmt(x) => Running(EvalRef(lang, ast, fuel, x, id, w).1)
      case IncDec(x, increment) =>
        var (v, w1) := EvalRef(lang, ast, fuel, x, id, w);
        Running(AssignRef(lang, ast, fuel, x, id, lang.operate(if increment then "++" else "--", v, Int(1)), w1))
      case Assign(lhs, tok, rhs) =>
        Running(ExecAssign(lang, ast, fuel, ExprsOf(ast, lhs), tok, ExprsOf(ast, rhs), id, w))
      case Block(list) => ExecList(lang, ast, fuel, StmtsOf(ast, list), id, w)
      case Case(_, list) => ExecList(lang, ast, fuel, StmtsOf(ast, list), id, w)
      case If(init, cond, body, els) =>
        var o := ExecOpt(lang, ast, fuel, init, id, w);
        if !o.Running? then o
        else
          var (v, w1) := EvalRef(lang, ast, fuel, cond, id, o.w);
          if v == Bool(true) then ExecRef(lang, ast, fuel, body, id, w1) else ExecOpt(lang, ast, fuel, els, id, w1)
      case Switch(init, tag, body) =>
        var o := ExecOpt(lang, ast, fuel, init, id, w);
        if !o.Running? then o
        else
          var (t, w1) := if tag.Some? then EvalRef(lang, ast, fuel, tag.value, id, o.w) else (Bool(true), o.w);
          AfterSwitch(ExecSwitch(lang, ast, fuel, body, id, t, w1))
      case For(init, test, post, body) =>
        var o := ExecOpt(lang, ast, fuel, init, id, w);
        if !o.Running? then o else ExecLoop(lang, ast, fuel, fuel, test, post, body, id, o.w)
      case Break => Broke(w)
      case Continue => Continued(w)
      case Return(results) =>
        var (vs, w1) := EvalList(lang, ast, fuel, ExprsOf(ast, results), id, w);
        Returned(w1, Spread(vs))
      case FuncDecl(ident, _, _) => Running(w.(globals := w.globals[NameOf(ast, ident) := Fun(id, [])]))
      case Other(kids) => ExecList(lang, ast, fuel, kids, id, w)
      case _ => Running(EvalNode(lang, ast, fuel, id, w).1)
  }

  function ExecAssign(lang: Lang, ast: Ast, fuel: nat, lhs: seq<Ref>, tok: AssignTok, rhs: seq<Ref>, limit: nat,
                      w: World): World
    decreases fuel, limit, 2, 0
  {
    match tok
    case Compound(op) =>
      if lhs == [] || rhs == [] then w
      else
        var (v, w1) := EvalRef(lang, ast, fuel, lhs[0], limit, w);
        var (u, w2) := EvalRef(lang, ast, fuel, rhs[0], limit, w1);
        AssignRef(lang, ast, fuel, lhs[0], limit, lang.operate(op, v, u), w2)
    case Define =>
      var (vs, w1) := EvalList(lang, ast, fuel, rhs, limit, w);
      AssignAll(lang, ast, fuel, lhs, limit, Spread(vs), Declared(ast, lhs, w1))
    case Set =>
      var (vs, w1) := EvalList(lang, ast, fuel, rhs, limit, w);
      AssignAll(lang, ast, fuel, lhs, limit, Spread(vs), w1)
  }

  function ExecRef(lang: Lang, ast: Ast, fuel: nat, r: Ref, limit: nat, w: World): Outcome
    decreases fuel, limit, 3, 0
  {
    match r
    case Old(id) => if id < limit then ExecNode(lang, ast, fuel, id, w) else Running(w)
    case New(tree) => Running(ExecFresh(lang, ast, fuel, tree, limit, w))
  }

  function ExecFresh(lang: Lang, ast: Ast, fuel: nat, tree: Fresh, limit: nat, w: World): World
    decreases fuel, limit, 2, 0
  {
    match tree
    case FAssign(lhs, rhs) =>
      var (vs, w1) := EvalFreshList(lang, ast, fuel, rhs, limit, w);
      AssignAll(lang, ast, fuel, AsRefs(lhs), limit, vs, w1)
    case _ => w
  }

  function ExecOpt(lang: Lang, ast: Ast, fuel: nat, r: Option<Ref>, limit: nat, w: World): Outcome
    decreases fuel, limit, 4, 0
  {
    match r
    case None => Running(w)
    case Some(x) => ExecRef(lang, ast, fuel, x, limit, w)
  }

  function ExecList(lang: Lang, ast: Ast, fuel: nat, refs: seq<Ref>, limit: nat, w: World): Outcome
    decreases fuel, limit, 4, |refs|
  {
    if refs == [] then Running(w)
    else
      var o := ExecRef(lang, ast, fuel, refs[0], limit, w);
      if !o.Running? then o else ExecList(lang, ast, fuel, refs[1..], limit, o.w)
  }

  /** `n` rounds are left. */
  function ExecLoop(lang: Lang, ast: Ast, fuel: nat, n: nat, test: Option<Ref>, post: Option<Ref>, body: Ref,
                    limit: nat, w: World): Outcome
    decreases fuel, limit, 5, n
  {
    if n == 0 then Unfinished
    else
      var (v, w1) := if test.Some? then EvalRef(lang, ast, fuel, test.value, limit, w) else (Bool(true), w);
      if v != Bool(true) then Running(w1)
      else
        var o := ExecRef(lang, ast, fuel, body, limit, w1);
        if o.Broke? then Running(o.w)
        else if !o.Running? && !o.Continued? then o
        else
          var p := ExecOpt(lang, ast, fuel, post, limit, o.w);
          if !p.Running? then p else ExecLoop(lang, ast, fuel, n - 1, test, post, body, limit, p.w)
  }

  function AfterSwitch(o: Outcome): Outcome {
    if o.Broke? then Running(o.w) else o
  }

  /** The clauses of the switch are the statements of its body. */
  function Clauses(ast: Ast, body: Ref, limit: nat): seq<Ref> {
    if body.Old? && body.id < limit && body.id in ast.nodes && ast.nodes[body.id].Block?
    then StmtsOf(ast, ast.nodes[body.id].list) else []
  }

  function ExecSwitch(lang: Lang, ast: Ast, fuel: nat, body: Ref, limit: nat, tag: Value, w: World): Outcome
    decreases fuel, limit, 5, 0
  {
    var (clause, w1) := SelectClause(lang, ast, fuel, Clauses(ast, body, limit), limit, tag, None, w);
    ExecOpt(lang, ast, fuel, clause, limit, w1)
  }

  predicate IsClause(ast: Ast, r: Ref, limit: nat) {
    r.Old? && r.id < limit && r.id in ast.nodes && ast.nodes[r.id].Case?
  }

  /** The first clause with an expression equal to the tag, or the default clause if there is none. */
  function SelectClause(lang: Lang, ast: Ast, fuel: nat, clauses: seq<Ref>, limit: nat, tag: Value,
                        default: Option<Ref>, w: World)
    : (Option<Ref>, World)
    decreases fuel, limit, 2, |clauses|
  {
    if clauses == [] then (default, w)
    else if !IsClause(ast, clauses[0], limit) then SelectClause(lang, ast, fuel, clauses[1..], limit, tag, default, w)
    else
      var exprs := ExprsOf(ast, ast.nodes[clauses[0].id].exprs);
      if exprs == [] then SelectClause(lang, ast, fuel, clauses[1..], limit, tag, Some(clauses[0]), w)
      else
        var (found, w1) := Matches(lang, ast, fuel, exprs, clauses[0].id, tag, w);
        if found then (Some(clauses[0]), w1)
        else SelectClause(lang, ast, fuel, clauses[1..], limit, tag, default, w1)
  }

  function Matches(lang: Lang, ast: Ast, fuel: nat, exprs: seq<Ref>, limit: nat, tag: Value, w: World): (bool, World)
    decreases fuel, limit, 1, |exprs|
  {
    if exprs == [] then (false, w)
    else
      var (v, w1) := EvalRef(lang, ast, fuel, exprs[0], limit, w);
      if v == tag then (true, w1) else Matches(lang, ast, fuel, exprs[1..], limit, tag, w1)
  }
}
