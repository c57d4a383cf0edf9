/** The syntax tree of a Go file as the store of nodes that `go/ast` builds: pointers are node ids, and a slice is
    the id of its backing array, so two slice headers over one array see each other's writes.

    Nodes that the mutators create are never changed afterwards; they are kept by value, as `Fresh` trees that may
    point back into the store. The store itself therefore grows no garbage, and "restored" is equality of stores. */
module GoAst {
  import opened Options

  type NodeId = nat
  type ArrayId = nat

  datatype Fresh =
    | FIdent(name: string)
    | FZero
    | FEmpty
    | FAssign(lhs: seq<Fresh>, rhs: seq<Fresh>)
    | FShared(id: NodeId)      // an existing node, used a second time
    | FComposite(typ: NodeId)  // a composite literal whose type is an existing selector

  datatype Ref = Old(id: NodeId) | New(tree: Fresh)

  datatype List = Shared(backing: ArrayId) | Built(elems: seq<Ref>)

  datatype BinaryOp = LAnd | LOr | Eql | Neq | Arith(op: string)

  datatype AssignTok = Define | Set | Compound(op: string)

  datatype Node =
    | Ident(name: string)
    | Selector(x: Ref, sel: Ref)
    | BasicLit(value: int)
    | Not(x: Ref)
    | Paren(x: Ref)
    | Binary(op: BinaryOp, x: Ref, y: Ref)
    | Call(fun: Ref, args: List)
    | ExprStmt(x: Ref)
    | IncDec(x: Ref, increment: bool)
    | Assign(lhs: List, tok: AssignTok, rhs: List)
    | Block(list: List)
    | If(init: Option<Ref>, cond: Ref, body: Ref, els: Option<Ref>)
    | Switch(init: Option<Ref>, tag: Option<Ref>, body: Ref)
    | Case(exprs: List, stmts: List)
    | For(init: Option<Ref>, test: Option<Ref>, post: Option<Ref>, body: Ref)
    | Break
    | Continue
    | Return(results: List)
    | FuncDecl(ident: Ref, params: seq<Ref>, body: Ref)  // a receiver is the first parameter
    | Empty
    | Other(kids: seq<Ref>)    // every kind of node that no mutator looks at

  /** `[]ast.Stmt` and `[]ast.Expr` have different types, so their backing arrays never coincide. */
  datatype Ast = Ast(nodes: map<NodeId, Node>, stmts: map<ArrayId, seq<Ref>>, exprs: map<ArrayId, seq<Ref>>)

  function StmtsOf(ast: Ast, l: List): seq<Ref> {
    match l
    case Shared(a) => if a in ast.stmts then ast.stmts[a] else []
    case Built(elems) => elems
  }

  function ExprsOf(ast: Ast, l: List): seq<Ref> {
    match l
    case Shared(a) => if a in ast.exprs then ast.exprs[a] else []
    case Built(elems) => elems
  }

  function Opt(r: Option<Ref>): seq<Ref> {
    match r
    case None => []
    case Some(x) => [x]
  }

  /** The children of a node in the order `ast.Walk` visits them. */
  function Children(ast: Ast, node: Node): seq<Ref> {
    match node
    case Selector(x, sel) => [x, sel]
    case Not(x) => [x]
    case Paren(x) => [x]
    case Binary(_, x, y) => [x, y]
    case Call(fun, args) => [fun] + ExprsOf(ast, args)
    case ExprStmt(x) => [x]
    case IncDec(x, _) => [x]
    case Assign(lhs, _, rhs) => ExprsOf(ast, lhs) + ExprsOf(ast, rhs)
    case Block(list) => StmtsOf(ast, list)
    case If(init, cond, body, els) => Opt(init) + [cond, body] + Opt(els)
    case Switch(init, tag, body) => Opt(init) + Opt(tag) + [body]
    case Case(exprs, body) => ExprsOf(ast, exprs) + StmtsOf(ast, body)
    case For(init, cond, post, body) => Opt(init) + Opt(cond) + Opt(post) + [body]
    case Return(results) => ExprsOf(ast, results)
    case FuncDecl(ident, params, body) => [ident] + params + [body]
    case Other(kids) => kids
    case _ => []
  }

  // ----- what the parser guarantees -----

  predicate IsOld(ast: Ast, r: Ref, bound: nat) {
    r.Old? && r.id < bound && r.id in ast.nodes
  }

  predicate AllOld(ast: Ast, refs: seq<Ref>, bound: nat) {
    forall k | 0 <= k < |refs| :: IsOld(ast, refs[k], bound)
  }

  predicate HasStmts(ast: Ast, l: List) {
    l.Shared? && l.backing in ast.stmts
  }

  predicate HasExprs(ast: Ast, l: List) {
    l.Shared? && l.backing in ast.exprs
  }

  /** One node as the parser builds it: nothing is fresh, and children have smaller ids than their parent. */
  predicate NodeParsed(ast: Ast, id: NodeId)
    requires id in ast.nodes
  {
    && AllOld(ast, Children(ast, ast.nodes[id]), id)
    && match ast.nodes[id]
       case Call(_, args) => HasExprs(ast, args)
       case Assign(lhs, _, rhs) => HasExprs(ast, lhs) && HasExprs(ast, rhs)
       case Block(list) => HasStmts(ast, list)
       case Case(exprs, body) => HasExprs(ast, exprs) && HasStmts(ast, body)
       case Return(results) => HasExprs(ast, results)
       case If(_, _, body, els) =>
         && IsOld(ast, body, id) && ast.nodes[body.id].Block?
         && (els.Some? ==> IsOld(ast, els.value, id)
                           && (ast.nodes[els.value.id].If? || ast.nodes[els.value.id].Block?))
       case Selector(_, sel) => IsOld(ast, sel, id) && ast.nodes[sel.id].Ident?
       case _ => true
  }

  ghost predicate Parsed(ast: Ast) {
    forall id {:trigger NodeParsed(ast, id)} | id in ast.nodes :: NodeParsed(ast, id)
  }

  lemma ParsedChildren(ast: Ast, id: NodeId)
    requires Parsed(ast) && id in ast.nodes
    ensures AllOld(ast, Children(ast, ast.nodes[id]), id)
  {
    assert NodeParsed(ast, id);
  }

  // ----- type information -----

  /** The object behind an identifier, as far as the mutators ask. */
  datatype Object = Object(isVar: bool, typeName: string, untypedNil: bool, composite: bool)

  /** `types.Info`; `timeouts` holds the calls for which `IsTimeoutCall` is true. */
  datatype Info = Info(uses: map<NodeId, Object>, defs: map<NodeId, Object>, timeouts: set<NodeId>)
}
