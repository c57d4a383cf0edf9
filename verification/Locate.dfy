/** locate.go: recognising error handling and reads from a connection. */
module Locate {
  import opened Options
  import opened GoAst

  /** The object an identifier node uses, if the reference is an identifier and the checker recorded one. */
  function UsedObject(ast: Ast, info: Info, r: Ref): Option<Object> {
    if r.Old? && r.id in ast.nodes && ast.nodes[r.id].Ident? && r.id in info.uses then Some(info.uses[r.id]) else None
  }

  predicate IsConditionalErrorHandling(ast: Ast, info: Info, x: Ref, y: Ref) {
    var xObj, yObj := UsedObject(ast, info, x), UsedObject(ast, info, y);
    xObj.Some? && yObj.Some? &&
    ((xObj.value.typeName == "error" && yObj.value.untypedNil)
     || (yObj.value.typeName == "error" && xObj.value.untypedNil))
  }

  /** The block of error-handling code that belongs to an if statement, looking through `err == nil` to its else. */
  function IsErrorHandlingCode(ast: Ast, info: Info, id: NodeId): (block: Option<NodeId>)
    requires Parsed(ast) && id in ast.nodes
    ensures block.Some? ==> block.value < id && block.value in ast.nodes && ast.nodes[block.value].Block?
    decreases id
  {
    assert NodeParsed(ast, id);
    match ast.nodes[id]
    case If(_, cond, body, els) =>
      if cond.Old? && cond.id in ast.nodes && ast.nodes[cond.id].Binary? then
        var test := ast.nodes[cond.id];
        if !IsConditionalErrorHandling(ast, info, test.x, test.y) then None
        else if test.op == Neq then Some(body.id)
        else if test.op == Eql && els.Some? then
          if ast.nodes[els.value.id].If? then IsErrorHandlingCode(ast, info, els.value.id)
          else Some(els.value.id)
        else None
      else None
    case _ => None
  }

  // ----- reads -----

  /** `strings.EqualFold(name, "read")`. */
  predicate IsReadName(name: string) {
    |name| == 4 && name[0] in {'r', 'R'} && name[1] in {'e', 'E'} && name[2] in {'a', 'A'} && name[3] in {'d', 'D'}
  }

  /** A call of a method or function selected as `Read`, whatever it is selected from. */
  predicate IsReadOperation(ast: Ast, r: Ref) {
    r.Old? && r.id in ast.nodes && ast.nodes[r.id].Call? &&
    var fun := ast.nodes[r.id].fun;
    fun.Old? && fun.id in ast.nodes && ast.nodes[fun.id].Selector? &&
    var sel := ast.nodes[fun.id].sel;
    sel.Old? && sel.id in ast.nodes && ast.nodes[sel.id].Ident? && IsReadName(ast.nodes[sel.id].name)
  }

  /** An identifier on the left that has an object whose type is not `error`. */
  predicate HoldsBytesRead(ast: Ast, info: Info, r: Ref) {
    r.Old? && r.id in ast.nodes && ast.nodes[r.id].Ident? &&
    ((r.id in info.uses && info.uses[r.id].typeName != "error")
     || (r.id !in info.uses && r.id in info.defs && info.defs[r.id].typeName != "error"))
  }

  function CreateZeroAssignment(ast: Ast, info: Info, lhs: seq<Ref>): Option<Fresh> {
    if lhs == [] then None
    else if HoldsBytesRead(ast, info, lhs[0]) then Some(FAssign([FShared(lhs[0].id)], [FZero]))
    else CreateZeroAssignment(ast, info, lhs[1..])
  }

  function CreateReadZeroAssignment(ast: Ast, info: Info, stmt: Ref): Option<Fresh> {
    if stmt.Old? && stmt.id in ast.nodes && ast.nodes[stmt.id].Assign? then
      var assign := ast.nodes[stmt.id];
      if exists k | 0 <= k < |ExprsOf(ast, assign.rhs)| :: IsReadOperation(ast, ExprsOf(ast, assign.rhs)[k])
      then CreateZeroAssignment(ast, info, ExprsOf(ast, assign.lhs))
      else None
    else None
  }
}
