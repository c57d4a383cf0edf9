/** query.go and create.go: the variables a statement mentions, and the statement `_, _ = x, y` that keeps them used. */
module Noops {
  import opened Options
  import opened Sequences
  import opened GoAst

  /** `token.Lookup` knows the name as a keyword of Go. */
  predicate IsKeyword(name: string) {
    match |name|
    case 2 => name == "go" || name == "if"
    case 3 => name == "for" || name == "map" || name == "var"
    case 4 => name == "case" || name == "chan" || name == "else" || name == "func" || name == "goto" || name == "type"
    case 5 => name == "break" || name == "const" || name == "defer" || name == "range"
    case 6 => name == "import" || name == "return" || name == "select" || name == "struct" || name == "switch"
    case 7 => name == "default" || name == "package"
    case 8 => name == "continue"
    case 9 => name == "interface"
    case 11 => name == "fallthrough"
    case _ => false
  }

  /** `checkForSelectorExpr`: a chain of selectors that starts at an identifier. */
  predicate Rooted(ast: Ast, r: Ref, bound: nat)
    decreases bound
  {
    match r
    case New(_) => false
    case Old(id) =>
      id < bound && id in ast.nodes &&
      match ast.nodes[id]
      case Ident(_) => true
      case Selector(x, _) => Rooted(ast, x, id)
      case _ => false
  }

  /** An identifier that names a variable, as far as the type information tells. */
  predicate IsVariable(info: Info, id: NodeId, name: string) {
    name != "_" && !IsKeyword(name) && (id in info.uses ==> info.uses[id].isVar)
  }

  /** What stands for a kept selector on the right-hand side. */
  function SelectorTerm(info: Info, id: NodeId, sel: Ref): Fresh {
    if sel.Old? && sel.id in info.uses && info.uses[sel.id].composite then FComposite(id) else FShared(id)
  }

  /** `IdentifiersInStatement`: the walk stops at every identifier and at every selector. */
  function Identifiers(ast: Ast, info: Info, id: NodeId): seq<Fresh>
    requires Parsed(ast) && id in ast.nodes
    decreases id, 1, 0
  {
    ParsedChildren(ast, id);
    match ast.nodes[id]
    case Ident(name) => if IsVariable(info, id, name) then [FIdent(name)] else []
    case Selector(_, sel) => if Rooted(ast, Old(id), id + 1) then [SelectorTerm(info, id, sel)] else []
    case _ => IdentifiersOfAll(ast, info, Children(ast, ast.nodes[id]), id)
  }

  function IdentifiersOfAll(ast: Ast, info: Info, refs: seq<Ref>, bound: nat): seq<Fresh>
    requires Parsed(ast) && AllOld(ast, refs, bound)
    decreases bound, 0, |refs|
  {
    if refs == [] then []
    else
      assert IsOld(ast, refs[0], bound);
      Identifiers(ast, info, refs[0].id) + IdentifiersOfAll(ast, info, refs[1..], bound)
  }

  /** `CreateNoopOfStatements`. */
  function Noop(ast: Ast, info: Info, stmts: seq<Ref>, bound: nat): Fresh
    requires Parsed(ast) && AllOld(ast, stmts, bound)
  {
    NoopOf(IdentifiersOfAll(ast, info, stmts, bound))
  }

  function NoopOf(ids: seq<Fresh>): Fresh {
    if ids == [] then FEmpty else FAssign(seq(|ids|, i => FIdent("_")), ids)
  }

  // ----- the same collection, defined by the whole tree -----

  /** Every node of the subtree in pre-order, with the outermost selector strictly above it. */
  ghost function Occurrences(ast: Ast, id: NodeId, above: Option<NodeId>): seq<(NodeId, Option<NodeId>)>
    requires Parsed(ast) && id in ast.nodes
    decreases id, 1, 0
  {
    ParsedChildren(ast, id);
    var below := if above == None && ast.nodes[id].Selector? then Some(id) else above;
    [(id, above)] + OccurrencesOfAll(ast, Children(ast, ast.nodes[id]), id, below)
  }

  ghost function OccurrencesOfAll(ast: Ast, refs: seq<Ref>, bound: nat, above: Option<NodeId>)
    : seq<(NodeId, Option<NodeId>)>
    requires Parsed(ast) && AllOld(ast, refs, bound)
    decreases bound, 0, |refs|
  {
    if refs == [] then []
    else
      assert IsOld(ast, refs[0], bound);
      Occurrences(ast, refs[0].id, above) + OccurrencesOfAll(ast, refs[1..], bound, above)
  }

  /** The contribution of one node: a variable or a selector rooted in an identifier, if no selector is above it. */
  ghost function Contribution(ast: Ast, info: Info, occurrence: (NodeId, Option<NodeId>)): seq<Fresh> {
    var (id, above) := occurrence;
    if above.Some? || id !in ast.nodes then []
    else
      match ast.nodes[id]
      case Ident(name) => if IsVariable(info, id, name) then [FIdent(name)] else []
      case Selector(_, sel) => if Rooted(ast, Old(id), id + 1) then [SelectorTerm(info, id, sel)] else []
      case _ => []
  }

  ghost function Contributions(ast: Ast, info: Info, occurrences: seq<(NodeId, Option<NodeId>)>): seq<Fresh> {
    if occurrences == [] then []
    else Contribution(ast, info, occurrences[0]) + Contributions(ast, info, occurrences[1..])
  }

  lemma {:induction false} ContributionsConcat(ast: Ast, info: Info, a: seq<(NodeId, Option<NodeId>)>,
                                               b: seq<(NodeId, Option<NodeId>)>)
    ensures Contributions(ast, info, a + b) == Contributions(ast, info, a) + Contributions(ast, info, b)
  {
    if a == [] {
      assert a + b == b;
    } else {
      ContributionsConcat(ast, info, a[1..], b);
      assert (a + b)[1..] == a[1..] + b;
      Assoc(Contribution(ast, info, a[0]), Contributions(ast, info, a[1..]), Contributions(ast, info, b));
    }
  }

  /** Nothing below a selector contributes. */
  lemma {:induction false} NothingUnderSelector(ast: Ast, info: Info, refs: seq<Ref>, bound: nat, above: Option<NodeId>)
    requires Parsed(ast) && AllOld(ast, refs, bound) && above.Some?
    ensures Contributions(ast, info, OccurrencesOfAll(ast, refs, bound, above)) == []
    decreases bound, |refs|
  {
    if refs != [] {
      assert IsOld(ast, refs[0], bound);
      var id := refs[0].id;
      ParsedChildren(ast, id);
      var kids := OccurrencesOfAll(ast, Children(ast, ast.nodes[id]), id, above);
      NothingUnderSelector(ast, info, Children(ast, ast.nodes[id]), id, above);
      NothingUnderSelector(ast, info, refs[1..], bound, above);
      ContributionsConcat(ast, info, [(id, above)], kids);
      ContributionsConcat(ast, info, Occurrences(ast, id, above), OccurrencesOfAll(ast, refs[1..], bound, above));
    }
  }

  /** The pruned walk collects exactly the contributions of the full pre-order traversal, in order. */
  lemma {:induction false} CollectsContributions(ast: Ast, info: Info, id: NodeId)
    requires Parsed(ast) && id in ast.nodes
    ensures Identifiers(ast, info, id) == Contributions(ast, info, Occurrences(ast, id, None))
    decreases id, 1, 0
  {
    ParsedChildren(ast, id);
    var node := ast.nodes[id];
    var below := if node.Selector? then Some(id) else None;
    var kids := OccurrencesOfAll(ast, Children(ast, node), id, below);
    ContributionsConcat(ast, info, [(id, None)], kids);
    if node.Selector? {
      NothingUnderSelector(ast, info, Children(ast, node), id, below);
    } else {
      CollectsAll(ast, info, Children(ast, node), id);
    }
  }

  lemma {:induction false} CollectsAll(ast: Ast, info: Info, refs: seq<Ref>, bound: nat)
    requires Parsed(ast) && AllOld(ast, refs, bound)
    ensures IdentifiersOfAll(ast, info, refs, bound)
            == Contributions(ast, info, OccurrencesOfAll(ast, refs, bound, None))
    decreases bound, 0, |refs|
  {
    if refs != [] {
      assert IsOld(ast, refs[0], bound);
      CollectsContributions(ast, info, refs[0].id);
      CollectsAll(ast, info, refs[1..], bound);
      ContributionsConcat(ast, info, Occurrences(ast, refs[0].id, None),
                          OccurrencesOfAll(ast, refs[1..], bound, None));
    }
  }

  // ----- what is kept and what is lost -----

  lemma {:induction false} Contributes(ast: Ast, info: Info, occurrences: seq<(NodeId, Option<NodeId>)>,
                                       o: (NodeId, Option<NodeId>))
    requires o in occurrences
    ensures forall x | x in Contribution(ast, info, o) :: x in Contributions(ast, info, occurrences)
  {
    if occurrences[0] != o {
      assert o in occurrences[1..];
      Contributes(ast, info, occurrences[1..], o);
    }
  }

  /** The selector recorded above an occurrence is itself an occurrence with nothing above it. */
  lemma {:induction false} OutermostOccurs(ast: Ast, id: NodeId, o: (NodeId, Option<NodeId>))
    requires Parsed(ast) && id in ast.nodes
    requires o in Occurrences(ast, id, None) && o.1.Some?
    ensures o.1.value in ast.nodes && ast.nodes[o.1.value].Selector?
    ensures (o.1.value, None) in Occurrences(ast, id, None)
    decreases id, 1, 0
  {
    ParsedChildren(ast, id);
    var kids := Children(ast, ast.nodes[id]);
    if ast.nodes[id].Selector? {
      SameAbove(ast, kids, id, Some(id), o);
    } else {
      OutermostInAll(ast, kids, id, o);
    }
  }

  lemma {:induction false} SameAbove(ast: Ast, refs: seq<Ref>, bound: nat, above: Option<NodeId>,
                                     o: (NodeId, Option<NodeId>))
    requires Parsed(ast) && AllOld(ast, refs, bound) && above.Some?
    requires o in OccurrencesOfAll(ast, refs, bound, above)
    ensures o.1 == above
    decreases bound, |refs|
  {
    assert IsOld(ast, refs[0], bound);
    var id := refs[0].id;
    ParsedChildren(ast, id);
    if o in OccurrencesOfAll(ast, refs[1..], bound, above) {
      SameAbove(ast, refs[1..], bound, above, o);
    } else if o != (id, above) {
      SameAbove(ast, Children(ast, ast.nodes[id]), id, above, o);
    }
  }

  lemma {:induction false} OutermostInAll(ast: Ast, refs: seq<Ref>, bound: nat, o: (NodeId, Option<NodeId>))
    requires Parsed(ast) && AllOld(ast, refs, bound)
    requires o in OccurrencesOfAll(ast, refs, bound, None) && o.1.Some?
    ensures o.1.value in ast.nodes && ast.nodes[o.1.value].Selector?
    ensures (o.1.value, None) in OccurrencesOfAll(ast, refs, bound, None)
    decreases bound, 0, |refs|
  {
    assert IsOld(ast, refs[0], bound);
    if o in Occurrences(ast, refs[0].id, None) {
      OutermostOccurs(ast, refs[0].id, o);
    } else {
      OutermostInAll(ast, refs[1..], bound, o);
    }
  }

  /** Every occurrence of a variable keeps the variable used: by itself, or through the selector chain around it
      when that chain starts at an identifier. Only what sits below another kind of selector is lost. */
  lemma VariableKept(ast: Ast, info: Info, id: NodeId, o: (NodeId, Option<NodeId>))
    requires Parsed(ast) && id in ast.nodes
    requires o in Occurrences(ast, id, None)
    requires o.0 in ast.nodes && ast.nodes[o.0].Ident? && IsVariable(info, o.0, ast.nodes[o.0].name)
    ensures match o.1
            case None => FIdent(ast.nodes[o.0].name) in Identifiers(ast, info, id)
            case Some(s) =>
              && s in ast.nodes && ast.nodes[s].Selector?
              && (Rooted(ast, Old(s), s + 1) ==>
                    SelectorTerm(info, s, ast.nodes[s].sel) in Identifiers(ast, info, id))
  {
    CollectsContributions(ast, info, id);
    var occurrences := Occurrences(ast, id, None);
    Contributes(ast, info, occurrences, o);
    if o.1.Some? {
      OutermostOccurs(ast, id, o);
      Contributes(ast, info, occurrences, (o.1.value, None));
    }
  }

  // ----- the no-op statement -----

  /** A block and the list of its statements have the same no-op. */
  lemma BlockNoop(ast: Ast, info: Info, id: NodeId)
    requires Parsed(ast) && id in ast.nodes && ast.nodes[id].Block?
    ensures AllOld(ast, StmtsOf(ast, ast.nodes[id].list), id)
    ensures Noop(ast, info, [Old(id)], id + 1) == Noop(ast, info, StmtsOf(ast, ast.nodes[id].list), id)
  {
    ParsedChildren(ast, id);
    var one := [Old(id)];
    assert one[1..] == [];
    assert IdentifiersOfAll(ast, info, one, id + 1) == Identifiers(ast, info, id) + [];
  }

  /** Collection distributes over concatenation of statement lists. */
  lemma {:induction false} CollectionConcat(ast: Ast, info: Info, a: seq<Ref>, b: seq<Ref>, bound: nat)
    requires Parsed(ast) && AllOld(ast, a, bound) && AllOld(ast, b, bound)
    ensures AllOld(ast, a + b, bound)
    ensures IdentifiersOfAll(ast, info, a + b, bound)
            == IdentifiersOfAll(ast, info, a, bound) + IdentifiersOfAll(ast, info, b, bound)
  {
    assert AllOld(ast, a + b, bound);
    if a == [] {
      assert a + b == b;
    } else {
      assert IsOld(ast, a[0], bound);
      assert (a + b)[1..] == a[1..] + b;
      CollectionConcat(ast, info, a[1..], b, bound);
      Assoc(Identifiers(ast, info, a[0].id), IdentifiersOfAll(ast, info, a[1..], bound),
            IdentifiersOfAll(ast, info, b, bound));
    }
  }

  /** The left side blanks out each collected expression, one for one. */
  lemma NoopShape(ast: Ast, info: Info, stmts: seq<Ref>, bound: nat)
    requires Parsed(ast) && AllOld(ast, stmts, bound)
    ensures match Noop(ast, info, stmts, bound)
            case FEmpty => IdentifiersOfAll(ast, info, stmts, bound) == []
            case FAssign(lhs, rhs) =>
              && |lhs| == |rhs| >= 1
              && (forall k | 0 <= k < |lhs| :: lhs[k] == FIdent("_"))
              && rhs == Contributions(ast, info, OccurrencesOfAll(ast, stmts, bound, None))
            case _ => false
  {
    CollectsAll(ast, info, stmts, bound);
  }

  // ----- the same as it runs -----

  /** The visitor of `IdentifiersInStatement`: it appends to a field while the tree is walked. */
  class IdentifierWalker {
    var identifiers: seq<Fresh>
    const info: Info

    constructor (info: Info)
      ensures identifiers == [] && this.info == info
    {
      this.info := info;
      identifiers := [];
    }

    /** `Visit` together with the descent of `ast.Walk`. */
    method Walk(ast: Ast, id: NodeId)
      requires Parsed(ast) && id in ast.nodes
      modifies this
      ensures identifiers == old(identifiers) + Identifiers(ast, info, id)
      decreases id, 1
    {
      ParsedChildren(ast, id);
      match ast.nodes[id] {
        case Ident(name) =>
          if IsVariable(info, id, name) {
            identifiers := identifiers + [FIdent(name)];
          }
        case Selector(_, sel) =>
          if Rooted(ast, Old(id), id + 1) {
            identifiers := identifiers + [SelectorTerm(info, id, sel)];
          }
        case _ =>
          WalkAll(ast, Children(ast, ast.nodes[id]), id);
      }
    }

    /** The loop of `ast.Walk` over the children of one node. */
    method WalkAll(ast: Ast, refs: seq<Ref>, bound: nat)
      requires Parsed(ast) && AllOld(ast, refs, bound)
      modifies this
      ensures identifiers == old(identifiers) + IdentifiersOfAll(ast, info, refs, bound)
      decreases bound, 0
    {
      ghost var start := identifiers;
      assert refs[..0] == [];
      for i := 0 to |refs|
        invariant AllOld(ast, refs[..i], bound)
        invariant identifiers == start + IdentifiersOfAll(ast, info, refs[..i], bound)
      {
        CollectedPrefix(ast, info, refs, bound, i);
        Walk(ast, refs[i].id);
        Assoc(start, IdentifiersOfAll(ast, info, refs[..i], bound), Identifiers(ast, info, refs[i].id));
      }
      assert refs[..|refs|] == refs;
    }
  }

  lemma CollectedPrefix(ast: Ast, info: Info, refs: seq<Ref>, bound: nat, i: nat)
    requires Parsed(ast) && AllOld(ast, refs, bound) && i < |refs|
    ensures IsOld(ast, refs[i], bound) && AllOld(ast, refs[..i], bound) && AllOld(ast, refs[..i + 1], bound)
    ensures IdentifiersOfAll(ast, info, refs[..i + 1], bound)
            == IdentifiersOfAll(ast, info, refs[..i], bound) + Identifiers(ast, info, refs[i].id)
  {
    assert IsOld(ast, refs[i], bound);
    var one := [refs[i]];
    assert refs[..i + 1] == refs[..i] + one;
    CollectionConcat(ast, info, refs[..i], one, bound);
    assert one[1..] == [];
    assert IdentifiersOfAll(ast, info, one, bound) == Identifiers(ast, info, refs[i].id) + [];
  }

  method CreateNoopOfStatements(ast: Ast, info: Info, stmts: seq<Ref>, ghost bound: nat) returns (noop: Fresh)
    requires Parsed(ast) && AllOld(ast, stmts, bound)
    ensures noop == Noop(ast, info, stmts, bound)
  {
    var ids: seq<Fresh> := [];
    assert stmts[..0] == [];
    for i := 0 to |stmts|
      invariant AllOld(ast, stmts[..i], bound)
      invariant ids == IdentifiersOfAll(ast, info, stmts[..i], bound)
    {
      CollectedPrefix(ast, info, stmts, bound, i);
      var w := new IdentifierWalker(info);
      w.Walk(ast, stmts[i].id);
      ids := ids + w.identifiers;
    }
    assert stmts[..|stmts|] == stmts;
    if |ids| == 0 {
      return FEmpty;
    }
    var lhs := new Fresh[|ids|](_ => FEmpty);
    for i := 0 to |ids|
      invariant forall k | 0 <= k < i :: lhs[k] == FIdent("_")
    {
      lhs[i] := FIdent("_");
    }
    assert lhs[..] == seq(|ids|, i => FIdent("_"));
    noop := FAssign(lhs[..], ids);
  }
}
