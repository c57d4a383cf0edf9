/** What a removing mutant holds in the place of what it removes: a statement that uses every variable the removed
    part used, so that the mutant still compiles. */
module KeptVariables {
  import opened Options
  import opened Sequences
  import opened GoAst
  import opened Noops
  import opened Mutators

  // ----- which occurrences count, said by the tree and the type information alone -----

  /** The keywords of Go. */
  function GoKeywords(): set<string> {
    {"break", "case", "chan", "const", "continue", "default", "defer", "else", "fallthrough", "for", "func", "go",
     "goto", "if", "import", "interface", "map", "package", "range", "return", "select", "struct", "switch", "type",
     "var"}
  }

  /** An identifier that may name a variable: not blank, no keyword, and nothing else as far as is known. */
  predicate NamesVariable(ast: Ast, info: Info, id: NodeId) {
    id in ast.nodes && ast.nodes[id].Ident? &&
    var name := ast.nodes[id].name;
    name != "_" && name !in GoKeywords() && (id in info.uses ==> info.uses[id].isVar)
  }

  /** From selector to selector, down to an identifier. */
  ghost predicate SelectorChain(ast: Ast, chain: seq<NodeId>) {
    && chain != []
    && (forall k | 0 <= k < |chain| - 1 ::
         chain[k] in ast.nodes && ast.nodes[chain[k]].Selector? && ast.nodes[chain[k]].x == Old(chain[k + 1]))
    && chain[|chain| - 1] in ast.nodes && ast.nodes[chain[|chain| - 1]].Ident?
  }

  ghost predicate FromIdentifier(ast: Ast, id: NodeId) {
    exists chain :: SelectorChain(ast, chain) && chain[0] == id
  }

  type Occurrence = (NodeId, Option<NodeId>)

  /** An occurrence that is kept as it is: outside all selectors, a variable, or a selector that starts from an
      identifier. */
  ghost predicate Stays(ast: Ast, info: Info, o: Occurrence) {
    o.1.None? && (NamesVariable(ast, info, o.0)
                  || (o.0 in ast.nodes && ast.nodes[o.0].Selector? && FromIdentifier(ast, o.0)))
  }

  ghost function Staying(ast: Ast, info: Info, occurrences: seq<Occurrence>): seq<Occurrence> {
    if occurrences == [] then []
    else (if Stays(ast, info, occurrences[0]) then [occurrences[0]] else []) + Staying(ast, info, occurrences[1..])
  }

  /** What stands for it: an identifier of that name; the selector itself; or, if the field is an array, a map, a slice
      or a struct, a composite literal of it. */
  predicate StandsFor(ast: Ast, info: Info, id: NodeId, term: Fresh) {
    id in ast.nodes &&
    match ast.nodes[id]
    case Ident(name) => term == FIdent(name)
    case Selector(_, sel) =>
      term == (if sel.Old? && sel.id in info.uses && info.uses[sel.id].composite then FComposite(id) else FShared(id))
    case _ => false
  }

  /** The statement blanks out one term for each of the occurrences, in order; it is empty if there are none. */
  ghost predicate UsesAll(ast: Ast, info: Info, kept: seq<Occurrence>, stmt: Ref) {
    stmt.New? &&
    if kept == [] then stmt.tree == FEmpty
    else
      && stmt.tree.FAssign? && |stmt.tree.lhs| == |stmt.tree.rhs| == |kept|
      && forall k | 0 <= k < |kept| ::
           stmt.tree.lhs[k] == FIdent("_") && StandsFor(ast, info, kept[k].0, stmt.tree.rhs[k])
  }

  // ----- what is removed and what is put in -----

  predicate RemovesCode(m: Mutation) {
    m.ReplaceStmt? || m.EmptyBranch? || m.EmptyCase? || m.EmptyElse?
  }

  /** The statements that the mutation takes out. */
  function Removed(ast: Ast, m: Mutation): seq<Ref>
    requires RemovesCode(m)
  {
    match m
    case ReplaceStmt(_, _, stmt) => [stmt]
    case EmptyBranch(node, _) =>
      if node in ast.nodes && ast.nodes[node].If? then [ast.nodes[node].body] else []
    case EmptyCase(_, list) => StmtsOf(ast, list)
    case EmptyElse(_, els) => [els]
  }

  /** Where it was, there is now only `stmt`. */
  predicate PutIn(ast: Ast, a: Ast, m: Mutation, stmt: Ref)
    requires RemovesCode(m)
  {
    match m
    case ReplaceStmt(backing, index, _) =>
      backing in a.stmts && index < |a.stmts[backing]| && a.stmts[backing][index] == stmt
    case EmptyBranch(node, _) =>
      && node in ast.nodes && ast.nodes[node].If? && ast.nodes[node].body.Old?
      && ast.nodes[node].body.id in a.nodes && a.nodes[ast.nodes[node].body.id] == Block(Built([stmt]))
    case EmptyCase(node, _) => node in a.nodes && a.nodes[node].Case? && a.nodes[node].stmts == Built([stmt])
    case EmptyElse(node, _) => node in a.nodes && a.nodes[node].If? && a.nodes[node].els == Some(stmt)
  }

  predicate AllInTree(ast: Ast, refs: seq<Ref>) {
    forall k | 0 <= k < |refs| :: refs[k].Old? && refs[k].id in ast.nodes
  }

  /** Every node of the removed statements with the outermost selector above it, in the order of the walk. */
  ghost function Within(ast: Ast, refs: seq<Ref>): seq<Occurrence>
    requires Parsed(ast) && AllInTree(ast, refs)
  {
    if refs == [] then [] else Occurrences(ast, refs[0].id, None) + Within(ast, refs[1..])
  }

  lemma {:induction false} WithinIsAll(ast: Ast, refs: seq<Ref>, bound: nat)
    requires Parsed(ast) && AllOld(ast, refs, bound)
    ensures AllInTree(ast, refs) && Within(ast, refs) == OccurrencesOfAll(ast, refs, bound, None)
    decreases |refs|
  {
    forall k | 0 <= k < |refs|
      ensures refs[k].Old? && refs[k].id in ast.nodes
    {
      assert IsOld(ast, refs[k], bound);
    }
    if refs != [] {
      WithinIsAll(ast, refs[1..], bound);
    }
  }

  // ----- the collection says the same -----

  lemma KeywordsOfLength(name: string)
    ensures IsKeyword(name) <==> name in GoKeywords()
  {
  }

  lemma {:induction false} RootedIff(ast: Ast, id: NodeId)
    requires Parsed(ast) && id in ast.nodes
    ensures Rooted(ast, Old(id), id + 1) <==> FromIdentifier(ast, id)
    decreases id
  {
    ParsedChildren(ast, id);
    match ast.nodes[id]
    case Ident(_) => assert SelectorChain(ast, [id]);
    case Selector(x, _) =>
      assert Children(ast, ast.nodes[id])[0] == x;
      RootedIff(ast, x.id);
      assert Rooted(ast, x, id) <==> Rooted(ast, x, x.id + 1);
      ChainExtends(ast, id);
    case _ =>
      if chain :| SelectorChain(ast, chain) && chain[0] == id {
        ChainStart(ast, chain);
      }
  }

  lemma ChainStart(ast: Ast, chain: seq<NodeId>)
    requires SelectorChain(ast, chain)
    ensures chain[0] in ast.nodes && (ast.nodes[chain[0]].Ident? || ast.nodes[chain[0]].Selector?)
  {
    if |chain| > 1 {
      assert chain[0] in ast.nodes && ast.nodes[chain[0]].Selector?;
    }
  }

  lemma ChainExtends(ast: Ast, id: NodeId)
    requires id in ast.nodes && ast.nodes[id].Selector? && ast.nodes[id].x.Old?
    ensures FromIdentifier(ast, id) <==> FromIdentifier(ast, ast.nodes[id].x.id)
  {
    var below := ast.nodes[id].x.id;
    if FromIdentifier(ast, id) {
      var chain :| SelectorChain(ast, chain) && chain[0] == id;
      assert |chain| > 1;
      assert chain[1..][|chain| - 2] == chain[|chain| - 1];
      assert SelectorChain(ast, chain[1..]) && chain[1..][0] == below;
    }
    if FromIdentifier(ast, below) {
      var chain :| SelectorChain(ast, chain) && chain[0] == below;
      var longer := [id] + chain;
      forall k | 0 <= k < |longer| - 1
        ensures longer[k] in ast.nodes && ast.nodes[longer[k]].Selector?
                && ast.nodes[longer[k]].x == Old(longer[k + 1])
      {
        if k > 0 { assert longer[k] == chain[k - 1] && longer[k + 1] == chain[k]; }
      }
      assert longer[|longer| - 1] == chain[|chain| - 1];
      assert SelectorChain(ast, longer);
    }
  }

  lemma ContributionMeans(ast: Ast, info: Info, o: Occurrence)
    requires Parsed(ast)
    ensures var terms := Contribution(ast, info, o);
            if Stays(ast, info, o) then |terms| == 1 && StandsFor(ast, info, o.0, terms[0]) else terms == []
  {
    var id := o.0;
    if id in ast.nodes {
      match ast.nodes[id]
      case Ident(name) => KeywordsOfLength(name);
      case Selector(_, _) => RootedIff(ast, id);
      case _ =>
    }
  }

  lemma {:induction false} ContributionsMean(ast: Ast, info: Info, occurrences: seq<Occurrence>)
    requires Parsed(ast)
    ensures StandForAll(ast, info, Staying(ast, info, occurrences), Contributions(ast, info, occurrences))
  {
    if occurrences != [] {
      var rest := occurrences[1..];
      ContributionMeans(ast, info, occurrences[0]);
      ContributionsMean(ast, info, rest);
      var here := Contribution(ast, info, occurrences[0]);
      var first := if Stays(ast, info, occurrences[0]) then [occurrences[0]] else [];
      StandForConcat(ast, info, first, Staying(ast, info, rest), here, Contributions(ast, info, rest));
    }
  }

  /** One term for each occurrence, in order. */
  ghost predicate StandForAll(ast: Ast, info: Info, kept: seq<Occurrence>, terms: seq<Fresh>) {
    |terms| == |kept| && forall k | 0 <= k < |kept| :: StandsFor(ast, info, kept[k].0, terms[k])
  }

  lemma StandForConcat(ast: Ast, info: Info, a: seq<Occurrence>, b: seq<Occurrence>, ta: seq<Fresh>, tb: seq<Fresh>)
    requires StandForAll(ast, info, a, ta) && StandForAll(ast, info, b, tb)
    ensures StandForAll(ast, info, a + b, ta + tb)
  {
  }

  lemma NoopUsesAll(ast: Ast, info: Info, stmts: seq<Ref>, bound: nat)
    requires Parsed(ast) && AllOld(ast, stmts, bound)
    ensures AllInTree(ast, stmts)
    ensures UsesAll(ast, info, Staying(ast, info, Within(ast, stmts)), New(Noop(ast, info, stmts, bound)))
  {
    WithinIsAll(ast, stmts, bound);
    NoopShape(ast, info, stmts, bound);
    CollectsAll(ast, info, stmts, bound);
    ContributionsMean(ast, info, Within(ast, stmts));
  }

  // ----- the result -----

  /** The no-op of one statement. */
  function NoopFor(ast: Ast, info: Info, r: Ref): Ref
    requires Parsed(ast) && r.Old? && r.id in ast.nodes
  {
    New(Noop(ast, info, [r], r.id + 1))
  }

  lemma OneUsesAll(ast: Ast, info: Info, r: Ref)
    requires Parsed(ast) && r.Old? && r.id in ast.nodes
    ensures AllInTree(ast, [r]) && UsesAll(ast, info, Staying(ast, info, Within(ast, [r])), NoopFor(ast, info, r))
  {
    NoopUsesAll(ast, info, [r], r.id + 1);
  }

  lemma StatementPut(ast: Ast, info: Info, m: Mutation)
    requires Parsed(ast) && Captured(ast, m) && m.ReplaceStmt?
    ensures PutIn(ast, Change(ast, info, m), m, NoopFor(ast, info, m.oldTerm))
  {
  }

  lemma BranchPut(ast: Ast, info: Info, m: Mutation)
    requires Parsed(ast) && Captured(ast, m) && m.EmptyBranch?
    ensures PutIn(ast, Change(ast, info, m), m, NoopFor(ast, info, ast.nodes[m.node].body))
  {
  }

  lemma ElsePut(ast: Ast, info: Info, m: Mutation)
    requires Parsed(ast) && Captured(ast, m) && m.EmptyElse?
    ensures PutIn(ast, Change(ast, info, m), m, NoopFor(ast, info, m.oldTerm))
  {
  }

  lemma CasePut(ast: Ast, info: Info, m: Mutation) returns (stmt: Ref)
    requires Parsed(ast) && Captured(ast, m) && m.EmptyCase?
    ensures PutIn(ast, Change(ast, info, m), m, stmt)
    ensures var l := StmtsOf(ast, m.oldList);
            AllInTree(ast, l) && UsesAll(ast, info, Staying(ast, info, Within(ast, l)), stmt)
  {
    CaseBodyOld(ast, m.node);
    var l := StmtsOf(ast, m.oldList);
    stmt := New(Noop(ast, info, l, m.node));
    NoopUsesAll(ast, info, l, m.node);
  }

  /** In the place of what it removes, the mutant holds one statement, and that uses exactly the variables and the
      selectors of the removed part that stay, in the order in which they occur. */
  lemma RemovedVariablesStay(ast: Ast, info: Info, m: Mutation) returns (stmt: Ref)
    requires Parsed(ast) && Captured(ast, m) && RemovesCode(m)
    ensures PutIn(ast, Change(ast, info, m), m, stmt)
    ensures AllInTree(ast, Removed(ast, m))
    ensures UsesAll(ast, info, Staying(ast, info, Within(ast, Removed(ast, m))), stmt)
  {
    match m {
      case ReplaceStmt(_, _, gone) =>
        StatementPut(ast, info, m);
        OneUsesAll(ast, info, gone);
        stmt := NoopFor(ast, info, gone);
      case EmptyBranch(node, _) =>
        BranchPut(ast, info, m);
        OneUsesAll(ast, info, ast.nodes[node].body);
        stmt := NoopFor(ast, info, ast.nodes[node].body);
      case EmptyElse(_, gone) =>
        ElsePut(ast, info, m);
        OneUsesAll(ast, info, gone);
        stmt := NoopFor(ast, info, gone);
      case EmptyCase(_, _) => stmt := CasePut(ast, info, m);
    }
  }

  lemma {:induction false} InStaying(ast: Ast, info: Info, occurrences: seq<Occurrence>, o: Occurrence)
    ensures o in Staying(ast, info, occurrences) <==> o in occurrences && Stays(ast, info, o)
  {
    if occurrences != [] {
      InStaying(ast, info, occurrences[1..], o);
    }
  }

  lemma {:induction false} OutermostWithin(ast: Ast, refs: seq<Ref>, o: Occurrence)
    requires Parsed(ast) && AllInTree(ast, refs) && o in Within(ast, refs) && o.1.Some?
    ensures o.1.value in ast.nodes && ast.nodes[o.1.value].Selector? && (o.1.value, None) in Within(ast, refs)
    decreases |refs|
  {
    if o in Occurrences(ast, refs[0].id, None) {
      OutermostOccurs(ast, refs[0].id, o);
    } else {
      OutermostWithin(ast, refs[1..], o);
    }
  }

  /** The statement has the term on its right. */
  predicate Mentions(stmt: Ref, term: Fresh) {
    stmt.New? && stmt.tree.FAssign? && term in stmt.tree.rhs
  }

  lemma MentionsStaying(ast: Ast, info: Info, kept: seq<Occurrence>, stmt: Ref, o: Occurrence) returns (term: Fresh)
    requires UsesAll(ast, info, kept, stmt) && o in kept
    ensures Mentions(stmt, term) && StandsFor(ast, info, o.0, term)
  {
    var k :| 0 <= k < |kept| && kept[k] == o;
    term := stmt.tree.rhs[k];
  }

  /** So every variable of the removed part is used by what stands there now: by its name, or, under selectors that
      start from an identifier, through the outermost of them. */
  lemma EveryVariableUsed(ast: Ast, info: Info, m: Mutation, o: Occurrence, stmt: Ref)
    requires Parsed(ast) && Captured(ast, m) && RemovesCode(m) && AllInTree(ast, Removed(ast, m))
    requires o in Within(ast, Removed(ast, m)) && NamesVariable(ast, info, o.0)
    requires PutIn(ast, Change(ast, info, m), m, stmt)
    ensures o.1.None? ==> Mentions(stmt, FIdent(ast.nodes[o.0].name))
    ensures o.1.Some? ==> o.1.value in ast.nodes && ast.nodes[o.1.value].Selector?
    ensures o.1.Some? && FromIdentifier(ast, o.1.value) ==>
              var sel := ast.nodes[o.1.value].sel;
              var composite := sel.Old? && sel.id in info.uses && info.uses[sel.id].composite;
              Mentions(stmt, if composite then FComposite(o.1.value) else FShared(o.1.value))
  {
    var put := RemovedVariablesStay(ast, info, m);
    var all := Within(ast, Removed(ast, m));
    var kept := Staying(ast, info, all);
    assert put == stmt;
    if o.1.None? {
      InStaying(ast, info, all, o);
      var term := MentionsStaying(ast, info, kept, stmt, o);
    } else {
      OutermostWithin(ast, Removed(ast, m), o);
      var s: Occurrence := (o.1.value, None);
      if FromIdentifier(ast, o.1.value) {
        InStaying(ast, info, all, s);
        var term := MentionsStaying(ast, info, kept, stmt, s);
      }
    }
  }
}
