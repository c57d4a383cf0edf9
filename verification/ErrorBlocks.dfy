/** When the block that `IsErrorHandlingCode` returns is entered. */
module ErrorBlocks {
  import opened Options
  import opened GoAst
  import opened Locate
  import opened Semantics

  /** How an if chain leaves its conditions: it enters a block after the condition of `lastIf`, or it never does. */
  datatype Entry = Enters(block: NodeId, lastIf: NodeId, at: World) | Passes(out: Outcome)

  function EntryOf(lang: Lang, ast: Ast, fuel: nat, id: NodeId, w: World): Entry
    requires Parsed(ast) && id in ast.nodes && ast.nodes[id].If?
    decreases id
  {
    assert NodeParsed(ast, id);
    var n := ast.nodes[id];
    var o := ExecOpt(lang, ast, fuel, n.init, id, w);
    if !o.Running? then Passes(o)
    else
      var (v, w1) := EvalRef(lang, ast, fuel, n.cond, id, o.w);
      if v == Bool(true) then Enters(n.body.id, id, w1)
      else if n.els == None then Passes(Running(w1))
      else if ast.nodes[n.els.value.id].If? then EntryOf(lang, ast, fuel, n.els.value.id, w1)
      else Enters(n.els.value.id, id, w1)
  }

  /** Running the chain is running the block it enters. */
  lemma {:induction false} ChainRunsItsBlock(lang: Lang, ast: Ast, fuel: nat, id: NodeId, w: World)
    requires Parsed(ast) && id in ast.nodes && ast.nodes[id].If?
    ensures var entry := EntryOf(lang, ast, fuel, id, w);
            ExecNode(lang, ast, fuel, id, w)
            == match entry
               case Passes(out) => out
               case Enters(block, _, at) => ExecNode(lang, ast, fuel, block, at)
    decreases id
  {
    assert NodeParsed(ast, id);
    var n := ast.nodes[id];
    var o := ExecOpt(lang, ast, fuel, n.init, id, w);
    forall r: Ref, at | r.Old? && r.id < id
      ensures ExecOpt(lang, ast, fuel, Some(r), id, at) == ExecNode(lang, ast, fuel, r.id, at)
    {
      assert ExecRef(lang, ast, fuel, r, id, at) == ExecNode(lang, ast, fuel, r.id, at);
    }
    if o.Running? && n.els.Some? {
      assert IsOld(ast, n.els.value, id);
    }
    if o.Running? && n.els.Some? && ast.nodes[n.els.value.id].If? {
      ChainRunsItsBlock(lang, ast, fuel, n.els.value.id, EvalRef(lang, ast, fuel, n.cond, id, o.w).1);
    }
  }

  // ----- what the parser and the type checker guarantee -----

  predicate ChildAt(ast: Ast, parent: NodeId, k: nat, r: Ref) {
    parent in ast.nodes && k < |Children(ast, ast.nodes[parent])| && Children(ast, ast.nodes[parent])[k] == r
  }

  /** The nodes form a forest: nothing is the child of two parents, nor twice of one. */
  ghost predicate TreeShaped(ast: Ast) {
    forall p, q, j, k, r {:trigger ChildAt(ast, p, j, r), ChildAt(ast, q, k, r)} ::
      ChildAt(ast, p, j, r) && ChildAt(ast, q, k, r) ==> p == q && j == k
  }

  /** The untyped nil is the predeclared `nil`, and it is not of type `error`. */
  ghost predicate NilIsNil(ast: Ast, info: Info) {
    forall id | id in ast.nodes && ast.nodes[id].Ident? && id in info.uses && info.uses[id].untypedNil ::
      ast.nodes[id].name == "nil" && info.uses[id].typeName != "error"
  }

  /** An identifier that uses something of type `error`. */
  predicate IsErrorName(ast: Ast, info: Info, r: Ref) {
    r.Old? && r.id in ast.nodes && ast.nodes[r.id].Ident? && r.id in info.uses && info.uses[r.id].typeName == "error"
  }

  /** An identifier that uses the untyped nil. */
  predicate IsNilName(ast: Ast, info: Info, r: Ref) {
    r.Old? && r.id in ast.nodes && ast.nodes[r.id].Ident? && r.id in info.uses && info.uses[r.id].untypedNil
  }

  /** An error and nil, in either order. */
  predicate ErrorAndNil(ast: Ast, info: Info, x: Ref, y: Ref) {
    (IsErrorName(ast, info, x) && IsNilName(ast, info, y)) || (IsNilName(ast, info, x) && IsErrorName(ast, info, y))
  }

  lemma RecognisedIff(ast: Ast, info: Info, x: Ref, y: Ref)
    ensures IsConditionalErrorHandling(ast, info, x, y) <==> ErrorAndNil(ast, info, x, y)
  {
  }

  /** The variable an error test compares with nil. */
  function TestedError(ast: Ast, info: Info, x: Ref, y: Ref): string
    requires ErrorAndNil(ast, info, x, y)
  {
    if IsErrorName(ast, info, x) then ast.nodes[x.id].name else ast.nodes[y.id].name
  }

  /** The if statement at the end of the chain of error tests: the one the returned block belongs to. */
  function Owner(ast: Ast, info: Info, id: NodeId): (owner: NodeId)
    requires Parsed(ast) && id in ast.nodes && IsErrorHandlingCode(ast, info, id).Some?
    ensures owner in ast.nodes && ast.nodes[owner].If? && owner <= id
    ensures var cond := ast.nodes[owner].cond;
            && cond.Old? && cond.id in ast.nodes && ast.nodes[cond.id].Binary?
            && ErrorAndNil(ast, info, ast.nodes[cond.id].x, ast.nodes[cond.id].y)
    ensures IsErrorHandlingCode(ast, info, owner) == IsErrorHandlingCode(ast, info, id)
    ensures var n := ast.nodes[owner];
            var op := ast.nodes[n.cond.id].op;
            || (op == Neq && n.body == Old(IsErrorHandlingCode(ast, info, id).value))
            || (op == Eql && n.els == Some(Old(IsErrorHandlingCode(ast, info, id).value)))
    decreases id
  {
    assert NodeParsed(ast, id);
    var n := ast.nodes[id];
    RecognisedIff(ast, info, ast.nodes[n.cond.id].x, ast.nodes[n.cond.id].y);
    if ast.nodes[n.cond.id].op == Eql && ast.nodes[n.els.value.id].If? then Owner(ast, info, n.els.value.id) else id
  }

  function OwnersError(ast: Ast, info: Info, id: NodeId): string
    requires Parsed(ast) && id in ast.nodes && IsErrorHandlingCode(ast, info, id).Some?
  {
    var cond := ast.nodes[ast.nodes[Owner(ast, info, id)].cond.id];
    TestedError(ast, info, cond.x, cond.y)
  }

  /** An error test reads two names and changes nothing. */
  lemma TestReads(lang: Lang, ast: Ast, info: Info, fuel: nat, id: NodeId, w: World)
    requires Parsed(ast) && id in ast.nodes && ast.nodes[id].Binary? && ast.nodes[id].op in {Eql, Neq}
    requires NilIsNil(ast, info)
    requires ErrorAndNil(ast, info, ast.nodes[id].x, ast.nodes[id].y)
    ensures EvalNode(lang, ast, fuel, id, w).1 == w
    ensures var isNil := Read(w, TestedError(ast, info, ast.nodes[id].x, ast.nodes[id].y)) == Nil;
            EvalNode(lang, ast, fuel, id, w).0 == Bool(isNil == (ast.nodes[id].op == Eql))
  {
    ParsedChildren(ast, id);
    var n := ast.nodes[id];
    assert Children(ast, n)[0] == n.x && Children(ast, n)[1] == n.y;
    assert Read(w, "nil") == Nil;
    assert EvalRef(lang, ast, fuel, n.x, id, w) == (Read(w, ast.nodes[n.x.id].name), w);
    assert EvalRef(lang, ast, fuel, n.y, id, w) == (Read(w, ast.nodes[n.y.id].name), w);
  }

  lemma BodyAt(ast: Ast, id: NodeId)
    requires Parsed(ast) && id in ast.nodes && ast.nodes[id].If?
    ensures ChildAt(ast, id, |Opt(ast.nodes[id].init)| + 1, ast.nodes[id].body)
    ensures ast.nodes[id].els.Some? ==> ChildAt(ast, id, |Opt(ast.nodes[id].init)| + 2, ast.nodes[id].els.value)
    ensures ChildAt(ast, id, |Opt(ast.nodes[id].init)|, ast.nodes[id].cond)
  {
  }

  /** The returned block is no body of an earlier test in the chain. */
  lemma BlockIsOwned(ast: Ast, info: Info, id: NodeId)
    requires Parsed(ast) && TreeShaped(ast) && id in ast.nodes && IsErrorHandlingCode(ast, info, id).Some?
    ensures var block := IsErrorHandlingCode(ast, info, id).value;
            var op := ast.nodes[ast.nodes[Owner(ast, info, id)].cond.id].op;
            ast.nodes[id].body == Old(block) ==> Owner(ast, info, id) == id && op == Neq
  {
    var owner := Owner(ast, info, id);
    BodyAt(ast, id);
    BodyAt(ast, owner);
  }

  /** The chain enters the returned block exactly when it gets as far as the test that owns the block and the error
      tested there is not nil; it still is not nil when the block starts. */
  lemma {:induction false} BlockHandlesAnError(lang: Lang, ast: Ast, info: Info, fuel: nat, id: NodeId, w: World)
    requires Parsed(ast) && TreeShaped(ast) && NilIsNil(ast, info)
    requires id in ast.nodes && ast.nodes[id].If? && IsErrorHandlingCode(ast, info, id).Some?
    requires EntryOf(lang, ast, fuel, id, w).Enters?
    ensures var entry := EntryOf(lang, ast, fuel, id, w);
            entry.block == IsErrorHandlingCode(ast, info, id).value
            <==> (entry.lastIf == Owner(ast, info, id) && Read(entry.at, OwnersError(ast, info, id)) != Nil)
    decreases id
  {
    assert NodeParsed(ast, id);
    var n := ast.nodes[id];
    BodyAt(ast, id);
    var o := ExecOpt(lang, ast, fuel, n.init, id, w);
    assert IsOld(ast, n.cond, id) by {
      ParsedChildren(ast, id);
      assert Children(ast, n)[|Opt(n.init)|] == n.cond;
    }
    TestReads(lang, ast, info, fuel, n.cond.id, o.w);
    BlockIsOwned(ast, info, id);
    var v := EvalRef(lang, ast, fuel, n.cond, id, o.w).0;
    if v != Bool(true) && n.els.Some? && ast.nodes[n.els.value.id].If? {
      if ast.nodes[n.cond.id].op == Eql {
        BlockHandlesAnError(lang, ast, info, fuel, n.els.value.id, o.w);
      } else {
        EntersBelow(lang, ast, fuel, n.els.value.id, o.w);
        LaterBlocksDiffer(lang, ast, fuel, id, n.els.value.id, o.w);
      }
    }
  }

  lemma {:induction false} EntersBelow(lang: Lang, ast: Ast, fuel: nat, id: NodeId, w: World)
    requires Parsed(ast) && id in ast.nodes && ast.nodes[id].If?
    requires EntryOf(lang, ast, fuel, id, w).Enters?
    ensures var entry := EntryOf(lang, ast, fuel, id, w);
            && entry.lastIf <= id && entry.lastIf in ast.nodes && ast.nodes[entry.lastIf].If?
            && (ast.nodes[entry.lastIf].body == Old(entry.block)
                || ast.nodes[entry.lastIf].els == Some(Old(entry.block)))
    decreases id
  {
    assert NodeParsed(ast, id);
    var n := ast.nodes[id];
    var o := ExecOpt(lang, ast, fuel, n.init, id, w);
    var (v, w1) := EvalRef(lang, ast, fuel, n.cond, id, o.w);
    if v != Bool(true) && ast.nodes[n.els.value.id].If? {
      EntersBelow(lang, ast, fuel, n.els.value.id, w1);
    }
  }

  /** A block entered further down the chain is not the body of this if. */
  lemma LaterBlocksDiffer(lang: Lang, ast: Ast, fuel: nat, id: NodeId, below: NodeId, w: World)
    requires Parsed(ast) && TreeShaped(ast) && id in ast.nodes && ast.nodes[id].If?
    requires below < id && below in ast.nodes && ast.nodes[below].If?
    requires EntryOf(lang, ast, fuel, below, w).Enters?
    ensures ast.nodes[id].body != Old(EntryOf(lang, ast, fuel, below, w).block)
  {
    EntersBelow(lang, ast, fuel, below, w);
    BodyAt(ast, id);
    BodyAt(ast, EntryOf(lang, ast, fuel, below, w).lastIf);
  }

  // ----- which blocks are returned -----

  /** An if statement whose condition compares an error with nil. */
  predicate TestsError(ast: Ast, info: Info, id: NodeId, op: BinaryOp) {
    id in ast.nodes && ast.nodes[id].If? &&
    var cond := ast.nodes[id].cond;
    cond.Old? && cond.id in ast.nodes && ast.nodes[cond.id].Binary? && ast.nodes[cond.id].op == op
    && ErrorAndNil(ast, info, ast.nodes[cond.id].x, ast.nodes[cond.id].y)
  }

  /** The ifs of a chain, each the else of the one before: all but the last test `err == nil`, and the block is the
      body of a last test `err != nil` or the else of a last test `err == nil`. */
  ghost predicate ErrorChain(ast: Ast, info: Info, chain: seq<NodeId>, block: NodeId) {
    && chain != []
    && (forall k | 0 <= k < |chain| - 1 ::
         TestsError(ast, info, chain[k], Eql) && ast.nodes[chain[k]].els == Some(Old(chain[k + 1])))
    && var last := chain[|chain| - 1];
       || (TestsError(ast, info, last, Neq) && ast.nodes[last].body == Old(block))
       || (TestsError(ast, info, last, Eql) && ast.nodes[last].els == Some(Old(block))
           && block in ast.nodes && ast.nodes[block].Block?)
  }

  /** A block is returned exactly if such a chain leads from the if statement to it. */
  lemma ReturnedIff(ast: Ast, info: Info, id: NodeId, block: NodeId)
    requires Parsed(ast) && id in ast.nodes
    ensures IsErrorHandlingCode(ast, info, id) == Some(block)
            <==> exists chain :: ErrorChain(ast, info, chain, block) && chain[0] == id
  {
    if IsErrorHandlingCode(ast, info, id) == Some(block) {
      var chain := ChainOf(ast, info, id, block);
    }
    forall chain | ErrorChain(ast, info, chain, block) && chain[0] == id
      ensures IsErrorHandlingCode(ast, info, id) == Some(block)
    {
      ChainReturned(ast, info, chain, block);
    }
  }

  lemma {:induction false} ChainOf(ast: Ast, info: Info, id: NodeId, block: NodeId) returns (chain: seq<NodeId>)
    requires Parsed(ast) && id in ast.nodes && IsErrorHandlingCode(ast, info, id) == Some(block)
    ensures ErrorChain(ast, info, chain, block) && chain[0] == id
    decreases id
  {
    assert NodeParsed(ast, id);
    var n := ast.nodes[id];
    if ast.nodes[n.cond.id].op == Eql && ast.nodes[n.els.value.id].If? {
      var rest := ChainOf(ast, info, n.els.value.id, block);
      chain := [id] + rest;
      assert chain[|chain| - 1] == rest[|rest| - 1];
      forall k | 0 <= k < |chain| - 1
        ensures TestsError(ast, info, chain[k], Eql) && ast.nodes[chain[k]].els == Some(Old(chain[k + 1]))
      {
        if k > 0 { assert chain[k] == rest[k - 1] && chain[k + 1] == rest[k]; }
      }
    } else {
      chain := [id];
    }
  }

  lemma {:induction false} ChainReturned(ast: Ast, info: Info, chain: seq<NodeId>, block: NodeId)
    requires Parsed(ast) && ErrorChain(ast, info, chain, block)
    ensures chain[0] in ast.nodes && IsErrorHandlingCode(ast, info, chain[0]) == Some(block)
    decreases |chain|
  {
    var id := chain[0];
    if |chain| > 1 {
      assert TestsError(ast, info, id, Eql);
      assert chain[1..][|chain| - 2] == chain[|chain| - 1];
      ChainReturned(ast, info, chain[1..], block);
      assert NodeParsed(ast, id);
      assert TestsError(ast, info, chain[1], Eql) || TestsError(ast, info, chain[1], Neq);
    } else {
      assert NodeParsed(ast, id);
    }
  }
}
