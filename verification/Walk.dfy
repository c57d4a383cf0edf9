/** walk.go: the mutations of a whole tree in walking order, and the walk that only counts them. */
module Walk {
  import opened Options
  import opened Sequences
  import opened GoAst
  import opened Mutators

  /** All mutations below a node, in the order in which `ast.Walk` meets them. */
  function SitesOf(op: Operator, ast: Ast, info: Info, id: NodeId): seq<Mutation>
    requires Parsed(ast) && id in ast.nodes
    decreases id, 1, 0
  {
    ParsedChildren(ast, id);
    Mutations(op, ast, info, id) + SitesOfAll(op, ast, info, Children(ast, ast.nodes[id]), id)
  }

  function SitesOfAll(op: Operator, ast: Ast, info: Info, refs: seq<Ref>, bound: nat): seq<Mutation>
    requires Parsed(ast) && AllOld(ast, refs, bound)
    decreases bound, 0, |refs|
  {
    if refs == [] then []
    else
      assert IsOld(ast, refs[0], bound);
      SitesOf(op, ast, info, refs[0].id) + SitesOfAll(op, ast, info, refs[1..], bound)
  }

  // ----- an independent description: the visited nodes in pre-order -----

  ghost function PreOrder(ast: Ast, id: NodeId): seq<NodeId>
    requires Parsed(ast) && id in ast.nodes
    decreases id, 1, 0
  {
    ParsedChildren(ast, id);
    [id] + PreOrderOfAll(ast, Children(ast, ast.nodes[id]), id)
  }

  ghost function PreOrderOfAll(ast: Ast, refs: seq<Ref>, bound: nat): seq<NodeId>
    requires Parsed(ast) && AllOld(ast, refs, bound)
    decreases bound, 0, |refs|
  {
    if refs == [] then []
    else
      assert IsOld(ast, refs[0], bound);
      PreOrder(ast, refs[0].id) + PreOrderOfAll(ast, refs[1..], bound)
  }

  ghost function MutationsAt(op: Operator, ast: Ast, info: Info, ids: seq<NodeId>): seq<Mutation>
    requires Parsed(ast)
  {
    if ids == [] then []
    else (if ids[0] in ast.nodes then Mutations(op, ast, info, ids[0]) else []) + MutationsAt(op, ast, info, ids[1..])
  }

  lemma {:induction false} MutationsAtConcat(op: Operator, ast: Ast, info: Info, a: seq<NodeId>, b: seq<NodeId>)
    requires Parsed(ast)
    ensures MutationsAt(op, ast, info, a + b) == MutationsAt(op, ast, info, a) + MutationsAt(op, ast, info, b)
  {
    if a == [] {
      assert a + b == b;
    } else {
      MutationsAtConcat(op, ast, info, a[1..], b);
      assert (a + b)[1..] == a[1..] + b;
      Assoc(if a[0] in ast.nodes then Mutations(op, ast, info, a[0]) else [],
            MutationsAt(op, ast, info, a[1..]), MutationsAt(op, ast, info, b));
    }
  }

  /** The walk offers what the mutator offers at each visited node, in pre-order. */
  lemma {:induction false} SitesFollowPreOrder(op: Operator, ast: Ast, info: Info, id: NodeId)
    requires Parsed(ast) && id in ast.nodes
    ensures SitesOf(op, ast, info, id) == MutationsAt(op, ast, info, PreOrder(ast, id))
    decreases id, 1, 0
  {
    ParsedChildren(ast, id);
    var kids := Children(ast, ast.nodes[id]);
    AllFollowPreOrder(op, ast, info, kids, id);
    var order := PreOrder(ast, id);
    assert order[0] == id && order[1..] == PreOrderOfAll(ast, kids, id);
  }

  lemma {:induction false} AllFollowPreOrder(op: Operator, ast: Ast, info: Info, refs: seq<Ref>, bound: nat)
    requires Parsed(ast) && AllOld(ast, refs, bound)
    ensures SitesOfAll(op, ast, info, refs, bound) == MutationsAt(op, ast, info, PreOrderOfAll(ast, refs, bound))
    decreases bound, 0, |refs|
  {
    if refs != [] {
      assert IsOld(ast, refs[0], bound);
      SitesFollowPreOrder(op, ast, info, refs[0].id);
      AllFollowPreOrder(op, ast, info, refs[1..], bound);
      MutationsAtConcat(op, ast, info, PreOrder(ast, refs[0].id), PreOrderOfAll(ast, refs[1..], bound));
    }
  }

  /** Every site of the whole walk is offered by the mutator at some node of the tree. */
  lemma {:induction false} SitesAreOffered(op: Operator, ast: Ast, info: Info, id: NodeId)
    requires Parsed(ast) && id in ast.nodes
    ensures forall m | m in SitesOf(op, ast, info, id) ::
              exists n | n in ast.nodes :: m in Mutations(op, ast, info, n)
    decreases id, 1, 0
  {
    ParsedChildren(ast, id);
    AllAreOffered(op, ast, info, Children(ast, ast.nodes[id]), id);
  }

  lemma {:induction false} AllAreOffered(op: Operator, ast: Ast, info: Info, refs: seq<Ref>, bound: nat)
    requires Parsed(ast) && AllOld(ast, refs, bound)
    ensures forall m | m in SitesOfAll(op, ast, info, refs, bound) ::
              exists n | n in ast.nodes :: m in Mutations(op, ast, info, n)
    decreases bound, 0, |refs|
  {
    if refs != [] {
      assert IsOld(ast, refs[0], bound);
      SitesAreOffered(op, ast, info, refs[0].id);
      AllAreOffered(op, ast, info, refs[1..], bound);
    }
  }

  /** Each single mutation of a walk can be applied to the original and taken back exactly. */
  lemma SitesRestore(op: Operator, ast: Ast, info: Info, root: NodeId, m: Mutation)
    requires Parsed(ast) && root in ast.nodes && m in SitesOf(op, ast, info, root)
    ensures Captured(ast, m)
    ensures Change(ast, info, m) != ast && SameElsewhere(ast, Change(ast, info, m), PlaceOf(ast, m))
    ensures Reset(Change(ast, info, m), m) == ast
  {
    SitesAreOffered(op, ast, info, root);
    var n :| n in ast.nodes && m in Mutations(op, ast, info, n);
    OfferedMutationsRestore(op, ast, info, n, m);
    ChangeIsLocal(ast, info, m);
  }

  // ----- CountWalk as it runs -----

  class CountingWalk {
    var count: nat
    const op: Operator
    const info: Info

    constructor (op: Operator, info: Info)
      ensures count == 0 && this.op == op && this.info == info
    {
      this.op := op;
      this.info := info;
      count := 0;
    }

    /** `Visit` and the descent of `ast.Walk`. */
    method Visit(ast: Ast, id: NodeId)
      requires Parsed(ast) && id in ast.nodes
      modifies this
      ensures count == old(count) + |SitesOf(op, ast, info, id)|
      decreases id, 1
    {
      ParsedChildren(ast, id);
      count := count + |Mutations(op, ast, info, id)|;
      VisitAll(ast, Children(ast, ast.nodes[id]), id);
    }

    method VisitAll(ast: Ast, refs: seq<Ref>, bound: nat)
      requires Parsed(ast) && AllOld(ast, refs, bound)
      modifies this
      ensures count == old(count) + |SitesOfAll(op, ast, info, refs, bound)|
      decreases bound, 0
    {
      ghost var goal := count + |SitesOfAll(op, ast, info, refs, bound)|;
      assert refs[0..] == refs;
      for i := 0 to |refs|
        invariant count + |SitesOfAll(op, ast, info, refs[i..], bound)| == goal
      {
        assert IsOld(ast, refs[i], bound);
        assert refs[i..][0] == refs[i] && refs[i..][1..] == refs[i + 1..];
        Visit(ast, refs[i].id);
      }
    }
  }

  method CountWalk(ast: Ast, info: Info, root: NodeId, op: Operator) returns (count: nat)
    requires Parsed(ast) && root in ast.nodes
    ensures count == |SitesOf(op, ast, info, root)|
  {
    var w := new CountingWalk(op, info);
    w.Visit(ast, root);
    count := w.count;
  }
}
