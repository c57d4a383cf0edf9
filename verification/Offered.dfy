/** What each mutator offers on a whole tree: which nodes, which edit at each, in which order, and how many. */
module Offered {
  import opened Options
  import opened Sequences
  import opened GoAst
  import opened Locate
  import opened Mutators
  import opened Walk
  import opened ErrorBlocks

  type Test = (Ast, Info, NodeId) -> bool
  type Edit = (Ast, Info, NodeId) -> Mutation

  /** The nodes that pass the test, in order. */
  function Picked(ast: Ast, info: Info, ids: seq<NodeId>, test: Test): seq<NodeId> {
    if ids == [] then []
    else (if test(ast, info, ids[0]) then [ids[0]] else []) + Picked(ast, info, ids[1..], test)
  }

  lemma {:induction false} PickedPass(ast: Ast, info: Info, ids: seq<NodeId>, test: Test)
    ensures forall n :: n in Picked(ast, info, ids, test) <==> n in ids && test(ast, info, n)
  {
    if ids != [] {
      PickedPass(ast, info, ids[1..], test);
    }
  }

  /** A mutator that offers one edit at each node that passes the test. */
  ghost predicate OneEach(op: Operator, ast: Ast, info: Info, ids: seq<NodeId>, test: Test, edit: Edit)
    requires Parsed(ast)
  {
    forall n | n in ids ::
      n in ast.nodes && Mutations(op, ast, info, n) == if test(ast, info, n) then [edit(ast, info, n)] else []
  }

  /** One edit for each of the nodes, in order. */
  ghost predicate Edited(ast: Ast, info: Info, picked: seq<NodeId>, sites: seq<Mutation>, edit: Edit) {
    |sites| == |picked| && forall k | 0 <= k < |picked| :: sites[k] == edit(ast, info, picked[k])
  }

  lemma EditedConcat(ast: Ast, info: Info, a: seq<NodeId>, b: seq<NodeId>, sa: seq<Mutation>, sb: seq<Mutation>,
                     edit: Edit)
    requires Edited(ast, info, a, sa, edit) && Edited(ast, info, b, sb, edit)
    ensures Edited(ast, info, a + b, sa + sb, edit)
  {
  }

  lemma {:induction false} OneForEach(op: Operator, ast: Ast, info: Info, ids: seq<NodeId>, test: Test, edit: Edit)
    requires Parsed(ast) && OneEach(op, ast, info, ids, test, edit)
    ensures Edited(ast, info, Picked(ast, info, ids, test), MutationsAt(op, ast, info, ids), edit)
  {
    if ids != [] {
      OneForEach(op, ast, info, ids[1..], test, edit);
      var here := if test(ast, info, ids[0]) then [ids[0]] else [];
      assert ids[0] in ids;
      EditedConcat(ast, info, here, Picked(ast, info, ids[1..], test), Mutations(op, ast, info, ids[0]),
                   MutationsAt(op, ast, info, ids[1..]), edit);
    }
  }

  /** The walk stays in the tree. */
  lemma {:induction false} WalkInTree(ast: Ast, id: NodeId)
    requires Parsed(ast) && id in ast.nodes
    ensures forall n | n in PreOrder(ast, id) :: n in ast.nodes
    decreases id, 1, 0
  {
    ParsedChildren(ast, id);
    AllInTree(ast, Children(ast, ast.nodes[id]), id);
  }

  lemma {:induction false} AllInTree(ast: Ast, refs: seq<Ref>, bound: nat)
    requires Parsed(ast) && AllOld(ast, refs, bound)
    ensures forall n | n in PreOrderOfAll(ast, refs, bound) :: n in ast.nodes
    decreases bound, 0, |refs|
  {
    if refs != [] {
      assert IsOld(ast, refs[0], bound);
      WalkInTree(ast, refs[0].id);
      AllInTree(ast, refs[1..], bound);
    }
  }

  lemma OneOnWalk(op: Operator, ast: Ast, info: Info, root: NodeId, test: Test, edit: Edit)
    requires Parsed(ast) && root in ast.nodes && OneEach(op, ast, info, PreOrder(ast, root), test, edit)
    ensures var picked, sites := Picked(ast, info, PreOrder(ast, root), test), SitesOf(op, ast, info, root);
            |sites| == |picked| && forall k | 0 <= k < |picked| :: sites[k] == edit(ast, info, picked[k])
  {
    SitesFollowPreOrder(op, ast, info, root);
    OneForEach(op, ast, info, PreOrder(ast, root), test, edit);
  }

  // ----- branches -----

  predicate IsIf(ast: Ast, info: Info, id: NodeId) {
    id in ast.nodes && ast.nodes[id].If?
  }

  predicate IsCase(ast: Ast, info: Info, id: NodeId) {
    id in ast.nodes && ast.nodes[id].Case?
  }

  predicate HasElseBlock(ast: Ast, info: Info, id: NodeId) {
    IsIf(ast, info, id) && ast.nodes[id].els.Some? && ast.nodes[id].els.value.Old?
    && ast.nodes[id].els.value.id in ast.nodes && ast.nodes[ast.nodes[id].els.value.id].Block?
  }

  function NoStatements(): List {
    Built([])
  }

  /** The statements between the braces of an if. */
  function BodyList(ast: Ast, id: NodeId): List {
    match if id in ast.nodes then ast.nodes[id] else Empty
    case If(_, _, Old(body), _) =>
      if body in ast.nodes && ast.nodes[body].Block? then ast.nodes[body].list else NoStatements()
    case _ => NoStatements()
  }

  function EditIf(ast: Ast, info: Info, id: NodeId): Mutation {
    EmptyBranch(id, BodyList(ast, id))
  }

  function EditCase(ast: Ast, info: Info, id: NodeId): Mutation {
    EmptyCase(id, if IsCase(ast, info, id) then ast.nodes[id].stmts else NoStatements())
  }

  function EditElse(ast: Ast, info: Info, id: NodeId): Mutation {
    EmptyElse(id, if HasElseBlock(ast, info, id) then ast.nodes[id].els.value else Old(id))
  }

  /** branch/if offers to empty every if, else-ifs included, and nothing else. */
  lemma IfsOffered(ast: Ast, info: Info, root: NodeId)
    requires Parsed(ast) && root in ast.nodes
    ensures var ifs, sites := Picked(ast, info, PreOrder(ast, root), IsIf), SitesOf(BranchIf, ast, info, root);
            |sites| == |ifs| && forall k | 0 <= k < |ifs| :: sites[k] == EmptyBranch(ifs[k], BodyList(ast, ifs[k]))
  {
    WalkInTree(ast, root);
    forall n | n in PreOrder(ast, root)
      ensures Mutations(BranchIf, ast, info, n) == if IsIf(ast, info, n) then [EditIf(ast, info, n)] else []
    {
      assert NodeParsed(ast, n);
    }
    OneOnWalk(BranchIf, ast, info, root, IsIf, EditIf);
  }

  /** branch/case offers to empty every clause of every switch. */
  lemma CasesOffered(ast: Ast, info: Info, root: NodeId)
    requires Parsed(ast) && root in ast.nodes
    ensures var cases, sites := Picked(ast, info, PreOrder(ast, root), IsCase), SitesOf(BranchCase, ast, info, root);
            |sites| == |cases|
            && forall k | 0 <= k < |cases| ::
                 cases[k] in ast.nodes && ast.nodes[cases[k]].Case?
                 && sites[k] == EmptyCase(cases[k], ast.nodes[cases[k]].stmts)
  {
    WalkInTree(ast, root);
    PickedPass(ast, info, PreOrder(ast, root), IsCase);
    forall n | n in PreOrder(ast, root)
      ensures Mutations(BranchCase, ast, info, n) == if IsCase(ast, info, n) then [EditCase(ast, info, n)] else []
    {
      assert NodeParsed(ast, n);
    }
    OneOnWalk(BranchCase, ast, info, root, IsCase, EditCase);
  }

  /** branch/else offers to empty every else that is a block, and no else-if. */
  lemma ElsesOffered(ast: Ast, info: Info, root: NodeId)
    requires Parsed(ast) && root in ast.nodes
    ensures var ifs := Picked(ast, info, PreOrder(ast, root), HasElseBlock);
            var sites := SitesOf(BranchElse, ast, info, root);
            |sites| == |ifs|
            && forall k | 0 <= k < |ifs| ::
                 ifs[k] in ast.nodes && ast.nodes[ifs[k]].If? && ast.nodes[ifs[k]].els.Some?
                 && sites[k] == EmptyElse(ifs[k], ast.nodes[ifs[k]].els.value)
  {
    WalkInTree(ast, root);
    PickedPass(ast, info, PreOrder(ast, root), HasElseBlock);
    forall n | n in PreOrder(ast, root)
      ensures Mutations(BranchElse, ast, info, n)
              == if HasElseBlock(ast, info, n) then [EditElse(ast, info, n)] else []
    {
      assert NodeParsed(ast, n);
    }
    OneOnWalk(BranchElse, ast, info, root, HasElseBlock, EditElse);
  }

  // ----- timeouts -----

  predicate IsTimeout(ast: Ast, info: Info, id: NodeId) {
    id in ast.nodes && ast.nodes[id].Call? && id in info.timeouts
  }

  function EditTimeout(ast: Ast, info: Info, id: NodeId): Mutation {
    ZeroTimeout(id, if IsTimeout(ast, info, id) then ast.nodes[id].args else NoStatements())
  }

  /** statement/timeout offers to zero every timeout call. */
  lemma TimeoutsOffered(ast: Ast, info: Info, root: NodeId)
    requires Parsed(ast) && root in ast.nodes
    ensures var calls := Picked(ast, info, PreOrder(ast, root), IsTimeout);
            var sites := SitesOf(StatementTimeout, ast, info, root);
            |sites| == |calls|
            && forall k | 0 <= k < |calls| ::
                 calls[k] in ast.nodes && ast.nodes[calls[k]].Call?
                 && sites[k] == ZeroTimeout(calls[k], ast.nodes[calls[k]].args)
  {
    WalkInTree(ast, root);
    PickedPass(ast, info, PreOrder(ast, root), IsTimeout);
    forall n | n in PreOrder(ast, root)
      ensures Mutations(StatementTimeout, ast, info, n)
              == if IsTimeout(ast, info, n) then [EditTimeout(ast, info, n)] else []
    {
      assert NodeParsed(ast, n);
    }
    OneOnWalk(StatementTimeout, ast, info, root, IsTimeout, EditTimeout);
  }

  // ----- operands -----

  predicate IsConnective(ast: Ast, info: Info, id: NodeId) {
    id in ast.nodes && ast.nodes[id].Binary? && (ast.nodes[id].op == LAnd || ast.nodes[id].op == LOr)
  }

  /** At one connective: first the left operand, then the right one, each for the neutral element. */
  ghost predicate BothOperands(ast: Ast, id: NodeId, first: Mutation, second: Mutation) {
    && id in ast.nodes && ast.nodes[id].Binary?
    && var n := ast.nodes[id];
       var neutral := FIdent(if n.op == LAnd then "true" else "false");
       first == ReplaceX(id, neutral, n.x) && second == ReplaceY(id, neutral, n.y)
  }

  ghost predicate BothEach(ast: Ast, picked: seq<NodeId>, sites: seq<Mutation>) {
    |sites| == 2 * |picked|
    && forall k | 0 <= k < |picked| :: BothOperands(ast, picked[k], sites[2 * k], sites[2 * k + 1])
  }

  lemma BothFirst(ast: Ast, id: NodeId, first: Mutation, second: Mutation, picked: seq<NodeId>, sites: seq<Mutation>)
    requires BothOperands(ast, id, first, second) && BothEach(ast, picked, sites)
    ensures BothEach(ast, [id] + picked, [first, second] + sites)
  {
    var all, both := [first, second] + sites, [id] + picked;
    forall k | 0 <= k < |both|
      ensures BothOperands(ast, both[k], all[2 * k], all[2 * k + 1])
    {
      if k > 0 {
        assert both[k] == picked[k - 1];
        assert all[2 * k] == sites[2 * (k - 1)] && all[2 * k + 1] == sites[2 * (k - 1) + 1];
      }
    }
  }

  lemma OperandsAt(ast: Ast, info: Info, id: NodeId)
    requires Parsed(ast) && id in ast.nodes
    ensures var here := Mutations(ExpressionRemove, ast, info, id);
            if IsConnective(ast, info, id)
            then |here| == 2 && here == [here[0], here[1]] && BothOperands(ast, id, here[0], here[1])
            else here == []
  {
  }

  lemma {:induction false} TwoForEach(ast: Ast, info: Info, ids: seq<NodeId>)
    requires Parsed(ast) && forall n | n in ids :: n in ast.nodes
    ensures BothEach(ast, Picked(ast, info, ids, IsConnective), MutationsAt(ExpressionRemove, ast, info, ids))
  {
    if ids != [] {
      TwoForEach(ast, info, ids[1..]);
      OperandsAt(ast, info, ids[0]);
      var rest, later := Picked(ast, info, ids[1..], IsConnective), MutationsAt(ExpressionRemove, ast, info, ids[1..]);
      if IsConnective(ast, info, ids[0]) {
        var here := Mutations(ExpressionRemove, ast, info, ids[0]);
        BothFirst(ast, ids[0], here[0], here[1], rest, later);
      } else {
        assert [] + rest == rest && [] + later == later;
      }
    }
  }

  /** expression/remove offers to drop each operand of every `&&` and every `||`. */
  lemma OperandsOffered(ast: Ast, info: Info, root: NodeId)
    requires Parsed(ast) && root in ast.nodes
    ensures var connectives := Picked(ast, info, PreOrder(ast, root), IsConnective);
            var sites := SitesOf(ExpressionRemove, ast, info, root);
            |sites| == 2 * |connectives|
            && forall k | 0 <= k < |connectives| :: BothOperands(ast, connectives[k], sites[2 * k], sites[2 * k + 1])
  {
    WalkInTree(ast, root);
    SitesFollowPreOrder(ExpressionRemove, ast, info, root);
    TwoForEach(ast, info, PreOrder(ast, root));
  }

  // ----- statements -----

  /** An expression, an increment or decrement, or an assignment that declares nothing. */
  predicate Removable(ast: Ast, r: Ref) {
    r.Old? && r.id in ast.nodes &&
    var n := ast.nodes[r.id];
    n.ExprStmt? || n.IncDec? || (n.Assign? && !n.tok.Define?)
  }

  /** The places of the removable statements in a list. */
  function Places(ast: Ast, l: seq<Ref>): seq<nat> {
    if l == [] then []
    else
      var n := |l| - 1;
      Places(ast, l[..n]) + (if Removable(ast, l[n]) then [n] else [])
  }

  lemma {:induction false} PlacesExact(ast: Ast, l: seq<Ref>)
    ensures forall i: nat :: i in Places(ast, l) <==> i < |l| && Removable(ast, l[i])
  {
    if l != [] {
      PlacesExact(ast, l[..|l| - 1]);
    }
  }

  /** One removal for each of the places, in order. */
  ghost predicate Removals(backing: ArrayId, l: seq<Ref>, places: seq<nat>, sites: seq<Mutation>) {
    |sites| == |places|
    && forall k | 0 <= k < |places| :: places[k] < |l| && sites[k] == ReplaceStmt(backing, places[k], l[places[k]])
  }

  lemma {:induction false} StatementsUpTo(ast: Ast, backing: ArrayId, l: seq<Ref>, n: nat)
    requires n <= |l|
    ensures exists front :: Removals(backing, l, Places(ast, l[..n]), front)
              && StatementMutations(ast, backing, l, 0) == front + StatementMutations(ast, backing, l, n)
  {
    if n == 0 {
      assert Removals(backing, l, Places(ast, l[..0]), []);
      assert [] + StatementMutations(ast, backing, l, 0) == StatementMutations(ast, backing, l, 0);
    } else {
      StatementsUpTo(ast, backing, l, n - 1);
      var front :| Removals(backing, l, Places(ast, l[..n - 1]), front)
        && StatementMutations(ast, backing, l, 0) == front + StatementMutations(ast, backing, l, n - 1);
      var here := if Removable(ast, l[n - 1]) then [ReplaceStmt(backing, n - 1, l[n - 1])] else [];
      assert l[..n][..n - 1] == l[..n - 1];
      Assoc(front, here, StatementMutations(ast, backing, l, n));
      assert Removals(backing, l, Places(ast, l[..n]), front + here);
    }
  }

  /** In one list exactly the removable statements are offered, each at its place. */
  lemma StatementsOffered(ast: Ast, backing: ArrayId, l: seq<Ref>)
    ensures Removals(backing, l, Places(ast, l), StatementMutations(ast, backing, l, 0))
  {
    StatementsUpTo(ast, backing, l, |l|);
    assert l[..|l|] == l;
    var front :| Removals(backing, l, Places(ast, l), front)
      && StatementMutations(ast, backing, l, 0) == front + StatementMutations(ast, backing, l, |l|);
    assert front + [] == front;
  }

  predicate HoldsList(ast: Ast, info: Info, id: NodeId) {
    id in ast.nodes && (ast.nodes[id].Block? || ast.nodes[id].Case?)
  }

  /** The list of a block or of a clause. */
  function ListAt(ast: Ast, id: NodeId): List {
    match if id in ast.nodes then ast.nodes[id] else Empty
    case Block(list) => list
    case Case(_, stmts) => stmts
    case _ => NoStatements()
  }

  /** The removals of one block or clause. */
  ghost predicate RemovalsOf(ast: Ast, id: NodeId, sites: seq<Mutation>) {
    && ListAt(ast, id).Shared?
    && var l := StmtsOf(ast, ListAt(ast, id)); Removals(ListAt(ast, id).backing, l, Places(ast, l), sites)
  }

  lemma ListOffered(ast: Ast, info: Info, id: NodeId)
    requires Parsed(ast) && id in ast.nodes && HoldsList(ast, info, id)
    ensures RemovalsOf(ast, id, MutatorRemoveStatement(ast, id))
  {
    assert NodeParsed(ast, id);
    StatementsOffered(ast, ListAt(ast, id).backing, StmtsOf(ast, ListAt(ast, id)));
  }

  /** One group of removals for each of the lists. */
  ghost predicate Groups(ast: Ast, lists: seq<NodeId>, groups: seq<seq<Mutation>>) {
    |groups| == |lists| && forall k | 0 <= k < |lists| :: RemovalsOf(ast, lists[k], groups[k])
  }

  lemma FlattenFirst<T>(first: seq<T>, lists: seq<seq<T>>)
    ensures Flatten([first] + lists) == first + Flatten(lists)
    decreases |lists|
  {
    if lists == [] {
      assert [first] + lists == [] + [first];
      FlattenSnoc([], first);
      assert Flatten<T>([]) == [] && [] + first == first && first + [] == first;
    } else {
      var n := |lists| - 1;
      FlattenFirst(first, lists[..n]);
      assert [first] + lists == ([first] + lists[..n]) + [lists[n]];
      FlattenSnoc([first] + lists[..n], lists[n]);
      Assoc(first, Flatten(lists[..n]), lists[n]);
    }
  }

  lemma FlattenOne<T>(list: seq<T>)
    ensures Flatten([list]) == list
  {
    FlattenFirst(list, []);
    assert [list] + [] == [list] && list + [] == list;
  }

  lemma FlattenConcat<T>(a: seq<seq<T>>, b: seq<seq<T>>)
    requires |a| <= 1
    ensures Flatten(a + b) == Flatten(a) + Flatten(b)
  {
    if a == [] {
      assert a + b == b;
    } else {
      assert a == [a[0]] && [a[0]] + [] == [a[0]];
      FlattenFirst(a[0], []);
      FlattenFirst(a[0], b);
      assert a[0] + [] == a[0];
    }
  }

  lemma GroupsConcat(ast: Ast, a: seq<NodeId>, b: seq<NodeId>, ga: seq<seq<Mutation>>, gb: seq<seq<Mutation>>)
    requires Groups(ast, a, ga) && Groups(ast, b, gb)
    ensures Groups(ast, a + b, ga + gb)
  {
    forall k | 0 <= k < |a + b|
      ensures RemovalsOf(ast, (a + b)[k], (ga + gb)[k])
    {
      if k < |a| {
        assert RemovalsOf(ast, a[k], ga[k]);
      } else {
        assert RemovalsOf(ast, b[k - |a|], gb[k - |a|]);
      }
    }
  }

  lemma ListGroup(ast: Ast, info: Info, id: NodeId) returns (groups: seq<seq<Mutation>>)
    requires Parsed(ast) && id in ast.nodes
    ensures Groups(ast, if HoldsList(ast, info, id) then [id] else [], groups)
    ensures |groups| <= 1 && Mutations(StatementRemove, ast, info, id) == Flatten(groups)
  {
    groups := [];
    if HoldsList(ast, info, id) {
      var here := MutatorRemoveStatement(ast, id);
      ListOffered(ast, info, id);
      groups := [here];
      FlattenOne(here);
    }
  }

  lemma {:induction false} GroupsForEach(ast: Ast, info: Info, ids: seq<NodeId>) returns (groups: seq<seq<Mutation>>)
    requires Parsed(ast) && forall n | n in ids :: n in ast.nodes
    ensures Groups(ast, Picked(ast, info, ids, HoldsList), groups)
    ensures MutationsAt(StatementRemove, ast, info, ids) == Flatten(groups)
  {
    groups := [];
    if ids != [] {
      var rest := GroupsForEach(ast, info, ids[1..]);
      var here := ListGroup(ast, info, ids[0]);
      var lists := if HoldsList(ast, info, ids[0]) then [ids[0]] else [];
      GroupsConcat(ast, lists, Picked(ast, info, ids[1..], HoldsList), here, rest);
      FlattenConcat(here, rest);
      groups := here + rest;
    }
  }

  /** statement/remove offers every removable statement of every block and every clause, list by list and in each from
      first to last. */
  lemma RemovalsOffered(ast: Ast, info: Info, root: NodeId) returns (groups: seq<seq<Mutation>>)
    requires Parsed(ast) && root in ast.nodes
    ensures Groups(ast, Picked(ast, info, PreOrder(ast, root), HoldsList), groups)
    ensures SitesOf(StatementRemove, ast, info, root) == Flatten(groups)
  {
    WalkInTree(ast, root);
    SitesFollowPreOrder(StatementRemove, ast, info, root);
    groups := GroupsForEach(ast, info, PreOrder(ast, root));
  }

  /** How many removable statements the lists hold together. */
  function RemovableIn(ast: Ast, lists: seq<NodeId>): nat {
    if lists == [] then 0
    else RemovableIn(ast, lists[..|lists| - 1]) + |Places(ast, StmtsOf(ast, ListAt(ast, lists[|lists| - 1])))|
  }

  lemma {:induction false} GroupsCount(ast: Ast, lists: seq<NodeId>, groups: seq<seq<Mutation>>)
    requires Groups(ast, lists, groups)
    ensures |Flatten(groups)| == RemovableIn(ast, lists)
  {
    if lists != [] {
      var n := |lists| - 1;
      GroupsCount(ast, lists[..n], groups[..n]);
      assert RemovalsOf(ast, lists[n], groups[n]);
    }
  }

  lemma RemovalsCount(ast: Ast, info: Info, root: NodeId)
    requires Parsed(ast) && root in ast.nodes
    ensures |SitesOf(StatementRemove, ast, info, root)|
            == RemovableIn(ast, Picked(ast, info, PreOrder(ast, root), HoldsList))
  {
    var groups := RemovalsOffered(ast, info, root);
    GroupsCount(ast, Picked(ast, info, PreOrder(ast, root), HoldsList), groups);
  }

  // ----- error handling -----

  /** The mutation removes a removable statement of a block to which an error chain leads from the node. */
  ghost predicate RemovesHandler(ast: Ast, info: Info, id: NodeId, m: Mutation) {
    exists chain, block :: HandlerAt(ast, info, id, chain, block, m)
  }

  ghost predicate HandlerAt(ast: Ast, info: Info, id: NodeId, chain: seq<NodeId>, block: NodeId, m: Mutation) {
    && ErrorChain(ast, info, chain, block) && chain[0] == id
    && block in ast.nodes && ast.nodes[block].Block?
    && m.ReplaceStmt? && ast.nodes[block].list == Shared(m.backing)
    && var l := StmtsOf(ast, ast.nodes[block].list);
       m.index < |l| && m.oldTerm == l[m.index] && Removable(ast, l[m.index])
  }

  lemma InRemovals(ast: Ast, id: NodeId, sites: seq<Mutation>, m: Mutation)
    requires RemovalsOf(ast, id, sites)
    ensures var l := StmtsOf(ast, ListAt(ast, id));
            m in sites
            <==> m.ReplaceStmt? && m.backing == ListAt(ast, id).backing && m.index < |l|
                 && m.oldTerm == l[m.index] && Removable(ast, l[m.index])
  {
    var l := StmtsOf(ast, ListAt(ast, id));
    var places := Places(ast, l);
    PlacesExact(ast, l);
    if m in sites {
      var k :| 0 <= k < |sites| && sites[k] == m;
      assert places[k] in places;
    }
    if m.ReplaceStmt? && m.backing == ListAt(ast, id).backing && m.index < |l|
       && m.oldTerm == l[m.index] && Removable(ast, l[m.index]) {
      assert m.index in places;
      var k :| 0 <= k < |places| && places[k] == m.index;
      assert sites[k] == m;
    }
  }

  /** What statement/removeblock offers at one node. */
  lemma HandlerOffered(ast: Ast, info: Info, id: NodeId, m: Mutation)
    requires Parsed(ast) && id in ast.nodes
    ensures m in Mutations(StatementRemoveBlock, ast, info, id) <==> RemovesHandler(ast, info, id, m)
  {
    var returned := IsErrorHandlingCode(ast, info, id);
    if m in Mutations(StatementRemoveBlock, ast, info, id) {
      var block := returned.value;
      ReturnedIff(ast, info, id, block);
      var chain :| ErrorChain(ast, info, chain, block) && chain[0] == id;
      assert NodeParsed(ast, block);
      ListOffered(ast, info, block);
      InRemovals(ast, block, MutatorRemoveStatement(ast, block), m);
      assert HandlerAt(ast, info, id, chain, block, m);
    }
    if RemovesHandler(ast, info, id, m) {
      var chain, block :| HandlerAt(ast, info, id, chain, block, m);
      ReturnedIff(ast, info, id, block);
      ListOffered(ast, info, block);
      InRemovals(ast, block, MutatorRemoveStatement(ast, block), m);
    }
  }

  lemma {:induction false} InMutationsAt(op: Operator, ast: Ast, info: Info, ids: seq<NodeId>, m: Mutation)
    requires Parsed(ast)
    ensures m in MutationsAt(op, ast, info, ids)
            <==> exists n | n in ids :: n in ast.nodes && m in Mutations(op, ast, info, n)
  {
    if ids != [] {
      InMutationsAt(op, ast, info, ids[1..], m);
    }
  }

  /** statement/removeblock offers exactly the removable statements of the blocks that handle errors. */
  lemma HandlersOffered(ast: Ast, info: Info, root: NodeId, m: Mutation)
    requires Parsed(ast) && root in ast.nodes
    ensures m in SitesOf(StatementRemoveBlock, ast, info, root)
            <==> exists n | n in PreOrder(ast, root) :: RemovesHandler(ast, info, n, m)
  {
    WalkInTree(ast, root);
    SitesFollowPreOrder(StatementRemoveBlock, ast, info, root);
    InMutationsAt(StatementRemoveBlock, ast, info, PreOrder(ast, root), m);
    forall n | n in PreOrder(ast, root)
      ensures m in Mutations(StatementRemoveBlock, ast, info, n) <==> RemovesHandler(ast, info, n, m)
    {
      HandlerOffered(ast, info, n, m);
    }
  }

  ghost predicate LeadsTo(ast: Ast, info: Info, id: NodeId, chain: seq<NodeId>, block: NodeId) {
    ErrorChain(ast, info, chain, block) && chain[0] == id
  }

  /** The block to which an error chain leads from the node. */
  ghost function HandlerOf(ast: Ast, info: Info, id: NodeId): Option<NodeId> {
    if exists chain, block :: LeadsTo(ast, info, id, chain, block)
    then var chain, block :| LeadsTo(ast, info, id, chain, block); Some(block)
    else None
  }

  lemma HandlerIsReturned(ast: Ast, info: Info, id: NodeId)
    requires Parsed(ast) && id in ast.nodes
    ensures IsErrorHandlingCode(ast, info, id) == HandlerOf(ast, info, id)
  {
    var returned := IsErrorHandlingCode(ast, info, id);
    if returned.Some? {
      ReturnedIff(ast, info, id, returned.value);
      var chain :| ErrorChain(ast, info, chain, returned.value) && chain[0] == id;
      assert LeadsTo(ast, info, id, chain, returned.value);
    }
    if chain, block :| LeadsTo(ast, info, id, chain, block) {
      ReturnedIff(ast, info, id, block);
    }
    forall chain: seq<NodeId>, block: NodeId | LeadsTo(ast, info, id, chain, block)
      ensures returned == Some(block)
    {
      ReturnedIff(ast, info, id, block);
    }
  }

  ghost function Handlers(ast: Ast, info: Info, ids: seq<NodeId>): seq<NodeId> {
    if ids == [] then []
    else (match HandlerOf(ast, info, ids[0])
          case None => []
          case Some(block) => [block])
         + Handlers(ast, info, ids[1..])
  }

  lemma HandlerGroup(ast: Ast, info: Info, id: NodeId) returns (groups: seq<seq<Mutation>>)
    requires Parsed(ast) && id in ast.nodes
    ensures Groups(ast, if HandlerOf(ast, info, id).Some? then [HandlerOf(ast, info, id).value] else [], groups)
    ensures |groups| <= 1 && Mutations(StatementRemoveBlock, ast, info, id) == Flatten(groups)
  {
    HandlerIsReturned(ast, info, id);
    groups := [];
    if HandlerOf(ast, info, id).Some? {
      var block := HandlerOf(ast, info, id).value;
      var here := MutatorRemoveStatement(ast, block);
      ListOffered(ast, info, block);
      groups := [here];
      FlattenOne(here);
    }
  }

  lemma {:induction false} HandlerGroups(ast: Ast, info: Info, ids: seq<NodeId>) returns (groups: seq<seq<Mutation>>)
    requires Parsed(ast) && forall n | n in ids :: n in ast.nodes
    ensures Groups(ast, Handlers(ast, info, ids), groups)
    ensures MutationsAt(StatementRemoveBlock, ast, info, ids) == Flatten(groups)
  {
    groups := [];
    if ids != [] {
      var rest := HandlerGroups(ast, info, ids[1..]);
      var here := HandlerGroup(ast, info, ids[0]);
      var blocks := if HandlerOf(ast, info, ids[0]).Some? then [HandlerOf(ast, info, ids[0]).value] else [];
      GroupsConcat(ast, blocks, Handlers(ast, info, ids[1..]), here, rest);
      FlattenConcat(here, rest);
      groups := here + rest;
    }
  }

  /** It does so if by if, in the order of the walk, and block by block as statement/remove does. */
  lemma HandlersInOrder(ast: Ast, info: Info, root: NodeId) returns (groups: seq<seq<Mutation>>)
    requires Parsed(ast) && root in ast.nodes
    ensures Groups(ast, Handlers(ast, info, PreOrder(ast, root)), groups)
    ensures SitesOf(StatementRemoveBlock, ast, info, root) == Flatten(groups)
  {
    WalkInTree(ast, root);
    SitesFollowPreOrder(StatementRemoveBlock, ast, info, root);
    groups := HandlerGroups(ast, info, PreOrder(ast, root));
  }

  /** In particular, every removable statement of the body of an `if err != nil` anywhere in the tree. */
  lemma ErrorBodiesOffered(ast: Ast, info: Info, root: NodeId, id: NodeId, i: nat)
    requires Parsed(ast) && root in ast.nodes && id in PreOrder(ast, root) && TestsError(ast, info, id, Neq)
    requires i < |StmtsOf(ast, BodyList(ast, id))| && Removable(ast, StmtsOf(ast, BodyList(ast, id))[i])
    ensures BodyList(ast, id).Shared?
    ensures ReplaceStmt(BodyList(ast, id).backing, i, StmtsOf(ast, BodyList(ast, id))[i])
            in SitesOf(StatementRemoveBlock, ast, info, root)
  {
    assert NodeParsed(ast, id);
    var block := ast.nodes[id].body.id;
    assert NodeParsed(ast, block);
    var m := ReplaceStmt(BodyList(ast, id).backing, i, StmtsOf(ast, BodyList(ast, id))[i]);
    assert ErrorChain(ast, info, [id], block);
    assert HandlerAt(ast, info, id, [id], block, m);
    HandlersOffered(ast, info, root, m);
  }

  // ----- reads -----

  function LowerChar(c: char): char {
    if 'A' <= c <= 'Z' then c + 'a' - 'A' else c
  }

  function Lower(name: string): string {
    seq(|name|, i requires 0 <= i < |name| => LowerChar(name[i]))
  }

  /** A call of something selected by a name that is "read" up to case. */
  predicate ReadCall(ast: Ast, r: Ref) {
    r.Old? && r.id in ast.nodes && ast.nodes[r.id].Call? && ast.nodes[r.id].fun.Old? &&
    var fun := ast.nodes[r.id].fun.id;
    fun in ast.nodes && ast.nodes[fun].Selector? && ast.nodes[fun].sel.Old? &&
    var sel := ast.nodes[fun].sel.id;
    sel in ast.nodes && ast.nodes[sel].Ident? && Lower(ast.nodes[sel].name) == "read"
  }

  /** The object of an identifier: the one it uses, or else the one it defines. */
  function ObjectOf(info: Info, id: NodeId): Option<Object> {
    if id in info.uses then Some(info.uses[id]) else if id in info.defs then Some(info.defs[id]) else None
  }

  /** An identifier for something that is not an error. */
  predicate CountVariable(ast: Ast, info: Info, r: Ref) {
    r.Old? && r.id in ast.nodes && ast.nodes[r.id].Ident? &&
    ObjectOf(info, r.id).Some? && ObjectOf(info, r.id).value.typeName != "error"
  }

  ghost predicate FirstCount(ast: Ast, info: Info, lhs: seq<Ref>, k: nat) {
    k < |lhs| && CountVariable(ast, info, lhs[k]) && forall j | 0 <= j < k :: !CountVariable(ast, info, lhs[j])
  }

  predicate HasReadCall(ast: Ast, refs: seq<Ref>) {
    exists k | 0 <= k < |refs| :: ReadCall(ast, refs[k])
  }

  /** An assignment from a read, whose `k`-th target is the first that is not an error. */
  ghost predicate ReadsInto(ast: Ast, info: Info, stmt: Ref, k: nat) {
    && stmt.Old? && stmt.id in ast.nodes && ast.nodes[stmt.id].Assign?
    && HasReadCall(ast, ExprsOf(ast, ast.nodes[stmt.id].rhs))
    && FirstCount(ast, info, ExprsOf(ast, ast.nodes[stmt.id].lhs), k)
  }

  lemma ReadNames(name: string)
    ensures IsReadName(name) <==> Lower(name) == "read"
  {
    var l := Lower(name);
    if l == "read" {
      assert |name| == 4;
      assert l[0] == LowerChar(name[0]) && l[1] == LowerChar(name[1]);
      assert l[2] == LowerChar(name[2]) && l[3] == LowerChar(name[3]);
    }
    if IsReadName(name) {
      assert l == [LowerChar(name[0]), LowerChar(name[1]), LowerChar(name[2]), LowerChar(name[3])];
    }
  }

  lemma SameReads(ast: Ast, info: Info, r: Ref)
    ensures IsReadOperation(ast, r) <==> ReadCall(ast, r)
    ensures HoldsBytesRead(ast, info, r) <==> CountVariable(ast, info, r)
  {
    if r.Old? && r.id in ast.nodes && ast.nodes[r.id].Call? && ast.nodes[r.id].fun.Old? {
      var fun := ast.nodes[r.id].fun.id;
      if fun in ast.nodes && ast.nodes[fun].Selector? && ast.nodes[fun].sel.Old? {
        var sel := ast.nodes[fun].sel.id;
        if sel in ast.nodes && ast.nodes[sel].Ident? {
          ReadNames(ast.nodes[sel].name);
        }
      }
    }
  }

  lemma {:induction false} ZeroFirstCount(ast: Ast, info: Info, lhs: seq<Ref>)
    ensures match CreateZeroAssignment(ast, info, lhs)
            case None => forall k: nat :: !FirstCount(ast, info, lhs, k)
            case Some(added) =>
              exists k: nat :: FirstCount(ast, info, lhs, k) && added == FAssign([FShared(lhs[k].id)], [FZero])
  {
    if lhs != [] {
      SameReads(ast, info, lhs[0]);
      ZeroFirstCount(ast, info, lhs[1..]);
      if CountVariable(ast, info, lhs[0]) {
        assert FirstCount(ast, info, lhs, 0);
      } else {
        forall k: nat
          ensures FirstCount(ast, info, lhs, k) <==> k > 0 && FirstCount(ast, info, lhs[1..], k - 1)
        {
          if 0 < k < |lhs| {
            FirstCountTail(ast, info, lhs, k);
          }
        }
        var rest := CreateZeroAssignment(ast, info, lhs[1..]);
        if k: nat :| FirstCount(ast, info, lhs[1..], k) && rest == Some(FAssign([FShared(lhs[1..][k].id)], [FZero])) {
          assert FirstCount(ast, info, lhs, k + 1) && lhs[1..][k] == lhs[k + 1];
        }
      }
    }
  }

  lemma FirstCountTail(ast: Ast, info: Info, lhs: seq<Ref>, k: nat)
    requires 0 < k < |lhs| && !CountVariable(ast, info, lhs[0])
    ensures FirstCount(ast, info, lhs, k) <==> FirstCount(ast, info, lhs[1..], k - 1)
  {
    assert lhs[1..][k - 1] == lhs[k];
    if FirstCount(ast, info, lhs, k) {
      forall j | 0 <= j < k - 1
        ensures !CountVariable(ast, info, lhs[1..][j])
      {
        assert lhs[1..][j] == lhs[j + 1];
      }
    }
    if FirstCount(ast, info, lhs[1..], k - 1) {
      forall j | 0 <= j < k
        ensures !CountVariable(ast, info, lhs[j])
      {
        if j > 0 { assert lhs[j] == lhs[1..][j - 1]; }
      }
    }
  }

  /** The mutation sets the target of a read of the block to zero, directly after the read. */
  ghost predicate ZeroesRead(ast: Ast, info: Info, id: NodeId, m: Mutation) {
    exists i: nat, k: nat :: ZeroesReadAt(ast, info, id, i, k, m)
  }

  ghost predicate ZeroesReadAt(ast: Ast, info: Info, id: NodeId, i: nat, k: nat, m: Mutation) {
    && id in ast.nodes && ast.nodes[id].Block?
    && var l := StmtsOf(ast, ast.nodes[id].list);
    && i < |l| && ReadsInto(ast, info, l[i], k)
    && m == InsertStmt(id, ast.nodes[id].list,
                       FAssign([FShared(ExprsOf(ast, ast.nodes[l[i].id].lhs)[k].id)], [FZero]), i + 1)
  }

  lemma CreatedMeans(ast: Ast, info: Info, stmt: Ref)
    ensures match CreateReadZeroAssignment(ast, info, stmt)
            case None => forall k: nat :: !ReadsInto(ast, info, stmt, k)
            case Some(added) =>
              exists k: nat :: ReadsInto(ast, info, stmt, k)
                && added == FAssign([FShared(ExprsOf(ast, ast.nodes[stmt.id].lhs)[k].id)], [FZero])
  {
    if stmt.Old? && stmt.id in ast.nodes && ast.nodes[stmt.id].Assign? {
      var lhs, rhs := ExprsOf(ast, ast.nodes[stmt.id].lhs), ExprsOf(ast, ast.nodes[stmt.id].rhs);
      forall k | 0 <= k < |rhs|
        ensures IsReadOperation(ast, rhs[k]) <==> ReadCall(ast, rhs[k])
      {
        SameReads(ast, info, rhs[k]);
      }
      assert (exists k | 0 <= k < |rhs| :: IsReadOperation(ast, rhs[k])) <==> HasReadCall(ast, rhs);
      ZeroFirstCount(ast, info, lhs);
      if CreateReadZeroAssignment(ast, info, stmt).Some? {
        var k: nat :| FirstCount(ast, info, lhs, k)
          && CreateZeroAssignment(ast, info, lhs) == Some(FAssign([FShared(lhs[k].id)], [FZero]));
        assert ReadsInto(ast, info, stmt, k);
      }
    }
  }

  lemma OnlyOneTarget(ast: Ast, info: Info, stmt: Ref, j: nat, k: nat)
    requires ReadsInto(ast, info, stmt, j) && ReadsInto(ast, info, stmt, k)
    ensures j == k
  {
  }

  /** The insertions of a list from place `from` on: one for each read, in order. */
  lemma {:induction false} ReadsOffered(ast: Ast, info: Info, id: NodeId, l: seq<Ref>, from: nat, m: Mutation)
    requires id in ast.nodes && ast.nodes[id].Block? && l == StmtsOf(ast, ast.nodes[id].list) && from <= |l|
    ensures m in ReadZeroMutations(ast, info, id, ast.nodes[id].list, l, from)
            <==> exists i: nat, k: nat :: i >= from && ZeroesReadAt(ast, info, id, i, k, m)
    decreases |l| - from
  {
    if from < |l| {
      ReadsOffered(ast, info, id, l, from + 1, m);
      CreatedMeans(ast, info, l[from]);
      if i: nat, k: nat :| i >= from && ZeroesReadAt(ast, info, id, i, k, m) && i == from {
        var j: nat :| ReadsInto(ast, info, l[from], j)
          && CreateReadZeroAssignment(ast, info, l[from])
             == Some(FAssign([FShared(ExprsOf(ast, ast.nodes[l[from].id].lhs)[j].id)], [FZero]));
        OnlyOneTarget(ast, info, l[from], j, k);
      }
      match CreateReadZeroAssignment(ast, info, l[from])
      case None =>
      case Some(added) =>
        var j: nat :| ReadsInto(ast, info, l[from], j)
          && added == FAssign([FShared(ExprsOf(ast, ast.nodes[l[from].id].lhs)[j].id)], [FZero]);
        assert ZeroesReadAt(ast, info, id, from, j, InsertStmt(id, ast.nodes[id].list, added, from + 1));
    }
  }

  /** distributed/readzero offers exactly the zero assignments after the reads of all blocks. */
  lemma ReadsOfferedOnWalk(ast: Ast, info: Info, root: NodeId, m: Mutation)
    requires Parsed(ast) && root in ast.nodes
    ensures m in SitesOf(DistributedReadZero, ast, info, root)
            <==> exists n | n in PreOrder(ast, root) :: ZeroesRead(ast, info, n, m)
  {
    WalkInTree(ast, root);
    SitesFollowPreOrder(DistributedReadZero, ast, info, root);
    InMutationsAt(DistributedReadZero, ast, info, PreOrder(ast, root), m);
    forall n | n in PreOrder(ast, root)
      ensures m in Mutations(DistributedReadZero, ast, info, n) <==> ZeroesRead(ast, info, n, m)
    {
      if ast.nodes[n].Block? {
        ReadsOffered(ast, info, n, StmtsOf(ast, ast.nodes[n].list), 0, m);
      }
    }
  }
}
