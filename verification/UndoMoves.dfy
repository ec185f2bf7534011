/** The moves of the undo history as functions of the tree, and the texts they carry. */
module UndoMoves {
  import opened Wrappers
  import opened UndoTree

  // ---------------------------------------------------------------- moves on values

  function PendingCost(tree: Tree): nat {
    if tree.pending.Some? then |tree.pending.value.undo| else 0
  }

  predicate TreeOk(tree: Tree) {
    && GraphOk(tree.revisions)
    && tree.current < |tree.revisions|
    && (tree.pending.Some? ==> |tree.pending.value.undo| == |tree.pending.value.redo|)
  }

  function Begun(tree: Tree): Tree {
    if tree.pending.None? then tree.(pending := Some(Group([], []))) else tree
  }

  /** One more mutation in the open group, opened if need be. */
  function Recorded(tree: Tree, undo: Edit, redo: Edit): Tree {
    var group := if tree.pending.Some? then tree.pending.value else Group([], []);
    tree.(pending := Some(Group(group.undo + [undo], group.redo + [redo])))
  }

  /** Names a recorded edit, before and after its group is committed. */
  datatype EditRef = EditRef(revision: nat, index: nat)

  function EditAt(tree: Tree, reference: EditRef): Option<Edit> {
    var open := if tree.pending.Some? then tree.pending.value.redo else [];
    var edits := if reference.revision == |tree.revisions| then open
                 else if reference.revision < |tree.revisions| then tree.revisions[reference.revision].redo
                 else [];
    if reference.index < |edits| then Some(edits[reference.index]) else None
  }

  function InsertedText(tree: Tree, reference: EditRef): Option<Bytes> {
    match EditAt(tree, reference)
    case None => None
    case Some(edit) => if edit.kind.Insert? then Some(edit.text) else None
  }

  /** The reference returned for the next recorded edit. */
  function NextRef(tree: Tree): EditRef {
    EditRef(|tree.revisions|, if tree.pending.Some? then |tree.pending.value.redo| else 0)
  }

  function SetChild(revs: seq<Revision>, parent: nat, child: nat): seq<Revision>
    requires parent < |revs|
  {
    revs[parent := revs[parent].(lastChild := Some(child))]
  }

  lemma SetChildKeepsGraph(revs: seq<Revision>, child: nat)
    requires GraphOk(revs) && 0 < child < |revs|
    ensures GraphOk(SetChild(revs, revs[child].parent, child))
  {
    var out := SetChild(revs, revs[child].parent, child);
    forall i | 0 <= i < |out| ensures ChildOk(out, i) {
      assert ChildOk(revs, i);
    }
  }

  lemma GrowKeepsGraph(revs: seq<Revision>, node: Revision)
    requires GraphOk(revs) && node.parent < |revs| && node.lastChild == None
    ensures GraphOk(revs + [node])
  {
    forall i | 0 <= i < |revs + [node]| ensures ChildOk(revs + [node], i) {
      if i < |revs| { assert ChildOk(revs, i); }
    }
  }

  function Committed(tree: Tree): (out: Tree)
    requires TreeOk(tree)
    ensures TreeOk(out) && out.pending == None
    ensures |out.revisions| == |tree.revisions| + if PendingCost(tree) > 0 then 1 else 0
  {
    if PendingCost(tree) == 0 then tree.(pending := None)
    else
      var node := |tree.revisions|;
      var group := tree.pending.value;
      var grown := tree.revisions + [Revision(tree.current, None, group.undo, group.redo)];
      GrowKeepsGraph(tree.revisions, grown[node]);
      SetChildKeepsGraph(grown, node);
      Tree(SetChild(grown, tree.current, node), node, None)
  }

  function Undone(tree: Tree): (out: (Option<seq<Edit>>, Tree))
    requires TreeOk(tree)
    ensures TreeOk(out.1)
  {
    var node := tree.current;
    if node == 0 then (None, tree)
    else
      var parent := tree.revisions[node].parent;
      SetChildKeepsGraph(tree.revisions, node);
      (Some(Reverse(tree.revisions[node].undo)),
       tree.(revisions := SetChild(tree.revisions, parent, node), current := parent))
  }

  function Redone(tree: Tree): (out: (Option<seq<Edit>>, Tree))
    requires TreeOk(tree)
    ensures TreeOk(out.1)
  {
    match tree.revisions[tree.current].lastChild
    case None => (None, tree)
    case Some(child) =>
      assert ChildOk(tree.revisions, tree.current);
      (Some(tree.revisions[child].redo), tree.(current := child))
  }

  function Jumped(tree: Tree, target: nat): (out: (Option<seq<Edit>>, Tree))
    requires TreeOk(tree)
    ensures TreeOk(out.1)
  {
    if target >= |tree.revisions| then (None, tree)
    else
      var revs, from := tree.revisions, tree.current;
      var fork := Fork(revs, from, target);
      ForkIsLowestCommon(revs, from, target);
      LinkKeepsGraph(revs, fork, from);
      LinkKeepsAncestors(revs, fork, from, fork, target);
      LinkKeepsGraph(Link(revs, fork, from), fork, target);
      (Some(OpsBetween(revs, from, target)),
       tree.(revisions := Link(Link(revs, fork, from), fork, target), current := target))
  }

  function Moved(tree: Tree, action: Action): (out: (Option<seq<Edit>>, Tree))
    requires TreeOk(tree)
    ensures TreeOk(out.1)
  {
    match action
    case Undo => Undone(tree)
    case Redo => Redone(tree)
    case Jump(target) => Jumped(tree, target)
  }

  function Navigated(tree: Tree, action: Action): (out: (Option<seq<Edit>>, Tree))
    requires TreeOk(tree)
    ensures TreeOk(out.1)
  {
    Moved(Committed(tree), action)
  }

  function Cost(tree: Tree, action: Action): Option<nat>
    requires TreeOk(tree)
  {
    var pending, here := PendingCost(tree), tree.revisions[tree.current];
    match action
    case Undo =>
      if pending > 0 then Some(pending)
      else if tree.current == 0 then None
      else Some(|here.undo|)
    case Redo =>
      if pending > 0 || here.lastChild == None then None
      else assert ChildOk(tree.revisions, tree.current); Some(|tree.revisions[here.lastChild.value].redo|)
    case Jump(target) =>
      if target >= |tree.revisions| then None
      else Some(pending + |OpsBetween(tree.revisions, tree.current, target)|)
  }

  lemma {:induction false} LinkKeepsAncestors(revs: seq<Revision>, a: nat, n: nat, b: nat, m: nat)
    requires Parents(revs) && n < |revs| && m < |revs| && IsAncestor(revs, a, n)
    ensures Parents(Link(revs, a, n))
    ensures IsAncestor(Link(revs, a, n), b, m) == IsAncestor(revs, b, m)
    decreases m
  {
    if m == 0 || m == b {
    } else {
      LinkKeepsAncestors(revs, a, n, b, revs[m].parent);
    }
  }

  // ---------------------------------------------------------------- texts

  /** Text i is what the buffer held at revision i; `live` is what it holds now. */
  ghost predicate Consistent(tree: Tree, texts: seq<Bytes>, live: Bytes) {
    && TreeOk(tree)
    && |texts| == |tree.revisions|
    && TextsOk(tree.revisions, texts)
    && match tree.pending
       case None => live == texts[tree.current]
       case Some(group) => Carries(texts[tree.current], group.undo, group.redo, live)
  }

  ghost predicate TextsOk(revs: seq<Revision>, texts: seq<Bytes>)
    requires Parents(revs) && |texts| == |revs|
  {
    forall i :: 0 < i < |revs| ==> Carries(texts[revs[i].parent], revs[i].undo, revs[i].redo, texts[i])
  }

  ghost function CommittedTexts(tree: Tree, texts: seq<Bytes>, live: Bytes): seq<Bytes> {
    if PendingCost(tree) > 0 then texts + [live] else texts
  }

  lemma CommitKeepsTexts(tree: Tree, texts: seq<Bytes>, live: Bytes)
    requires Consistent(tree, texts, live)
    ensures Consistent(Committed(tree), CommittedTexts(tree, texts, live), live)
  {
    var out, after := Committed(tree), CommittedTexts(tree, texts, live);
    if tree.pending.Some? && PendingCost(tree) == 0 {
      assert tree.pending.value == Group([], []);
    }
    assert TextsOk(out.revisions, after) by {
      forall i | 0 < i < |out.revisions|
        ensures Carries(after[out.revisions[i].parent], out.revisions[i].undo, out.revisions[i].redo, after[i])
      {
        if i < |tree.revisions| {
          assert Carries(texts[tree.revisions[i].parent], tree.revisions[i].undo, tree.revisions[i].redo, texts[i]);
        }
      }
    }
  }

  lemma {:induction false} UndoLegReaches(revs: seq<Revision>, texts: seq<Bytes>, n: nat, a: nat)
    requires Parents(revs) && |texts| == |revs| && TextsOk(revs, texts)
    requires a <= n < |revs| && IsAncestor(revs, a, n)
    ensures Apply(texts[n], UndoLeg(revs, n, a)) == Success(texts[a])
    decreases n
  {
    if n == a {
    } else {
      var parent := revs[n].parent;
      AncestorOrder(revs, a, parent);
      assert Carries(texts[parent], revs[n].undo, revs[n].redo, texts[n]);
      UndoLegReaches(revs, texts, parent, a);
      ApplyConcat(texts[n], Reverse(revs[n].undo), UndoLeg(revs, parent, a));
    }
  }

  lemma {:induction false} RedoLegReaches(revs: seq<Revision>, texts: seq<Bytes>, a: nat, n: nat)
    requires Parents(revs) && |texts| == |revs| && TextsOk(revs, texts)
    requires a <= n < |revs| && IsAncestor(revs, a, n)
    ensures Apply(texts[a], RedoLeg(revs, a, n)) == Success(texts[n])
    decreases n
  {
    if n == a {
    } else {
      var parent := revs[n].parent;
      AncestorOrder(revs, a, parent);
      assert Carries(texts[parent], revs[n].undo, revs[n].redo, texts[n]);
      RedoLegReaches(revs, texts, a, parent);
      ApplyConcat(texts[a], RedoLeg(revs, a, parent), revs[n].redo);
    }
  }

  /** Across any fork, the edits between two nodes carry one text to the other. */
  lemma OpsBetweenReaches(revs: seq<Revision>, texts: seq<Bytes>, from: nat, to: nat)
    requires Parents(revs) && |texts| == |revs| && TextsOk(revs, texts)
    requires from < |revs| && to < |revs|
    ensures Apply(texts[from], OpsBetween(revs, from, to)) == Success(texts[to])
  {
    var fork := Fork(revs, from, to);
    ForkIsLowestCommon(revs, from, to);
    AncestorOrder(revs, fork, from);
    AncestorOrder(revs, fork, to);
    UndoLegReaches(revs, texts, from, fork);
    RedoLegReaches(revs, texts, fork, to);
    ApplyConcat(texts[from], UndoLeg(revs, from, fork), RedoLeg(revs, fork, to));
  }

  /** Where a move on a committed tree must land. */
  ghost predicate Lands(tree: Tree, action: Action, node: nat)
    requires TreeOk(tree)
  {
    match action
    case Undo => tree.current > 0 && node == tree.revisions[tree.current].parent
    case Redo => tree.revisions[tree.current].lastChild == Some(node)
    case Jump(target) => target < |tree.revisions| && node == target
  }

  /** Meaning of a move: with or without an open group, the edits it returns carry the buffer to
      the text of the node it lands on, and the tree stays a record of those same texts. */
  lemma NavigationReaches(tree: Tree, texts: seq<Bytes>, live: Bytes, action: Action)
    requires Consistent(tree, texts, live)
    ensures var (ops, after) := Navigated(tree, action);
            var known := CommittedTexts(tree, texts, live);
            match ops
            case None => after == Committed(tree) && Consistent(after, known, live)
                         && forall node: nat :: !Lands(Committed(tree), action, node)
            case Some(edits) => Lands(Committed(tree), action, after.current)
                                && Apply(live, edits) == Success(known[after.current])
                                && Consistent(after, known, known[after.current])
  {
    CommitKeepsTexts(tree, texts, live);
    var base, known := Committed(tree), CommittedTexts(tree, texts, live);
    var (ops, after) := Moved(base, action);
    if ops.Some? {
      match action {
        case Undo =>
          assert Carries(known[after.current], base.revisions[base.current].undo,
                         base.revisions[base.current].redo, known[base.current]);
        case Redo =>
          assert ChildOk(base.revisions, base.current);
          assert Carries(known[base.current], base.revisions[after.current].undo,
                         base.revisions[after.current].redo, known[after.current]);
        case Jump(target) => OpsBetweenReaches(base.revisions, known, base.current, target);
      }
    }
  }

  // ---------------------------------------------------------------- the announced cost

  /** The one move whose cost is announced as impossible although navigating performs it: a jump
      to the node that committing the open group is about to create. */
  predicate JumpsToOpenGroup(tree: Tree, action: Action) {
    PendingCost(tree) > 0 && action == Jump(|tree.revisions|)
  }

  ghost predicate CostAgrees(tree: Tree, action: Action)
    requires TreeOk(tree)
  {
    var ops := Navigated(tree, action).0;
    Cost(tree, action) == match ops case None => None case Some(edits) => Some(|edits|)
  }

  /** The cost counted before a move is the number of edits the move then returns, exactly except
      for that one jump. */
  lemma CostIsNavigationLength(tree: Tree, action: Action)
    requires TreeOk(tree)
    ensures CostAgrees(tree, action) <==> !JumpsToOpenGroup(tree, action)
  {
    if PendingCost(tree) > 0 && action.Jump? && action.target < |tree.revisions| {
      JumpOverOpenGroup(tree, action.target);
    }
  }

  lemma JumpOverOpenGroup(tree: Tree, target: nat)
    requires TreeOk(tree) && PendingCost(tree) > 0 && target < |tree.revisions|
    ensures |OpsBetween(Committed(tree).revisions, Committed(tree).current, target)|
         == PendingCost(tree) + |OpsBetween(tree.revisions, tree.current, target)|
  {
    var base := Committed(tree);
    CommitKeepsOps(tree, tree.current, target);
    AncestorsBelow(base.revisions, base.current, target);
    CostStep(base.revisions, base.current, target);
  }

  lemma AncestorsBelow(revs: seq<Revision>, a: nat, n: nat)
    requires Parents(revs) && n < |revs| && n < a
    ensures !IsAncestor(revs, a, n)
  {
    if IsAncestor(revs, a, n) {
      AncestorOrder(revs, a, n);
    }
  }

  /** Committing adds a node and moves no edits between the old ones. */
  lemma CommitKeepsOps(tree: Tree, from: nat, to: nat)
    requires TreeOk(tree) && from < |tree.revisions| && to < |tree.revisions|
    ensures OpsBetween(Committed(tree).revisions, from, to) == OpsBetween(tree.revisions, from, to)
  {
    ForkFrame(tree.revisions, Committed(tree).revisions, from, to);
    ForkIsLowestCommon(tree.revisions, from, to);
    LegFrame(tree.revisions, Committed(tree).revisions, Fork(tree.revisions, from, to), from);
    LegFrame(tree.revisions, Committed(tree).revisions, Fork(tree.revisions, from, to), to);
  }

  ghost predicate Extends(revs: seq<Revision>, out: seq<Revision>) {
    Parents(revs) && Parents(out) && |revs| <= |out|
    && forall i :: 0 <= i < |revs| ==> out[i] == revs[i].(lastChild := out[i].lastChild)
  }

  lemma {:induction false} AncestorFrame(revs: seq<Revision>, out: seq<Revision>, a: nat, n: nat)
    requires Extends(revs, out) && n < |revs|
    ensures IsAncestor(out, a, n) == IsAncestor(revs, a, n)
    decreases n
  {
    if n == 0 {
    } else {
      AncestorFrame(revs, out, a, revs[n].parent);
    }
  }

  lemma {:induction false} ForkFrame(revs: seq<Revision>, out: seq<Revision>, a: nat, b: nat)
    requires Extends(revs, out) && a < |revs| && b < |revs|
    ensures Fork(out, a, b) == Fork(revs, a, b)
    decreases b
  {
    AncestorFrame(revs, out, b, a);
    if b == 0 {
    } else {
      ForkFrame(revs, out, a, revs[b].parent);
    }
  }

  lemma {:induction false} LegFrame(revs: seq<Revision>, out: seq<Revision>, a: nat, n: nat)
    requires Extends(revs, out) && n < |revs| && IsAncestor(revs, a, n)
    ensures IsAncestor(out, a, n)
    ensures UndoLeg(out, n, a) == UndoLeg(revs, n, a)
    ensures RedoLeg(out, a, n) == RedoLeg(revs, a, n)
    decreases n
  {
    if n == a {
    } else {
      LegFrame(revs, out, a, revs[n].parent);
    }
  }

  // ---------------------------------------------------------------- redo retraces

  /** After a jump up to an ancestor, redoing once per level returns to the node that was left. */
  lemma RedoRetraces(tree: Tree, ancestor: nat)
    requires TreeOk(tree) && ancestor < |tree.revisions|
    requires IsAncestor(tree.revisions, ancestor, tree.current)
    ensures var after := Jumped(tree, ancestor).1;
            after.current == ancestor
            && Depth(tree.revisions, ancestor) <= Depth(tree.revisions, tree.current)
            && Descend(after.revisions, ancestor,
                       Depth(tree.revisions, tree.current) - Depth(tree.revisions, ancestor)) == Some(tree.current)
  {
    var revs, from := tree.revisions, tree.current;
    assert Fork(revs, from, ancestor) == ancestor;
    var after := Link(revs, ancestor, from);
    LinkKeepsGraph(revs, ancestor, from);
    assert Jumped(tree, ancestor).1.revisions == after;
    LinkLinks(revs, ancestor, from);
    AncestorOrder(revs, ancestor, from);
    DescendFollows(after, ancestor, from, 0);
    DepthFrame(revs, after, ancestor);
    DepthFrame(revs, after, from);
  }

  /** Redo takes back an undo: the same node, and the edits that were undone. */
  lemma RedoAfterUndo(tree: Tree)
    requires TreeOk(tree) && tree.current > 0
    ensures var undone := Undone(tree).1;
            Redone(undone).1.current == tree.current
            && Redone(undone).0 == Some(tree.revisions[tree.current].redo)
  {
    var undone := Undone(tree).1;
    assert undone.revisions[undone.current].lastChild == Some(tree.current);
  }

  lemma {:induction false} DepthFrame(revs: seq<Revision>, out: seq<Revision>, n: nat)
    requires Extends(revs, out) && n < |revs|
    ensures Depth(out, n) == Depth(revs, n)
    decreases n
  {
    if n == 0 {
    } else {
      DepthFrame(revs, out, revs[n].parent);
    }
  }

  /** A node of the branch left behind by a jump, below that branch's first node. */
  ghost predicate LeftBehind(revs: seq<Revision>, fork: nat, from: nat, n: nat)
    requires Parents(revs) && from < |revs| && n < |revs|
  {
    n > 0 && revs[n].parent != fork && IsAncestor(revs, fork, revs[n].parent) && IsAncestor(revs, n, from)
  }

  /** After any jump redo leads level by level from the fork to the node reached, and the branch
      left behind stays linked from its own first node down. */
  lemma JumpLinksBothLegs(tree: Tree, target: nat)
    requires TreeOk(tree) && target < |tree.revisions|
    ensures var fork := Fork(tree.revisions, tree.current, target);
            var after := Jumped(tree, target).1.revisions;
            LinkedLeg(after, fork, target)
            && forall n: nat | n < |after| && LeftBehind(tree.revisions, fork, tree.current, n) ::
                 after[after[n].parent].lastChild == Some(n)
  {
    var revs, from := tree.revisions, tree.current;
    var fork := Fork(revs, from, target);
    ForkIsLowestCommon(revs, from, target);
    LinkKeepsAncestors(revs, fork, from, fork, target);
    var left := Link(revs, fork, from);
    var after := Link(left, fork, target);
    LinkLinks(left, fork, target);
    LinkLinks(revs, fork, from);
    forall n: nat | n < |after| && LeftBehind(revs, fork, from, n)
      ensures after[after[n].parent].lastChild == Some(n)
    {
      LeftBehindIsLinked(tree, target, n);
    }
  }

  lemma LeftBehindIsLinked(tree: Tree, target: nat, n: nat)
    requires TreeOk(tree) && target < |tree.revisions| && n < |tree.revisions|
    requires LeftBehind(tree.revisions, Fork(tree.revisions, tree.current, target), tree.current, n)
    ensures Jumped(tree, target).1.revisions[tree.revisions[n].parent].lastChild == Some(n)
  {
    var revs, from, parent := tree.revisions, tree.current, tree.revisions[n].parent;
    var fork := Fork(revs, from, target);
    ForkIsLowestCommon(revs, from, target);
    var left := Link(revs, fork, from);
    LinkKeepsAncestors(revs, fork, from, fork, target);
    LinkKeepsAncestors(revs, fork, from, parent, target);
    LinkKeepsAncestors(revs, fork, from, n, from);
    LinkKeepsAncestors(revs, fork, from, fork, n);
    AncestorTransitive(revs, parent, n, from);
    AncestorOrder(revs, fork, parent);
    if IsAncestor(revs, parent, target) {
      AncestorOrder(revs, parent, fork);
    } else {
      LinkMissesOthers(left, fork, target, parent);
      LinkLinks(revs, fork, from);
      LinkedLegAt(left, fork, from, n);
    }
  }

  lemma {:induction false} LinkMissesOthers(revs: seq<Revision>, a: nat, n: nat, i: nat)
    requires Parents(revs) && n < |revs| && i < |revs| && IsAncestor(revs, a, n)
    requires !IsAncestor(revs, i, n)
    ensures Link(revs, a, n)[i] == revs[i]
    decreases n
  {
    if n == a {
    } else {
      LinkMissesOthers(revs, a, revs[n].parent, i);
    }
  }

  lemma {:induction false} LinkedLegAt(revs: seq<Revision>, a: nat, leaf: nat, n: nat)
    requires Parents(revs) && leaf < |revs| && n < |revs| && LinkedLeg(revs, a, leaf)
    requires IsAncestor(revs, n, leaf) && IsAncestor(revs, a, n) && n != a
    ensures revs[revs[n].parent].lastChild == Some(n)
    decreases leaf
  {
    if leaf == n {
    } else {
      if leaf == a { AncestorOrder(revs, n, leaf); AncestorOrder(revs, a, n); }
      LinkedLegAt(revs, a, revs[leaf].parent, n);
    }
  }
}
