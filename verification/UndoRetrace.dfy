/** What several moves in a row do to the tree: redo takes back undo, step by step, and nothing else is touched. */
module UndoRetrace {
  import opened Wrappers
  import opened UndoTree
  import opened UndoMoves

  /** The same move k times: all the edits returned, if every one was possible, and the tree reached. */
  function Times(tree: Tree, action: Action, k: nat): (out: (Option<seq<Edit>>, Tree))
    requires TreeOk(tree)
    ensures TreeOk(out.1)
    decreases k
  {
    if k == 0 then (Some([]), tree)
    else
      var (first, next) := Navigated(tree, action);
      var (rest, last) := Times(next, action, k - 1);
      (if first.Some? && rest.Some? then Some(first.value + rest.value) else None, last)
  }

  // ---------------------------------------------------------------- what a move leaves alone

  /** An undo changes one last child, its parent's; a redo changes none; an impossible move changes nothing. */
  lemma StepFrame(tree: Tree, action: Action)
    requires TreeOk(tree) && tree.pending.None? && !action.Jump?
    ensures var (ops, after) := Navigated(tree, action);
            && after.pending.None? && |after.revisions| == |tree.revisions|
            && (ops.None? ==> after == tree)
            && (action.Redo? ==> after.revisions == tree.revisions)
            && forall i :: 0 <= i < |tree.revisions| ==>
                 after.revisions[i]
                 == if action.Undo? && i == after.current && tree.current > 0
                    then tree.revisions[i].(lastChild := Some(tree.current))
                    else tree.revisions[i]
  {
    assert Committed(tree) == tree;
  }

  /** A node whose child on one of the two legs of a jump is visited last. */
  ghost predicate OnLegs(revs: seq<Revision>, from: nat, to: nat, i: nat)
    requires Parents(revs) && from < |revs| && to < |revs| && i < |revs|
  {
    IsAncestor(revs, Fork(revs, from, to), i)
    && ((i != from && IsAncestor(revs, i, from)) || (i != to && IsAncestor(revs, i, to)))
  }

  /** A jump changes no last child off its two legs. */
  lemma JumpFrame(tree: Tree, target: nat, i: nat)
    requires TreeOk(tree) && target < |tree.revisions| && i < |tree.revisions|
    requires !OnLegs(tree.revisions, tree.current, target, i)
    ensures |Jumped(tree, target).1.revisions| == |tree.revisions|
    ensures Jumped(tree, target).1.revisions[i] == tree.revisions[i]
  {
    var revs, from := tree.revisions, tree.current;
    var fork := Fork(revs, from, target);
    ForkIsLowestCommon(revs, from, target);
    LinkKeepsAncestors(revs, fork, from, fork, target);
    LinkKeepsAncestors(revs, fork, from, fork, i);
    LinkKeepsAncestors(revs, fork, from, i, target);
    LinkFrame(revs, fork, from, i);
    LinkFrame(Link(revs, fork, from), fork, target, i);
  }

  lemma {:induction false} LinkFrame(revs: seq<Revision>, a: nat, n: nat, i: nat)
    requires Parents(revs) && n < |revs| && i < |revs| && IsAncestor(revs, a, n)
    requires !(IsAncestor(revs, a, i) && i != n && IsAncestor(revs, i, n))
    ensures Link(revs, a, n)[i] == revs[i]
    decreases n
  {
    if n == a {
    } else {
      var parent := revs[n].parent;
      if i != parent {
        if i == n { AncestorsBelow(revs, n, parent); }
        LinkFrame(revs, a, parent, i);
      }
    }
  }

  /** Between two nodes of one line the first step of a jump's leg is its last child. */
  lemma JumpUpLinks(tree: Tree, target: nat, child: nat)
    requires TreeOk(tree) && target < |tree.revisions| && 0 < child < |tree.revisions|
    requires tree.revisions[child].parent == target && IsAncestor(tree.revisions, child, tree.current)
    ensures Jumped(tree, target).1.revisions[target].lastChild == Some(child)
  {
    var revs, from := tree.revisions, tree.current;
    AncestorTransitive(revs, target, child, from);
    assert Fork(revs, from, target) == target;
    LinkLinks(revs, target, from);
    LinkKeepsAncestors(revs, target, from, child, from);
    LinkKeepsAncestors(revs, target, from, target, child);
    LinkedLegAt(Link(revs, target, from), target, from, child);
  }

  /** Closing a group adds one node for it, last visited below the old current one; undo takes the group back and
      redo brings it again. Without edits nothing is added. */
  lemma GroupBecomesNode(tree: Tree)
    requires TreeOk(tree) && tree.pending.Some?
    ensures var group, node := tree.pending.value, |tree.revisions|;
            var (undo, up) := Navigated(tree, Undo);
            var (redo, back) := Navigated(up, Redo);
            if group.undo == [] then Committed(tree) == tree.(pending := None)
            else
              && |Committed(tree).revisions| == node + 1
              && Committed(tree).current == node && Committed(tree).revisions[tree.current].lastChild == Some(node)
              && undo == Some(Reverse(group.undo)) && up.current == tree.current
              && redo == Some(group.redo) && back.current == node
              && |back.revisions| == node + 1
              && back.revisions[node] == Revision(tree.current, None, group.undo, group.redo)
              && forall i :: 0 <= i < node ==>
                   back.revisions[i] == if i == tree.current then tree.revisions[i].(lastChild := Some(node))
                                        else tree.revisions[i]
  {
    if tree.pending.value.undo != [] {
      var base := Committed(tree);
      var up := Undone(base).1;
      assert up.revisions == base.revisions && Committed(up) == up;
    }
  }

  // ---------------------------------------------------------------- undo after undo, redo after redo

  /** k undos climb k levels and leave the way back linked; from the node left down nothing changes. */
  lemma {:induction false} UndosClimb(tree: Tree, k: nat)
    requires TreeOk(tree) && tree.pending.None? && k <= Depth(tree.revisions, tree.current)
    ensures var (undo, up) := Times(tree, Undo, k);
            && up.pending.None? && Extends(tree.revisions, up.revisions) && |up.revisions| == |tree.revisions|
            && (forall i :: tree.current <= i < |tree.revisions| ==> up.revisions[i] == tree.revisions[i])
            && LinkedLeg(up.revisions, up.current, tree.current)
            && Depth(tree.revisions, up.current) + k == Depth(tree.revisions, tree.current)
            && IsAncestor(tree.revisions, up.current, tree.current)
            && undo == Some(UndoLeg(tree.revisions, tree.current, up.current))
    decreases k
  {
    if k == 0 {
    } else {
      var revs, n := tree.revisions, tree.current;
      StepFrame(tree, Undo);
      var next := Navigated(tree, Undo).1;
      DepthFrame(revs, next.revisions, next.current);
      UndosClimb(next, k - 1);
      var up := Times(next, Undo, k - 1).1;
      DepthFrame(revs, next.revisions, up.current);
      AncestorFrame(revs, next.revisions, up.current, next.current);
      LegFrame(revs, next.revisions, up.current, next.current);
      AncestorFrame(revs, up.revisions, up.current, n);
      AncestorsBelow(revs, n, next.current);
      assert up.revisions[next.current] == next.revisions[next.current];
    }
  }

  /** The first step down a linked leg. */
  lemma {:induction false} FirstDown(revs: seq<Revision>, a: nat, n: nat) returns (child: nat)
    requires GraphOk(revs) && a < n < |revs| && LinkedLeg(revs, a, n)
    ensures 0 < child <= n && revs[child].parent == a && revs[a].lastChild == Some(child)
    ensures LinkedLeg(revs, child, n)
    ensures RedoLeg(revs, a, n) == revs[child].redo + RedoLeg(revs, child, n)
    decreases n
  {
    var parent := revs[n].parent;
    if parent == a {
      child := n;
      assert RedoLeg(revs, a, n) == [] + revs[n].redo == revs[n].redo + [];
    } else {
      AncestorOrder(revs, a, parent);
      child := FirstDown(revs, a, parent);
    }
  }

  /** k redos follow a linked leg of k levels to its foot and change no node. */
  lemma {:induction false} RedosDescend(tree: Tree, n: nat, k: nat)
    requires TreeOk(tree) && tree.pending.None? && n < |tree.revisions|
    requires LinkedLeg(tree.revisions, tree.current, n)
    requires Depth(tree.revisions, tree.current) + k == Depth(tree.revisions, n)
    ensures Times(tree, Redo, k) == (Some(RedoLeg(tree.revisions, tree.current, n)), tree.(current := n))
    decreases k
  {
    var revs, a := tree.revisions, tree.current;
    AncestorOrder(revs, a, n);
    if k == 0 {
    } else {
      var child := FirstDown(revs, a, n);
      assert Committed(tree) == tree;
      assert Navigated(tree, Redo) == (Some(revs[child].redo), tree.(current := child));
      RedosDescend(tree.(current := child), n, k - 1);
    }
  }

  /** As many redos as undos lead back to the node that was left, through the edits that were undone. */
  lemma UndosThenRedos(tree: Tree, k: nat)
    requires TreeOk(tree) && tree.pending.None? && k <= Depth(tree.revisions, tree.current)
    ensures var (undo, up) := Times(tree, Undo, k);
            var (redo, back) := Times(up, Redo, k);
            && up.current < |tree.revisions| == |up.revisions|
            && Depth(tree.revisions, up.current) + k == Depth(tree.revisions, tree.current)
            && IsAncestor(tree.revisions, up.current, tree.current)
            && undo == Some(UndoLeg(tree.revisions, tree.current, up.current))
            && redo == Some(RedoLeg(tree.revisions, up.current, tree.current))
            && back.current == tree.current && back.revisions == up.revisions
  {
    var up := Times(tree, Undo, k).1;
    UndosClimb(tree, k);
    DepthFrame(tree.revisions, up.revisions, up.current);
    DepthFrame(tree.revisions, up.revisions, tree.current);
    RedosDescend(up, tree.current, k);
    LegFrame(tree.revisions, up.revisions, up.current, tree.current);
  }

  /** One undo more than there are levels is refused, and so is a redo where nothing was visited. */
  lemma StepsEnd(tree: Tree)
    requires TreeOk(tree) && tree.pending.None?
    ensures Navigated(tree, Undo).0.None? <==> tree.current == 0
    ensures Navigated(tree, Redo).0.None? <==> tree.revisions[tree.current].lastChild.None?
  {
    assert Committed(tree) == tree;
  }
}
