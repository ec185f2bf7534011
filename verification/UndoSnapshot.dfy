/** The bounded linear history that is persisted, as a function of the tree. */
module UndoSnapshot {
  import opened Wrappers
  import opened UndoTree
  import opened UndoMoves

  /** Bytes a run of edits holds. */
  function TextSize(edits: seq<Edit>): nat {
    if edits == [] then 0 else |edits[0].text| + TextSize(edits[1..])
  }

  function Size(group: Group): nat {
    TextSize(group.undo) + TextSize(group.redo)
  }

  /** A group takes the bytes of every text it holds, in both directions. */
  lemma {:induction false} SizeCounts(undo: seq<Edit>, redo: seq<Edit>, edit: Edit)
    ensures Size(Group(undo + [edit], redo)) == Size(Group(undo, redo)) + |edit.text|
    ensures Size(Group(undo, redo + [edit])) == Size(Group(undo, redo)) + |edit.text|
    ensures Size(Group([], [])) == 0
  {
    SizeOfMore(undo, edit);
    SizeOfMore(redo, edit);
  }

  lemma {:induction false} SizeOfMore(edits: seq<Edit>, edit: Edit)
    ensures TextSize(edits + [edit]) == TextSize(edits) + |edit.text|
  {
    if edits == [] {
      assert [edit][1..] == [];
    } else {
      assert (edits + [edit])[1..] == edits[1..] + [edit];
      SizeOfMore(edits[1..], edit);
    }
  }

  function TotalSize(groups: seq<Group>): nat {
    if groups == [] then 0 else Size(groups[0]) + TotalSize(groups[1..])
  }

  /** The committed groups above the current node, newest first. */
  function Chain(revs: seq<Revision>, n: nat): seq<Group>
    requires Parents(revs) && n < |revs|
    decreases n
  {
    if n == 0 then [] else [Group(revs[n].undo, revs[n].redo)] + Chain(revs, revs[n].parent)
  }

  /** Everything undo would walk through, newest first: the open group, then the ancestors. */
  function Line(tree: Tree): seq<Group>
    requires TreeOk(tree)
  {
    (if PendingCost(tree) > 0 then [tree.pending.value] else []) + Chain(tree.revisions, tree.current)
  }

  ghost predicate Fits(groups: seq<Group>, count: nat, budget: nat) {
    |groups| <= count && TotalSize(groups) <= budget
  }

  /** How many of the newest groups are retained. */
  function Kept(groups: seq<Group>, count: nat, budget: nat): (kept: nat)
    ensures kept <= |groups|
  {
    if groups == [] || count == 0 || Size(groups[0]) > budget then 0
    else 1 + Kept(groups[1..], count - 1, budget - Size(groups[0]))
  }

  /** The retained run fits both bounds and no longer one does. */
  lemma {:induction false} KeptIsLongest(groups: seq<Group>, count: nat, budget: nat, n: nat)
    requires n <= |groups|
    ensures Fits(groups[..n], count, budget) <==> n <= Kept(groups, count, budget)
  {
    if n == 0 {
    } else {
      assert groups[..n][1..] == groups[1..][..n - 1];
      if count > 0 && Size(groups[0]) <= budget {
        KeptIsLongest(groups[1..], count - 1, budget - Size(groups[0]), n - 1);
      }
    }
  }

  /** What follows a retained run is retained under what the run left of both bounds. */
  lemma {:induction false} KeptAfter(run: seq<Group>, rest: seq<Group>, count: nat, budget: nat)
    requires Fits(run, count, budget)
    ensures Kept(run + rest, count, budget) == |run| + Kept(rest, count - |run|, budget - TotalSize(run))
  {
    if run == [] {
      assert run + rest == rest;
    } else {
      assert (run + rest)[1..] == run[1..] + rest;
      KeptAfter(run[1..], rest, count - 1, budget - Size(run[0]));
    }
  }

  lemma RunIsKept(run: seq<Group>, rest: seq<Group>, count: nat, budget: nat)
    requires Fits(run, count, budget)
    requires rest != [] ==> |run| >= count || TotalSize(run) + Size(rest[0]) > budget
    ensures (run + rest)[..Kept(run + rest, count, budget)] == run
  {
    KeptAfter(run, rest, count, budget);
  }

  lemma {:induction false} TotalSizeConcat(a: seq<Group>, b: seq<Group>)
    ensures TotalSize(a + b) == TotalSize(a) + TotalSize(b)
  {
    if a == [] {
      assert a + b == b;
    } else {
      assert (a + b)[1..] == a[1..] + b;
      TotalSizeConcat(a[1..], b);
    }
  }

  /** The unbranched tree over groups given oldest first. */
  function Linear(groups: seq<Group>): (tree: Tree)
    ensures TreeOk(tree) && |tree.revisions| == |groups| + 1
  {
    var revs := seq(|groups| + 1, i requires 0 <= i <= |groups| =>
      var child := if i < |groups| then Some(i + 1) else None;
      if i == 0 then Revision(0, child, [], [])
      else Revision(i - 1, child, groups[i - 1].undo, groups[i - 1].redo));
    assert forall i {:trigger ChildOk(revs, i)} :: 0 <= i < |revs| ==> ChildOk(revs, i);
    Tree(revs, |groups|, None)
  }

  function Snapshot(tree: Tree, count: nat, budget: nat): (out: Tree)
    requires TreeOk(tree)
    ensures TreeOk(out)
  {
    var line := Line(tree);
    Linear(Reverse(line[..Kept(line, count, budget)]))
  }

  // ---------------------------------------------------------------- what undoing visits

  /** The texts on the way up from node n, newest first. */
  ghost function Ancestry(revs: seq<Revision>, texts: seq<Bytes>, n: nat): (out: seq<Bytes>)
    requires Parents(revs) && n < |revs| == |texts|
    ensures |out| == |Chain(revs, n)| + 1 && out[0] == texts[n]
    decreases n
  {
    if n == 0 then [texts[0]] else [texts[n]] + Ancestry(revs, texts, revs[n].parent)
  }

  /** The texts that repeated undo visits, starting with the live one. */
  ghost function Visited(tree: Tree, texts: seq<Bytes>, live: Bytes): (out: seq<Bytes>)
    requires TreeOk(tree) && |texts| == |tree.revisions|
    ensures |out| == |Line(tree)| + 1
  {
    if PendingCost(tree) > 0 then [live] + Ancestry(tree.revisions, texts, tree.current)
    else Ancestry(tree.revisions, texts, tree.current)
  }

  ghost predicate StepsBack(groups: seq<Group>, visited: seq<Bytes>) {
    |visited| == |groups| + 1
    && forall k :: 0 <= k < |groups| ==> Carries(visited[k + 1], groups[k].undo, groups[k].redo, visited[k])
  }

  lemma {:induction false} AncestryStepsBack(revs: seq<Revision>, texts: seq<Bytes>, n: nat)
    requires Parents(revs) && n < |revs| == |texts| && TextsOk(revs, texts)
    ensures StepsBack(Chain(revs, n), Ancestry(revs, texts, n))
    decreases n
  {
    if n == 0 {
    } else {
      var parent := revs[n].parent;
      AncestryStepsBack(revs, texts, parent);
      assert Carries(texts[parent], revs[n].undo, revs[n].redo, texts[n]);
      var groups, visited := Chain(revs, n), Ancestry(revs, texts, n);
      forall k | 0 <= k < |groups|
        ensures Carries(visited[k + 1], groups[k].undo, groups[k].redo, visited[k])
      {
        if k > 0 {
          assert groups[k] == Chain(revs, parent)[k - 1];
        }
      }
    }
  }

  lemma VisitedStepsBack(tree: Tree, texts: seq<Bytes>, live: Bytes)
    requires Consistent(tree, texts, live)
    ensures StepsBack(Line(tree), Visited(tree, texts, live))
    ensures Visited(tree, texts, live)[0] == live
  {
    AncestryStepsBack(tree.revisions, texts, tree.current);
    var groups, visited := Line(tree), Visited(tree, texts, live);
    var chain, above := Chain(tree.revisions, tree.current), Ancestry(tree.revisions, texts, tree.current);
    if PendingCost(tree) > 0 {
      forall k | 0 <= k < |groups|
        ensures Carries(visited[k + 1], groups[k].undo, groups[k].redo, visited[k])
      {
        if k > 0 {
          assert groups[k] == chain[k - 1];
          assert Carries(above[k], chain[k - 1].undo, chain[k - 1].redo, above[k - 1]);
        }
      }
    } else if tree.pending.Some? {
      assert tree.pending.value == Group([], []);
    }
  }

  lemma {:induction false} AncestryFrame(revs: seq<Revision>, out: seq<Revision>,
                                         texts: seq<Bytes>, known: seq<Bytes>, n: nat)
    requires Extends(revs, out) && n < |revs| == |texts| && |out| == |known| && texts <= known
    ensures Ancestry(out, known, n) == Ancestry(revs, texts, n)
    decreases n
  {
    if n == 0 {
    } else {
      AncestryFrame(revs, out, texts, known, revs[n].parent);
    }
  }

  /** `Visited` is what repeated undo shows: each undo drops its first text, and undo is refused
      when one text is left. */
  lemma UndoAdvancesVisited(tree: Tree, texts: seq<Bytes>, live: Bytes)
    requires Consistent(tree, texts, live)
    ensures var (ops, after) := Navigated(tree, Undo);
            var visited, known := Visited(tree, texts, live), CommittedTexts(tree, texts, live);
            && (ops.None? <==> |visited| == 1)
            && (ops.Some? ==> |known| == |after.revisions|
                              && known[after.current] == visited[1]
                              && Visited(after, known, visited[1]) == visited[1..])
  {
    var (ops, after) := Navigated(tree, Undo);
    NavigationReaches(tree, texts, live, Undo);
    if ops.Some? {
      AncestryFrame(tree.revisions, after.revisions, texts, CommittedTexts(tree, texts, live), after.current);
    }
  }

  /** A linear tree over the last groups of a line records the texts those groups step through. */
  lemma LinearRecords(groups: seq<Group>, visited: seq<Bytes>, kept: nat)
    requires StepsBack(groups, visited) && kept <= |groups|
    ensures Consistent(Linear(Reverse(groups[..kept])), Reverse(visited[..kept + 1]), visited[0])
  {
    var run, seen := groups[..kept], visited[..kept + 1];
    var tree, texts := Linear(Reverse(run)), Reverse(seen);
    forall i | 0 < i < |tree.revisions|
      ensures Carries(texts[tree.revisions[i].parent], tree.revisions[i].undo, tree.revisions[i].redo, texts[i])
    {
      ReverseAt(run, i - 1);
      ReverseAt(seen, i - 1);
      ReverseAt(seen, i);
      var k := kept - i;
      assert Carries(visited[k + 1], groups[k].undo, groups[k].redo, visited[k]);
    }
    ReverseAt(seen, kept);
  }

  /** Persisting keeps the newest run of undo steps that fits, and undoing through the snapshot
      visits, step by step, the texts that undoing through the whole tree would have visited. */
  lemma SnapshotUndoesAlike(tree: Tree, texts: seq<Bytes>, live: Bytes, count: nat, budget: nat)
    requires Consistent(tree, texts, live)
    ensures var kept := Kept(Line(tree), count, budget);
            var visited := Visited(tree, texts, live);
            var out, known := Snapshot(tree, count, budget), Reverse(visited[..kept + 1]);
            Consistent(out, known, live)
            && out.current == kept
            && Visited(out, known, live) == visited[..kept + 1]
  {
    var line, visited := Line(tree), Visited(tree, texts, live);
    var kept := Kept(line, count, budget);
    VisitedStepsBack(tree, texts, live);
    LinearRecords(line, visited, kept);
    LinearVisitsBackwards(Reverse(line[..kept]), visited[..kept + 1], live);
  }

  lemma LinearVisitsBackwards(groups: seq<Group>, seen: seq<Bytes>, live: Bytes)
    requires |seen| == |groups| + 1
    ensures Visited(Linear(groups), Reverse(seen), live) == seen
  {
    var known := Reverse(seen);
    ChainVisits(Linear(groups).revisions, known, |groups|);
    assert known[..|groups| + 1] == known;
    ReverseReverse(seen);
  }

  lemma AncestryUnfolds(revs: seq<Revision>, texts: seq<Bytes>, n: nat)
    requires Parents(revs) && n < |revs| == |texts|
    ensures Ancestry(revs, texts, n) == if n == 0 then [texts[0]]
              else [texts[n]] + Ancestry(revs, texts, revs[n].parent)
  {
  }

  lemma ReversedFront(texts: seq<Bytes>, n: nat)
    requires n < |texts|
    ensures Reverse(texts[..n + 1]) == if n == 0 then [texts[0]] else [texts[n]] + Reverse(texts[..n])
  {
    assert texts[..n + 1] == texts[..n] + [texts[n]];
    ReverseConcat(texts[..n], [texts[n]]);
    assert Reverse([texts[n]]) == [texts[n]];
    assert n == 0 ==> texts[..n] == [];
  }

  /** In an unbranched tree the way up from a node is the nodes before it, backwards. */
  lemma {:induction false} ChainVisits(revs: seq<Revision>, texts: seq<Bytes>, n: nat)
    requires Parents(revs) && n < |revs| == |texts| && forall i :: 0 < i <= n ==> revs[i].parent == i - 1
    ensures Ancestry(revs, texts, n) == Reverse(texts[..n + 1])
    decreases n
  {
    AncestryUnfolds(revs, texts, n);
    hide Ancestry, Chain, Reverse;
    ReversedFront(texts, n);
    if n == 0 {
    } else {
      ChainVisits(revs, texts, n - 1);
    }
  }
}
