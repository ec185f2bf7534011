/** The undo history as one object. */
module HistoryObject {
  import opened Wrappers
  import opened UndoTree
  import opened UndoMoves
  import opened UndoSnapshot

  // Revisions, position and open group change in place; every method is tied to the move it performs
  // on the tree.

  class History {
    var revisions: seq<Revision>
    var current: nat
    var pending: Option<Group>

    function State(): Tree
      reads this
    {
      Tree(revisions, current, pending)
    }

    ghost predicate Valid()
      reads this
    {
      TreeOk(State())
    }

    constructor ()
      ensures Valid()
      ensures State() == Linear([])
    {
      revisions := [Revision(0, None, [], [])];
      current := 0;
      pending := None;
      new;
      assert Linear([]).revisions == revisions;
    }

    method Begin()
      requires Valid()
      modifies this`pending
      ensures Valid()
      ensures State() == Begun(old(State()))
    {
      if pending.None? {
        pending := Some(Group([], []));
      }
    }

    method Record(undo: Edit, redo: Edit) returns (reference: EditRef)
      requires Valid()
      modifies this`pending
      ensures Valid()
      ensures State() == Recorded(old(State()), undo, redo) && reference == NextRef(old(State()))
    {
      reference := EditRef(|revisions|, if pending.Some? then |pending.value.redo| else 0);
      var group := if pending.Some? then pending.value else Group([], []);
      pending := Some(Group(group.undo + [undo], group.redo + [redo]));
    }

    /** The text a reference inserted, wherever its edit is kept by now. */
    method ReferencedText(reference: EditRef) returns (text: Option<Bytes>)
      requires Valid()
      ensures text == InsertedText(State(), reference)
    {
      var edits: seq<Edit> := [];
      if reference.revision == |revisions| {
        if pending.None? {
          return None;
        }
        edits := pending.value.redo;
      } else {
        if reference.revision > |revisions| {
          return None;
        }
        edits := revisions[reference.revision].redo;
      }
      if reference.index >= |edits| || !edits[reference.index].kind.Insert? {
        return None;
      }
      return Some(edits[reference.index].text);
    }

    method Commit()
      requires Valid()
      modifies this
      ensures Valid()
      ensures State() == Committed(old(State()))
    {
      if pending.None? {
        return;
      }
      var group := pending.value;
      pending := None;
      if group.undo == [] {
        return;
      }
      ghost var was := old(State());
      assert Committed(was).revisions == Committed(was).revisions;
      revisions := revisions + [Revision(current, None, group.undo, group.redo)];
      var node := |revisions| - 1;
      revisions := revisions[current := revisions[current].(lastChild := Some(node))];
      current := node;
    }

    method UndoOps() returns (ops: Option<seq<Edit>>)
      requires Valid()
      modifies this
      ensures Valid()
      ensures (ops, State()) == Undone(old(State()))
    {
      if current == 0 {
        return None;
      }
      var node, parent := current, revisions[current].parent;
      ops := Some(Reverse(revisions[node].undo));
      SetChildKeepsGraph(revisions, node);
      revisions := revisions[parent := revisions[parent].(lastChild := Some(node))];
      current := parent;
    }

    method RedoOps() returns (ops: Option<seq<Edit>>)
      requires Valid()
      modifies this`current
      ensures Valid()
      ensures (ops, State()) == Redone(old(State()))
    {
      match revisions[current].lastChild
      case None => return None;
      case Some(child) =>
        assert ChildOk(revisions, current);
        ops := Some(revisions[child].redo);
        current := child;
    }

    /** The ancestors of the current node, itself first and the root last. */
    method AncestorsOfCurrent() returns (nodes: seq<nat>)
      requires Valid()
      ensures forall a: nat :: a in nodes <==> IsAncestor(revisions, a, current)
    {
      nodes := [];
      var at: nat := current;
      while true
        invariant at <= current
        invariant forall a: nat :: IsAncestor(revisions, a, current) <==> a in nodes || IsAncestor(revisions, a, at)
        decreases at
      {
        nodes := nodes + [at];
        if at == 0 {
          break;
        }
        at := revisions[at].parent;
      }
    }

    /** Walk the target up to the fork, remembering the nodes passed, target first. */
    method WalkToFork(target: nat) returns (fork: nat, path: seq<nat>)
      requires Valid() && target < |revisions|
      ensures fork == Fork(revisions, current, target)
      ensures Climbs(revisions, path, fork, target)
    {
      var ancestors := AncestorsOfCurrent();
      fork, path := target, [];
      while fork !in ancestors
        invariant fork < |revisions|
        invariant Fork(revisions, current, fork) == Fork(revisions, current, target)
        invariant Climbs(revisions, path, fork, target)
        decreases fork
      {
        ForkStep(revisions, current, fork);
        path := path + [fork];
        fork := revisions[fork].parent;
      }
      assert Fork(revisions, current, fork) == fork;
    }

    /** The edits that move the buffer from the current node to the target: undo up to the fork,
        redo down the target's branch, last-visited children kept along both legs. */
    method OpsTo(target: nat) returns (ops: Option<seq<Edit>>)
      requires Valid()
      modifies this
      ensures Valid()
      ensures (ops, State()) == Jumped(old(State()), target)
    {
      if target >= |revisions| {
        return None;
      }
      var fork, path := WalkToFork(target);
      ForkIsLowestCommon(revisions, current, target);
      ghost var leftLinked := Link(revisions, fork, current);
      LinkKeepsAncestors(revisions, fork, current, fork, target);
      var undos := CollectUndos(fork);
      var redos := CollectRedos(fork, target, path);
      LinkUpwards(fork);
      ClimbsFrame(old(revisions), revisions, path, fork, target);
      LinkDownwards(fork, target, path);
      current := target;
      ops := Some(undos + redos);
    }

    method CollectUndos(fork: nat) returns (ops: seq<Edit>)
      requires Valid() && IsAncestor(revisions, fork, current)
      ensures ops == UndoLeg(revisions, current, fork)
    {
      ops := [];
      var at: nat := current;
      while at != fork
        invariant at <= current && IsAncestor(revisions, fork, at)
        invariant ops + UndoLeg(revisions, at, fork) == UndoLeg(revisions, current, fork)
        decreases at
      {
        var reversed := Reverse(revisions[at].undo);
        var parent := revisions[at].parent;
        assert ops + (reversed + UndoLeg(revisions, parent, fork))
          == (ops + reversed) + UndoLeg(revisions, parent, fork);
        ops := ops + reversed;
        at := parent;
      }
    }

    method CollectRedos(fork: nat, target: nat, path: seq<nat>) returns (ops: seq<Edit>)
      requires Valid() && target < |revisions| && Climbs(revisions, path, fork, target)
      ensures IsAncestor(revisions, fork, target)
      ensures ops == RedoLeg(revisions, fork, target)
    {
      ops := [];
      var k := |path|;
      assert Reached(path, 0, fork) == target && RedoLeg(revisions, fork, fork) == [];
      hide Link, RedoLeg, GraphOk;
      while k > 0
        invariant 0 <= k <= |path|
        invariant Reached(path, k, fork) < |revisions|
        invariant IsAncestor(revisions, fork, Reached(path, k, fork))
        invariant ops == RedoLeg(revisions, fork, Reached(path, k, fork))
      {
        k := k - 1;
        DescendOnce(revisions, path, k, fork, target);
        ops := ops + revisions[path[k]].redo;
      }
    }

    method LinkUpwards(fork: nat)
      requires Valid() && IsAncestor(revisions, fork, current)
      modifies this`revisions
      ensures Valid()
      ensures revisions == Link(old(revisions), fork, current)
    {
      var at: nat := current;
      while at != fork
        invariant at <= current && Valid() && |revisions| == |old(revisions)|
        invariant IsAncestor(revisions, fork, at)
        invariant Link(revisions, fork, at) == Link(old(revisions), fork, current)
        decreases at
      {
        var parent := revisions[at].parent;
        SetChildKeepsGraph(revisions, at);
        LinkIgnoresLater(revisions, SetChild(revisions, parent, at), fork, parent, parent);
        assert Link(revisions, fork, parent)[parent] == revisions[parent];
        revisions := revisions[parent := revisions[parent].(lastChild := Some(at))];
        at := parent;
      }
    }

    method LinkDownwards(fork: nat, target: nat, path: seq<nat>)
      requires Valid() && target < |revisions| && Climbs(revisions, path, fork, target)
      modifies this`revisions
      ensures Valid()
      ensures IsAncestor(old(revisions), fork, target)
      ensures revisions == Link(old(revisions), fork, target)
    {
      var k := |path|;
      ghost var was := revisions;
      while k > 0
        invariant 0 <= k <= |path|
        invariant Reached(path, k, fork) < |was|
        invariant IsAncestor(was, fork, Reached(path, k, fork))
        invariant revisions == Link(was, fork, Reached(path, k, fork))
      {
        k := k - 1;
        DescendOnce(was, path, k, fork, target);
        var parent := Reached(path, k + 1, fork);
        revisions := revisions[parent := revisions[parent].(lastChild := Some(path[k]))];
      }
      LinkKeepsGraph(was, fork, target);
    }

    /** Count a move without changing the tree: two cursors step towards the fork, the deeper one
        first. */
    method MovementCost(action: Action) returns (cost: Option<nat>)
      requires Valid()
      ensures cost == Cost(State(), action)
    {
      var pendingCost := if pending.Some? then |pending.value.undo| else 0;
      match action
      case Undo =>
        if pendingCost > 0 {
          return Some(pendingCost);
        }
        return if current != 0 then Some(|revisions[current].undo|) else None;
      case Redo =>
        if pendingCost > 0 || revisions[current].lastChild.None? {
          return None;
        }
        assert ChildOk(revisions, current);
        return Some(|revisions[revisions[current].lastChild.value].redo|);
      case Jump(target) =>
        if target >= |revisions| {
          return None;
        }
        var count := CountBetween(target);
        return Some(pendingCost + count);
    }

    method DepthOf(node: nat) returns (depth: nat)
      requires Valid() && node < |revisions|
      ensures depth == Depth(revisions, node)
    {
      depth := 0;
      var at: nat := node;
      while at != 0
        invariant at < |revisions|
        invariant depth + Depth(revisions, at) == Depth(revisions, node)
        decreases at
      {
        depth := depth + 1;
        at := revisions[at].parent;
      }
    }

    method CountBetween(target: nat) returns (count: nat)
      requires Valid() && target < |revisions|
      ensures count == |OpsBetween(revisions, current, target)|
    {
      var from: nat, to: nat := current, target;
      var left := DepthOf(from);
      var right := DepthOf(to);
      count := 0;
      while from != to
        invariant from < |revisions| && to < |revisions|
        invariant left == Depth(revisions, from) && right == Depth(revisions, to)
        invariant count + |OpsBetween(revisions, from, to)| == |OpsBetween(revisions, current, target)|
        decreases from + to
      {
        DeeperIsNotAbove(revisions, from, to);
        CostStep(revisions, from, to);
        if left >= right {
          count := count + |revisions[from].undo|;
          from := revisions[from].parent;
          left := left - 1;
        } else {
          count := count + |revisions[to].redo|;
          to := revisions[to].parent;
          right := right - 1;
        }
      }
    }

    method Navigate(action: Action) returns (ops: Option<seq<Edit>>)
      requires Valid()
      modifies this
      ensures Valid()
      ensures (ops, State()) == Navigated(old(State()), action)
    {
      Commit();
      match action
      case Undo => ops := UndoOps();
      case Redo => ops := RedoOps();
      case Jump(target) => ops := OpsTo(target);
    }

    /** A fresh linear history over the newest steps that fit both bounds. */
    method PersistentSnapshot(count: nat, budget: nat) returns (out: History)
      requires Valid()
      ensures fresh(out) && out.Valid()
      ensures out.State() == Snapshot(State(), count, budget)
    {
      var chain := RetainNewest(count, budget);
      out := new History();
      out.Grow(Reverse(chain));
    }

    method RetainNewest(count: nat, budget: nat) returns (chain: seq<Group>)
      requires Valid()
      ensures chain == Line(State())[..Kept(Line(State()), count, budget)]
    {
      chain := [];
      var bytes := 0;
      if pending.Some? && pending.value.undo != [] {
        var size := GroupSize(pending.value);
        if count == 0 || size > budget {
          return;
        }
        chain, bytes := [pending.value], size;
      }
      var at: nat := current;
      while at != 0
        invariant at <= current
        invariant Fits(chain, count, budget) && TotalSize(chain) == bytes
        invariant Line(State()) == chain + Chain(revisions, at)
        decreases at
      {
        var group := Group(revisions[at].undo, revisions[at].redo);
        var size := GroupSize(group);
        ghost var above := Chain(revisions, revisions[at].parent);
        assert Line(State()) == chain + [group] + above;
        if |chain| >= count || bytes + size > budget {
          RunIsKept(chain, [group] + above, count, budget);
          return;
        }
        TotalSizeConcat(chain, [group]);
        chain, bytes := chain + [group], bytes + size;
        at := revisions[at].parent;
      }
      RunIsKept(chain, [], count, budget);
    }

    /** Push groups, oldest first, each as the only child of the one before. */
    method Grow(groups: seq<Group>)
      requires Valid() && State() == Linear([])
      modifies this
      ensures Valid()
      ensures State() == Linear(groups)
    {
      for k := 0 to |groups|
        invariant Valid()
        invariant State() == Linear(groups[..k])
      {
        var parent, node := current, |revisions|;
        revisions := revisions[parent := revisions[parent].(lastChild := Some(node))]
                     + [Revision(parent, None, groups[k].undo, groups[k].redo)];
        current := node;
        assert revisions == Linear(groups[..k + 1]).revisions;
      }
      assert groups[..|groups|] == groups;
    }

    /** The structural check made when a history arrives from outside. */
    method Validate() returns (ok: bool)
      ensures ok <==> GraphOk(revisions) && current < |revisions|
    {
      if |revisions| == 0 || current >= |revisions| {
        return false;
      }
      for index := 0 to |revisions|
        invariant index > 0 ==> revisions[0].parent == 0
        invariant forall i :: 0 < i < index ==> revisions[i].parent < i
        invariant forall i :: 0 <= i < index ==> ChildOk(revisions, i)
      {
        var revision := revisions[index];
        if (index == 0 && revision.parent != 0) || (index > 0 && revision.parent >= index) {
          return false;
        }
        if revision.lastChild.Some? {
          var child := revision.lastChild.value;
          if child <= index || child >= |revisions| || revisions[child].parent != index {
            assert !ChildOk(revisions, index);
            return false;
          }
        }
      }
      return true;
    }

    /** A persisted history is accepted for a text exactly when it is a graph without an open
        group that records some text at every node, with this text at its current one. */
    method ValidateFor(text: Bytes) returns (result: Result<(), HistoryError>)
      ensures result.Success? <==> pending.None? && exists texts :: Consistent(State(), texts, text)
    {
      var sound := Validate();
      if !sound || pending.Some? {
        return Failure(Graph);
      }
      forall texts | Consistent(State(), texts, text) ensures Records(revisions, texts, current, text) {
      }
      var root := UnwindToRoot(text);
      if root.Failure? {
        return Failure(root.error);
      }
      forall texts | Records(revisions, texts, current, text) ensures Records(revisions, texts, 0, root.value) {
      }
      var states := ReplayAll(root.value);
      if states.Failure? {
        return Failure(states.error);
      }
      if states.value[current] != text {
        return Failure(TextMismatch);
      }
      assert Consistent(State(), states.value, text);
      return Success(());
    }

    /** Undo from the current node to the root; any record of this text at the current node has
        the result at the root. */
    method UnwindToRoot(text: Bytes) returns (root: Result<Bytes, HistoryError>)
      requires GraphOk(revisions) && current < |revisions|
      ensures IsAncestor(revisions, 0, current) && root == Apply(text, UndoLeg(revisions, current, 0))
      ensures forall texts | Records(revisions, texts, current, text) ::
                root == Success(texts[0])
    {
      RootIsAncestor(revisions, current);
      var here, at: nat := text, current;
      while at != 0
        invariant at <= current && IsAncestor(revisions, 0, at)
        invariant Apply(here, UndoLeg(revisions, at, 0)) == Apply(text, UndoLeg(revisions, current, 0))
        invariant forall texts | Records(revisions, texts, current, text) ::
                    texts[at] == here
        decreases at
      {
        forall texts | Records(revisions, texts, current, text)
          ensures Apply(here, Reverse(revisions[at].undo)) == Success(texts[revisions[at].parent])
        {
          assert Carries(texts[revisions[at].parent], revisions[at].undo, revisions[at].redo, texts[at]);
        }
        ghost var rest := UndoLeg(revisions, revisions[at].parent, 0);
        match Apply(here, Reverse(revisions[at].undo))
        case Failure(error) =>
          ApplyStops(here, Reverse(revisions[at].undo), rest);
          return Failure(error);
        case Success(above) =>
          ApplyConcat(here, Reverse(revisions[at].undo), rest);
          here := above;
        at := revisions[at].parent;
      }
      return Success(here);
    }

    /** Replay every revision from its parent and check that it can be taken back. */
    method ReplayAll(root: Bytes) returns (states: Result<seq<Bytes>, HistoryError>)
      requires GraphOk(revisions)
      ensures states.Success? ==> Records(revisions, states.value, 0, root)
      ensures forall texts | Records(revisions, texts, 0, root) ::
                states == Success(texts)
    {
      var known := [root];
      for index := 1 to |revisions|
        invariant |known| == index && known[0] == root
        invariant forall i :: 0 < i < index ==>
                    Carries(known[revisions[i].parent], revisions[i].undo, revisions[i].redo, known[i])
        invariant forall texts | Records(revisions, texts, 0, root) ::
                    known == texts[..index]
      {
        var parent := known[revisions[index].parent];
        var child := Replayed(parent, revisions[index].undo, revisions[index].redo);
        ReplayedCarries(parent, revisions[index].undo, revisions[index].redo);
        forall texts | Records(revisions, texts, 0, root)
          ensures child == Success(texts[index])
        {
          assert parent == texts[..index][revisions[index].parent];
          assert Carries(texts[revisions[index].parent], revisions[index].undo, revisions[index].redo, texts[index]);
        }
        if child.Failure? {
          return Failure(child.error);
        }
        known := known + [child.value];
      }
      forall texts | Records(revisions, texts, 0, root) ensures known == texts {
        assert texts[..|revisions|] == texts;
      }
      return Success(known);
    }
  }

  /** One revision replayed from its parent's text and taken back again. */
  function Replayed(parent: Bytes, undo: seq<Edit>, redo: seq<Edit>): Result<Bytes, HistoryError> {
    match Apply(parent, redo)
    case Failure(error) => Failure(error)
    case Success(child) =>
      match Apply(child, Reverse(undo))
      case Failure(error) => Failure(error)
      case Success(restored) => if restored != parent then Failure(TextMismatch) else Success(child)
  }

  /** Texts that every revision accounts for, one of them given. */
  ghost predicate Records(revs: seq<Revision>, texts: seq<Bytes>, node: nat, text: Bytes)
    requires Parents(revs) && node < |revs|
  {
    |texts| == |revs| && TextsOk(revs, texts) && texts[node] == text
  }

  lemma ReplayedCarries(parent: Bytes, undo: seq<Edit>, redo: seq<Edit>)
    ensures forall child :: Replayed(parent, undo, redo) == Success(child) <==> Carries(parent, undo, redo, child)
  {
  }

  method GroupSize(group: Group) returns (size: nat)
    ensures size == Size(group)
  {
    size := 0;
    for i := 0 to |group.undo|
      invariant size + TextSize(group.undo[i..]) == TextSize(group.undo)
    {
      size := size + |group.undo[i].text|;
    }
    for i := 0 to |group.redo|
      invariant size + TextSize(group.redo[i..]) == Size(group)
    {
      size := size + |group.redo[i].text|;
    }
  }

  /** A path from the target upwards, each node the parent of the one before, ending below fork. */
  ghost predicate Climbs(revs: seq<Revision>, path: seq<nat>, fork: nat, target: nat) {
    && fork < |revs|
    && (forall k :: 0 <= k < |path| ==> fork < path[k] < |revs| && revs[path[k]].parent == Reached(path, k + 1, fork))
    && Reached(path, 0, fork) == target
  }

  function Reached(path: seq<nat>, k: nat, fork: nat): nat
    requires k <= |path|
  {
    if k < |path| then path[k] else fork
  }

  /** One step down the remembered path extends the leg below the fork by one revision. */
  lemma DescendOnce(revs: seq<Revision>, path: seq<nat>, k: nat, fork: nat, target: nat)
    requires Parents(revs) && k < |path| && Climbs(revs, path, fork, target)
    requires Reached(path, k + 1, fork) < |revs| && IsAncestor(revs, fork, Reached(path, k + 1, fork))
    ensures path[k] < |revs| && IsAncestor(revs, fork, path[k])
    ensures RedoLeg(revs, fork, path[k]) == RedoLeg(revs, fork, Reached(path, k + 1, fork)) + revs[path[k]].redo
    ensures Link(revs, fork, path[k])
         == var above := Link(revs, fork, Reached(path, k + 1, fork));
            SetChild(above, Reached(path, k + 1, fork), path[k])
  {
    assert fork < path[k] < |revs| && revs[path[k]].parent == Reached(path, k + 1, fork);
  }

  lemma ClimbsFrame(revs: seq<Revision>, out: seq<Revision>, path: seq<nat>, fork: nat, target: nat)
    requires Climbs(revs, path, fork, target) && |out| == |revs|
    requires forall i :: 0 <= i < |revs| ==> out[i].parent == revs[i].parent
    ensures Climbs(out, path, fork, target)
  {
    forall k | 0 <= k < |path| ensures out[path[k]].parent == Reached(path, k + 1, fork) {
      assert revs[path[k]].parent == Reached(path, k + 1, fork);
    }
  }

  lemma DeeperIsNotAbove(revs: seq<Revision>, a: nat, b: nat)
    requires Parents(revs) && a < |revs| && b < |revs| && a != b
    ensures Depth(revs, a) >= Depth(revs, b) ==> a > 0 && !IsAncestor(revs, a, b)
    ensures Depth(revs, a) < Depth(revs, b) ==> b > 0 && !IsAncestor(revs, b, a)
  {
    if IsAncestor(revs, a, b) { AncestorOrder(revs, a, b); }
    if IsAncestor(revs, b, a) { AncestorOrder(revs, b, a); }
    RootIsAncestor(revs, b);
    AncestorOrder(revs, 0, b);
  }
}
