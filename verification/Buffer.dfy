/** The text buffer: user edits recorded in the history, batches applied in reverse, history moves
    replayed onto the text. */
module BufferModel {
  import opened Wrappers
  import opened Permutations
  import opened EditMap
  import opened BatchMeaning
  import opened UndoTree
  import opened UndoMoves
  import opened UndoSnapshot
  import opened HistoryObject

  const U64_MAX: nat := 0xFFFF_FFFF_FFFF_FFFF

  datatype EditError = ReadOnly | InvalidRange | Overlap | StaleRevision | RevisionExhausted

  /** Validated, sorted replacements bound to one revision of the buffer. */
  datatype Prepared = Prepared(revision: nat, edits: seq<Replacement>)

  class Buffer {
    var text: Bytes
    var epoch: nat
    var readonly: bool
    const history: History
    /** The text at every node of the history. */
    ghost var texts: seq<Bytes>

    ghost predicate Valid()
      reads this, history
    {
      epoch <= U64_MAX && Consistent(history.State(), texts, text)
    }

    /** The revision counter never goes back, and the text changes only when it moves on. */
    twostate predicate Aged()
      reads this
    {
      old(epoch) <= epoch && (epoch == old(epoch) ==> text == old(text))
    }

    constructor (content: Bytes)
      ensures Valid() && fresh(history)
      ensures text == content && epoch == 0 && !readonly && texts == [content]
      ensures history.State() == Linear([])
    {
      text, epoch, readonly, texts := content, 0, false, [content];
      history := new History();
    }

    // -------------------------------------------------------------- editing

    /** Replace a range and record how to take it back: the removal first, then the insertion. */
    method ReplaceValidated(start: nat, end: nat, inserted: Bytes)
      requires Valid() && epoch < U64_MAX
      requires start <= end <= |text|
      modifies this`text, this`epoch, history`pending
      ensures Valid() && Aged()
      ensures text == ReplaceRange(old(text), start, end, inserted) && epoch == old(epoch) + 1
      ensures history.State() == Logged(old(history.State()), start, old(text)[start..end], inserted)
      ensures old(PendingCost(history.State())) <= PendingCost(history.State()) <= old(PendingCost(history.State())) + 2
      ensures start < end || inserted != [] ==> PendingCost(history.State()) > 0
    {
      var removed := text[start..end];
      ghost var middle := ReplaceRange(text, start, end, []);
      ghost var after := ReplaceRange(text, start, end, inserted);
      if start < end {
        RecordKeeps(history.State(), texts, text, middle, Edit(start, removed, Insert),
                    Edit(start, removed, Delete)) by {
          DeleteReverses(text, start, end);
        }
        var _ := history.Record(Edit(start, removed, Insert), Edit(start, removed, Delete));
      } else {
        assert middle == text;
      }
      if inserted != [] {
        if history.pending.Some? {
          RecordKeeps(history.State(), texts, middle, after, Edit(start, inserted, Delete),
                      Edit(start, inserted, Insert)) by {
            InsertReverses(text, start, end, inserted);
          }
        } else {
          RecordKeeps(history.State(), texts, middle, after, Edit(start, inserted, Delete),
                      Edit(start, inserted, Insert)) by {
            InsertReverses(text, start, end, inserted);
          }
        }
        var _ := history.Record(Edit(start, inserted, Delete), Edit(start, inserted, Insert));
      } else {
        assert after == middle;
      }
      text := text[..start] + inserted + text[end..];
      epoch := epoch + 1;
    }

    method Replace(start: nat, end: nat, inserted: Bytes) returns (result: Result<(), EditError>)
      requires Valid()
      modifies this`text, this`epoch, history`pending
      ensures Valid() && Aged()
      ensures result == if readonly then Failure(ReadOnly)
                        else if start > end || end > |old(text)| then Failure(InvalidRange)
                        else if (start < end || inserted != []) && old(epoch) == U64_MAX then Failure(RevisionExhausted)
                        else Success(())
      ensures result.Success? && (start < end || inserted != []) ==>
                text == ReplaceRange(old(text), start, end, inserted) && epoch == old(epoch) + 1
      ensures result.Failure? || (start == end && inserted == []) ==>
                text == old(text) && epoch == old(epoch) && history.pending == old(history.pending)
    {
      if readonly {
        return Failure(ReadOnly);
      }
      if start > end || end > |text| {
        return Failure(InvalidRange);
      }
      if start == end && inserted == [] {
        return Success(());
      }
      if epoch == U64_MAX {
        return Failure(RevisionExhausted);
      }
      ReplaceValidated(start, end, inserted);
      return Success(());
    }

    method BeginUndoGroup()
      requires Valid()
      modifies history`pending
      ensures Valid() && Aged()
      ensures history.State() == Begun(old(history.State()))
      ensures PendingCost(history.State()) == old(PendingCost(history.State()))
    {
      history.Begin();
    }

    method CommitUndoGroup()
      requires Valid()
      modifies history, this`texts
      ensures Valid() && Aged()
      ensures history.State() == Committed(old(history.State()))
      ensures texts == CommittedTexts(old(history.State()), old(texts), text)
    {
      CommitKeepsTexts(history.State(), texts, text);
      ghost var known := CommittedTexts(history.State(), texts, text);
      history.Commit();
      texts := known;
    }

    // -------------------------------------------------------------- batches

    /** What a prepared batch guarantees while the buffer is still at its revision. */
    ghost predicate PreparedHere(prepared: Prepared)
      reads this
    {
      prepared.revision == epoch ==>
        BatchOk(SpansOf(prepared.edits), |text|) && epoch + |prepared.edits| <= U64_MAX
    }

    /** What was prepared holds until it is applied: it stays good at its own revision, and is stale at
        every later one, whatever the buffer goes through in between. */
    twostate lemma PreparedSurvives(prepared: Prepared)
      requires old(PreparedHere(prepared)) && prepared.revision <= old(epoch) && Aged()
      ensures PreparedHere(prepared)
    {
    }

    method PrepareReplacements(base: nat, replacements: seq<Replacement>) returns (result: Result<Prepared, EditError>)
      requires Valid()
      ensures result.Success? <==> !readonly && base == epoch && Submittable(replacements, |text|)
                                   && epoch + |Meant(replacements)| <= U64_MAX
      ensures result.Failure? ==>
                result.error == if readonly then ReadOnly
                                else if base != epoch then StaleRevision
                                else if exists i :: 0 <= i < |replacements| && !Placed(replacements, |text|, i)
                                  then InvalidRange
                                else if !Submittable(replacements, |text|) then Overlap
                                else RevisionExhausted
      ensures result.Success? ==>
                PreparedHere(result.value) && result.value.revision == base
                && |result.value.edits| == |Meant(replacements)|
                && forall e: Replacement ::
                     multiset(result.value.edits)[e]
                     == if e.start == e.end && e.text == [] then 0 else multiset(replacements)[e]
    {
      if readonly {
        return Failure(ReadOnly);
      }
      if base != epoch {
        return Failure(StaleRevision);
      }
      var meant := Meant(replacements);
      for i := 0 to |meant|
        invariant forall k :: 0 <= k < i ==> InBounds(SpansOf(meant)[k], |text|)
      {
        if meant[i].start > meant[i].end || meant[i].end > |text| {
          PlaceHolds(replacements, i);
          assert !Placed(replacements, |text|, PlaceOf(replacements, i));
          return Failure(InvalidRange);
        }
      }
      AllArePlaced(replacements, |text|);
      MeantIsSubmitted(replacements, |text|);
      hide Submittable, Placed;
      var sorted := SortByStart(SpansOf(meant));
      var checked := CheckBatch(|text|, SpansOf(meant));
      if checked.Failure? {
        return Failure(Overlap);
      }
      if epoch + |meant| > U64_MAX {
        return Failure(RevisionExhausted);
      }
      SelectPermutes(meant, Indices(sorted));
      var edits := Select(meant, Indices(sorted));
      SortedAcceptableIsBatch(sorted, SpansOf(meant), |text|);
      assert SpansOf(edits) == Spans(sorted);
      forall e: Replacement
        ensures multiset(edits)[e] == if e.start == e.end && e.text == [] then 0 else multiset(replacements)[e]
      {
        MeantKeeps(replacements, e);
      }
      return Success(Prepared(base, edits));
    }

    /** Apply a whole validated batch. The replaced text is the simultaneous replacement; unless a
        group stays open the batch becomes one node below the current one. */
    method ApplyPrepared(prepared: Prepared, undoOpen: bool) returns (result: Result<nat, EditError>)
      requires Valid() && PreparedHere(prepared)
      modifies this`text, this`epoch, this`texts, history
      ensures Valid() && Aged()
      ensures result == if readonly then Failure(ReadOnly)
                        else if prepared.revision != old(epoch) then Failure(StaleRevision)
                        else Success(epoch)
      ensures result.Failure? || prepared.edits == [] ==>
                text == old(text) && texts == old(texts) && epoch == old(epoch)
                && history.State() == old(history.State())
      ensures result.Success? ==>
                Tail(prepared.edits, 0, |old(text)|)
                && text == Simultaneous(old(text), prepared.edits, 0)
                && epoch == old(epoch) + |prepared.edits|
      ensures result.Success? && undoOpen ==> SameNodes(old(history.State()), history.State()) && texts == old(texts)
      ensures result.Success? && !undoOpen && AnyChanges(prepared.edits) ==>
                NodeAdded(old(history.State()), history.State()) && texts == old(texts) + [text]
                && NodeSize(history.State()) <= old(PendingCost(history.State())) + 2 * |prepared.edits|
    {
      if readonly {
        return Failure(ReadOnly);
      }
      if prepared.revision != epoch {
        return Failure(StaleRevision);
      }
      BatchIsTail(prepared.edits, 0, |text|);
      ReverseIsSimultaneous(text, prepared.edits, 0);
      if prepared.edits == [] {
        return Success(epoch);
      }
      history.Begin();
      ApplyInReverse(prepared.edits);
      if !undoOpen {
        CommitUndoGroup();
      }
      return Success(epoch);
    }

    method ApplyInReverse(edits: seq<Replacement>)
      requires Valid() && history.pending.Some?
      requires Tail(edits, 0, |text|) && epoch + |edits| <= U64_MAX
      modifies this`text, this`epoch, history`pending
      ensures Valid() && Aged()
      ensures text == ApplyReverse(old(text), edits) && epoch == old(epoch) + |edits|
      ensures AnyChanges(edits) ==> PendingCost(history.State()) > 0
      ensures PendingCost(history.State()) <= old(PendingCost(history.State())) + 2 * |edits|
    {
      var k := |edits|;
      assert edits[k..] == [];
      while k > 0
        invariant 0 <= k <= |edits| && Valid()
        invariant Tail(edits[k..], 0, |old(text)|) && text == ApplyReverse(old(text), edits[k..])
        invariant epoch == old(epoch) + (|edits| - k)
        invariant AnyChanges(edits[k..]) ==> PendingCost(history.State()) > 0
        invariant PendingCost(history.State()) <= old(PendingCost(history.State())) + 2 * (|edits| - k)
      {
        k := k - 1;
        TailDrops(edits, 0, |old(text)|, k);
        TailWeakens(edits[k..], edits[k].start, 0, |old(text)|);
        assert edits[k..][1..] == edits[k + 1..];
        ReplaceValidated(edits[k].start, edits[k].end, edits[k].text);
      }
      assert edits[0..] == edits;
    }

    // -------------------------------------------------------------- history moves

    /** Authority and revision capacity, checked before the tree is touched. */
    method CheckHistoryMove(action: Action) returns (result: Result<Option<nat>, EditError>)
      requires Valid()
      ensures result == if readonly then Failure(ReadOnly)
                        else match Cost(history.State(), action)
                             case None => Success(None)
                             case Some(cost) => if epoch + cost > U64_MAX then Failure(RevisionExhausted)
                               else Success(Some(cost))
    {
      if readonly {
        return Failure(ReadOnly);
      }
      var cost := history.MovementCost(action);
      if cost.Some? && epoch + cost.value > U64_MAX {
        return Failure(RevisionExhausted);
      }
      return Success(cost);
    }

    /** Undo, redo or jump: the text becomes the text of the node reached, at the announced price
        in revisions; a move that is refused or impossible changes nothing. */
    method MoveHistory(action: Action) returns (result: Result<bool, EditError>)
      requires Valid()
      modifies this`text, this`epoch, this`texts, history
      ensures Valid() && Aged()
      ensures result == Success(true) ==>
                Cost(old(history.State()), action).Some?
                && epoch == old(epoch) + Cost(old(history.State()), action).value
                && history.State() == Navigated(old(history.State()), action).1
                && Lands(Committed(old(history.State())), action, history.current)
                && texts == CommittedTexts(old(history.State()), old(texts), old(text))
                && text == texts[history.current]
      ensures result != Success(true) ==>
                text == old(text) && epoch == old(epoch) && texts == old(texts)
                && history.State() == old(history.State())
      ensures result == Success(true) <==>
                !readonly && Cost(old(history.State()), action).Some?
                && old(epoch) + Cost(old(history.State()), action).value <= U64_MAX
    {
      var check := CheckHistoryMove(action);
      if check.Failure? {
        return Failure(check.error);
      }
      if check.value.None? {
        return Success(false);
      }
      var cost := check.value.value;
      NavigationReaches(history.State(), texts, text, action);
      CostIsNavigationLength(history.State(), action);
      ghost var known := CommittedTexts(history.State(), texts, text);
      var ops := history.Navigate(action);
      if ops.None? {
        assert false;
      }
      Replay(ops.value);
      texts := known;
      return Success(true);
    }

    /** Apply returned edits one by one, each as a replacement of its own range. */
    method Replay(ops: seq<Edit>)
      requires Apply(text, ops).Success? && epoch + |ops| <= U64_MAX
      modifies this`text, this`epoch
      ensures Success(text) == Apply(old(text), ops)
      ensures epoch == old(epoch) + |ops|
    {
      for i := 0 to |ops|
        invariant Apply(text, ops[i..]) == Apply(old(text), ops)
        invariant epoch == old(epoch) + i
      {
        var op := ops[i];
        assert ops[i..][0] == op && ops[i..][1..] == ops[i + 1..];
        assert op.kind.Delete? ==>
          ReplaceRange(text, op.at, op.at + |op.text|, []) == text[..op.at] + text[op.at + |op.text|..];
        if op.kind.Insert? {
          text := ReplaceRange(text, op.at, op.at, op.text);
        } else {
          text := ReplaceRange(text, op.at, op.at + |op.text|, []);
        }
        epoch := epoch + 1;
      }
    }
  }

  /** The open group after a replacement: the removal taken down first, then the insertion, and nothing that did not
      happen. */
  function Logged(tree: Tree, at: nat, removed: Bytes, inserted: Bytes): Tree {
    var without := if removed == [] then tree
                   else Recorded(tree, Edit(at, removed, Insert), Edit(at, removed, Delete));
    if inserted == [] then without
    else Recorded(without, Edit(at, inserted, Delete), Edit(at, inserted, Insert))
  }

  predicate AnyChanges(edits: seq<Replacement>) {
    edits != [] && (Changes(edits[0]) || AnyChanges(edits[1..]))
  }

  ghost predicate SameNodes(before: Tree, after: Tree) {
    after.revisions == before.revisions && after.current == before.current
  }

  /** The open group was closed as one node below the old current one. */
  ghost predicate NodeAdded(before: Tree, after: Tree) {
    && after.pending.None?
    && |after.revisions| == |before.revisions| + 1
    && after.current == |before.revisions|
    && after.revisions[after.current].parent == before.current
  }

  /** Edits to take the current node back or to bring it on again, whichever are more. */
  ghost function NodeSize(tree: Tree): nat
    requires tree.current < |tree.revisions|
  {
    if |tree.revisions[tree.current].undo| >= |tree.revisions[tree.current].redo|
    then |tree.revisions[tree.current].undo| else |tree.revisions[tree.current].redo|
  }

  lemma AllArePlaced(replacements: seq<Replacement>, len: nat)
    requires forall k :: 0 <= k < |Meant(replacements)| ==> InBounds(SpansOf(Meant(replacements))[k], len)
    ensures forall i :: 0 <= i < |replacements| ==> Placed(replacements, len, i)
  {
    forall i | 0 <= i < |replacements| ensures Placed(replacements, len, i) {
      if Changes(replacements[i]) {
        var k := EachHasPlace(replacements, i);
        PlaceHolds(replacements, k);
        assert InBounds(SpansOf(Meant(replacements))[k], len);
      }
    }
  }

  lemma SortedAcceptableIsBatch(entries: seq<(nat, Span)>, edits: seq<Span>, len: nat)
    requires |entries| == |edits| && Indexed(entries, edits) && StablySorted(entries)
    requires Acceptable(edits, len)
    ensures BatchOk(Spans(entries), len)
  {
    forall i | 0 <= i < |entries|
      ensures InBounds(Spans(entries)[i], len)
      ensures i + 1 < |entries| ==> Spans(entries)[i].start < Spans(entries)[i + 1].start
                                    && Spans(entries)[i].end <= Spans(entries)[i + 1].start
    {
      assert InBounds(edits[entries[i].0], len);
      if i + 1 < |entries| {
        assert Before(entries[i], entries[i + 1]);
        assert !Clash(edits[entries[i].0], edits[entries[i + 1].0]);
      }
    }
  }

  lemma RecordKeeps(tree: Tree, texts: seq<Bytes>, text: Bytes, after: Bytes, undo: Edit, redo: Edit)
    requires Consistent(tree, texts, text)
    requires Carries(text, [undo], [redo], after)
    ensures var group := if tree.pending.Some? then tree.pending.value else Group([], []);
            Consistent(tree.(pending := Some(Group(group.undo + [undo], group.redo + [redo]))), texts, after)
  {
    var group := if tree.pending.Some? then tree.pending.value else Group([], []);
    CarriesExtends(texts[tree.current], group, text, undo, redo, after);
  }

  lemma DeleteReverses(text: Bytes, start: nat, end: nat)
    requires start <= end <= |text|
    ensures Carries(text, [Edit(start, text[start..end], Insert)], [Edit(start, text[start..end], Delete)],
                    ReplaceRange(text, start, end, []))
  {
    var after := ReplaceRange(text, start, end, []);
    assert after == text[..start] + text[end..];
    assert after[..start] + text[start..end] + after[start..] == text;
  }

  lemma InsertReverses(text: Bytes, start: nat, end: nat, inserted: Bytes)
    requires start <= end <= |text|
    ensures Carries(ReplaceRange(text, start, end, []), [Edit(start, inserted, Delete)],
                    [Edit(start, inserted, Insert)],
                    ReplaceRange(text, start, end, inserted))
  {
    var middle, after := ReplaceRange(text, start, end, []), ReplaceRange(text, start, end, inserted);
    assert middle[..start] == text[..start] && middle[start..] == text[end..];
    assert after[start..start + |inserted|] == inserted;
    assert after[..start] + after[start + |inserted|..] == middle;
  }

  /** A validated batch applied outside any open group is one undo step: undoing takes the buffer
      back to the text before the batch, and redoing brings the replaced text back. */
  method BatchIsOneUndoStep(buffer: Buffer, prepared: Prepared)
    returns (undone: Result<bool, EditError>, redone: Result<bool, EditError>, ghost between: Bytes)
    requires buffer.Valid() && buffer.PreparedHere(prepared)
    requires !buffer.readonly && prepared.revision == buffer.epoch
    requires PendingCost(buffer.history.State()) == 0 && AnyChanges(prepared.edits)
    modifies buffer`text, buffer`epoch, buffer`texts, buffer.history
    ensures buffer.Valid() && Tail(prepared.edits, 0, |old(buffer.text)|)
    ensures undone == Success(true) ==> between == old(buffer.text)
    ensures undone == redone == Success(true) ==>
              buffer.text == Simultaneous(old(buffer.text), prepared.edits, 0)
    ensures old(buffer.epoch) + 5 * |prepared.edits| <= U64_MAX ==> undone == redone == Success(true)
  {
    ghost var tree := buffer.history.State();
    var applied := buffer.ApplyPrepared(prepared, false);
    undone := buffer.MoveHistory(Undo);
    between := buffer.text;
    redone := buffer.MoveHistory(Redo);
  }
}
