/** Whole editing sessions: any sequence of recorded edits, group boundaries and moves. */
module UndoRuns {
  import opened Wrappers
  import opened UndoTree
  import opened UndoMoves

  datatype Session = Session(tree: Tree, live: Bytes)

  datatype Command =
    | Begin
    | InsertText(at: nat, text: Bytes)
    | DeleteText(at: nat, count: nat)
    | Commit
    | Go(action: Action)

  function Opened(text: Bytes): Session {
    Session(Tree([Revision(0, None, [], [])], 0, None), text)
  }

  /** An edit of the live text with its inverse; out of range it is refused. */
  function Edited(s: Session, redo: Edit, undo: Edit): Session {
    match ApplyEdit(s.live, redo)
    case Failure(_) => s
    case Success(text) => Session(Recorded(s.tree, undo, redo), text)
  }

  function Stepped(s: Session, c: Command): (t: Session)
    requires TreeOk(s.tree)
    ensures TreeOk(t.tree)
  {
    match c
    case Begin => s.(tree := Begun(s.tree))
    case InsertText(at, text) => Edited(s, Edit(at, text, Insert), Edit(at, text, Delete))
    case DeleteText(at, count) =>
      if at + count > |s.live| then s
      else Edited(s, Edit(at, s.live[at..at + count], Delete), Edit(at, s.live[at..at + count], Insert))
    case Commit => s.(tree := Committed(s.tree))
    case Go(action) =>
      var (ops, tree) := Navigated(s.tree, action);
      var moved := if ops.Some? then Apply(s.live, ops.value) else Success(s.live);
      Session(tree, if moved.Success? then moved.value else s.live)
  }

  function Run(s: Session, commands: seq<Command>): (t: Session)
    requires TreeOk(s.tree)
    ensures TreeOk(t.tree)
    decreases |commands|
  {
    if commands == [] then s else Run(Stepped(s, commands[0]), commands[1..])
  }

  ghost predicate Sound(s: Session, texts: seq<Bytes>) {
    Consistent(s.tree, texts, s.live)
  }

  lemma EditKeepsSound(s: Session, texts: seq<Bytes>, redo: Edit, undo: Edit)
    requires Sound(s, texts)
    requires undo == redo.(kind := if redo.kind.Insert? then Delete else Insert)
    ensures Sound(Edited(s, redo, undo), texts)
  {
    if ApplyEdit(s.live, redo).Success? {
      var text := ApplyEdit(s.live, redo).value;
      InverseEdit(s.live, redo, undo);
      var group := if s.tree.pending.Some? then s.tree.pending.value else Group([], []);
      assert Reverse(group.undo) == if s.tree.pending.Some? then Reverse(s.tree.pending.value.undo) else [];
      CarriesExtends(texts[s.tree.current], group, s.live, undo, redo, text);
    }
  }

  /** An insertion and the deletion of the same text take each other back. */
  lemma InverseEdit(text: Bytes, redo: Edit, undo: Edit)
    requires undo == redo.(kind := if redo.kind.Insert? then Delete else Insert)
    requires ApplyEdit(text, redo).Success?
    ensures Carries(text, [undo], [redo], ApplyEdit(text, redo).value)
  {
    var after := ApplyEdit(text, redo).value;
    assert ApplyEdit(after, undo) == Success(text) by {
      if redo.kind.Insert? {
        assert after[redo.at..redo.at + |redo.text|] == redo.text;
        assert after[..redo.at] + after[redo.at + |redo.text|..] == text;
      } else {
        assert after[..redo.at] + redo.text + after[redo.at..] == text;
      }
    }
    assert Reverse([undo]) == [undo];
  }

  /** The commands that close the open group. */
  predicate Closes(c: Command) { c.Commit? || c.Go? }

  /** An insertion puts its text in at its place; a deletion succeeds exactly where it takes back an insertion of the
      same text, and fails over the range before it fails over the text. */
  lemma EditsInvert(text: Bytes, after: Bytes, at: nat, part: Bytes)
    ensures ApplyEdit(text, Edit(at, part, Insert))
         == if at > |text| then Failure(Range) else Success(text[..at] + part + text[at..])
    ensures ApplyEdit(text, Edit(at, part, Delete)) == Success(after) <==>
              ApplyEdit(after, Edit(at, part, Insert)) == Success(text)
    ensures at + |part| > |text| ==> ApplyEdit(text, Edit(at, part, Delete)) == Failure(Range)
    ensures at + |part| <= |text| && text[at..at + |part|] != part ==>
              ApplyEdit(text, Edit(at, part, Delete)) == Failure(TextMismatch)
  {
    if at <= |after| && text == after[..at] + part + after[at..] {
      assert text[at..at + |part|] == part && text[..at] + text[at + |part|..] == after;
    }
    if at + |part| <= |text| && text[at..at + |part|] == part && after == text[..at] + text[at + |part|..] {
      assert after[..at] == text[..at] && after[at..] == text[at + |part|..];
      assert after[..at] + part + after[at..] == text;
    }
  }

  /** A step keeps every text the tree records and may add one: the live text, when it closes the group. */
  lemma StepKeepsSound(s: Session, texts: seq<Bytes>, c: Command) returns (known: seq<Bytes>)
    requires Sound(s, texts)
    ensures texts <= known && Sound(Stepped(s, c), known)
    ensures Closes(c) ==> known == CommittedTexts(s.tree, texts, s.live)
  {
    known := texts;
    match c
    case Begin =>
    case InsertText(at, text) => EditKeepsSound(s, texts, Edit(at, text, Insert), Edit(at, text, Delete));
    case DeleteText(at, count) =>
      if at + count <= |s.live| {
        var removed := s.live[at..at + count];
        EditKeepsSound(s, texts, Edit(at, removed, Delete), Edit(at, removed, Insert));
      }
    case Commit =>
      CommitKeepsTexts(s.tree, texts, s.live);
      known := CommittedTexts(s.tree, texts, s.live);
    case Go(action) =>
      NavigationReaches(s.tree, texts, s.live, action);
      known := CommittedTexts(s.tree, texts, s.live);
  }

  lemma {:induction false} RunKeepsSound(s: Session, texts: seq<Bytes>, commands: seq<Command>)
    returns (known: seq<Bytes>)
    requires Sound(s, texts)
    ensures texts <= known && Sound(Run(s, commands), known)
    decreases |commands|
  {
    hide Stepped;
    known := texts;
    if commands == [] {
    } else {
      known := StepKeepsSound(s, texts, commands[0]);
      known := RunKeepsSound(Stepped(s, commands[0]), known, commands[1..]);
    }
  }

  /** However a session went on, across forks and open groups, a jump back to a node carries the text
      to what the buffer held when that node was current, or when the group that became it was closed. */
  lemma JumpRestoresText(text: Bytes, before: seq<Command>, after: seq<Command>)
    requires Run(Opened(text), before).tree.pending.None? || after == [] || Closes(after[0])
    ensures var s := Run(Opened(text), before);
            var t := Run(s, after);
            var ops := Navigated(t.tree, Jump(Committed(s.tree).current)).0;
            ops.Some? && Apply(t.live, ops.value) == Success(s.live)
  {
    hide Run, Stepped;
    var s := Run(Opened(text), before);
    var t, node := Run(s, after), Committed(s.tree).current;
    assert Sound(Opened(text), [text]);
    var texts := RunKeepsSound(Opened(text), [text], before);
    CommitKeepsTexts(s.tree, texts, s.live);
    if s.tree.pending.None? {
      var known := RunKeepsSound(s, texts, after);
      JumpReaches(t, known, node, s.live);
    } else if after == [] {
      NothingRun(s);
      JumpReaches(s, texts, node, s.live);
    } else {
      var closed := StepKeepsSound(s, texts, after[0]);
      var known := RunKeepsSound(Stepped(s, after[0]), closed, after[1..]);
      RunUnfolds(s, after);
      JumpReaches(t, known, node, s.live);
    }
  }

  lemma NothingRun(s: Session)
    requires TreeOk(s.tree)
    ensures Run(s, []) == s
  {
  }

  lemma RunUnfolds(s: Session, commands: seq<Command>)
    requires TreeOk(s.tree) && commands != []
    ensures Run(s, commands) == Run(Stepped(s, commands[0]), commands[1..])
  {
  }

  lemma JumpReaches(t: Session, known: seq<Bytes>, node: nat, text: Bytes)
    requires Sound(t, known)
    requires var texts := CommittedTexts(t.tree, known, t.live); node < |texts| && texts[node] == text
    ensures var ops := Navigated(t.tree, Jump(node)).0; ops.Some? && Apply(t.live, ops.value) == Success(text)
  {
    CommitKeepsTexts(t.tree, known, t.live);
    NavigationReaches(t.tree, known, t.live, Jump(node));
    assert Lands(Committed(t.tree), Jump(node), node);
  }

  /** In particular the root always restores the text the session was opened with. */
  lemma RootRestoresOpening(text: Bytes, commands: seq<Command>)
    ensures var t := Run(Opened(text), commands);
            var ops := Navigated(t.tree, Jump(0)).0;
            ops.Some? && Apply(t.live, ops.value) == Success(text)
  {
    JumpRestoresText(text, [], commands);
  }

  /** One insertion into an empty buffer, its group still open: a jump to the node it is about to become is
      announced as impossible, yet navigating performs it, without any edit. A buffer asks for the announcement
      first and so refuses the jump. */
  lemma JumpToOpenGroupIsMisannounced(byte: Byte)
    ensures var t := Run(Opened([]), [InsertText(0, [byte])]).tree;
            Cost(t, Jump(1)) == None && Navigated(t, Jump(1)).0 == Some([]) && Navigated(t, Jump(1)).1.current == 1
  {
    var s := Stepped(Opened([]), InsertText(0, [byte]));
    assert [InsertText(0, [byte])][1..] == [];
    assert Run(Opened([]), [InsertText(0, [byte])]) == Run(s, []) == s;
    var base := Committed(s.tree);
    assert base.current == 1 && |base.revisions| == 2;
    assert IsAncestor(base.revisions, 1, 1) && Fork(base.revisions, 1, 1) == 1;
    assert OpsBetween(base.revisions, 1, 1) == [] + [] == [];
    assert Navigated(s.tree, Jump(1)) == Jumped(base, 1);
  }

  // ---------------------------------------------------------------- references to recorded edits

  lemma RecordedResolves(tree: Tree, undo: Edit, redo: Edit, reference: EditRef)
    ensures EditAt(Recorded(tree, undo, redo), NextRef(tree)) == Some(redo)
    ensures EditAt(tree, reference).Some? ==> EditAt(Recorded(tree, undo, redo), reference) == EditAt(tree, reference)
  {
  }

  lemma StepKeepsReference(s: Session, c: Command, reference: EditRef)
    requires TreeOk(s.tree) && EditAt(s.tree, reference).Some?
    ensures EditAt(Stepped(s, c).tree, reference) == EditAt(s.tree, reference)
  {
    match c
    case InsertText(at, text) => RecordedResolves(s.tree, Edit(at, text, Delete), Edit(at, text, Insert), reference);
    case DeleteText(at, count) =>
      if at + count <= |s.live| {
        var removed := s.live[at..at + count];
        RecordedResolves(s.tree, Edit(at, removed, Insert), Edit(at, removed, Delete), reference);
      }
    case Go(action) =>
      var base := Committed(s.tree);
      assert EditAt(base, reference) == EditAt(s.tree, reference);
      MoveKeepsEdits(base, action, reference);
    case _ =>
  }

  lemma MoveKeepsEdits(tree: Tree, action: Action, reference: EditRef)
    requires TreeOk(tree) && tree.pending.None?
    ensures EditAt(Moved(tree, action).1, reference) == EditAt(tree, reference)
  {
  }

  lemma {:induction false} RunKeepsReference(s: Session, commands: seq<Command>, reference: EditRef)
    requires TreeOk(s.tree) && EditAt(s.tree, reference).Some?
    ensures EditAt(Run(s, commands).tree, reference) == EditAt(s.tree, reference)
    decreases |commands|
  {
    hide Stepped, EditAt;
    if commands == [] {
    } else {
      StepKeepsReference(s, commands[0], reference);
      RunKeepsReference(Stepped(s, commands[0]), commands[1..], reference);
    }
  }

  /** The reference of a deletion, and one not handed out yet, name no inserted text. */
  lemma OnlyInsertionsResolve(s: Session, at: nat, count: nat, commands: seq<Command>)
    requires TreeOk(s.tree)
    ensures InsertedText(s.tree, NextRef(s.tree)) == None
    ensures at + count <= |s.live| ==>
              InsertedText(Run(Stepped(s, DeleteText(at, count)), commands).tree, NextRef(s.tree)) == None
  {
    hide Run;
    if at + count <= |s.live| {
      var removed := s.live[at..at + count];
      RecordedResolves(s.tree, Edit(at, removed, Insert), Edit(at, removed, Delete), NextRef(s.tree));
      RunKeepsReference(Stepped(s, DeleteText(at, count)), commands, NextRef(s.tree));
    }
  }

  /** The reference handed out for an insertion resolves to its text for the rest of the session:
      in the open group, once committed, and on whatever branch the session moves to. */
  lemma InsertedTextStays(s: Session, at: nat, text: Bytes, commands: seq<Command>)
    requires TreeOk(s.tree) && at <= |s.live|
    ensures InsertedText(Run(Stepped(s, InsertText(at, text)), commands).tree, NextRef(s.tree)) == Some(text)
  {
    hide Run;
    RecordedResolves(s.tree, Edit(at, text, Delete), Edit(at, text, Insert), NextRef(s.tree));
    RunKeepsReference(Stepped(s, InsertText(at, text)), commands, NextRef(s.tree));
  }
}
