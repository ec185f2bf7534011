# strop: a verified model of its state machines and transformations

strop is a modal text editor. This project models the parts of it whose
correctness is hardest to see from the code, and proves what each promises
over every input, every run or every interleaving:

- **Undo tree** (`UndoTree`, `UndoMoves`, `UndoRetrace`, `UndoSnapshot`,
  `UndoRuns`, `History`): revisions form a branching tree with an open group, jumps across
  forks, an announced cost per move and a bounded persisted line. The model
  gives every revision a text and proves that each move carries the live text
  to the text of the node it lands on, for whole editing sessions.
- **Batch edits and anchors** (`EditMap`, `BatchMeaning`, `Buffer`): validation of a batch,
  reverse application as simultaneous replacement, anchors through a batch,
  and the buffer that records edits and replays history moves.
- **Reviewed filesystem batch** (`BatchPrepare`, `BatchPlan`, `BatchRun`,
  `Permutations`): parent closure, conflict check, dependency edges, greedy
  order and executor, with the kernel as an oracle of arbitrary outcomes over a
  flat map from names to contents.
- **Tar** (`TarFormat`, `TarStream`, `TarAgreement`, `TarCapture`,
  `TarListing`, `TarPaths`, `TarHeaders`, `TarWriter`): the whole-buffer reader, the incremental reader,
  the bounded read, the listing folded over a stream, and the header writer.
  The format is the ustar Interchange Format and the pax Extended Header of the
  `pax` utility in IEEE Std 1003.1, plus GNU `L` records.
- **Cancellation and child ownership** (`Cancel`, `Worker`, `Process`, `Fleet`): transition
  systems with one event per mutex section, atomic access or system call, and
  any number of parties in any order.
- **Generational arena** (`Arena`), **key grammar** (`Grammar`,
  `GrammarSpelling`, `GrammarEnds`) and **hunk staging** (`Staging`).

Objects that the program updates in place are classes whose methods state the
whole new state as a function of the old one; the theorems are about those
functions. Loops of the program are loops here, proved against the function
they compute.

## Where the code and its words differ

- A jump to the node that committing the open group is about to create is
  announced as impossible, although navigating would perform it. This is the
  only move whose announced cost is wrong (`UndoMoves.CostIsNavigationLength`;
  an instance is `UndoRuns.JumpToOpenGroupIsMisannounced`). The buffer asks for
  the cost first and refuses the jump (`BufferModel.Buffer.MoveHistory`), so
  only the announcement can be observed.
- The comment on `parse` says that a cut-off header of a truncated capture is
  an error. The code ends the capture there without one, and the model follows
  the code (`TarCapture.PrefixParses`; an instance is
  `TarWriter.CutHeaderIsAccepted`).
- A capture may also end inside the payload of a name record. It is refused
  exactly when the bytes left are not a name (`TarCapture.PrefixParses`), so a
  bounded read can fail over a record behind the file it reads
  (`TarWriter.SplitNameIsRefused`). It never returns wrong bytes
  (`TarCapture.ReadIsFront`).
- The planner accepts a plan whose `Store` writes a name that a later step of
  the plan takes as its source. The kernel observes each source again and refuses
  that step, so such a plan never commits as a whole
  (`BatchRun.CommittedRunIsSimultaneous`; an instance is
  `BatchRun.SaveThenRenameKeepsSaved`). What does take effect is always a
  simultaneous substitution (`BatchRun.RunSubstitutes`).
- The comment on `resolve_link` says that `..` is normalized lexically. Only the
  target is: a `..` in the link's own directory stays in the result
  (`TarPaths.RelativeIsJoined`; an instance is `TarPaths.ParentReferenceStays`).
- Dropping an `OwnedProcess` clears the token's hook slot even after `wait`
  already did. If another process was started under the same token in between,
  its hook is lost and a later cancellation misses its child
  (`Fleet.LateDropMissesChild` is such a run, `Fleet.ExposedExactly` the exact
  condition). A caller who drops each process before starting the next under
  the token is safe (`Fleet.DisciplineProtects`).
- `insert_capacity` is one less than the inserts that will succeed, and its
  subtraction underflows when all 2^32 slots exist
  (`ArenaModel.Arena.InsertCapacity`), a state that 2^32 inserts reach
  (`ArenaModel.FullArenaIsReached`).
- `header` panics instead of refusing when mode, uid, gid or size needs more
  octal digits than its field (`TarWriter.Header`, `TarWriter.WideOwnerPanics`).
- A hunk side without lines carries the number of the line before it, while
  the splice treats the number as the first line of the region. Without
  context lines a pure insertion therefore lands one line early
  (`Staging.StageIsExact`, `Staging.InsertionLandsEarly`). Every diff in the
  repository is cut with three lines of context, so no caller of today builds
  such a hunk.
- After a register prefix a leading `0` is read as a count, so `"a0` waits for
  more keys instead of meaning the line start (`GrammarSpelling.SpellingReads`,
  `GrammarSpelling.RegisterThenZero`).
- Some keys are answered as incomplete although no further key can complete
  them: a surround change with a bad first mark, and a surround of a motion that
  is none (`GrammarEnds.IncompleteExactly`; an instance is
  `GrammarEnds.BadMarksWait`).

## Model

| member | source | states |
|---|---|---|
| EditMap.SortByStart | crates/strop-core/src/editmap.rs:195-245 | the result is the submission permuted, sorted by start, equal starts in submission order |
| EditMap.CheckBatch | crates/strop-core/src/editmap.rs:253-368 | accepted if and only if every edit is in bounds and no two distinct ones share a start or overlap; the result is then the input permuted into strictly increasing, disjoint ranges |
| EditMap.Chain | crates/strop-core/src/editmap.rs:473-491 | in a validated batch any earlier edit ends before any later one starts, not just neighbours |
| EditMap.BatchIsAcceptable | crates/strop-core/src/editmap.rs:253-368 | if the sorted sweep finds no neighbour conflict then no two edits conflict, in the order of submission |
| EditMap.BatchIsTail | crates/strop-core/src/editmap.rs:405-420 | validated geometry is the left-to-right chain the application walks |
| EditMap.ReverseIsSimultaneous | crates/strop-core/src/buffer/mutation.rs:206-209 | applying the edits last first, each at its original coordinates, gives the text in which all ranges are replaced at once |
| EditMap.FoldIsDirect | crates/strop-core/src/editmap.rs:719-727 | folding the per-edit anchor map in application order equals the one-pass map over original coordinates |
| EditMap.FoldMapMonotone | crates/strop-core/src/editmap.rs:589-608 | anchors keep their relative order through a batch |
| EditMap.AnchorStaysInBounds | crates/strop-core/src/editmap.rs:609-642 | an anchor of the old text lands inside the new text |
| EditMap.AnchorKeepsByte | crates/strop-core/src/editmap.rs:37-51 | an anchor outside every replaced range names the same byte in the new text |
| EditMap.DirectMapStaysPast | crates/strop-core/src/editmap.rs:521-559 | later edits never pull an anchor back across the end of an earlier range, nor move one before them |
| EditMap.InsertedTextLands | crates/strop-core/src/buffer/mutation.rs:180-214 | the inserted bytes of each edit stand at its start shifted by the length changes before it |
| EditMap.AnchorLands | crates/strop-core/src/editmap.rs:521-608 | where every anchor lands: inside a replaced range at the start of what replaces it, else shifted by the edits that end before it, an insertion at the anchor included |
| BatchMeaning.MeantIsSubmitted | crates/strop-core/src/buffer/mutation.rs:150-165 | what is validated is acceptable exactly when of the submitted replacements those that do something lie in the text and are disjoint with different starts |
| BatchMeaning.MeantKeeps | crates/strop-core/src/buffer/mutation.rs:150 | each replacement that does something is kept as often as it was submitted, and nothing else is |
| BatchMeaning.SortedIsUnique | crates/strop-core/src/buffer/mutation.rs:154-165 | a validated batch is determined by what is in it, so by any order of submission |
| BatchMeaning.PreparedMeansSubmission | crates/strop-core/src/buffer/mutation.rs:131-209 | for a submission in order the text reached is the one in which every submitted range is replaced at once |
| BufferModel.Buffer.ReplaceValidated | crates/strop-core/src/buffer/mutation.rs:216-278 | the range is replaced, the revision advances by one, the removal and then the insertion, if there are any, join the open group, and the history still records every text |
| BufferModel.Buffer.Replace | crates/strop-core/src/buffer/mutation.rs:313-328 | which refusal applies when; a refused or empty replacement changes nothing |
| BufferModel.Buffer.CommitUndoGroup | crates/strop-core/src/buffer/mutation.rs:119-121 | closing the group adds the live text to the recorded ones exactly when the group holds edits |
| BufferModel.Buffer.PrepareReplacements | crates/strop-core/src/buffer/mutation.rs:133-178 | succeeds if and only if the buffer is writable, the base is current, the submitted replacements can be meant together and the revision counter has room; the result holds exactly those that do something; which of the five refusals is returned in every other case |
| BufferModel.Buffer.PreparedSurvives | crates/strop-core/src/buffer/mutation.rs:180-202 | what was prepared stays good at its own revision and is stale at every later one, through every other method of the buffer |
| BufferModel.Buffer.ApplyPrepared | crates/strop-core/src/buffer/mutation.rs:180-214 | the text becomes the simultaneous replacement; with no group left open the batch is one new node below the old current one; a refusal changes nothing |
| BufferModel.Buffer.CheckHistoryMove | crates/strop-core/src/buffer/mutation.rs:423-437 | read-only first, then the announced cost against the revision counter, without touching the tree |
| BufferModel.Buffer.MoveHistory | crates/strop-core/src/buffer/mutation.rs:438-480 | a move happens exactly when its announced cost exists and fits; the text is then the text of the node reached and the revision advanced by that cost; otherwise nothing changed |
| BufferModel.BatchIsOneUndoStep | crates/strop-core/src/buffer/mutation.rs:131-214 | undoing a batch restores the text before it and redoing brings the replaced text back; both moves happen whenever the revision counter has room |
| UndoTree.CarriesExtends | crates/strop-core/src/history.rs:278-285 | recording an edit with its inverse extends a group that carries one text to another, both ways |
| UndoTree.ForkIsLowestCommon | crates/strop-core/src/history.rs:203-220 | the node where the target's upward walk meets the ancestors is above both nodes and below every other common ancestor |
| UndoTree.LowestCommonIsUnique | crates/strop-core/src/history.rs:203-220 | only that node has this property |
| UndoTree.ForkStep | crates/strop-core/src/history.rs:121-131 | a cursor that is not above the other may step up without losing the fork, from either side |
| UndoTree.CostStep | crates/strop-core/src/history.rs:121-131 | each such step accounts for exactly that revision's edits |
| UndoTree.LinkKeepsGraph | crates/strop-core/src/history.rs:234-245 | re-pointing the last children along a leg leaves every parent smaller than its child and every last child a real child |
| UndoTree.LinkLinks | crates/strop-core/src/history.rs:234-245 | afterwards every node of the leg is the last child of its parent |
| UndoTree.DescendFollows | crates/strop-core/src/history.rs:322-327 | along such a leg repeated redo descends from its top to its foot |
| UndoMoves.NavigationReaches | crates/strop-core/src/history.rs:137-327 | with or without an open group, undo, redo and any jump return edits that carry the live text to exactly the text of the node landed on; no edits exactly when there is no such node; the tree keeps recording the same texts |
| UndoMoves.OpsBetweenReaches | crates/strop-core/src/history.rs:221-233 | the edits up to the fork and down the other branch carry any node's text to any other's |
| UndoMoves.CommitKeepsTexts | crates/strop-core/src/history.rs:258-275 | committing keeps the text of every node and gives the new node the live text |
| UndoMoves.CostIsNavigationLength | crates/strop-core/src/history.rs:95-144 | the announced cost is the number of edits navigating returns, and none when it returns none, if and only if the move is not the jump to the node the open group is about to become |
| UndoMoves.JumpOverOpenGroup | crates/strop-core/src/history.rs:106-132 | a jump past an open group costs the group plus the distance between the old nodes |
| UndoMoves.CommitKeepsOps | crates/strop-core/src/history.rs:258-275 | committing moves no edits between the existing nodes |
| UndoMoves.RedoRetraces | crates/strop-core/src/history.rs:234-246 | after a jump to an ancestor, one redo per level returns to the node that was left |
| UndoMoves.RedoAfterUndo | crates/strop-core/src/history.rs:309-327 | redo after undo returns to the same node with the edits that were undone |
| UndoMoves.JumpLinksBothLegs | crates/strop-core/src/history.rs:234-245 | after any jump redo leads from the fork to the target, and the branch left behind stays linked below its first node |
| UndoRetrace.UndosThenRedos | crates/strop-core/src/history.rs:309-327 | after any k undos k redos return to the node that was left, through the edits that were undone |
| UndoRetrace.StepFrame | crates/strop-core/src/history.rs:309-327 | an undo changes one last child, its parent's; a redo none; an impossible move nothing |
| UndoRetrace.JumpFrame | crates/strop-core/src/history.rs:234-246 | a jump changes no last child off its two legs |
| UndoRetrace.JumpUpLinks | crates/strop-core/src/history.rs:234-240 | after a jump to a node above, its last child is the one on the way back |
| UndoRetrace.GroupBecomesNode | crates/strop-core/src/history.rs:258-275 | closing a group adds exactly one node with its edits, the last child of the old current one; undo and redo return its edits; an empty group adds nothing |
| UndoSnapshot.KeptIsLongest | crates/strop-core/src/history.rs:375-408 | a newest-first run fits both bounds if and only if it is no longer than the retained one |
| UndoSnapshot.SizeCounts | crates/strop-core/src/history.rs:378-395 | a group counts the bytes of every text it holds, in both directions |
| UndoSnapshot.UndoAdvancesVisited | crates/strop-core/src/history.rs:309-320 | the sequence of texts is what repeated undo shows: each undo drops the first, and undo is refused when one is left |
| UndoSnapshot.LinearRecords | crates/strop-core/src/history.rs:409-422 | the unbranched tree rebuilt from retained groups records the texts those groups step through |
| UndoSnapshot.SnapshotUndoesAlike | crates/strop-core/src/history.rs:378-423 | undoing through the snapshot visits, step by step, the texts that undoing through the whole tree visits, as far as it was retained |
| UndoRuns.InverseEdit | crates/strop-core/src/buffer/mutation.rs:238-266 | an insertion and the deletion of the same text take each other back wherever the edit applies |
| UndoRuns.EditsInvert | crates/strop-core/src/history/validate.rs:68-94 | a deletion succeeds exactly where it takes back an insertion of the same text; what fails, and how |
| UndoRuns.RunKeepsSound | crates/strop-core/src/history.rs:137-327 | over any session of edits, group boundaries and moves the tree keeps every recorded text and only adds to them |
| UndoRuns.JumpRestoresText | crates/strop-core/src/history.rs:196-248 | however the session went on, jumping back to a node carries the text to what the buffer held when that node was current, or when the group that became it was closed |
| UndoRuns.RootRestoresOpening | crates/strop-core/src/history.rs:196-248 | the root always restores the text the session was opened with |
| UndoRuns.JumpToOpenGroupIsMisannounced | crates/strop-core/src/history.rs:106-109 | one insertion into an empty buffer: the jump to the node its open group becomes is announced as impossible and performed |
| UndoRuns.InsertedTextStays | crates/strop-core/src/history.rs:278-295 | the reference handed out for an insertion resolves to its text for the rest of the session, across commits and branches |
| UndoRuns.OnlyInsertionsResolve | crates/strop-core/src/history.rs:287-295 | the reference of a deletion, and one not handed out yet, name no inserted text |
| HistoryObject.History.constructor | crates/strop-core/src/history.rs:55-68 | a new history is the root alone |
| HistoryObject.History.Begin | crates/strop-core/src/history.rs:252-256 | opens an empty group only when none is open |
| HistoryObject.History.Record | crates/strop-core/src/history.rs:278-285 | both directions join the open group, or a new one, at the end; the reference names the edit just recorded |
| HistoryObject.History.ReferencedText | crates/strop-core/src/history.rs:287-295 | the text a reference inserted, in the open group or at its node |
| HistoryObject.History.Commit | crates/strop-core/src/history.rs:258-275 | the whole tree after closing a group, empty groups included |
| HistoryObject.History.UndoOps | crates/strop-core/src/history.rs:309-320 | the undo move on the whole tree |
| HistoryObject.History.RedoOps | crates/strop-core/src/history.rs:322-327 | the redo move on the whole tree |
| HistoryObject.History.AncestorsOfCurrent | crates/strop-core/src/history.rs:203-212 | the collected nodes are exactly the ancestors of the current one |
| HistoryObject.History.WalkToFork | crates/strop-core/src/history.rs:213-220 | the walk over the ancestor list stops at the fork and remembers the target's branch |
| HistoryObject.History.OpsTo | crates/strop-core/src/history.rs:199-248 | the jump on the whole tree: edits of both legs, last children along both legs, new position |
| HistoryObject.History.CountBetween | crates/strop-core/src/history.rs:110-132 | the two-pointer walk counts exactly the edits of the jump that the ancestor-set walk collects |
| HistoryObject.History.MovementCost | crates/strop-core/src/history.rs:95-135 | the announced cost of every move, without changing the tree |
| HistoryObject.History.Navigate | crates/strop-core/src/history.rs:137-144 | commit, then the move, on the whole tree |
| HistoryObject.History.RetainNewest | crates/strop-core/src/history.rs:379-408 | the loop collects exactly the retained run of the newest groups |
| HistoryObject.History.PersistentSnapshot | crates/strop-core/src/history.rs:378-423 | a fresh history equal to the unbranched tree over the retained groups |
| HistoryObject.History.Validate | crates/strop-core/src/history/validate.rs:16-34 | accepts exactly the trees whose parents precede their children, whose last children are real children and whose position exists |
| HistoryObject.History.ValidateFor | crates/strop-core/src/history/validate.rs:36-65 | accepts a history for a text if and only if no group is open and some assignment of texts to nodes, this text at the current one, is carried by every revision both ways |
| HistoryObject.History.UnwindToRoot | crates/strop-core/src/history/validate.rs:41-46 | the result of undoing the whole way to the root, or its first failure; any assignment of texts with this text at the current node has that result at the root |
| HistoryObject.History.ReplayAll | crates/strop-core/src/history/validate.rs:47-59 | replaying from the root finds that assignment, the only one, or fails |
| Permutations.SelectPermutes | crates/strop-fs/src/batch.rs:327-344 | picking elements by an order that covers every index permutes them |
| BatchPlan.CheckOwnership | crates/strop-fs/src/batch.rs:242-280 | no refusal exactly when no two steps share a destination, conflict over a source or overlap as parent and child; a refusal names what two steps clash over |
| BatchPlan.ClashMeans | crates/strop-fs/src/batch.rs:242-280 | two steps clash exactly over one destination, one source that either takes away, or a name below a directory that is the other's source |
| BatchPlan.WantsMean | crates/strop-fs/src/batch.rs:281-311 | what a step waits for and what meets it, a Store's occupied destination excepted |
| BatchPlan.BuildEdges | crates/strop-fs/src/batch.rs:281-311 | every missing parent and every occupied destination gets the first step that meets it; a refusal names a want of its kind that no step meets |
| BatchPlan.Order | crates/strop-fs/src/batch.rs:312-326 | no order if and only if the edges have a cycle; else every step once, after its dependencies, always the first ready one |
| BatchPlan.StuckIsCyclic | crates/strop-fs/src/batch.rs:315-323 | when no step is ready the edges really contain a cycle |
| BatchPlan.OrderedIsAcyclic | crates/strop-fs/src/batch.rs:312-326 | a complete order rules every cycle out |
| BatchPlan.Dependencies | crates/strop-fs/src/batch.rs:241-346 | success exactly for separate steps whose wants are met by an acyclic graph; the output permutes the input, earliest ready step first, and every renamed dependency is an earlier step, the one the edge meant; refusals over clashes and wants are true; the duplicate-entry refusal never happens |
| BatchPlan.Rewrite | crates/strop-fs/src/batch.rs:327-345 | moving the steps into order and renaming their edges keeps each step and what each edge named |
| BatchPlan.ReorderedIsPlanned | crates/strop-fs/src/batch.rs:241-346 | an ordered batch is a plan: separate steps, dependencies only on earlier steps, every want met by an earlier dependency, no dependency that meets no want |
| BatchPrepare.RefuseAll | crates/strop-fs/src/batch.rs:214-221 | no step is left and every intent is still accounted for |
| BatchPrepare.PrepareIntents | crates/strop-fs/src/batch.rs:153-161 | exactly the intents that can be prepared become steps and the others refusals, in the order of submission |
| BatchPrepare.CloseParents | crates/strop-fs/src/batch.rs:162-207 | each missing parent in turn gets its step as the kernel prepares it, until every step's parents, the generated ones' too, are made; or everything is refused because the bound is hit or the kernel refuses a parent |
| BatchPrepare.Prepare | crates/strop-fs/src/batch.rs:136-212 | an error only past 512 intents; else the refusals are those of the intents that cannot be prepared and the rest, with their parents, is a plan in the order of the edges; the whole batch is refused only for a parent that cannot be made, a clash, an occupied destination nothing vacates or a cycle, and then entirely |
| BatchPrepare.RefusedIsNotOrdered | crates/strop-fs/src/batch.rs:208-212 | a batch with one of these reasons is never ordered |
| BatchPrepare.PrepareOneMeans | crates/strop-fs/src/batch.rs:106-134 | an intent reaches the kernel exactly when it names something and all it names is in the kernel's namespace; which refusal otherwise |
| BatchPrepare.PreparedIsObserved | crates/strop-fs/src/batch.rs:106-134 | a batch prepared by a kernel that looks at a namespace was observed there, step by step, whatever order it was put in |
| BatchPrepare.PreparedBatchRunsSafely | crates/strop-fs/src/batch.rs:136-397 | prepared, ordered and run against one namespace, every step handed to the kernel finds its destination vacant, its parents as directories and, unless a Store feeds it, its source as prepared; with sources rechecked, what takes effect is one simultaneous substitution |
| BatchRun.Execute | crates/strop-fs/src/batch.rs:348-397 | one receipt per step; which are cancelled, refused, handed to the kernel, or stopped by an unconfirmed one |
| BatchRun.ReceiptsTell | crates/strop-fs/src/batch.rs:355-396 | each receipt in terms of the earlier ones, the cancellation, the dependencies and the namespace |
| BatchRun.ExecutedIsPossible | crates/strop-fs/src/batch.rs:356-365 | only steps whose dependencies all committed are handed to the kernel |
| BatchRun.EffectByKind | crates/strop-fs/src/local/execute.rs:273-430 | what a step of each kind leaves at every name |
| BatchRun.DestinationIsVacant | crates/strop-fs/src/batch.rs:293-310 | before an unblocked step that is not a Store nothing stands at its destination, under any outcomes of the others |
| BatchRun.ParentsExist | crates/strop-fs/src/batch.rs:282-292 | before an unblocked step every parent it listed is a directory |
| BatchRun.SourceIsInitial | crates/strop-fs/src/batch.rs:241-397 | when a step is reached its source holds what it held at the start in every run, whatever files are saved, if and only if no earlier Store writes it |
| BatchRun.StoreChangesSource | crates/strop-fs/src/local/execute.rs:176-194 | the run that saves another file there and refuses the step that was to read it |
| BatchRun.ActingStepReadsStart | crates/strop-fs/src/local/execute.rs:176-204 | in every run of every plan a step that takes effect finds its source as it was at the start |
| BatchRun.HandedStepsAreSafe | crates/strop-fs/src/batch.rs:348-397 | under every pattern of refusals, losses and cancellations each step handed to the kernel has its destination vacant, its parents as directories and, unless a Store feeds it, its source as prepared |
| BatchRun.RunSubstitutes | crates/strop-fs/src/batch.rs:348-397 | in every run of every plan, sources rechecked, the steps that took effect act as one simultaneous substitution on the names of the start |
| BatchRun.CommittedRunIsSimultaneous | crates/strop-fs/src/batch.rs:348-397 | a plan that commits as a whole has no Store that feeds a later step; each destination then holds what its source held at the start, each vacated name not rewritten is free, every other name is untouched, for all files saved |
| BatchRun.SaveThenRenameKeepsSaved | crates/strop-fs/src/local/execute.rs:176-194 | a save over a name followed by its rename is a plan; in every run of it the saved content stays where it was saved |
| BatchRun.UntouchedIsUnchanged | crates/strop-fs/src/batch.rs:348-397 | a name no step wrote holds what it held, or is free if a step vacated it |
| BatchRun.WrittenStays | crates/strop-fs/src/batch.rs:242-252 | what a step wrote stays until some step vacates it |
| TarFormat.PaxPath | crates/strop-containers/src/tar.rs:346-374 | the cursor loop finds the last path override among the records, or the first error |
| TarFormat.Parse | crates/strop-containers/src/tar.rs:48-117 | the offset loop yields the entries of the recursive reading, or its first error, for complete and cut captures |
| TarStream.RunConcat | crates/strop-containers/src/tar.rs:186-226 | feeding a concatenation is feeding its parts in turn, entries and errors in order |
| TarStream.ChunkingIsInvisible | crates/strop-containers/src/tar.rs:186-243 | any chunking of the same bytes emits the same entries and ends in the same state or first error |
| TarStream.StreamParser.Feed | crates/strop-containers/src/tar.rs:186-226 | consuming a chunk piece by piece is running the byte-at-a-time grammar over it |
| TarStream.StreamParser.Bite | crates/strop-containers/src/tar.rs:195-223 | one piece, in whatever phase the parser is, likewise |
| TarStream.StreamParser.Finish | crates/strop-containers/src/tar.rs:232-243 | the checks on flags and header bytes accept exactly the states a stream may end in, the first failing one named |
| TarAgreement.RecordRuns | crates/strop-containers/src/tar.rs:195-223 | a whole record takes the stream from one record boundary to the next |
| TarAgreement.CutRecordIsRejected | crates/strop-containers/src/tar.rs:232-243 | a record whose content or padding is missing is never accepted |
| TarAgreement.ReadersAgreeFrom | crates/strop-containers/src/tar.rs:48-309 | from any record boundary the two readers give the same verdict, up to what only the stream reads, and the same entries |
| TarAgreement.ReadersAgree | crates/strop-containers/src/tar.rs:48-309 | under any chunking the stream accepts if and only if the whole-buffer reader accepts and the stream-only fields read; kinds, link targets and content lengths then agree one by one |
| TarAgreement.PlainArchivesStream | crates/strop-containers/src/tar.rs:278-286 | octal modes and owners and no empty long-name record suffice for those fields |
| TarAgreement.ModeFits | crates/strop-containers/src/tar.rs:278-279 | eight octal characters never overflow 32 bits, so that refusal cannot occur |
| TarHeaders.Utf8IsEncoding | crates/strop-containers/src/tar.rs:337-344 | bytes are accepted as a name exactly when they encode some text of Unicode scalar values |
| TarHeaders.LabelledReads | crates/strop-containers/src/tar.rs:263-321 | name with prefix, kind, link target and size of any header by its fields; a pending name comes first; a name that is no text is refused |
| TarHeaders.OctalReads | crates/strop-containers/src/tar.rs:325-335 | octal digits with spaces or a zero byte after them read as their value, no digits as zero, base 256 is refused |
| TarHeaders.PaddingIsLeast | crates/strop-containers/src/tar.rs:69-73 | content is padded to the next whole block |
| TarHeaders.PaxRecordReads | crates/strop-containers/src/tar.rs:351-372 | one well-formed record: a path overrides the one before and must be a text, other keys are passed over |
| TarHeaders.PaxRefused | crates/strop-containers/src/tar.rs:351-362 | records without a length, too short for a key or past the end are refused |
| TarHeaders.LongNameReads | crates/strop-containers/src/tar.rs:299-305 | a long-name record holds the name up to its first zero byte |
| TarHeaders.NameRecordNames | crates/strop-containers/src/tar.rs:262-306 | a name record names exactly the entry behind it, and nothing is pending afterwards |
| TarCapture.PrefixIsInitialRun | crates/strop-containers/src/tar.rs:43-117 | when whole and cut archive both parse, the cut one's entries are the first of the whole, only the last clamped |
| TarCapture.PrefixParses | crates/strop-containers/src/tar.rs:43-117 | a cut of an accepted archive is accepted if and only if it does not leave a name record whose remaining bytes are no name |
| TarCapture.EarlyEntrySurvives | crates/strop-containers/src/tar.rs:104-113 | an entry whose content starts within the cut is still reported |
| TarCapture.ReadFile | crates/strop-containers/src/read.rs:81-115 | one capture and parse per path, a symlink followed once, a chain or a link without target refused, otherwise the first entry's bytes cut to the maximum |
| TarCapture.BoundedReadIsExact | crates/strop-containers/src/read.rs:81-115 | when archive and capture both parse and the framing before the file fits the slack, exactly the first min(max, size) bytes are returned |
| TarCapture.ReadIsFront | crates/strop-containers/src/read.rs:101-115 | never the wrong bytes: whatever the cut, a successful read of an accepted archive is a front of its first entry's content |
| TarCapture.CaptureParses | crates/strop-containers/src/read.rs:124-154 | a bounded capture of an accepted archive parses if and only if its cut leaves no broken name |
| TarCapture.ReadFollowsOneLink | crates/strop-containers/src/read.rs:81-115 | the exact answer for a path by the first entry of its whole archive: the front of the file, of the file its link leads to, or the refusal of a chain, an empty link or another kind |
| TarCapture.ReadViaIsFront | crates/strop-containers/src/read.rs:81-115 | over a link too, whatever is returned is a front of the file at the path or at the one its link resolves to |
| TarListing.ResolveLink | crates/strop-containers/src/read.rs:179-195 | the push-and-pop loop computes the lexical walk of the target |
| TarListing.ResolvedHasNoParentReference | crates/strop-containers/src/read.rs:179-195 | an absolute target, or one read from a clean directory, resolves without parent references |
| TarPaths.ResolvedBySegments | crates/strop-containers/src/read.rs:179-193 | segment by segment: a name goes down, a parent reference up one and nowhere at the root, an empty segment or a dot stays; absolute targets start at the root, relative ones at the link's directory |
| TarPaths.ResolvedSpells | crates/strop-containers/src/read.rs:194 | the resolved path spells those names, one slash before each |
| TarPaths.NameThenParent | crates/strop-containers/src/read.rs:185-193 | a name followed by a parent reference is as good as neither |
| TarPaths.RootHasNoParent | crates/strop-containers/src/read.rs:185-193 | a parent reference at the root stays there |
| TarPaths.RelativeIsJoined | crates/strop-containers/src/read.rs:175-184 | a relative target means the link's directory joined with it, for all targets if and only if that directory is spelled without parent references |
| TarPaths.ParentReferenceStays | crates/strop-containers/src/read.rs:180-184 | one link whose directory has one |
| TarPaths.ComponentsSplit | crates/strop-containers/src/read.rs:394-400 | the components of a path are those of its halves at any slash, empty segments and dots left out |
| TarPaths.ParentSplits | crates/strop-containers/src/read.rs:183 | directory, slash and last segment make the path; without a slash there is no directory |
| TarPaths.EntryIsListed | crates/strop-containers/src/read.rs:313-340 | which entries are children, which escape, what a child costs and what is listed of it |
| TarListing.FoldListsChildren | crates/strop-containers/src/read.rs:306-345 | below the root the listing succeeds if and only if nothing escapes and the children's cost is within the limit; the children are exactly the entries one level below, in order |
| TarListing.ListingIsExact | crates/strop-containers/src/read.rs:306-378 | the whole listing by its first entry: directory, symlink or refusal |
| TarListing.ListingIgnoresChunking | crates/strop-containers/src/read.rs:284-305 | the verdict of a listing does not depend on how the transfer was chunked |
| TarListing.ListingConsumer.Feed | crates/strop-containers/src/read.rs:284-305 | a chunk folds its entries before its own parse error counts |
| TarListing.ListingConsumer.TakeEntries | crates/strop-containers/src/read.rs:284-305 | entries after the first failure are ignored |
| TarListing.ListingConsumer.Take | crates/strop-containers/src/read.rs:306-378 | one entry, on the consumer's own fields |
| TarListing.ListingConsumer.Finish | crates/strop-containers/src/read.rs:379-391 | the answer of a stream that ended, or its truncation |
| TarListing.ListOnce | crates/strop-containers/src/read.rs:235-253 | one pass over a path's chunks, stopped at the first failure |
| TarListing.ListDir | crates/strop-containers/src/read.rs:55-71 | one pass per path, a symlink followed once, a chain refused |
| TarListing.ListDirFollowsOneLink | crates/strop-containers/src/read.rs:55-71 | over well-formed archives, exactly the entries one level below the directory at the path, or at the one its link resolves to; what is refused in every other case |
| TarListing.ListDirIgnoresChunking | crates/strop-containers/src/read.rs:55-71 | the listing of a path, its link included, does not depend on how the transfers were chunked |
| TarWriter.OctalTextReads | crates/strop-containers/src/write.rs:58-61 | a number fills its field exactly when it has no more digits than the field, and then reads back as itself |
| TarWriter.ChecksumFits | crates/strop-containers/src/write.rs:70-73 | the checksum of any block fits six octal digits |
| TarWriter.ChecksumReads | crates/strop-containers/src/write.rs:70-73 | the checksum field reads as the sum of the block with the field itself taken as spaces |
| TarWriter.Header | crates/strop-containers/src/write.rs:44-75 | refused if and only if the name is not writable; written if and only if also every number fits; every byte of the written block |
| TarWriter.WideOwnerPanics | crates/strop-containers/src/write.rs:58-64 | an owner of 2097152 panics |
| TarWriter.StampedReads | crates/strop-containers/src/tar.rs:247-343 | such a block is read back field by field as what it was written for |
| TarWriter.WrittenArchiveReadsBack | crates/strop-containers/src/write.rs:136-163 | both readers, the stream under any chunking, see exactly one regular file with this name, size, mode and owners, its data range the content |
| TarWriter.WrittenFileReadsBounded | crates/strop-containers/src/read.rs:81-115 | a bounded read of a written archive returns exactly the first min(max, size) bytes of the content, for every maximum |
| TarWriter.SplitNameIsRefused | crates/strop-containers/src/tar.rs:78-86 | a concrete family of accepted archives whose bounded read is refused because the capture splits a later name |
| TarWriter.CutHeaderIsAccepted | crates/strop-containers/src/tar.rs:53-58 | a family of captures that end inside a header: accepted and read, while the same bytes as a whole archive are refused |
| TarWriter.PathSplits | crates/strop-containers/src/write.rs:106-107 | directory, slash and name make the path, and the name holds no slash |
| TarWriter.WriteFile | crates/strop-containers/src/write.rs:93-163 | which paths are refused, the directory extracted into, and an archive that reads back as the file |
| Cancel.Cancellation.Register | crates/strop-core/src/worker.rs:173-192 | installs only into an empty slot of a token not cancelled; else rejects, or reports that the hook must run now |
| Cancel.Cancellation.Clear | crates/strop-core/src/worker.rs:196-199 | empties the slot and leaves the flag |
| Cancel.Cancellation.Detach | crates/strop-core/src/worker.rs:201-206 | sets the flag and takes the hook in one section |
| Worker.StepKeepsInv | crates/strop-core/src/worker.rs:173-316 | every step of every party keeps: one holder of the emitter, cancelled only by a claimant, each hook waiting, carried by one party, or done |
| Worker.RunKeepsInv | crates/strop-core/src/worker.rs:173-316 | so does every run |
| Worker.OneOutcome | crates/strop-core/src/worker.rs:213-296 | under every interleaving at most one outcome is emitted, and exactly one once the work returned and every handle was fired or dropped |
| Worker.WorkDecides | crates/strop-core/src/worker.rs:277-316 | when no cancellation finds the emitter, what is emitted is exactly the outcome the work returned, its panic, or the missing thread, as soon as the runner is done |
| Worker.CancelRulesOutSuccess | crates/strop-core/src/worker.rs:257-276 | a cancellation that finds the emitter decides: what is emitted, once its handle is spent, is its reason, or its hook's failure exactly if the hook failed |
| Worker.HooksRunOnce | crates/strop-core/src/worker.rs:169-211 | a hook runs at most once; at the end each detached or late one ran exactly once, each cleared or rejected one never |
| Worker.InstalledHookRuns | crates/strop-core/src/worker.rs:201-211 | a hook still installed when the token is cancelled runs exactly once, however the run goes on |
| Worker.ClearedHookNeverRuns | crates/strop-core/src/worker.rs:196-199 | a hook that was in the slot when it was cleared never runs |
| Worker.CancellationIsSeen | crates/strop-core/src/worker.rs:173-211 | from a cancellation on the token stays cancelled, every hook offered later runs once, and work that had not started never does |
| Process.StepKeepsInv | crates/strop-core/src/process.rs:96-196 | every step of owner, cancellers, child and other owners keeps the child's life in step with the owner's, kills on an unreaped child only, and the child reachable for cancellation |
| Process.RunKeepsInv | crates/strop-core/src/process.rs:96-196 | so does every run |
| Process.NoKillAfterReap | crates/strop-core/src/process.rs:25-59 | in every interleaving no signal is sent before the spawn or after the reap, to the group or to the child |
| Process.CancelledChildIsSignalled | crates/strop-core/src/process.rs:131-137 | once cancelled and all cancelling parties are done, a child still alive has been signalled, unless another owner of the token cleared the hook |
| Process.SpawnRaceIsCaught | crates/strop-core/src/process.rs:110-137 | over whole runs: a token cancelled before the check never spawns a child whatever follows; one cancelled after it, up to the landing, has the landed child signalled |
| Process.NoChildLeftBehind | crates/strop-core/src/process.rs:160-196 | an owner that is gone leaves no unreaped child, unless observing or reaping it failed |
| Process.EndingSignals | crates/strop-core/src/process.rs:25-59 | an owner that terminates or drops a live child makes one attempt on its group or lease, and a drop kills the child itself too unless the lease answers for it |
| Process.CancellationMisses | crates/strop-core/src/process.rs:25-59 | a cancellation of a live child sends nothing exactly when its hook is out of the slot; otherwise it kills the group of the live child, or shuts its lease, itself |
| Process.ExposedOnlyByOthers | crates/strop-core/src/process.rs:160-196 | a live child under an owner is out of the slot of an uncancelled token if and only if another owner of the token cleared its hook |
| Process.LateDropClearsTheNextHook | crates/strop-core/src/process.rs:180-196 | after a successful wait the later drop clears whatever hook is installed by then |
| Fleet.FleetProjects | crates/strop-core/src/process.rs:69-196 | of several processes under one token each goes through a run of its own, so all that holds of one holds of each |
| Fleet.ExposedExactly | crates/strop-core/src/process.rs:96-196 | in every run of a fleet, of the live children whose token is not cancelled exactly those are exposed whose hook was in the slot when another process refused, released or forgot |
| Fleet.DisciplineProtects | crates/strop-core/src/process.rs:69-196 | when each process is dropped before the next is started under the token, none is ever exposed and every cancelled live child has been signalled |
| Fleet.LateDropMissesChild | crates/strop-core/src/process.rs:180-196 | one run of two processes in which the late drop of the first makes a cancellation miss the second's live child |
| ArenaModel.InsertIsFresh | crates/strop-core/src/id.rs:151-181 | an insert succeeds exactly while capacity remains, returns an id never issued before, changes no other id and uses up one unit of capacity; a failed one changes no id |
| ArenaModel.ReusesNewest | crates/strop-core/src/id.rs:151-181 | a freed slot is reused before the arena grows: the one freed last, under its next generation |
| ArenaModel.GrowsWhenFull | crates/strop-core/src/id.rs:172-181 | with nothing free the next index is taken, in generation zero |
| ArenaModel.GetIsLookup | crates/strop-core/src/id.rs:196-201 | generation check and slot value together are lookup in the map of live ids |
| ArenaModel.RemoveForgets | crates/strop-core/src/id.rs:211-219 | removal forgets exactly the one id and issues none |
| ArenaModel.ClearForgetsAll | crates/strop-core/src/id.rs:246-258 | clearing forgets every id, every issued id stays issued, and exactly the occupied indices join the free ones |
| ArenaModel.ArenaIsMap | crates/strop-core/src/id.rs:144-258 | after any run of inserts, removes and clears an id resolves as in the plain map that ran them |
| ArenaModel.IdsNeverRepeat | crates/strop-core/src/id.rs:109-114 | no run returns an id issued before it, or one id twice |
| ArenaModel.StaleForever | crates/strop-core/src/id.rs:195-201 | an issued id that no longer resolves never resolves again, through reuse and retirement |
| ArenaModel.RemainingIsExact | crates/strop-core/src/id.rs:183-193 | of any number of inserts in a row exactly as many succeed as capacity remained |
| ArenaModel.FullArenaIsReached | crates/strop-core/src/id.rs:151-193 | 2^32 inserts reach an arena with every index in use, where nothing more can be inserted |
| ArenaModel.Arena.TryInsert | crates/strop-core/src/id.rs:151-181 | the popping loop on the whole arena, and the live map after it |
| ArenaModel.Arena.Get | crates/strop-core/src/id.rs:196-201 | the value of a live id, nothing for any other |
| ArenaModel.Arena.Remove | crates/strop-core/src/id.rs:211-219 | returns the live value and takes exactly that id out |
| ArenaModel.Arena.Clear | crates/strop-core/src/id.rs:246-258 | the vacating loop on the whole arena; nothing is live |
| ArenaModel.Arena.InsertCapacity | crates/strop-core/src/id.rs:186-193 | one less than the inserts that will succeed; underflows exactly when every index is in use |
| Grammar.ReadNumber | crates/strop-grammar/src/parse.rs:33-39 | the digit loop reads the whole leading run and its value |
| Grammar.ParseKeys | crates/strop-grammar/src/parse.rs:14-86 | the index-moving parse of register, counts and operator, then of the target, is the recursive grammar |
| Grammar.ParseTarget | crates/strop-grammar/src/parse.rs:173-321 | the branches over the keys after the operator, in the order of the source |
| Grammar.ParseSearch | crates/strop-grammar/src/parse.rs:237-266 | the scan for the terminator, and which patterns are refused, invalid or unfinished |
| Grammar.ParseSurround | crates/strop-grammar/src/parse.rs:86-171 | the three surround forms, the last by parsing its own motion again |
| Grammar.PrefixIsIncomplete | crates/strop-grammar/src/parse.rs:14-322 | every proper prefix of a key string that parses to a command is incomplete, through registers, counts, operators, objects, searches and nested surrounds |
| Grammar.AimPrefix | crates/strop-grammar/src/parse.rs:77-314 | the same for the keys after register, counts and operator |
| Grammar.RefusalIsFinal | crates/strop-grammar/src/parse.rs:14-322 | keys once answered, also as invalid, never become a command by typing on |
| GrammarEnds.IncompleteExactly | crates/strop-grammar/src/parse.rs:14-322 | incomplete keys can still become a command, or one with a bad pattern, if and only if they are not one of two hopeless kinds |
| GrammarEnds.BadMarksWait | crates/strop-grammar/src/parse.rs:118-128 | one of them, a surround change with a bad mark: incomplete for ever |
| Grammar.CommandsTyped | crates/strop-grammar/src/parse.rs:1-2 | asked at every key and started over after every answer, a text of commands is read as exactly those commands |
| Grammar.OneReading | crates/strop-grammar/src/parse.rs:1-2 | a text is a sequence of commands in at most one way |
| GrammarSpelling.SpellingReads | crates/strop-grammar/src/parse.rs:14-322 | a well-spelled command is read back with its register, product of counts, operator and target, unless its line-start key follows digits or a register: then the keys are incomplete |
| GrammarSpelling.RegisterThenZero | crates/strop-grammar/src/parse.rs:32-39 | the keys of a register and the line start are incomplete |
| GrammarSpelling.TargetReads | crates/strop-grammar/src/parse.rs:86-314 | every target's keys are read back as that target |
| GrammarSpelling.MarksRead | crates/strop-grammar/src/parse.rs:86-97 | an object is read from each of its marks, opening or closing, and from no other key; which keys are surround marks |
| GrammarSpelling.RegistersRead | crates/strop-grammar/src/parse.rs:18-30 | which keys name a register, and that any other is invalid |
| GrammarSpelling.OperatorsRead | crates/strop-grammar/src/parse.rs:40-62 | the five operators by their keys, with a motion and doubled |
| GrammarSpelling.AimFits | crates/strop-grammar/src/parse.rs:86-314 | only targets that fit their operator are ever read |
| GrammarSpelling.CommandsExactly | crates/strop-grammar/src/parse.rs:14-322 | some keys spell a command if and only if it is well formed |
| Staging.SplitLines | crates/strop-git/src/repo.rs:526-539 | the scan splits into well-formed lines that join to the same bytes |
| Staging.JoinOfSplit | crates/strop-git/src/repo.rs:523-539 | joining undoes splitting for every content |
| Staging.SplitOfJoin | crates/strop-git/src/repo.rs:523-539 | splitting undoes joining for every well-formed list of lines |
| Staging.IndexRegionEdit | crates/strop-git/src/repo.rs:391-409 | the appended output is the content with the region's lines replaced |
| Staging.RegionEditCuts | crates/strop-git/src/repo.rs:391-393 | the splice for any numbers, stale ones too: the region is cut off at the end of the content |
| Staging.SideConcat | crates/strop-git/src/repo.rs:285-365 | a side of a hunk keeps the hunk's order, line by line |
| Staging.StageHunk | crates/strop-git/src/repo.rs:359-366 | the old region gives way to the new side |
| Staging.UnstageHunk | crates/strop-git/src/repo.rs:284-291 | the new region gives way to the old side |
| Staging.StageIsExact | crates/strop-git/src/repo.rs:359-409 | wherever in its diff a hunk stands, staging it yields the content its old numbers describe, byte for byte, if and only if its old side has lines, or starts at the front, or each added line equals the line before the place |
| Staging.UnstageIsExact | crates/strop-git/src/repo.rs:284-291 | the same for unstaging, over the new numbers |
| Staging.StageAllIsGoal | crates/strop-git/src/repo.rs:359-409 | staging all hunks of a diff, last first, yields the new content |
| Staging.UnstageAllIsBase | crates/strop-git/src/repo.rs:284-291 | unstaging them all, last first, yields the old content |
| Staging.UnstageIsReverse | crates/strop-git/src/repo.rs:284-291 | unstaging is staging the reversed hunk, which describes the change backwards |
| Staging.StageUnstageRoundTrip | crates/strop-git/src/repo.rs:284-366 | for a hunk that is the whole change, cut with context, staging and unstaging are inverses on the two contents, final newline or not |
| Staging.InsertionLandsEarly | crates/strop-git/src/repo.rs:392-393 | a concrete insertion without context that lands before the line it should follow |
| Staging.UntrackedStages | crates/strop-git/src/repo.rs:432-457 | the single hunk of an untracked file describes the change from nothing, stages to the file and unstages to nothing |

## Left out

- UTF-8 boundaries and ropes: texts are byte sequences, so the boundary half of range validation is a bounds check; line and point bookkeeping of edits is not modelled.
- BufferModel.Buffer.PrepareReplacements: the program sorts by start and end with an unstable sort, the model by start with the stable one; on every accepted batch starts are distinct and the two agree.
- The buffer's change log, dirty flag, system edits and whole-text replacement, the identity check between a prepared batch and another buffer, and the cursor positions a history move reports.
- The undo-tree browser rows, change positions and the text summaries of revisions: display only.
- Overflow of byte counts in snapshots: sizes are naturals.
- BatchRun.Execute: the kernel's outcome and the moment of cancellation are given per step, and what a Store or a buffer copy writes is a parameter; native subtree moves, trash and verification of receipts are not modelled.
- BatchRun.RunSubstitutes: observing a source again is modelled as knowing whether an earlier step of the run published there; changes from outside the run are not modelled.
- BatchPrepare.Prepare: a kernel that answers with another intent or destination than the one asked for is excluded; batch locations are compared as prepared.
- TarCapture.ReadFile: a function gives the archive of each path; the transfer itself, and what the engine answers for a path that does not exist, are not modelled.
- TarListing.ListDir: likewise with the chunks of each path; the engine's exit status after the stream is not modelled.
- Container processes, pipes, deadlines and diagnostics around tar transfers.
- The memory an entry costs in a listing is fixed at its 64-bit value.
- Overflow of pax record lengths past 64 bits is the same refusal as a malformed one.
- TarWriter.WriteFile: ends with the bytes handed to the pipe.
- Worker threads are interleaved atomic steps without fairness; the code that hooks, emit callbacks and work run is arbitrary and takes one step to finish.
- Worker handles for stand-alone tokens, which have no emitter.
- Grammar.CommandsTyped: a caller that only pushes keys and asks again; the editor's walker also sends first keys to a key table and replaces count and register of the answer by its own.
- Progress of worker parties: mutex sections are single events, so a section that never ends cannot be expressed.
- Staging.StageAllIsGoal: the program stages one hunk at a time and diffs again; the sequence is the model's.
- Process.NoChildLeftBehind: a failing waitid or wait is an event of its own, after which nothing is claimed; descendants of the child and the lease peer's cleanup are not modelled.
- Real clocks, polling intervals and interrupted system calls.
- Arena iteration, mutable access and seeds: they add no identity rule.
- Grammar.ParseKeys: counts are naturals, keys are characters, and which search patterns compile is a parameter; a compiled pattern is named by its text.
- Resolution of motions and targets against a buffer, and the walker's own composition states.
- Computing diffs, reading and writing the index, gutter signs and the diff surface.
