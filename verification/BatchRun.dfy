/** Running an ordered batch against a namespace that may refuse, lose or stop any step. */
module BatchRun {
  import opened Wrappers
  import opened Permutations
  import opened BatchPlan

  datatype Content = Folder | Document(data: Bytes)

  /** One namespace as a flat map: parent/child overlap is refused before anything runs. */
  type Names = map<Location, Content>

  /** What the kernel reports for one step. An unconfirmed step may or may not have taken effect. */
  datatype Outcome = Committed | Refused | Cancelled | Unconfirmed(happened: bool)

  datatype Receipt = Receipt(step: nat, outcome: Outcome)

  // ---------------------------------------------------------------- the executor

  predicate Blocked(step: Operation, receipts: seq<Receipt>) {
    exists d :: d in step.dependencies && (d >= |receipts| || !receipts[d].outcome.Committed?)
  }

  /** The outcome of step i given everything that came before it. */
  ghost predicate OutcomeOf(plan: seq<Operation>, namespace: nat, kernel: seq<Outcome>, cancelled: seq<bool>,
                            receipts: seq<Receipt>, i: nat)
    requires i < |receipts| == |plan| == |kernel| == |cancelled|
  {
    receipts[i] == Receipt(i,
      if exists k :: 0 <= k < i && receipts[k].outcome.Unconfirmed? then Refused
      else if cancelled[i] then Cancelled
      else if Blocked(plan[i], receipts[..i]) then Refused
      else if Foreign(plan[i], namespace) then Refused
      else kernel[i])
  }

  /** The executor handed step i to the kernel. */
  ghost predicate Handed(plan: seq<Operation>, namespace: nat, cancelled: seq<bool>, receipts: seq<Receipt>, i: nat)
    requires i < |receipts| == |plan| == |cancelled|
  {
    && (forall k :: 0 <= k < i ==> !receipts[k].outcome.Unconfirmed?)
    && !cancelled[i] && !Blocked(plan[i], receipts[..i]) && !Foreign(plan[i], namespace)
  }

  /** A receipt list the executor returns for some kernel and some moment of cancellation. */
  ghost predicate ProducedBy(plan: seq<Operation>, namespace: nat, kernel: seq<Outcome>, cancelled: seq<bool>,
                             receipts: seq<Receipt>) {
    |receipts| == |kernel| == |cancelled| == |plan|
    && forall i :: 0 <= i < |plan| ==> OutcomeOf(plan, namespace, kernel, cancelled, receipts, i)
  }

  predicate Foreign(step: Operation, namespace: nat) {
    match step.intent.Location()
    case None => true
    case Some(location) => location.filesystem != namespace
  }

  /** One receipt per step, whatever the kernel answers and whenever cancellation arrives. */
  method Execute(plan: seq<Operation>, namespace: nat, kernel: seq<Outcome>, cancelled: seq<bool>)
    returns (receipts: seq<Receipt>)
    requires |kernel| == |cancelled| == |plan|
    ensures ProducedBy(plan, namespace, kernel, cancelled, receipts)
  {
    receipts := [];
    for step := 0 to |plan|
      invariant |receipts| == step
      invariant forall k :: 0 <= k < step ==> !receipts[k].outcome.Unconfirmed?
      invariant forall i :: 0 <= i < step ==>
                  receipts[i] == Receipt(i, if cancelled[i] then Cancelled
                                            else if Blocked(plan[i], receipts[..i])
                                              || Foreign(plan[i], namespace) then Refused
                                            else kernel[i])
    {
      var outcome;
      if cancelled[step] {
        outcome := Cancelled;
      } else {
        var blocked := AnyBlocks(plan[step], receipts);
        outcome := if blocked || Foreign(plan[step], namespace) then Refused else kernel[step];
      }
      assert receipts[..step] == receipts;
      ghost var before := receipts;
      receipts := receipts + [Receipt(step, outcome)];
      assert forall i :: 0 <= i <= step ==> receipts[..i] == before[..i];
      if outcome.Unconfirmed? {
        for rest := step + 1 to |plan|
          invariant |receipts| == rest
          invariant receipts[..step + 1] == before + [Receipt(step, outcome)]
          invariant forall i :: step < i < rest ==> receipts[i] == Receipt(i, Refused)
        {
          receipts := receipts + [Receipt(rest, Refused)];
        }
        forall i | 0 <= i < |plan| ensures OutcomeOf(plan, namespace, kernel, cancelled, receipts, i) {
          if i <= step {
            assert receipts[i] == receipts[..step + 1][i];
            assert receipts[..i] == before[..i];
          } else {
            assert receipts[step] == receipts[..step + 1][step];
          }
        }
        return;
      }
    }
  }

  method AnyBlocks(step: Operation, receipts: seq<Receipt>) returns (blocked: bool)
    ensures blocked <==> Blocked(step, receipts)
  {
    for k := 0 to |step.dependencies|
      invariant forall j :: 0 <= j < k ==>
                  step.dependencies[j] < |receipts| && receipts[step.dependencies[j]].outcome.Committed?
    {
      var d := step.dependencies[k];
      if d >= |receipts| || !receipts[d].outcome.Committed? {
        assert d in step.dependencies;
        return true;
      }
    }
    return false;
  }

  /** Each receipt in terms of those before it: an earlier unconfirmed step refuses everything after it; a cancelled
      step never starts; a step whose dependencies did not all commit earlier, or whose name is not in this namespace,
      is refused; every other gets the kernel's own answer. */
  lemma ReceiptsTell(plan: seq<Operation>, namespace: nat, kernel: seq<Outcome>, cancelled: seq<bool>,
                     receipts: seq<Receipt>, i: nat)
    requires ProducedBy(plan, namespace, kernel, cancelled, receipts) && i < |plan|
    ensures receipts[i].step == i
    ensures var intent := plan[i].intent;
            var names := if intent.source.Some? then intent.source else intent.destination;
            receipts[i].outcome
            == if exists k :: 0 <= k < i && receipts[k].outcome.Unconfirmed? then Refused
               else if cancelled[i] then Cancelled
               else if exists d :: d in plan[i].dependencies && (d >= i || receipts[d].outcome != Committed)
                 then Refused
               else if names.None? || names.value.filesystem != namespace then Refused
               else kernel[i]
  {
    assert OutcomeOf(plan, namespace, kernel, cancelled, receipts, i);
    forall d | d in plan[i].dependencies && d < i ensures receipts[..i][d] == receipts[d] {
    }
  }

  // ---------------------------------------------------------------- effects

  /** The step's effect on the namespace, were it to happen there; `supplied` is the content that
      comes from the editor instead of the namespace. */
  function Effect(names: Names, step: Operation, supplied: Content): Names {
    var vacated := if Vacates(step) && step.source.Some? then names - {step.source.value.location} else names;
    if step.destination.None? then vacated
    else vacated[step.destination.value.location := Produced(names, step, supplied)]
  }

  function Produced(names: Names, step: Operation, supplied: Content): Content {
    match step.intent.kind
    case CreateFile => Document([])
    case CreateDirectory => Folder
    case Store => supplied
    case _ =>
      if step.intent.fromBuffer || step.source.None? || step.source.value.location !in names then supplied
      else names[step.source.value.location]
  }

  /** What a step leaves at each name: at its destination an empty file, a directory, the saved text, or what it found
      at its source; nothing at the source of a move, a removal or a trashing; everything else as it was. */
  lemma EffectByKind(names: Names, step: Operation, supplied: Content, name: Location)
    requires WellShaped(step)
    ensures Holds(Effect(names, step, supplied), name)
         == if step.destination.Some? && step.destination.value.location == name then
              (match step.intent.kind
               case CreateFile => Some(Document([]))
               case CreateDirectory => Some(Folder)
               case Store => Some(supplied)
               case _ => if step.intent.fromBuffer || step.source.value.location !in names then Some(supplied)
                 else Some(names[step.source.value.location]))
            else if step.intent.kind in {Rename, Trash, Remove, Restore} && step.source.value.location == name then None
            else Holds(names, name)
  {
  }

  predicate Happened(outcome: Outcome) {
    outcome.Committed? || outcome == Unconfirmed(true)
  }

  /** The namespace just before step i of a run. */
  ghost function Before(start: Names, plan: seq<Operation>, outcomes: seq<Outcome>, supplied: seq<Content>,
                        i: nat): Names
    requires i <= |plan| == |outcomes| == |supplied|
  {
    if i == 0 then start
    else
      var earlier := Before(start, plan, outcomes, supplied, i - 1);
      if Happened(outcomes[i - 1]) then Effect(earlier, plan[i - 1], supplied[i - 1]) else earlier
  }

  /** Runs the executor can produce: no step takes effect unless all its dependencies committed. */
  ghost predicate Possible(plan: seq<Operation>, outcomes: seq<Outcome>)
    requires |plan| == |outcomes|
  {
    forall i :: 0 <= i < |plan| && Happened(outcomes[i]) ==> Unblocked(plan, outcomes, i)
  }

  ghost predicate Unblocked(plan: seq<Operation>, outcomes: seq<Outcome>, i: nat)
    requires i < |plan| == |outcomes|
  {
    forall d :: d in plan[i].dependencies ==> d < |outcomes| && outcomes[d].Committed?
  }

  /** What the kernel checks before it acts: it observes the step's source once more and refuses when that
      is not the object, version and all, that preparation saw. Publishing a name puts another object there,
      so no step takes effect whose source an earlier one wrote. */
  ghost predicate Rechecked(plan: seq<Operation>, outcomes: seq<Outcome>)
    requires |plan| == |outcomes|
  {
    forall k, i :: 0 <= k < i < |plan| && Happened(outcomes[k]) && Happened(outcomes[i]) ==> !Feeds(plan[k], plan[i])
  }

  predicate Feeds(earlier: Operation, later: Operation) {
    later.source.Some? && DestinationOf(earlier) == SourceOf(later)
  }

  function Outcomes(receipts: seq<Receipt>): (outcomes: seq<Outcome>)
    ensures |outcomes| == |receipts|
    ensures forall k :: 0 <= k < |receipts| ==> outcomes[k] == receipts[k].outcome
  {
    seq(|receipts|, k requires 0 <= k < |receipts| => receipts[k].outcome)
  }

  /** What the executor produces is possible, and every step handed to the kernel was unblocked. */
  lemma ExecutedIsPossible(plan: seq<Operation>, namespace: nat, kernel: seq<Outcome>, cancelled: seq<bool>,
                           receipts: seq<Receipt>)
    requires ProducedBy(plan, namespace, kernel, cancelled, receipts)
    requires forall i :: 0 <= i < |plan| ==> Within(plan[i].dependencies, i)
    ensures Possible(plan, Outcomes(receipts))
    ensures forall i :: 0 <= i < |plan| && Handed(plan, namespace, cancelled, receipts, i) ==>
              Unblocked(plan, Outcomes(receipts), i)
  {
    forall i | 0 <= i < |plan| && !Blocked(plan[i], receipts[..i]) ensures Unblocked(plan, Outcomes(receipts), i) {
      forall d | d in plan[i].dependencies ensures d < |receipts| && receipts[d].outcome.Committed? {
        assert d < i && receipts[..i][d] == receipts[d];
      }
    }
    forall i | 0 <= i < |plan| && Happened(Outcomes(receipts)[i]) ensures Unblocked(plan, Outcomes(receipts), i) {
      assert OutcomeOf(plan, namespace, kernel, cancelled, receipts, i);
    }
  }

  // ---------------------------------------------------------------- what preparation observed

  predicate SeenAs(names: Names, seen: Located) {
    seen.value == if seen.location !in names then None
                  else if names[seen.location].Folder? then Some(Directory) else Some(File)
  }

  /** The arguments each kind takes. */
  predicate WellShaped(step: Operation) {
    match step.intent.kind
    case CreateFile | CreateDirectory | Store => step.source.None? && step.destination.Some?
    case Trash | Remove => step.source.Some? && step.destination.None?
    case Rename | Copy | Restore => step.source.Some? && step.destination.Some?
  }

  predicate FromNamespace(step: Operation) {
    step.source.Some? && !(step.intent.kind.Copy? && step.intent.fromBuffer)
  }

  ghost predicate Contains(step: Operation, parent: Location) {
    (step.source.Some? && StrictlyUnder(step.source.value.location, parent))
    || (step.destination.Some? && StrictlyUnder(step.destination.value.location, parent))
  }

  /** What preparation refuses to touch: a Store replaces only files, a copy reads only files, and no
      step moves a name onto itself. */
  predicate Admitted(step: Operation) {
    && (step.intent.kind.Store? && step.destination.Some? ==> step.destination.value.value in {None, Some(File)})
    && (step.intent.kind.Copy? && step.source.Some? ==> step.source.value.value in {None, Some(File)})
    && (step.source.Some? ==> SourceOf(step) != DestinationOf(step))
  }

  /** The step was prepared against this namespace: every name was observed as it is, a source that
      will be read exists, and each listed parent is above one of the step's names. */
  ghost predicate Observed(names: Names, step: Operation) {
    && WellShaped(step) && Admitted(step)
    && (step.intent.fromBuffer ==> step.intent.kind.Copy?)
    && (step.source.Some? ==> SeenAs(names, step.source.value))
    && (step.destination.Some? ==> SeenAs(names, step.destination.value))
    && (FromNamespace(step) ==> step.source.value.location in names)
    && forall p :: p in step.parents ==>
         SeenAs(names, p) && Contains(step, p.location) && p.value in {None, Some(Directory)}
  }

  ghost predicate ObservedAll(names: Names, plan: seq<Operation>) {
    forall i :: 0 <= i < |plan| ==> Observed(names, plan[i])
  }

  // ---------------------------------------------------------------- the state before a step

  ghost predicate WrittenBefore(plan: seq<Operation>, outcomes: seq<Outcome>, i: nat, name: Location, k: nat)
    requires i <= |plan| == |outcomes|
  {
    k < i && Happened(outcomes[k]) && DestinationOf(plan[k]) == Some(name)
  }

  ghost predicate VacatedBefore(plan: seq<Operation>, outcomes: seq<Outcome>, i: nat, name: Location, k: nat)
    requires i <= |plan| == |outcomes|
  {
    k < i && Happened(outcomes[k]) && Meets(plan[k], Frees(name))
  }

  ghost predicate Untouched(plan: seq<Operation>, outcomes: seq<Outcome>, i: nat, name: Location)
    requires i <= |plan| == |outcomes|
  {
    forall k: nat :: !WrittenBefore(plan, outcomes, i, name, k) && !VacatedBefore(plan, outcomes, i, name, k)
  }

  /** A name nobody has written or vacated is as it was; a vacated one nobody has written is gone. */
  lemma {:induction false} UntouchedIsUnchanged(start: Names, plan: seq<Operation>, outcomes: seq<Outcome>,
                                                supplied: seq<Content>, i: nat, name: Location)
    requires i <= |plan| == |outcomes| == |supplied|
    ensures Untouched(plan, outcomes, i, name) ==>
              Holds(Before(start, plan, outcomes, supplied, i), name) == Holds(start, name)
    ensures (forall k: nat :: !WrittenBefore(plan, outcomes, i, name, k))
            && (name !in start || exists k: nat :: VacatedBefore(plan, outcomes, i, name, k)) ==>
              name !in Before(start, plan, outcomes, supplied, i)
  {
    if i == 0 {
    } else {
      UntouchedIsUnchanged(start, plan, outcomes, supplied, i - 1, name);
      var earlier := Before(start, plan, outcomes, supplied, i - 1);
      forall k: nat
        ensures WrittenBefore(plan, outcomes, i, name, k) <==>
                  WrittenBefore(plan, outcomes, i - 1, name, k)
                  || (k == i - 1 && Happened(outcomes[k]) && DestinationOf(plan[k]) == Some(name))
        ensures VacatedBefore(plan, outcomes, i, name, k) <==>
                  VacatedBefore(plan, outcomes, i - 1, name, k)
                  || (k == i - 1 && Happened(outcomes[k]) && Meets(plan[k], Frees(name)))
      {
      }
      assert !WrittenBefore(plan, outcomes, i, name, i - 1) && !VacatedBefore(plan, outcomes, i, name, i - 1) ==>
        Holds(Before(start, plan, outcomes, supplied, i), name) == Holds(earlier, name);
      assert !WrittenBefore(plan, outcomes, i, name, i - 1) && VacatedBefore(plan, outcomes, i, name, i - 1) ==>
        name !in Before(start, plan, outcomes, supplied, i);
    }
  }

  function Holds(names: Names, name: Location): Option<Content> {
    if name in names then Some(names[name]) else None
  }

  /** No step from k on, among the first i, has vacated the name. */
  ghost predicate KeptSince(plan: seq<Operation>, outcomes: seq<Outcome>, i: nat, name: Location, k: nat)
    requires i <= |plan| == |outcomes|
  {
    forall v: nat :: VacatedBefore(plan, outcomes, i, name, v) ==> v < k
  }

  /** After its only writer, a name holds what that step produced until the step that vacates it. */
  lemma {:induction false} WrittenStays(start: Names, plan: seq<Operation>, outcomes: seq<Outcome>,
                                        supplied: seq<Content>, i: nat, name: Location, k: nat)
    requires i <= |plan| == |outcomes| == |supplied|
    requires Separate(plan) && WrittenBefore(plan, outcomes, i, name, k)
    requires KeptSince(plan, outcomes, i, name, k)
    ensures Holds(Before(start, plan, outcomes, supplied, i), name)
         == Some(Produced(Before(start, plan, outcomes, supplied, k), plan[k], supplied[k]))
    decreases i
  {
    if k == i - 1 {
    } else {
      var j := i - 1;
      forall v: nat | VacatedBefore(plan, outcomes, j, name, v) ensures v < k {
        assert VacatedBefore(plan, outcomes, i, name, v);
      }
      WrittenStays(start, plan, outcomes, supplied, i - 1, name, k);
      SeparatePair(plan, k, i - 1);
      assert k <= i - 1 && !VacatedBefore(plan, outcomes, i, name, i - 1);
    }
  }

  // ---------------------------------------------------------------- every step runs safely

  /** Before a step whose dependencies committed: its destination is vacant unless it is a Store. */
  lemma DestinationIsVacant(start: Names, plan: seq<Operation>, outcomes: seq<Outcome>, supplied: seq<Content>, i: nat)
    requires Planned(plan) && ObservedAll(start, plan)
    requires i < |plan| == |outcomes| == |supplied| && Unblocked(plan, outcomes, i)
    requires plan[i].destination.Some? && !plan[i].intent.kind.Store?
    ensures plan[i].destination.value.location !in Before(start, plan, outcomes, supplied, i)
  {
    var name := plan[i].destination.value.location;
    assert Observed(start, plan[i]);
    forall k: nat ensures !WrittenBefore(plan, outcomes, i, name, k) {
      if k < i { SeparatePair(plan, i, k); }
    }
    if name in start {
      var d := FreedFirst(start, plan, i);
      assert VacatedBefore(plan, outcomes, i, name, d);
    }
    UntouchedIsUnchanged(start, plan, outcomes, supplied, i, name);
  }

  /** A destination occupied at the start is vacated by an earlier dependency. */
  lemma FreedFirst(start: Names, plan: seq<Operation>, k: nat) returns (d: nat)
    requires Planned(plan) && ObservedAll(start, plan)
    requires k < |plan| && plan[k].destination.Some? && !plan[k].intent.kind.Store?
    requires plan[k].destination.value.location in start
    ensures d in plan[k].dependencies && d < k && Meets(plan[d], Frees(plan[k].destination.value.location))
  {
    var name := plan[k].destination.value.location;
    assert Observed(start, plan[k]);
    assert Frees(name) in Wants(plan[k]);
    assert MetEarlier(plan, k, Frees(name));
    d :| d in plan[k].dependencies && d < k && Meets(plan[d], Frees(name));
  }

  /** A Store that earlier in the plan overwrites what step i is to read. */
  predicate FedByStore(plan: seq<Operation>, i: nat)
    requires i < |plan|
  {
    FromNamespace(plan[i])
    && exists k :: 0 <= k < i && plan[k].intent.kind.Store? && DestinationOf(plan[k]) == SourceOf(plan[i])
  }

  /** No step but a Store can have written the source of a later one. */
  lemma SourceWriterIsStore(start: Names, plan: seq<Operation>, i: nat, k: nat)
    requires Planned(plan) && ObservedAll(start, plan)
    requires k < i < |plan| && FromNamespace(plan[i]) && DestinationOf(plan[k]) == SourceOf(plan[i])
    ensures plan[k].intent.kind.Store?
  {
    var name := plan[i].source.value.location;
    assert Observed(start, plan[i]) && Observed(start, plan[k]);
    if !plan[k].intent.kind.Store? {
      var d := FreedFirst(start, plan, k);
      assert false;
    }
  }

  lemma SourceIsNotVacated(plan: seq<Operation>, outcomes: seq<Outcome>, i: nat, k: nat)
    requires Separate(plan) && i < |plan| == |outcomes| && plan[i].source.Some?
    ensures !VacatedBefore(plan, outcomes, i, plan[i].source.value.location, k)
  {
    if k < i { SeparatePair(plan, i, k); }
  }

  /** What the editor supplies is file content, never a directory. */
  predicate FilesSupplied(supplied: seq<Content>) {
    forall k :: 0 <= k < |supplied| ==> supplied[k].Document?
  }

  /** Every run of the executor over the kernel in which the sources were rechecked. */
  ghost predicate Honest(plan: seq<Operation>, outcomes: seq<Outcome>)
    requires |plan| == |outcomes|
  {
    Possible(plan, outcomes) && Rechecked(plan, outcomes)
  }

  /** When a step is reached, its source still holds what it held at the start, in every run, exactly
      when no earlier Store writes it. */
  lemma SourceIsInitial(start: Names, plan: seq<Operation>, i: nat)
    requires Planned(plan) && EachNeeded(plan) && ObservedAll(start, plan)
    requires i < |plan| && FromNamespace(plan[i])
    ensures (forall outcomes, supplied ::
               |outcomes| == |supplied| == |plan| && Honest(plan, outcomes) && FilesSupplied(supplied) ==>
                 SourceUnchanged(start, plan, outcomes, supplied, i))
            <==> !FedByStore(plan, i)
  {
    if FedByStore(plan, i) {
      var k :| 0 <= k < i && plan[k].intent.kind.Store? && DestinationOf(plan[k]) == SourceOf(plan[i]);
      var outcomes, supplied := OnlySaved(plan, k), Saving(start, plan, i);
      StoreChangesSource(start, plan, i, k);
      assert Honest(plan, outcomes) && FilesSupplied(supplied)
        && !SourceUnchanged(start, plan, outcomes, supplied, i);
    } else {
      forall outcomes, supplied | |outcomes| == |supplied| == |plan|
        ensures SourceUnchanged(start, plan, outcomes, supplied, i)
      {
        UnfedSourceIsUnchanged(start, plan, outcomes, supplied, i);
      }
    }
  }

  ghost predicate SourceUnchanged(start: Names, plan: seq<Operation>, outcomes: seq<Outcome>, supplied: seq<Content>,
                                  i: nat)
    requires i < |plan| == |outcomes| == |supplied| && plan[i].source.Some?
  {
    var name := plan[i].source.value.location;
    name in start && Holds(Before(start, plan, outcomes, supplied, i), name) == Some(start[name])
  }

  lemma UnfedSourceIsUnchanged(start: Names, plan: seq<Operation>, outcomes: seq<Outcome>, supplied: seq<Content>,
                               i: nat)
    requires Planned(plan) && ObservedAll(start, plan)
    requires i < |plan| == |outcomes| == |supplied| && FromNamespace(plan[i]) && !FedByStore(plan, i)
    ensures SourceUnchanged(start, plan, outcomes, supplied, i)
  {
    var name := plan[i].source.value.location;
    assert Observed(start, plan[i]);
    forall k: nat ensures !WrittenBefore(plan, outcomes, i, name, k) && !VacatedBefore(plan, outcomes, i, name, k) {
      SourceIsNotVacated(plan, outcomes, i, k);
      if WrittenBefore(plan, outcomes, i, name, k) {
        SourceWriterIsStore(start, plan, i, k);
      }
    }
    UntouchedIsUnchanged(start, plan, outcomes, supplied, i, name);
  }

  /** In every run of every plan, a step that takes effect reads its source as it was at the start. */
  lemma ActingStepReadsStart(start: Names, plan: seq<Operation>, outcomes: seq<Outcome>, supplied: seq<Content>,
                             i: nat)
    requires Planned(plan) && ObservedAll(start, plan)
    requires i < |plan| == |outcomes| == |supplied| && FromNamespace(plan[i])
    requires Rechecked(plan, outcomes) && Happened(outcomes[i])
    ensures SourceUnchanged(start, plan, outcomes, supplied, i)
  {
    var name := plan[i].source.value.location;
    assert Observed(start, plan[i]);
    forall k: nat ensures !WrittenBefore(plan, outcomes, i, name, k) && !VacatedBefore(plan, outcomes, i, name, k) {
      SourceIsNotVacated(plan, outcomes, i, k);
      if WrittenBefore(plan, outcomes, i, name, k) {
        assert Feeds(plan[k], plan[i]);
      }
    }
    UntouchedIsUnchanged(start, plan, outcomes, supplied, i, name);
  }

  function AllCommitted(plan: seq<Operation>): (outcomes: seq<Outcome>)
    ensures |outcomes| == |plan| && forall k :: 0 <= k < |outcomes| ==> outcomes[k] == Committed
  {
    seq(|plan|, _ => Committed)
  }

  function Another(content: Content): (other: Content)
    ensures other != content && other.Document?
  {
    if content == Document([]) then Document([0]) else Document([])
  }

  /** Every save writes a document other than the one at step i's source. */
  function Saving(start: Names, plan: seq<Operation>, i: nat): (supplied: seq<Content>)
    requires i < |plan|
    ensures |supplied| == |plan| && FilesSupplied(supplied)
    ensures plan[i].source.Some? && plan[i].source.value.location in start ==>
              forall k :: 0 <= k < |supplied| ==> supplied[k] == Another(start[plan[i].source.value.location])
  {
    var seen := if plan[i].source.Some? && plan[i].source.value.location in start
                then start[plan[i].source.value.location] else Folder;
    seq(|plan|, _ => Another(seen))
  }

  /** A step that creates a directory where there was nothing. */
  predicate MakesNew(step: Operation) {
    step.intent.kind.CreateDirectory? && step.destination.Some? && step.destination.value.value.None?
  }

  /** The run in which step k and the new directories are made and the kernel refuses everything else. */
  function OnlySaved(plan: seq<Operation>, k: nat): (outcomes: seq<Outcome>)
    ensures |outcomes| == |plan|
    ensures forall j: nat :: j < |plan| ==> outcomes[j] == if j == k || MakesNew(plan[j]) then Committed else Refused
  {
    seq(|plan|, j requires 0 <= j < |plan| => if j == k || MakesNew(plan[j]) then Committed else Refused)
  }

  /** All that a Store or a new directory waits for are new directories. */
  lemma OnlyParentsNeeded(start: Names, plan: seq<Operation>, j: nat, d: nat)
    requires EachNeeded(plan) && ObservedAll(start, plan) && j < |plan| && d in plan[j].dependencies
    requires plan[j].intent.kind.Store? || MakesNew(plan[j])
    ensures d < |plan| && MakesNew(plan[d])
  {
    assert Needed(plan, j, d);
    var want :| want in Wants(plan[j]) && Meets(plan[d], want);
    assert Observed(start, plan[j]) && Observed(start, plan[d]);
    assert want in MissingParents(plan[j].parents);
  }

  lemma OnlySavedIsHonest(start: Names, plan: seq<Operation>, k: nat)
    requires Planned(plan) && EachNeeded(plan) && ObservedAll(start, plan)
    requires k < |plan| && plan[k].intent.kind.Store?
    ensures Honest(plan, OnlySaved(plan, k))
  {
    var outcomes := OnlySaved(plan, k);
    forall j, d | 0 <= j < |plan| && Happened(outcomes[j]) && d in plan[j].dependencies
      ensures d < |plan| && outcomes[d].Committed?
    {
      OnlyParentsNeeded(start, plan, j, d);
    }
    forall j | 0 <= j < |plan| && Happened(outcomes[j]) ensures plan[j].source.None? {
      assert Observed(start, plan[j]);
    }
  }

  /** The Store saves something new, and the kernel refuses the step that was to read the name. */
  lemma StoreChangesSource(start: Names, plan: seq<Operation>, i: nat, k: nat)
    requires Planned(plan) && EachNeeded(plan) && ObservedAll(start, plan) && k < i < |plan| && FromNamespace(plan[i])
    requires plan[k].intent.kind.Store? && DestinationOf(plan[k]) == SourceOf(plan[i])
    ensures Honest(plan, OnlySaved(plan, k)) && OnlySaved(plan, k)[i] == Refused
    ensures !SourceUnchanged(start, plan, OnlySaved(plan, k), Saving(start, plan, i), i)
    ensures Holds(Before(start, plan, OnlySaved(plan, k), Saving(start, plan, i), i), plan[i].source.value.location)
         == Some(Saving(start, plan, i)[k])
  {
    var name := plan[i].source.value.location;
    var outcomes, supplied := OnlySaved(plan, k), Saving(start, plan, i);
    assert Observed(start, plan[i]);
    OnlySavedIsHonest(start, plan, k);
    forall v: nat ensures !VacatedBefore(plan, outcomes, i, name, v) {
      SourceIsNotVacated(plan, outcomes, i, v);
    }
    assert WrittenBefore(plan, outcomes, i, name, k);
    WrittenStays(start, plan, outcomes, supplied, i, name, k);
  }

  /** Before a step whose dependencies committed, every parent it listed is a directory. */
  lemma ParentsExist(start: Names, plan: seq<Operation>, outcomes: seq<Outcome>, supplied: seq<Content>, i: nat,
                     parent: Located)
    requires Planned(plan) && ObservedAll(start, plan)
    requires i < |plan| == |outcomes| == |supplied| && Unblocked(plan, outcomes, i)
    requires parent in plan[i].parents
    ensures Holds(Before(start, plan, outcomes, supplied, i), parent.location) == Some(Folder)
  {
    var name := parent.location;
    assert Observed(start, plan[i]);
    if parent.value.None? {
      assert Makes(name) in Wants(plan[i]);
      assert MetEarlier(plan, i, Makes(name));
      var d: nat :| d in plan[i].dependencies && d < i && Meets(plan[d], Makes(name));
      forall v: nat ensures !VacatedBefore(plan, outcomes, i, name, v) {
        if v < i { assert Observed(start, plan[v]); }
      }
      WrittenStays(start, plan, outcomes, supplied, i, name, d);
    } else {
      ExistingParentStays(start, plan, outcomes, supplied, i, parent);
    }
  }

  lemma ExistingParentStays(start: Names, plan: seq<Operation>, outcomes: seq<Outcome>, supplied: seq<Content>, i: nat,
                            parent: Located)
    requires Planned(plan) && ObservedAll(start, plan)
    requires i < |plan| == |outcomes| == |supplied|
    requires parent in plan[i].parents && parent.value.Some?
    ensures Holds(Before(start, plan, outcomes, supplied, i), parent.location) == Some(Folder)
  {
    var name := parent.location;
    assert Observed(start, plan[i]);
    forall v: nat ensures !VacatedBefore(plan, outcomes, i, name, v) && !WrittenBefore(plan, outcomes, i, name, v) {
      ParentIsLeftAlone(start, plan, i, parent, v);
    }
    UntouchedIsUnchanged(start, plan, outcomes, supplied, i, name);
  }

  /** No other step vacates or writes a directory that step i found above its own names. */
  lemma ParentIsLeftAlone(start: Names, plan: seq<Operation>, i: nat, parent: Located, v: nat)
    requires Planned(plan) && ObservedAll(start, plan) && i < |plan|
    requires parent in plan[i].parents && parent.value.Some?
    ensures v < i ==> !Meets(plan[v], Frees(parent.location)) && DestinationOf(plan[v]) != Some(parent.location)
  {
    if v < i {
      var name := parent.location;
      assert Observed(start, plan[i]) && Observed(start, plan[v]);
      if DestinationOf(plan[v]) == Some(name) {
        var d := FreedFirst(start, plan, v);
        assert Observed(start, plan[d]);
        SeparatePair(plan, i, d);
        assert false;
      }
      if Meets(plan[v], Frees(name)) {
        SeparatePair(plan, i, v);
        assert false;
      }
    }
  }

  /** Step i may run here: nothing at its destination, its parents in place, its source as prepared. */
  ghost predicate SafeHere(start: Names, here: Names, plan: seq<Operation>, i: nat)
    requires i < |plan|
  {
    var step := plan[i];
    && (step.destination.Some? && !step.intent.kind.Store? ==> step.destination.value.location !in here)
    && (forall parent :: parent in step.parents ==> Holds(here, parent.location) == Some(Folder))
    && (FromNamespace(step) && !FedByStore(plan, i) ==>
          step.source.value.location in start
          && Holds(here, step.source.value.location) == Some(start[step.source.value.location]))
  }

  /** Whatever the kernel refuses, loses or leaves unconfirmed, and whenever cancellation arrives,
      every step that is handed to the kernel finds the namespace its preparation relied on. */
  lemma HandedStepsAreSafe(start: Names, plan: seq<Operation>, supplied: seq<Content>, namespace: nat,
                           kernel: seq<Outcome>, cancelled: seq<bool>, receipts: seq<Receipt>)
    requires Planned(plan) && ObservedAll(start, plan) && |supplied| == |plan|
    requires ProducedBy(plan, namespace, kernel, cancelled, receipts)
    ensures forall i :: 0 <= i < |plan| && Handed(plan, namespace, cancelled, receipts, i) ==>
              SafeHere(start, Before(start, plan, Outcomes(receipts), supplied, i), plan, i)
  {
    var outcomes := Outcomes(receipts);
    ExecutedIsPossible(plan, namespace, kernel, cancelled, receipts);
    forall i | 0 <= i < |plan| && Handed(plan, namespace, cancelled, receipts, i)
      ensures SafeHere(start, Before(start, plan, outcomes, supplied, i), plan, i)
    {
      if plan[i].destination.Some? && !plan[i].intent.kind.Store? {
        DestinationIsVacant(start, plan, outcomes, supplied, i);
      }
      forall parent | parent in plan[i].parents
        ensures Holds(Before(start, plan, outcomes, supplied, i), parent.location) == Some(Folder)
      {
        ParentsExist(start, plan, outcomes, supplied, i, parent);
      }
      if FromNamespace(plan[i]) && !FedByStore(plan, i) {
        UnfedSourceIsUnchanged(start, plan, outcomes, supplied, i);
      }
    }
  }

  // ---------------------------------------------------------------- simultaneous substitution

  /** What a step contributes when everything it reads is the namespace at the start. */
  function Target(start: Names, step: Operation, supplied: Content): Content {
    Produced(start, step, supplied)
  }

  /** Each name after the run, by the steps that took effect: what its one writer was to produce
      from the start; else nothing if vacated; else what it held. */
  ghost predicate Substituted(start: Names, plan: seq<Operation>, outcomes: seq<Outcome>, supplied: seq<Content>,
                              end: Names)
    requires |plan| == |outcomes| == |supplied|
  {
    forall name: Location ::
      && (forall k: nat :: WrittenBefore(plan, outcomes, |plan|, name, k) ==>
            Holds(end, name) == Some(Target(start, plan[k], supplied[k])))
      && ((forall k: nat :: !WrittenBefore(plan, outcomes, |plan|, name, k)) ==>
            if exists k: nat :: VacatedBefore(plan, outcomes, |plan|, name, k) then name !in end
            else Holds(end, name) == Holds(start, name))
  }

  /** In every run of every plan the steps that took effect act as one simultaneous substitution on the
      names of the start. */
  lemma RunSubstitutes(start: Names, plan: seq<Operation>, outcomes: seq<Outcome>, supplied: seq<Content>)
    requires Planned(plan) && ObservedAll(start, plan)
    requires |plan| == |outcomes| == |supplied| && Honest(plan, outcomes)
    ensures Substituted(start, plan, outcomes, supplied, Before(start, plan, outcomes, supplied, |plan|))
  {
    var n := |plan|;
    var end := Before(start, plan, outcomes, supplied, n);
    forall name: Location
      ensures forall k: nat :: WrittenBefore(plan, outcomes, n, name, k) ==>
                Holds(end, name) == Some(Target(start, plan[k], supplied[k]))
      ensures (forall k: nat :: !WrittenBefore(plan, outcomes, n, name, k)) ==>
                if exists k: nat :: VacatedBefore(plan, outcomes, n, name, k) then name !in end
                else Holds(end, name) == Holds(start, name)
    {
      UntouchedIsUnchanged(start, plan, outcomes, supplied, n, name);
      forall k: nat | WrittenBefore(plan, outcomes, n, name, k)
        ensures Holds(end, name) == Some(Target(start, plan[k], supplied[k]))
      {
        WrittenHoldsTarget(start, plan, outcomes, supplied, name, k);
      }
    }
  }

  /** At the end of a run a written name holds what its writer was to produce from the start. */
  lemma WrittenHoldsTarget(start: Names, plan: seq<Operation>, outcomes: seq<Outcome>, supplied: seq<Content>,
                           name: Location, k: nat)
    requires Planned(plan) && ObservedAll(start, plan)
    requires |plan| == |outcomes| == |supplied| && Honest(plan, outcomes)
    requires WrittenBefore(plan, outcomes, |plan|, name, k)
    ensures Holds(Before(start, plan, outcomes, supplied, |plan|), name) == Some(Target(start, plan[k], supplied[k]))
  {
    WriterIsLast(start, plan, outcomes, supplied, name, k);
    WrittenStays(start, plan, outcomes, supplied, |plan|, name, k);
    ProducesTarget(start, plan, outcomes, supplied, k);
  }

  /** Whoever vacates a written name did so before it was written. */
  lemma WriterIsLast(start: Names, plan: seq<Operation>, outcomes: seq<Outcome>, supplied: seq<Content>,
                     name: Location, k: nat)
    requires Planned(plan) && ObservedAll(start, plan)
    requires |plan| == |outcomes| == |supplied| && Honest(plan, outcomes)
    requires WrittenBefore(plan, outcomes, |plan|, name, k)
    ensures KeptSince(plan, outcomes, |plan|, name, k)
  {
    forall v: nat | k <= v ensures !VacatedBefore(plan, outcomes, |plan|, name, v) {
      if v == k {
        assert Observed(start, plan[k]);
      } else if v < |plan| && Happened(outcomes[v]) {
        assert !Feeds(plan[k], plan[v]);
      }
    }
  }

  lemma ProducesTarget(start: Names, plan: seq<Operation>, outcomes: seq<Outcome>, supplied: seq<Content>, k: nat)
    requires Planned(plan) && ObservedAll(start, plan)
    requires k < |plan| == |outcomes| == |supplied| && Rechecked(plan, outcomes) && Happened(outcomes[k])
    ensures Produced(Before(start, plan, outcomes, supplied, k), plan[k], supplied[k])
              == Target(start, plan[k], supplied[k])
  {
    assert Observed(start, plan[k]);
    if FromNamespace(plan[k]) {
      ActingStepReadsStart(start, plan, outcomes, supplied, k);
    }
  }

  ghost predicate NeverNamed(plan: seq<Operation>, name: Location) {
    forall k :: 0 <= k < |plan| ==> DestinationOf(plan[k]) != Some(name) && !Meets(plan[k], Frees(name))
  }

  ghost predicate GivenAway(plan: seq<Operation>, k: nat)
    requires k < |plan|
  {
    Vacates(plan[k]) && forall j :: 0 <= j < |plan| ==> DestinationOf(plan[j]) != SourceOf(plan[k])
  }

  predicate ReadsSource(step: Operation) {
    step.intent.kind in {Rename, Restore, Copy} && !step.intent.fromBuffer && step.source.Some?
      && step.destination.Some?
  }

  ghost predicate Simultaneous(start: Names, plan: seq<Operation>, supplied: seq<Content>, end: Names)
    requires |plan| == |supplied|
  {
    && (forall k :: 0 <= k < |plan| && plan[k].destination.Some? ==>
          Holds(end, plan[k].destination.value.location) == Some(Target(start, plan[k], supplied[k])))
    && (forall k :: 0 <= k < |plan| && ReadsSource(plan[k]) ==>
          Holds(end, plan[k].destination.value.location) == Holds(start, plan[k].source.value.location))
    && (forall k :: 0 <= k < |plan| && GivenAway(plan, k) ==>
          plan[k].source.Some? && plan[k].source.value.location !in end)
    && (forall name: Location :: NeverNamed(plan, name) ==> Holds(end, name) == Holds(start, name))
  }

  /** Only a plan in which no Store feeds a later step can commit as a whole. Then, for every content saved,
      each destination holds what its source held at the start, each vacated name not written again is free,
      and every other name is as it was. */
  lemma CommittedRunIsSimultaneous(start: Names, plan: seq<Operation>, supplied: seq<Content>)
    requires Planned(plan) && ObservedAll(start, plan) && |plan| == |supplied|
    requires Honest(plan, AllCommitted(plan))
    ensures forall i :: 0 <= i < |plan| ==> !FedByStore(plan, i)
    ensures Simultaneous(start, plan, supplied, Before(start, plan, AllCommitted(plan), supplied, |plan|))
  {
    NothingFed(plan);
    hide Before, Produced, Vacates, Planned;
    var n, outcomes := |plan|, AllCommitted(plan);
    var end := Before(start, plan, outcomes, supplied, n);
    forall k | 0 <= k < n && plan[k].destination.Some?
      ensures Holds(end, plan[k].destination.value.location) == Some(Target(start, plan[k], supplied[k]))
    {
      WrittenHoldsTarget(start, plan, outcomes, supplied, plan[k].destination.value.location, k);
    }
    forall k | 0 <= k < n && GivenAway(plan, k)
      ensures plan[k].source.Some? && plan[k].source.value.location !in end
    {
      GivenAwayIsGone(start, plan, outcomes, supplied, k);
    }
    forall k | 0 <= k < n && ReadsSource(plan[k])
      ensures Some(Target(start, plan[k], supplied[k])) == Holds(start, plan[k].source.value.location)
    {
      TargetIsSource(start, plan, supplied, k);
    }
    forall name: Location | NeverNamed(plan, name) ensures Holds(end, name) == Holds(start, name) {
      UntouchedIsUnchanged(start, plan, outcomes, supplied, n, name);
    }
  }

  lemma NothingFed(plan: seq<Operation>)
    requires Rechecked(plan, AllCommitted(plan))
    ensures forall i :: 0 <= i < |plan| ==> !FedByStore(plan, i)
  {
    forall k, i | 0 <= k < i < |plan| ensures !Feeds(plan[k], plan[i]) {
    }
  }

  lemma TargetIsSource(start: Names, plan: seq<Operation>, supplied: seq<Content>, k: nat)
    requires ObservedAll(start, plan) && k < |plan| == |supplied| && ReadsSource(plan[k])
    ensures Some(Target(start, plan[k], supplied[k])) == Holds(start, plan[k].source.value.location)
  {
    assert Observed(start, plan[k]);
  }

  lemma GivenAwayIsGone(start: Names, plan: seq<Operation>, outcomes: seq<Outcome>, supplied: seq<Content>, k: nat)
    requires ObservedAll(start, plan) && |plan| == |outcomes| == |supplied|
    requires k < |plan| && outcomes[k].Committed? && GivenAway(plan, k)
    ensures plan[k].source.Some? && plan[k].source.value.location !in Before(start, plan, outcomes, supplied, |plan|)
  {
    assert Observed(start, plan[k]);
    var name := plan[k].source.value.location;
    assert VacatedBefore(plan, outcomes, |plan|, name, k);
    UntouchedIsUnchanged(start, plan, outcomes, supplied, |plan|, name);
  }

  // ---------------------------------------------------------------- a save before a rename

  /** Save over `a`, then rename `a` to `b`: a plan the planner accepts. */
  function SaveThenRename(): (plan: seq<Operation>)
    ensures |plan| == 2
  {
    var root := Located(Location(0, []), Some(Directory));
    var a, b := Located(Location(0, ["a"]), Some(File)), Located(Location(0, ["b"]), None);
    [Operation(Intent(Store, None, Some(a.location), false), None, Some(a), [root], []),
     Operation(Intent(Rename, Some(a.location), Some(b.location), false), Some(a), Some(b), [root], [])]
  }

  function SaveStart(first: Bytes): Names {
    map[Location(0, []) := Folder, Location(0, ["a"]) := Document(first)]
  }

  lemma SaveThenRenameIsPlanned()
    ensures Planned(SaveThenRename()) && FedByStore(SaveThenRename(), 1)
  {
    var plan := SaveThenRename();
    assert MissingParents(plan[0].parents[1..]) == [] && MissingParents(plan[0].parents) == [];
    assert Wants(plan[0]) == [] && Wants(plan[1]) == [];
    hide Wants, MissingParents;
    assert ["a"][0] == "a" && ["b"][0] == "b";
    assert Compatible(plan[1], plan[0]);
    hide Compatible;
    assert plan[0].intent.kind.Store? && DestinationOf(plan[0]) == SourceOf(plan[1]);
  }

  lemma SaveThenRenameIsObserved(first: Bytes)
    ensures ObservedAll(SaveStart(first), SaveThenRename())
  {
    var plan, start := SaveThenRename(), SaveStart(first);
    assert ["a"][0] == "a" && ["b"][0] == "b" && [] < ["a"] && [] < ["b"];
    assert Observed(start, plan[0]);
    assert Observed(start, plan[1]);
    hide Observed;
  }

  /** Whatever takes effect, the saved content is never moved: once `a` is saved the rename is refused. */
  lemma SaveThenRenameKeepsSaved(first: Bytes, saved: Bytes, outcomes: seq<Outcome>)
    requires |outcomes| == 2 && Honest(SaveThenRename(), outcomes)
    ensures var plan, start := SaveThenRename(), SaveStart(first);
            var end := Before(start, plan, outcomes, [Document(saved), Document([])], 2);
            && Planned(plan) && ObservedAll(start, plan) && FedByStore(plan, 1)
            && Holds(end, Location(0, ["a"])) == (if Happened(outcomes[0]) then Some(Document(saved))
                                                  else if Happened(outcomes[1]) then None
                                                  else Some(Document(first)))
            && Holds(end, Location(0, ["b"])) == (if Happened(outcomes[1]) then Some(Document(first)) else None)
  {
    hide Planned, ObservedAll, FedByStore;
    SaveThenRenameIsPlanned();
    SaveThenRenameIsObserved(first);
    var plan, start := SaveThenRename(), SaveStart(first);
    var supplied := [Document(saved), Document([])];
    assert !(Happened(outcomes[0]) && Happened(outcomes[1])) by { assert Feeds(plan[0], plan[1]); }
    assert ["a"][0] == "a" && ["b"][0] == "b";
    var saving := Before(start, plan, outcomes, supplied, 1);
    assert Before(start, plan, outcomes, supplied, 0) == start;
    assert saving == if Happened(outcomes[0]) then Effect(start, plan[0], supplied[0]) else start;
    assert Before(start, plan, outcomes, supplied, 2)
        == if Happened(outcomes[1]) then Effect(saving, plan[1], supplied[1]) else saving;
  }
}
