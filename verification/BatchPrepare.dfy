/** Preparing a batch for review. */
module BatchPrepare {
  import opened Wrappers
  import opened Permutations
  import opened BatchPlan
  import BatchRun

  // Every intent is prepared or refused, missing parents become visible steps of their own, and the
  // result is ordered.

  const STEP_LIMIT: nat := 512
  const PARENT_LIMIT: nat := 128

  /** The kernel's preparation of one intent, with or without leave to find the destination occupied. */
  type Kernel = (Intent, bool) -> Result<Operation, Refusal>

  datatype Refused = Refused(intent: Intent, refusal: Refusal)

  datatype Batch = Batch(steps: seq<Operation>, refused: seq<Refused>)

  /** A kernel prepares the intent it was given, for the destination it was asked for, and words
      its own refusals. */
  ghost predicate Faithful(kernel: Kernel) {
    forall intent, occupied ::
      match kernel(intent, occupied)
      case Success(step) => step.intent == intent && DestinationOf(step) == intent.destination
      case Failure(refusal) => refusal.KernelRefused?
  }

  /** The step is the kernel's answer to its intent, but for the dependencies added by ordering. */
  ghost predicate PreparedBy(kernel: Kernel, step: Operation) {
    exists occupied :: kernel(step.intent, occupied).Success?
                       && step == kernel(step.intent, occupied).value.(dependencies := step.dependencies)
  }

  ghost predicate AllPrepared(kernel: Kernel, steps: seq<Operation>) {
    forall k :: 0 <= k < |steps| ==> PreparedBy(kernel, steps[k])
  }

  /** A kernel that looks at this namespace while it prepares. */
  ghost predicate Observing(kernel: Kernel, start: BatchRun.Names) {
    forall intent, occupied ::
      match kernel(intent, occupied)
      case Success(step) => BatchRun.Observed(start, step)
      case Failure(_) => true
  }

  /** Steps prepared by such a kernel, in whatever order they were put, were all observed there. */
  lemma PreparedIsObserved(kernel: Kernel, start: BatchRun.Names, steps: seq<Operation>)
    requires Observing(kernel, start) && AllPrepared(kernel, steps)
    ensures BatchRun.ObservedAll(start, steps)
  {
    forall k | 0 <= k < |steps| ensures BatchRun.Observed(start, steps[k]) {
      assert PreparedBy(kernel, steps[k]);
      var occupied :| kernel(steps[k].intent, occupied).Success?
                      && steps[k] == kernel(steps[k].intent, occupied).value.(dependencies := steps[k].dependencies);
      assert BatchRun.Observed(start, kernel(steps[k].intent, occupied).value);
    }
  }

  /** Preparing, ordering and running a batch against one namespace, whatever the kernel answers while it
      runs: every step handed over finds its destination vacant, its parents in place and, if no Store feeds
      it, its source as it was prepared; and the steps that take effect act as one substitution. */
  lemma PreparedBatchRunsSafely(kernel: Kernel, start: BatchRun.Names, batch: Batch, supplied: seq<BatchRun.Content>,
                                namespace: nat, outcomes: seq<BatchRun.Outcome>, cancelled: seq<bool>,
                                receipts: seq<BatchRun.Receipt>)
    requires Observing(kernel, start) && AllPrepared(kernel, batch.steps) && Planned(batch.steps)
    requires |supplied| == |batch.steps|
    requires BatchRun.ProducedBy(batch.steps, namespace, outcomes, cancelled, receipts)
    ensures forall i :: 0 <= i < |batch.steps| && BatchRun.Handed(batch.steps, namespace, cancelled, receipts, i) ==>
              BatchRun.SafeHere(start, BatchRun.Before(start, batch.steps, BatchRun.Outcomes(receipts), supplied, i),
                                batch.steps, i)
    ensures BatchRun.Rechecked(batch.steps, BatchRun.Outcomes(receipts)) ==>
              BatchRun.Substituted(start, batch.steps, BatchRun.Outcomes(receipts), supplied,
                                   BatchRun.Before(start, batch.steps, BatchRun.Outcomes(receipts), supplied,
                                                   |batch.steps|))
  {
    PreparedIsObserved(kernel, start, batch.steps);
    BatchRun.HandedStepsAreSafe(start, batch.steps, supplied, namespace, outcomes, cancelled, receipts);
    BatchRun.ExecutedIsPossible(batch.steps, namespace, outcomes, cancelled, receipts);
    if BatchRun.Rechecked(batch.steps, BatchRun.Outcomes(receipts)) {
      BatchRun.RunSubstitutes(start, batch.steps, BatchRun.Outcomes(receipts), supplied);
    }
  }

  predicate SameNamespace(intent: Intent, filesystem: nat) {
    (intent.source.Some? ==> intent.source.value.filesystem == filesystem)
    && (intent.destination.Some? ==> intent.destination.value.filesystem == filesystem)
  }

  function PrepareOne(kernel: Kernel, namespace: nat, intent: Intent, occupied: bool): Result<Operation, Refusal> {
    match intent.Location()
    case None => Failure(NoResource)
    case Some(location) =>
      if !SameNamespace(intent, location.filesystem) then Failure(CrossNamespace)
      else if location.filesystem != namespace then Failure(ForeignNamespace)
      else kernel(intent, occupied)
  }

  /** An intent reaches the kernel exactly when it names something, and everything it names is in the one namespace
      that the kernel serves. */
  lemma PrepareOneMeans(kernel: Kernel, namespace: nat, intent: Intent, occupied: bool)
    ensures var named := (if intent.source.Some? then {intent.source.value} else {})
                         + if intent.destination.Some? then {intent.destination.value} else {};
            PrepareOne(kernel, namespace, intent, occupied)
            == if named == {} then Failure(NoResource)
               else if exists a, b :: a in named && b in named && a.filesystem != b.filesystem
                 then Failure(CrossNamespace)
               else if exists a :: a in named && a.filesystem != namespace then Failure(ForeignNamespace)
               else kernel(intent, occupied)
  {
  }

  function Intents(steps: seq<Operation>): (out: seq<Intent>)
    ensures |out| == |steps|
    ensures forall k :: 0 <= k < |steps| ==> out[k] == steps[k].intent
  {
    seq(|steps|, k requires 0 <= k < |steps| => steps[k].intent)
  }

  function RefusedIntents(refused: seq<Refused>): (out: seq<Intent>)
    ensures |out| == |refused|
    ensures forall k :: 0 <= k < |refused| ==> out[k] == refused[k].intent
  {
    seq(|refused|, k requires 0 <= k < |refused| => refused[k].intent)
  }

  ghost function Accounted(batch: Batch): multiset<Intent> {
    multiset(Intents(batch.steps)) + multiset(RefusedIntents(batch.refused))
  }

  /** Refusing the whole batch moves every step, in order, to the refusals. */
  function RefuseAll(batch: Batch, refusal: Refusal): (out: Batch)
    ensures out.steps == [] && batch.refused <= out.refused
    ensures |out.refused| == |batch.refused| + |batch.steps|
    ensures forall k :: 0 <= k < |batch.steps| ==>
              out.refused[|batch.refused| + k] == Refused(batch.steps[k].intent, refusal)
    ensures Accounted(out) == Accounted(batch)
  {
    var moved := seq(|batch.steps|, k requires 0 <= k < |batch.steps| => Refused(batch.steps[k].intent, refusal));
    var out := Batch([], batch.refused + moved);
    assert RefusedIntents(out.refused) == RefusedIntents(batch.refused) + Intents(batch.steps);
    assert Intents([]) == [];
    out
  }

  ghost predicate ParentIsMade(steps: seq<Operation>, i: nat)
    requires i < |steps|
  {
    forall want :: want in MissingParents(steps[i].parents) ==> Met(steps, want)
  }

  function MakeParent(parent: Location): Intent {
    Intent(CreateDirectory, None, Some(parent), false)
  }

  /** Parents made visible as steps: each creation intended for a name no earlier step creates. */
  ghost predicate Generated(made: seq<Intent>) {
    && (forall k :: 0 <= k < |made| ==> made[k].destination.Some? && made[k] == MakeParent(made[k].destination.value))
    && forall j, k :: 0 <= j < k < |made| ==> made[j] != made[k]
  }

  /** What preparing went through: the intents sifted, the steps with the parents generated for them, and the
      edges and order found among those. */
  datatype Trace = Trace(sifted: Batch, kept: seq<nat>, turned: seq<nat>, grown: seq<Operation>, made: seq<Intent>,
                         edges: seq<seq<nat>>, order: seq<nat>)

  /** Why a whole batch is refused: a missing parent cannot be given a step, or the steps with all their parents
      clash, leave a want unmet or wait for each other in a circle. */
  ghost predicate WhyRefused(kernel: Kernel, namespace: nat, grown: seq<Operation>, edges: seq<seq<nat>>,
                             why: Refusal) {
    || Halted(kernel, namespace, grown, why)
    || ((forall i :: 0 <= i < |grown| ==> ParentIsMade(grown, i))
        && match why
           case DestinationOwnedTwice | SourceOwnedTwice | ParentChildOverlap => ClashNamed(grown, why)
           case DestinationNotVacated => Separate(grown) && NamesUnmet(grown, DestinationNotVacated)
           case CyclicGraph => Separate(grown) && AllMet(grown) && EdgesOfAll(grown, edges) && Cyclic(edges)
           case _ => false)
  }

  ghost predicate EdgesOfAll(steps: seq<Operation>, edges: seq<seq<nat>>) {
    |edges| == |steps| && forall i :: 0 <= i < |steps| ==> EdgesMeet(steps, Wants(steps[i]), edges[i])
  }

  /** The steps with all their parents, in the one order the edges allow first, nothing refused that was kept. */
  ghost predicate Ordered(trace: Trace, batch: Batch) {
    && (forall i :: 0 <= i < |trace.grown| ==> ParentIsMade(trace.grown, i))
    && Separate(trace.grown) && AllMet(trace.grown) && EdgesOfAll(trace.grown, trace.edges) && !Cyclic(trace.edges)
    && Reordered(trace.grown, trace.edges, trace.order, batch.steps) && Earliest(trace.edges, trace.order)
    && batch.refused == trace.sifted.refused
  }

  /** The refusals are those of the intents that cannot be prepared; beyond that the batch is ordered as a whole
      or, for a reason, refused as a whole. */
  ghost predicate Concluded(kernel: Kernel, namespace: nat, intents: seq<Intent>, trace: Trace, batch: Batch) {
    && Sifted(kernel, namespace, intents, trace.sifted, trace.kept, trace.turned)
    && Grown(kernel, namespace, trace.sifted.steps, trace.grown, trace.made)
    && (Ordered(trace, batch)
        || exists why :: WhyRefused(kernel, namespace, trace.grown, trace.edges, why)
                         && batch == RefuseAll(trace.sifted.(steps := trace.grown), why))
  }

  /** The two ends exclude each other: a batch with a reason to be refused is not ordered. */
  lemma RefusedIsNotOrdered(kernel: Kernel, namespace: nat, trace: Trace, batch: Batch, edges: seq<seq<nat>>,
                            why: Refusal)
    requires Ordered(trace, batch)
    ensures !WhyRefused(kernel, namespace, trace.grown, edges, why)
  {
    ClashIsNotSeparate(trace.grown, why);
    hide Cyclic, Reordered, Earliest, Separate, PrepareOne, ClashNamed, ParentIsMade, Halted;
    MadeIsNotHalted(kernel, namespace, trace.grown, why);
    if why.CyclicGraph? && EdgesOfAll(trace.grown, edges) {
      EdgesAreUnique(trace.grown, edges, trace.edges);
    }
  }

  lemma ClashIsNotSeparate(steps: seq<Operation>, why: Refusal)
    requires Separate(steps)
    ensures !ClashNamed(steps, why)
    ensures AllMet(steps) ==> !NamesUnmet(steps, why)
  {
    hide Wants;
    forall i, j | 0 <= j < i < |steps| ensures Compatible(steps[i], steps[j]) {
    }
  }

  lemma MadeIsNotHalted(kernel: Kernel, namespace: nat, steps: seq<Operation>, why: Refusal)
    requires forall i :: 0 <= i < |steps| ==> ParentIsMade(steps, i)
    ensures !Halted(kernel, namespace, steps, why)
  {
    hide PrepareOne;
    forall i, w | 0 <= i < |steps| && 0 <= w < |MissingParents(steps[i].parents)| ensures !UnmetAt(steps, i, w) {
      assert ParentIsMade(steps, i) && MissingParents(steps[i].parents)[w] in MissingParents(steps[i].parents);
    }
  }

  lemma EdgesAreUnique(steps: seq<Operation>, edges: seq<seq<nat>>, others: seq<seq<nat>>)
    requires EdgesOfAll(steps, edges) && EdgesOfAll(steps, others)
    ensures edges == others
  {
    hide Wants, Position;
    forall i | 0 <= i < |steps| ensures edges[i] == others[i] {
      assert EdgesMeet(steps, Wants(steps[i]), edges[i]) && EdgesMeet(steps, Wants(steps[i]), others[i]);
      assert forall e :: 0 <= e < |edges[i]| ==> Some(edges[i][e]) == Some(others[i][e]);
    }
  }

  /** Prepare a batch. Too many intents is an error; otherwise every intent and every generated
      parent creation is accounted for exactly once, as a step or as a refusal, and the surviving
      steps, if any, are a plan whose missing parents all have their own creation step. */
  method Prepare(kernel: Kernel, namespace: nat, intents: seq<Intent>)
    returns (result: Result<Batch, Refusal>, ghost trace: Trace)
    requires Faithful(kernel)
    ensures result.Failure? <==> |intents| > STEP_LIMIT
    ensures result.Failure? ==> result.error == BatchTooLong
    ensures result.Success? ==>
              Generated(trace.made) && Accounted(result.value) == multiset(intents) + multiset(trace.made)
              && |result.value.steps| <= STEP_LIMIT && Planned(result.value.steps)
              && EachNeeded(result.value.steps)
    ensures result.Success? ==> Worded(result.value.refused) && AllPrepared(kernel, result.value.steps)
    ensures result.Success? ==> Concluded(kernel, namespace, intents, trace, result.value)
  {
    if |intents| > STEP_LIMIT {
      return Failure(BatchTooLong), Trace(Batch([], []), [], [], [], [], [], []);
    }
    hide Faithful, PreparedBy, Generated, Planned, EachNeeded, Requested, Worded, AllPrepared, ParentIsMade, Sifted,
      Grown, Halted, WhyRefused, Ordered, Accounted;
    var sifted;
    ghost var kept, turned;
    sifted, kept, turned := PrepareIntents(kernel, namespace, intents);
    var closed, batch;
    ghost var grown, made, why;
    closed, batch, grown, made, why := CloseParents(kernel, namespace, sifted);
    trace := Trace(sifted, kept, turned, grown, made, [], []);
    if !closed {
      HaltedIsWhy(kernel, namespace, grown, why);
      NothingPlanned();
      return Success(batch), trace;
    }
    var arranged;
    arranged, trace := Arrange(kernel, namespace, batch, trace);
    result := Success(arranged);
  }

  lemma NothingPlanned()
    ensures Planned([]) && EachNeeded([])
  {
  }

  /** Order the steps with all their parents, or refuse them all. */
  method Arrange(kernel: Kernel, namespace: nat, batch: Batch, ghost begun: Trace)
    returns (result: Batch, ghost trace: Trace)
    requires batch == begun.sifted.(steps := begun.grown) && |batch.steps| <= STEP_LIMIT
    requires forall i :: 0 <= i < |batch.steps| ==> ParentIsMade(batch.steps, i)
    requires Worded(batch.refused) && AllPrepared(kernel, batch.steps)
    ensures trace == begun.(edges := trace.edges, order := trace.order)
    ensures Ordered(trace, result)
            || exists why :: WhyRefused(kernel, namespace, trace.grown, trace.edges, why)
                             && result == RefuseAll(trace.sifted.(steps := trace.grown), why)
    ensures Accounted(result) == Accounted(batch) && |result.steps| <= STEP_LIMIT
    ensures Planned(result.steps) && EachNeeded(result.steps)
    ensures Worded(result.refused) && AllPrepared(kernel, result.steps)
  {
    hide PreparedBy, Planned, EachNeeded, Worded, AllPrepared, NamesUnmet, ParentIsMade, WhyRefused, Ordered;
    var ordered, edges, order := Dependencies(batch.steps);
    trace := begun.(edges := edges, order := order);
    ParentsAreMade(batch.steps);
    match ordered
    case Failure(refusal) =>
      RefuseAllWords(kernel, batch, refusal);
      OrderingIsWhy(kernel, namespace, trace.grown, edges, refusal);
      result := RefuseAll(batch, refusal);
    case Success(plan) =>
      ReorderedIsPlanned(batch.steps, edges, order, plan);
      ReorderedIntents(batch.steps, edges, order, plan);
      ReorderedPrepared(kernel, batch.steps, edges, order, plan);
      result := batch.(steps := plan);
      IsOrdered(trace, result);
  }

  lemma HaltedIsWhy(kernel: Kernel, namespace: nat, grown: seq<Operation>, why: Refusal)
    requires Halted(kernel, namespace, grown, why)
    ensures WhyRefused(kernel, namespace, grown, [], why)
  {
    hide Halted;
  }

  lemma OrderingIsWhy(kernel: Kernel, namespace: nat, grown: seq<Operation>, edges: seq<seq<nat>>, why: Refusal)
    requires forall i :: 0 <= i < |grown| ==> ParentIsMade(grown, i)
    requires match why
             case DestinationOwnedTwice | SourceOwnedTwice | ParentChildOverlap => ClashNamed(grown, why)
             case DestinationNotVacated => Separate(grown) && NamesUnmet(grown, DestinationNotVacated)
             case CyclicGraph => Separate(grown) && AllMet(grown) && EdgesOfAll(grown, edges) && Cyclic(edges)
             case _ => false
    ensures WhyRefused(kernel, namespace, grown, edges, why)
  {
    hide Halted, ParentIsMade, Separate, ClashNamed, NamesUnmet, AllMet, EdgesOfAll, Cyclic;
  }

  lemma IsOrdered(trace: Trace, batch: Batch)
    requires forall i :: 0 <= i < |trace.grown| ==> ParentIsMade(trace.grown, i)
    requires Separate(trace.grown) && AllMet(trace.grown) && EdgesOfAll(trace.grown, trace.edges)
    requires !Cyclic(trace.edges) && batch.refused == trace.sifted.refused
    requires Reordered(trace.grown, trace.edges, trace.order, batch.steps) && Earliest(trace.edges, trace.order)
    ensures Ordered(trace, batch)
  {
    hide ParentIsMade, Separate, AllMet, EdgesOfAll, Cyclic, Reordered, Earliest;
  }

  /** Two refusals are unreachable: closing the parents leaves none without a creation step, and
      the order never names a step twice. */
  predicate Worded(refused: seq<Refused>) {
    forall k :: 0 <= k < |refused| ==> refused[k].refusal !in {ParentNotCreated, DuplicateOrderEntry}
  }

  lemma AddStepAccounts(batch: Batch, step: Operation)
    ensures Accounted(batch.(steps := batch.steps + [step])) == Accounted(batch) + multiset{step.intent}
  {
    assert Intents(batch.steps + [step]) == Intents(batch.steps) + [step.intent];
  }

  lemma AddRefusalAccounts(batch: Batch, refused: Refused)
    ensures Accounted(batch.(refused := batch.refused + [refused])) == Accounted(batch) + multiset{refused.intent}
  {
    assert RefusedIntents(batch.refused + [refused]) == RefusedIntents(batch.refused) + [refused.intent];
  }

  lemma ParentsAreMade(steps: seq<Operation>)
    requires forall i :: 0 <= i < |steps| ==> ParentIsMade(steps, i)
    ensures !NamesUnmet(steps, ParentNotCreated)
  {
    forall i, want | 0 <= i < |steps| && want in Wants(steps[i]) && want.Makes?
      ensures Met(steps, want)
    {
      assert ParentIsMade(steps, i);
    }
  }

  lemma RefuseAllWords(kernel: Kernel, batch: Batch, refusal: Refusal)
    requires Worded(batch.refused) && refusal !in {ParentNotCreated, DuplicateOrderEntry}
    ensures Worded(RefuseAll(batch, refusal).refused)
    ensures AllPrepared(kernel, RefuseAll(batch, refusal).steps) && Planned(RefuseAll(batch, refusal).steps)
    ensures EachNeeded(RefuseAll(batch, refusal).steps)
  {
  }

  lemma NothingPrepared(kernel: Kernel)
    ensures Worded([]) && Requested([]) && AllPrepared(kernel, [])
  {
  }

  lemma AddStepPrepares(kernel: Kernel, steps: seq<Operation>, step: Operation)
    requires Requested(steps) && AllPrepared(kernel, steps)
    requires DestinationOf(step) == step.intent.destination && PreparedBy(kernel, step)
    ensures Requested(steps + [step]) && AllPrepared(kernel, steps + [step])
  {
    hide PreparedBy;
  }

  lemma AddRefusalWords(refused: seq<Refused>, more: Refused)
    requires Worded(refused) && more.refusal !in {ParentNotCreated, DuplicateOrderEntry}
    ensures Worded(refused + [more])
  {
  }

  lemma PreparedFaithfully(kernel: Kernel, namespace: nat, intent: Intent, occupied: bool)
    requires Faithful(kernel)
    ensures match PrepareOne(kernel, namespace, intent, occupied)
            case Success(step) => step.intent == intent && DestinationOf(step) == intent.destination
              && PreparedBy(kernel, step)
            case Failure(refusal) => refusal !in {ParentNotCreated, DuplicateOrderEntry}
  {
    var answer := kernel(intent, occupied);
  }

  ghost predicate Requested(steps: seq<Operation>) {
    forall k :: 0 <= k < |steps| ==> DestinationOf(steps[k]) == steps[k].intent.destination
  }

  // ---------------------------------------------------------------- which intents become steps

  ghost predicate Increasing(places: seq<nat>) {
    forall a, b :: 0 <= a < b < |places| ==> places[a] < places[b]
  }

  /** The steps are the answers to the intents at `kept`, the refusals those to the intents at `turned`, in the
      order of submission; an intent is kept exactly when it can be prepared. */
  ghost predicate Sifted(kernel: Kernel, namespace: nat, intents: seq<Intent>, batch: Batch, kept: seq<nat>,
                         turned: seq<nat>) {
    && Increasing(kept) && Increasing(turned) && |kept| == |batch.steps| && |turned| == |batch.refused|
    && (forall i: nat :: i in kept <==> i < |intents| && PrepareOne(kernel, namespace, intents[i], true).Success?)
    && (forall i: nat :: i in turned <==> i < |intents| && PrepareOne(kernel, namespace, intents[i], true).Failure?)
    && (forall k :: 0 <= k < |kept| ==>
          kept[k] < |intents| && PrepareOne(kernel, namespace, intents[kept[k]], true) == Success(batch.steps[k]))
    && forall k :: 0 <= k < |turned| ==>
         turned[k] < |intents| && batch.refused[k].intent == intents[turned[k]]
         && PrepareOne(kernel, namespace, intents[turned[k]], true) == Failure(batch.refused[k].refusal)
  }

  method PrepareIntents(kernel: Kernel, namespace: nat, intents: seq<Intent>)
    returns (batch: Batch, ghost kept: seq<nat>, ghost turned: seq<nat>)
    requires Faithful(kernel)
    ensures Accounted(batch) == multiset(intents) && |batch.steps| <= |intents|
    ensures Worded(batch.refused) && Requested(batch.steps) && AllPrepared(kernel, batch.steps)
    ensures Sifted(kernel, namespace, intents, batch, kept, turned)
  {
    batch, kept, turned := Batch([], []), [], [];
    assert Intents([]) == [] && RefusedIntents([]) == [];
    hide PrepareOne, Faithful, PreparedBy, Accounted, Worded, Requested, AllPrepared;
    NothingPrepared(kernel);
    assert Sifted(kernel, namespace, intents[..0], batch, kept, turned);
    hide Sifted;
    for i := 0 to |intents|
      invariant Accounted(batch) == multiset(intents[..i]) && |batch.steps| <= i
      invariant Worded(batch.refused) && Requested(batch.steps) && AllPrepared(kernel, batch.steps)
      invariant Sifted(kernel, namespace, intents[..i], batch, kept, turned)
    {
      assert intents[..i + 1] == intents[..i] + [intents[i]];
      PreparedFaithfully(kernel, namespace, intents[i], true);
      SiftOne(kernel, namespace, intents[..i], intents[i], batch, kept, turned);
      match PrepareOne(kernel, namespace, intents[i], true)
      case Success(step) =>
        AddStepAccounts(batch, step);
        AddStepPrepares(kernel, batch.steps, step);
        batch, kept := batch.(steps := batch.steps + [step]), kept + [i];
      case Failure(refusal) =>
        AddRefusalAccounts(batch, Refused(intents[i], refusal));
        AddRefusalWords(batch.refused, Refused(intents[i], refusal));
        batch, turned := batch.(refused := batch.refused + [Refused(intents[i], refusal)]), turned + [i];
    }
    assert intents[..|intents|] == intents;
  }

  lemma SiftOne(kernel: Kernel, namespace: nat, intents: seq<Intent>, next: Intent, batch: Batch, kept: seq<nat>,
                turned: seq<nat>)
    requires Sifted(kernel, namespace, intents, batch, kept, turned)
    ensures match PrepareOne(kernel, namespace, next, true)
            case Success(step) =>
              Sifted(kernel, namespace, intents + [next], batch.(steps := batch.steps + [step]),
                     kept + [|intents|], turned)
            case Failure(refusal) =>
              Sifted(kernel, namespace, intents + [next],
                     batch.(refused := batch.refused + [Refused(next, refusal)]), kept, turned + [|intents|])
  {
    hide PrepareOne;
    assert forall i :: 0 <= i < |intents| ==> (intents + [next])[i] == intents[i];
    assert forall k :: 0 <= k < |kept| ==> kept[k] in kept;
    assert forall k :: 0 <= k < |turned| ==> turned[k] in turned;
  }

  // ---------------------------------------------------------------- which parents are generated

  /** Every missing parent before want w of step i has its creation step, this one has none. */
  ghost predicate UnmetAt(steps: seq<Operation>, i: nat, w: nat)
    requires i < |steps| && w < |MissingParents(steps[i].parents)|
  {
    && (forall j :: 0 <= j < i ==> ParentIsMade(steps, j))
    && (forall v :: 0 <= v < w ==> Met(steps, MissingParents(steps[i].parents)[v]))
    && !Met(steps, MissingParents(steps[i].parents)[w])
  }

  ghost predicate FirstUnmet(steps: seq<Operation>, parent: Location) {
    exists i, w :: 0 <= i < |steps| && 0 <= w < |MissingParents(steps[i].parents)|
                   && UnmetAt(steps, i, w) && MissingParents(steps[i].parents)[w] == Makes(parent)
  }

  predicate OutOfBounds(steps: seq<Operation>, parent: Location) {
    |steps| >= STEP_LIMIT || |parent.path| > PARENT_LIMIT
  }

  /** Step n creates the first parent that the steps before it leave unmet, as the kernel prepared it. */
  ghost predicate GrownAt(kernel: Kernel, namespace: nat, steps: seq<Operation>, n: nat, intent: Intent)
    requires n < |steps|
  {
    && intent.destination.Some? && intent == MakeParent(intent.destination.value)
    && FirstUnmet(steps[..n], intent.destination.value) && !OutOfBounds(steps[..n], intent.destination.value)
    && PrepareOne(kernel, namespace, intent, false) == Success(steps[n])
  }

  ghost predicate Grown(kernel: Kernel, namespace: nat, base: seq<Operation>, steps: seq<Operation>,
                        made: seq<Intent>) {
    base <= steps && |steps| == |base| + |made|
    && forall k :: 0 <= k < |made| ==> GrownAt(kernel, namespace, steps, |base| + k, made[k])
  }

  /** The next parent cannot be given a step: the bound is hit, or the kernel refuses it. */
  ghost predicate Halted(kernel: Kernel, namespace: nat, steps: seq<Operation>, refusal: Refusal) {
    exists parent :: FirstUnmet(steps, parent)
      && if OutOfBounds(steps, parent) then refusal == ParentChainTooLong
         else PrepareOne(kernel, namespace, MakeParent(parent), false) == Failure(refusal)
  }

  lemma GrowOne(kernel: Kernel, namespace: nat, base: seq<Operation>, steps: seq<Operation>, made: seq<Intent>,
                parent: Location, step: Operation)
    requires Grown(kernel, namespace, base, steps, made)
    requires FirstUnmet(steps, parent) && !OutOfBounds(steps, parent)
    requires PrepareOne(kernel, namespace, MakeParent(parent), false) == Success(step)
    ensures Grown(kernel, namespace, base, steps + [step], made + [MakeParent(parent)])
  {
    hide PrepareOne, FirstUnmet, OutOfBounds;
    var longer, more := steps + [step], made + [MakeParent(parent)];
    forall k | 0 <= k < |more| ensures GrownAt(kernel, namespace, longer, |base| + k, more[k]) {
      assert longer[..|base| + k] == steps[..|base| + k];
      if k == |made| {
        assert steps[..|steps|] == steps;
      } else {
        assert GrownAt(kernel, namespace, steps, |base| + k, made[k]);
      }
    }
  }

  /** Give every missing parent a creation step, including the parents of the steps added on the way. */
  method CloseParents(kernel: Kernel, namespace: nat, start: Batch)
    returns (closed: bool, batch: Batch, ghost grown: seq<Operation>, ghost made: seq<Intent>, ghost why: Refusal)
    requires Faithful(kernel) && |start.steps| <= STEP_LIMIT
    requires Worded(start.refused) && Requested(start.steps) && AllPrepared(kernel, start.steps)
    ensures Generated(made) && Accounted(batch) == Accounted(start) + multiset(made)
    ensures |batch.steps| <= STEP_LIMIT && Worded(batch.refused) && AllPrepared(kernel, batch.steps)
    ensures Grown(kernel, namespace, start.steps, grown, made)
    ensures closed ==> (forall i :: 0 <= i < |grown| ==> ParentIsMade(grown, i)) && batch == start.(steps := grown)
    ensures !closed ==> Halted(kernel, namespace, grown, why) && batch == RefuseAll(start.(steps := grown), why)
  {
    hide Grown, Halted;
    batch, made, closed, why := start, [], true, NoResource;
    GrownNothing(kernel, namespace, start.steps);
    var index := 0;
    grown := batch.steps;
    while index < |batch.steps|
      invariant index <= |batch.steps| <= STEP_LIMIT && closed && batch == start.(steps := grown)
      invariant Progress(start, batch, made) && AllPrepared(kernel, batch.steps)
      invariant Grown(kernel, namespace, start.steps, grown, made)
      invariant forall i :: 0 <= i < index ==> ParentIsMade(batch.steps, i)
      decreases STEP_LIMIT - index
    {
      ghost var before := batch.steps;
      closed, batch, grown, made, why := MakeParentsOf(kernel, namespace, start, batch, made, index);
      if !closed {
        return;
      }
      forall i | 0 <= i < index ensures ParentIsMade(batch.steps, i) {
        ParentStaysMade(before, batch.steps, i);
      }
      index := index + 1;
    }
  }

  lemma GrownNothing(kernel: Kernel, namespace: nat, base: seq<Operation>)
    ensures Grown(kernel, namespace, base, base, [])
  {
  }

  /** The missing parents of one step: each is already being created, or gets a step at the end. */
  method MakeParentsOf(kernel: Kernel, namespace: nat, ghost start: Batch, before: Batch, ghost already: seq<Intent>,
                       index: nat)
    returns (closed: bool, batch: Batch, ghost grown: seq<Operation>, ghost made: seq<Intent>, ghost why: Refusal)
    requires Faithful(kernel) && index < |before.steps| <= STEP_LIMIT && before == start.(steps := before.steps)
    requires Progress(start, before, already) && AllPrepared(kernel, before.steps)
    requires Grown(kernel, namespace, start.steps, before.steps, already)
    requires forall i :: 0 <= i < index ==> ParentIsMade(before.steps, i)
    ensures Generated(made) && Accounted(batch) == Accounted(start) + multiset(made)
    ensures Worded(batch.refused) && |batch.steps| <= STEP_LIMIT && AllPrepared(kernel, batch.steps)
    ensures Grown(kernel, namespace, start.steps, grown, made)
    ensures closed ==> before.steps <= grown && batch == start.(steps := grown) && Progress(start, batch, made)
                       && ParentIsMade(batch.steps, index)
    ensures !closed ==> Halted(kernel, namespace, grown, why) && batch == RefuseAll(start.(steps := grown), why)
  {
    hide PrepareOne, Faithful, PreparedBy, Accounted, Generated, MissingParents, ParentIsMade, Grown, Halted,
      FirstUnmet;
    batch, made, grown, why := before, already, before.steps, NoResource;
    var missing := MissingParents(batch.steps[index].parents);
    for w := 0 to |missing|
      invariant |batch.steps| <= STEP_LIMIT && before.steps <= grown && batch == start.(steps := grown)
      invariant Progress(start, batch, made) && AllPrepared(kernel, batch.steps)
      invariant Grown(kernel, namespace, start.steps, grown, made)
      invariant forall v :: 0 <= v < w ==> Met(batch.steps, missing[v])
    {
      assert missing[w] in missing;
      var parent := missing[w].location;
      var existing := FindStep(batch.steps, missing[w]);
      if existing.Some? {
        assert Meets(batch.steps[existing.value], missing[w]);
        continue;
      }
      IsFirstUnmet(before.steps, batch.steps, index, w);
      if |batch.steps| >= STEP_LIMIT || |parent.path| > PARENT_LIMIT {
        why := ParentChainTooLong;
        HaltsAt(kernel, namespace, grown, parent, why);
        return false, RefuseAll(batch, ParentChainTooLong), grown, made, why;
      }
      PreparedFaithfully(kernel, namespace, MakeParent(parent), false);
      match PrepareOne(kernel, namespace, MakeParent(parent), false)
      case Failure(refusal) =>
        HaltsAt(kernel, namespace, grown, parent, refusal);
        return false, RefuseAll(batch, refusal), grown, made, refusal;
      case Success(step) =>
        GrowProgress(start, batch, made, step, parent);
        GrowMet(batch.steps, step, missing, w);
        GrowOne(kernel, namespace, start.steps, batch.steps, made, parent, step);
        batch, made := batch.(steps := batch.steps + [step]), made + [MakeParent(parent)];
        grown := batch.steps;
    }
    AllMetIsMade(batch.steps, index, missing);
    closed := true;
  }

  lemma AllMetIsMade(steps: seq<Operation>, index: nat, missing: seq<Want>)
    requires index < |steps| && missing == MissingParents(steps[index].parents)
    requires forall v :: 0 <= v < |missing| ==> Met(steps, missing[v])
    ensures ParentIsMade(steps, index)
  {
    hide MissingParents;
    forall want | want in missing ensures Met(steps, want) {
      var v :| 0 <= v < |missing| && missing[v] == want;
    }
  }

  lemma IsFirstUnmet(before: seq<Operation>, steps: seq<Operation>, index: nat, w: nat)
    requires index < |before| && before <= steps && forall i :: 0 <= i < index ==> ParentIsMade(before, i)
    requires w < |MissingParents(steps[index].parents)|
    requires forall v :: 0 <= v < w ==> Met(steps, MissingParents(steps[index].parents)[v])
    requires !Met(steps, MissingParents(steps[index].parents)[w])
    ensures FirstUnmet(steps, MissingParents(steps[index].parents)[w].location)
  {
    hide ParentIsMade;
    forall i | 0 <= i < index ensures ParentIsMade(steps, i) {
      ParentStaysMade(before, steps, i);
    }
    assert UnmetAt(steps, index, w);
    assert MissingParents(steps[index].parents)[w] in MissingParents(steps[index].parents);
  }

  lemma HaltsAt(kernel: Kernel, namespace: nat, steps: seq<Operation>, parent: Location, refusal: Refusal)
    requires FirstUnmet(steps, parent)
    requires if OutOfBounds(steps, parent) then refusal == ParentChainTooLong
             else PrepareOne(kernel, namespace, MakeParent(parent), false) == Failure(refusal)
    ensures Halted(kernel, namespace, steps, refusal)
  {
    hide PrepareOne, FirstUnmet;
  }

  lemma ParentStaysMade(before: seq<Operation>, after: seq<Operation>, i: nat)
    requires i < |before| && before <= after && ParentIsMade(before, i)
    ensures ParentIsMade(after, i)
  {
    forall want | want in MissingParents(after[i].parents) ensures Met(after, want) {
      MetStays(before, after, want);
    }
  }

  lemma GrowMet(steps: seq<Operation>, step: Operation, wants: seq<Want>, w: nat)
    requires w < |wants| && Meets(step, wants[w])
    requires forall v :: 0 <= v < w ==> Met(steps, wants[v])
    ensures forall v :: 0 <= v <= w ==> Met(steps + [step], wants[v])
  {
    assert Meets((steps + [step])[|steps|], wants[w]);
    forall v | 0 <= v < w ensures Met(steps + [step], wants[v]) {
      MetStays(steps, steps + [step], wants[v]);
    }
  }

  /** What closing the parents keeps as it grows the batch. */
  ghost predicate Progress(start: Batch, batch: Batch, made: seq<Intent>) {
    && Generated(made) && Accounted(batch) == Accounted(start) + multiset(made)
    && Worded(batch.refused) && Requested(batch.steps)
    && forall k :: 0 <= k < |made| ==> Met(batch.steps, Makes(made[k].destination.value))
  }

  lemma MetStays(before: seq<Operation>, after: seq<Operation>, want: Want)
    requires before <= after && Met(before, want)
    ensures Met(after, want)
  {
    var k :| 0 <= k < |before| && Meets(before[k], want);
    assert Meets(after[k], want);
  }

  lemma GrowProgress(start: Batch, batch: Batch, made: seq<Intent>, step: Operation, parent: Location)
    requires Progress(start, batch, made)
    requires !Met(batch.steps, Makes(parent))
    requires step.intent == MakeParent(parent) && DestinationOf(step) == Some(parent)
    ensures Progress(start, batch.(steps := batch.steps + [step]), made + [MakeParent(parent)])
  {
    var longer := batch.steps + [step];
    AddStepAccounts(batch, step);
    assert Meets(longer[|batch.steps|], Makes(parent));
    forall k | 0 <= k < |made| ensures Met(longer, Makes(made[k].destination.value)) && made[k] != MakeParent(parent) {
      MetStays(batch.steps, longer, Makes(made[k].destination.value));
    }
  }

  lemma ReorderedPrepared(kernel: Kernel, steps: seq<Operation>, edges: seq<seq<nat>>, order: seq<nat>,
                          plan: seq<Operation>)
    requires Reordered(steps, edges, order, plan) && AllPrepared(kernel, steps)
    ensures AllPrepared(kernel, plan)
  {
    forall k | 0 <= k < |plan| ensures PreparedBy(kernel, plan[k]) {
      assert PreparedBy(kernel, steps[order[k]]);
    }
  }

  lemma ReorderedIntents(steps: seq<Operation>, edges: seq<seq<nat>>, order: seq<nat>, plan: seq<Operation>)
    requires Reordered(steps, edges, order, plan)
    requires multiset(Bare(plan)) == multiset(Bare(steps))
    ensures multiset(Intents(plan)) == multiset(Intents(steps))
  {
    SelectPermutes(Intents(steps), order);
    assert Intents(plan) == Select(Intents(steps), order);
  }
}
