/** The worker envelope. One emitter is shared by a runner and any number of cancel handles, and one slot
    holds a cancellation hook. A run is a sequence of events, one per mutex section or atomic access. */
module Worker {
  import opened Wrappers
  import opened Cancel

  // ---------------------------------------------------------------- the parties

  datatype Reason = Superseded | OwnerClosed | Dismissed | Shutdown

  /** The work's own failure, or one that the envelope reports for it. */
  datatype Cause = OwnFailure(code: nat) | NoThread | WorkPanicked | HookFailed

  datatype Outcome = Success(value: nat) | Failed(cause: Cause) | Cancelled(reason: Reason)

  datatype Handle =
    | Armed
    | Holding(reason: Reason)
    | Revoking(reason: Reason, hook: Option<nat>)
    | Reporting(outcome: Outcome)
    | Spent

  datatype Runner =
    | Starting
    | Checking
    | Working
    | RunningLate(hook: nat)
    | Panicked
    | PanicRevoking(detached: Option<nat>)
    | Clearing(outcome: Outcome)
    | Finishing(outcome: Outcome)
    | Emitting(outcome: Outcome)
    | Returned

  /** What became of a hook that was offered. */
  datatype Fate = Waiting | Detached | RanLate | Cleared | Rejected

  datatype Hook = Hook(fate: Fate, runs: nat)

  datatype State = State(token: Token, emitter: bool, emitted: seq<Outcome>, handles: seq<Handle>, runner: Runner,
                         hooks: seq<Hook>)

  datatype Event =
    | StartThread(started: bool)
    | Check
    | Register
    | InvokeLate
    | WorkClear
    | Return(outcome: Outcome)
    | Panic
    | PanicDetach
    | PanicInvoke(ok: bool)
    | FinalClear
    | Claim
    | Emit
    | Fire(handle: nat, reason: Reason)
    | Detach(handle: nat)
    | Invoke(handle: nat, ok: bool)
    | Report(handle: nat)

  function Initial(handles: nat): State {
    State(Token(false, None), true, [], seq(handles, _ => Armed), Starting, [])
  }

  /** A hook may run any code; whether it failed is the event's `ok`. Without a hook nothing fails. */
  function RunHook(hooks: seq<Hook>, hook: Option<nat>): seq<Hook> {
    if hook.Some? && hook.value < |hooks| then
      hooks[hook.value := hooks[hook.value].(runs := hooks[hook.value].runs + 1)]
    else hooks
  }

  function Fated(hooks: seq<Hook>, hook: Option<nat>, fate: Fate): seq<Hook> {
    if hook.Some? && hook.value < |hooks| then hooks[hook.value := hooks[hook.value].(fate := fate)] else hooks
  }

  function ClearSlot(s: State): State {
    s.(token := s.token.(slot := None), hooks := Fated(s.hooks, s.token.slot, Cleared))
  }

  function DetachSlot(s: State): State {
    s.(token := Token(true, None), hooks := Fated(s.hooks, s.token.slot, Fate.Detached))
  }

  function Offered(s: State): State {
    var (token, registration) := Offer(s.token, |s.hooks|);
    match registration
    case Installed => s.(token := token, hooks := s.hooks + [Hook(Waiting, 0)])
    case Occupied => s.(hooks := s.hooks + [Hook(Rejected, 0)])
    case Late => s.(hooks := s.hooks + [Hook(RanLate, 0)], runner := RunningLate(|s.hooks|))
  }

  function RunnerStep(s: State, e: Event): Option<State> {
    match (s.runner, e)
    case (Starting, StartThread(started)) =>
      Some(s.(runner := if started then Checking else Finishing(Failed(NoThread))))
    case (Checking, Check) => Some(s.(runner := if s.token.cancelled then Returned else Working))
    case (Working, Register) => Some(Offered(s))
    case (Working, WorkClear) => Some(ClearSlot(s))
    case (Working, Return(outcome)) => Some(s.(runner := Clearing(outcome)))
    case (Working, Panic) => Some(s.(runner := Panicked))
    case (RunningLate(hook), InvokeLate) => Some(s.(runner := Working, hooks := RunHook(s.hooks, Some(hook))))
    case (Panicked, PanicDetach) => Some(DetachSlot(s).(runner := PanicRevoking(s.token.slot)))
    case (PanicRevoking(hook), PanicInvoke(ok)) =>
      if hook.None? && !ok then None
      else Some(s.(runner := Clearing(Failed(if ok then WorkPanicked else HookFailed)),
                   hooks := RunHook(s.hooks, hook)))
    case (Clearing(outcome), FinalClear) => Some(ClearSlot(s).(runner := Finishing(outcome)))
    case (Finishing(outcome), Claim) =>
      Some(s.(emitter := false, runner := if s.emitter then Emitting(outcome) else Returned))
    case (Emitting(outcome), Emit) => Some(s.(runner := Returned, emitted := s.emitted + [outcome]))
    case _ => None
  }

  function HandleStep(s: State, h: nat, e: Event): Option<State>
    requires h < |s.handles|
  {
    match (s.handles[h], e)
    case (Armed, Fire(_, reason)) =>
      Some(s.(emitter := false, handles := s.handles[h := if s.emitter then Holding(reason) else Spent]))
    case (Holding(reason), Detach(_)) =>
      Some(DetachSlot(s).(handles := s.handles[h := Revoking(reason, s.token.slot)]))
    case (Revoking(reason, hook), Invoke(_, ok)) =>
      if hook.None? && !ok then None
      else Some(s.(hooks := RunHook(s.hooks, hook),
                   handles := s.handles[h := Reporting(if ok then Cancelled(reason) else Failed(HookFailed))]))
    case (Reporting(outcome), Report(_)) =>
      Some(s.(emitted := s.emitted + [outcome], handles := s.handles[h := Spent]))
    case _ => None
  }

  predicate HandleEvent(e: Event) { e.Fire? || e.Detach? || e.Invoke? || e.Report? }

  /** The state after one event, or None where it cannot happen. */
  function Step(s: State, e: Event): Option<State> {
    if HandleEvent(e) then
      if e.handle < |s.handles| then HandleStep(s, e.handle, e) else None
    else RunnerStep(s, e)
  }

  function Run(s: State, events: seq<Event>): Option<State>
    decreases |events|
  {
    if events == [] then Some(s)
    else match Step(s, events[0])
      case None => None
      case Some(next) => Run(next, events[1..])
  }

  // ---------------------------------------------------------------- what every step keeps

  predicate Claims(handle: Handle) { handle.Holding? || handle.Revoking? || handle.Reporting? }

  predicate ClaimedBy(s: State, h: nat) { h < |s.handles| && Claims(s.handles[h]) }

  /** The emitter is in its cell, with exactly one party, or spent. */
  ghost predicate OneEmission(s: State) {
    && (forall h: nat, g: nat :: ClaimedBy(s, h) && ClaimedBy(s, g) ==> h == g)
    && (s.emitter ==> s.emitted == [] && !s.runner.Emitting? && forall h: nat :: !ClaimedBy(s, h))
    && (s.runner.Emitting? ==> s.emitted == [] && forall h: nat :: !ClaimedBy(s, h))
    && (forall h: nat :: ClaimedBy(s, h) ==> s.emitted == [])
    && |s.emitted| <= 1
    && (!s.emitter && s.emitted == [] && !s.runner.Emitting? ==> exists h: nat :: ClaimedBy(s, h))
  }

  predicate PanicPath(runner: Runner) {
    runner.PanicRevoking? || runner.Clearing? || runner.Finishing? || runner.Emitting? || runner.Returned?
  }

  /** The token is cancelled only by a party that already has, or will ask for, the emitter. */
  ghost predicate CancelledByClaimant(s: State) {
    && (s.token.cancelled ==> !s.emitter || PanicPath(s.runner))
    && (s.runner.Returned? ==> !s.emitter)
    && (s.token.cancelled ==> s.token.slot.None?)
  }

  /** Who is about to run a hook. */
  predicate RunnerCarries(s: State, k: nat) {
    s.runner == RunningLate(k) || s.runner == PanicRevoking(Some(k))
  }

  predicate Carrying(runner: Runner) { runner.RunningLate? || runner.PanicRevoking? }

  predicate HandleCarries(s: State, h: nat, k: nat) {
    h < |s.handles| && s.handles[h].Revoking? && s.handles[h].hook == Some(k)
  }

  predicate Due(hook: Hook) { hook.fate.Detached? || hook.fate.RanLate? }

  ghost predicate HooksOk(s: State) {
    && (forall k :: 0 <= k < |s.hooks| ==> (s.hooks[k].fate.Waiting? <==> s.token.slot == Some(k)))
    && (s.token.slot.Some? ==> s.token.slot.value < |s.hooks|)
    && (forall k :: 0 <= k < |s.hooks| ==> s.hooks[k].runs <= 1 && (s.hooks[k].runs == 1 ==> Due(s.hooks[k])))
    && (forall k :: 0 <= k < |s.hooks| && Due(s.hooks[k]) && s.hooks[k].runs == 0 ==>
          RunnerCarries(s, k) || exists h: nat :: HandleCarries(s, h, k))
    && (forall k: nat :: RunnerCarries(s, k) ==> k < |s.hooks| && Due(s.hooks[k]) && s.hooks[k].runs == 0)
    && (forall h: nat, k: nat :: HandleCarries(s, h, k) ==>
        k < |s.hooks| && Due(s.hooks[k]) && s.hooks[k].runs == 0 && !RunnerCarries(s, k))
    && (s.token.slot.Some? ==> !s.runner.Starting? && !s.runner.Checking? && !s.runner.Finishing?
                               && !s.runner.Emitting? && !s.runner.Returned?)
  }

  ghost predicate Inv(s: State) {
    OneEmission(s) && CancelledByClaimant(s) && HooksOk(s)
  }

  lemma InitialInv(handles: nat)
    ensures Inv(Initial(handles))
  {
  }

  lemma EmissionKept(s: State, e: Event)
    requires OneEmission(s) && Step(s, e).Some?
    ensures OneEmission(Step(s, e).value)
  {
    hide OneEmission, HandleStep, RunnerStep;
    if HandleEvent(e) {
      HandleKeepsEmission(s, e.handle, e);
    } else {
      RunnerKeepsEmission(s, e);
    }
  }

  lemma HandleKeepsEmission(s: State, i: nat, e: Event)
    requires OneEmission(s) && i < |s.handles| && HandleStep(s, i, e).Some?
    ensures OneEmission(HandleStep(s, i, e).value)
  {
    var t := HandleStep(s, i, e).value;
    assert forall h: nat :: h != i ==> (ClaimedBy(t, h) <==> ClaimedBy(s, h));
    assert ClaimedBy(s, i) <==> !e.Fire?;
    assert ClaimedBy(t, i) <==> !e.Report? && (e.Fire? ==> s.emitter);
  }

  lemma RunnerKeepsEmission(s: State, e: Event)
    requires OneEmission(s) && RunnerStep(s, e).Some?
    ensures OneEmission(RunnerStep(s, e).value)
  {
    var t := RunnerStep(s, e).value;
    assert forall h: nat :: ClaimedBy(t, h) <==> ClaimedBy(s, h);
  }

  lemma ClaimantKept(s: State, e: Event)
    requires Inv(s) && Step(s, e).Some?
    ensures CancelledByClaimant(Step(s, e).value)
  {
    if e.Detach? {
      assert ClaimedBy(s, e.handle);
    }
  }

  lemma HooksKept(s: State, e: Event)
    requires Inv(s) && Step(s, e).Some?
    ensures HooksOk(Step(s, e).value)
  {
    hide HooksOk, OneEmission, CancelledByClaimant;
    match e
    case Fire(_, _) => QuietStepKeepsHooks(s, e);
    case Report(_) => QuietStepKeepsHooks(s, e);
    case Detach(_) => HandleDetachKeepsHooks(s, e);
    case Invoke(_, _) => HandleInvokeKeepsHooks(s, e);
    case Register => OfferKeepsHooks(s);
    case WorkClear => ClearKeepsHooks(s, s.runner);
    case FinalClear => ClearKeepsHooks(s, Step(s, e).value.runner);
    case PanicDetach => PanicDetachKeepsHooks(s);
    case InvokeLate => RunnerInvokeKeepsHooks(s, e, s.runner.hook);
    case PanicInvoke(_) =>
      if s.runner.detached.Some? {
        RunnerInvokeKeepsHooks(s, e, s.runner.detached.value);
      } else {
        QuietStepKeepsHooks(s, e);
      }
    case _ => QuietStepKeepsHooks(s, e);
  }

  /** Steps that touch neither hooks nor slot nor anyone carrying a hook. */
  lemma QuietStepKeepsHooks(s: State, e: Event)
    requires HooksOk(s) && Step(s, e).Some?
    requires var t := Step(s, e).value;
             t.hooks == s.hooks && t.token == s.token
             && !e.Detach? && !e.Invoke? && !e.Register? && !e.PanicDetach? && !e.InvokeLate? && !e.FinalClear?
             && !(e.PanicInvoke? && s.runner.detached.Some?)
    ensures HooksOk(Step(s, e).value)
  {
    var t := Step(s, e).value;
    assert forall h: nat, k: nat :: HandleCarries(t, h, k) <==> HandleCarries(s, h, k);
    assert forall k: nat :: RunnerCarries(t, k) <==> RunnerCarries(s, k);
  }

  lemma OfferKeepsHooks(s: State)
    requires HooksOk(s) && s.runner.Working? && CancelledByClaimant(s)
    ensures HooksOk(Offered(s))
  {
    hide HandleStep;
    var t := Offered(s);
    assert forall h: nat, k: nat :: HandleCarries(t, h, k) <==> HandleCarries(s, h, k);
    assert forall k: nat :: k < |s.hooks| ==> t.hooks[k] == s.hooks[k];
    assert forall k: nat :: !RunnerCarries(s, k);
    assert forall k: nat :: RunnerCarries(t, k) <==> t.runner.RunningLate? && k == |s.hooks|;
  }

  lemma ClearKeepsHooks(s: State, runner: Runner)
    requires HooksOk(s) && !Carrying(s.runner) && !Carrying(runner)
    ensures HooksOk(ClearSlot(s).(runner := runner))
  {
    var t := ClearSlot(s).(runner := runner);
    assert forall h: nat, k: nat :: HandleCarries(t, h, k) <==> HandleCarries(s, h, k);
    assert forall k: nat :: !RunnerCarries(t, k) && !RunnerCarries(s, k);
  }

  lemma PanicDetachKeepsHooks(s: State)
    requires HooksOk(s) && s.runner.Panicked?
    ensures HooksOk(Step(s, PanicDetach).value)
  {
    hide HandleStep;
    var t := Step(s, PanicDetach).value;
    assert forall h: nat, k: nat :: HandleCarries(t, h, k) <==> HandleCarries(s, h, k);
    assert forall k: nat :: !RunnerCarries(s, k) && (RunnerCarries(t, k) <==> s.token.slot == Some(k));
  }

  lemma RunnerInvokeKeepsHooks(s: State, e: Event, hook: nat)
    requires HooksOk(s) && Step(s, e).Some? && RunnerCarries(s, hook) && (e.InvokeLate? || e.PanicInvoke?)
    ensures HooksOk(Step(s, e).value)
  {
    hide HandleStep;
    var t := Step(s, e).value;
    assert forall h: nat, k: nat :: HandleCarries(t, h, k) <==> HandleCarries(s, h, k);
    assert forall k: nat :: !RunnerCarries(t, k) && (RunnerCarries(s, k) <==> k == hook);
  }

  lemma HandleDetachKeepsHooks(s: State, e: Event)
    requires HooksOk(s) && Step(s, e).Some? && e.Detach?
    ensures HooksOk(Step(s, e).value)
  {
    hide RunnerStep;
    var t, h := Step(s, e).value, e.handle;
    assert forall g: nat, k: nat ::
      HandleCarries(t, g, k) <==> HandleCarries(s, g, k) || (g == h && s.token.slot == Some(k));
    assert s.token.slot.Some? ==> HandleCarries(t, h, s.token.slot.value);
    assert forall k: nat :: RunnerCarries(t, k) <==> RunnerCarries(s, k);
  }

  lemma HandleInvokeKeepsHooks(s: State, e: Event)
    requires HooksOk(s) && OneEmission(s) && Step(s, e).Some? && e.Invoke?
    ensures HooksOk(Step(s, e).value)
  {
    hide RunnerStep;
    var t, h := Step(s, e).value, e.handle;
    var hook := s.handles[h].hook;
    assert forall k: nat :: HandleCarries(s, h, k) <==> hook == Some(k);
    assert forall g: nat, k: nat :: HandleCarries(s, g, k) ==> g == h by {
      assert ClaimedBy(s, h);
      assert forall g: nat, k: nat :: HandleCarries(s, g, k) ==> ClaimedBy(s, g);
    }
    assert forall g: nat, k: nat :: HandleCarries(t, g, k) ==> g != h && HandleCarries(s, g, k);
    assert forall k: nat :: RunnerCarries(t, k) <==> RunnerCarries(s, k);
  }

  /** Every state of every run. */
  lemma {:induction false} RunKeepsInv(s: State, events: seq<Event>)
    requires Inv(s) && Run(s, events).Some?
    ensures Inv(Run(s, events).value)
    decreases |events|
  {
    hide Inv, Step;
    if events == [] {
    } else {
      StepKeepsInv(s, events[0]);
      RunKeepsInv(Step(s, events[0]).value, events[1..]);
    }
  }

  lemma StepKeepsInv(s: State, e: Event)
    requires Inv(s) && Step(s, e).Some?
    ensures Inv(Step(s, e).value)
  {
    hide OneEmission, CancelledByClaimant, HooksOk, Step;
    EmissionKept(s, e);
    ClaimantKept(s, e);
    HooksKept(s, e);
  }

  // ---------------------------------------------------------------- outcomes

  predicate Quiet(s: State) {
    s.runner.Returned? && forall h :: 0 <= h < |s.handles| ==> s.handles[h].Spent?
  }

  /** Under every interleaving at most one outcome is emitted, and exactly one once the work has
      returned and every handle was fired or dropped. */
  lemma OneOutcome(handles: nat, events: seq<Event>)
    requires Run(Initial(handles), events).Some?
    ensures |Run(Initial(handles), events).value.emitted| <= 1
    ensures Quiet(Run(Initial(handles), events).value) ==> |Run(Initial(handles), events).value.emitted| == 1
  {
    InitialInv(handles);
    RunKeepsInv(Initial(handles), events);
  }

  /** What the runner's own events so far make of the work: what it returned, that it panicked, or that there was
      no thread for it. */
  function Answer(events: seq<Event>): Option<Outcome> {
    if events == [] then None
    else match events[0]
      case Return(outcome) => Some(outcome)
      case PanicInvoke(ok) => Some(Failed(if ok then WorkPanicked else HookFailed))
      case StartThread(started) => if started then Answer(events[1..]) else Some(Failed(NoThread))
      case _ => Answer(events[1..])
  }

  function Then(answer: Option<Outcome>, later: Option<Outcome>): Option<Outcome> {
    if answer.Some? then answer else later
  }

  /** Some handle was fired while the emitter was still in its cell. */
  predicate TakenByHandle(s: State, events: seq<Event>)
    decreases |events|
  {
    events != [] && Step(s, events[0]).Some?
    && ((events[0].Fire? && s.emitter) || TakenByHandle(Step(s, events[0]).value, events[1..]))
  }

  /** The runner holds the answer from the end of the work on. */
  predicate RunnerSays(runner: Runner, answer: Option<Outcome>) {
    match runner
    case Clearing(outcome) => answer == Some(outcome)
    case Finishing(outcome) => answer == Some(outcome)
    case Emitting(outcome) => answer == Some(outcome)
    case Returned => answer.Some?
    case _ => answer.None?
  }

  /** No handle has found the emitter, so it is the runner's to take. */
  ghost predicate Untaken(s: State, answer: Option<Outcome>) {
    && RunnerSays(s.runner, answer) && (forall h: nat :: !ClaimedBy(s, h))
    && (s.token.cancelled ==> PanicPath(s.runner))
    && match s.runner
       case Emitting(_) => !s.emitter && s.emitted == []
       case Returned => !s.emitter && s.emitted == [answer.value]
       case _ => s.emitter && s.emitted == []
  }

  lemma UntakenKept(s: State, answer: Option<Outcome>, e: Event)
    requires Untaken(s, answer) && Step(s, e).Some? && !(e.Fire? && s.emitter)
    ensures Untaken(Step(s, e).value, Then(answer, Answer([e])))
  {
    var t := Step(s, e).value;
    assert Answer([e][1..]) == None;
    if HandleEvent(e) {
      assert !ClaimedBy(s, e.handle);
      assert forall h: nat :: ClaimedBy(t, h) ==> ClaimedBy(s, h);
    } else {
      assert forall h: nat :: ClaimedBy(t, h) <==> ClaimedBy(s, h);
    }
  }

  lemma {:induction false} UntakenStays(s: State, answer: Option<Outcome>, events: seq<Event>)
    requires Untaken(s, answer) && Run(s, events).Some? && !TakenByHandle(s, events)
    ensures Untaken(Run(s, events).value, Then(answer, Answer(events)))
    decreases |events|
  {
    hide Untaken, Step;
    if events == [] {
    } else {
      var e := events[0];
      UntakenKept(s, answer, e);
      assert [e][1..] == [] && Answer([]) == None;
      assert Answer(events) == Then(Answer([e]), Answer(events[1..]));
      UntakenStays(Step(s, e).value, Then(answer, Answer([e])), events[1..]);
    }
  }

  /** When no cancellation finds the emitter, what is emitted is exactly what came of the work, as soon as the
      runner is done: the outcome it returned, its panic, or the missing thread. */
  lemma WorkDecides(handles: nat, events: seq<Event>)
    requires Run(Initial(handles), events).Some? && !TakenByHandle(Initial(handles), events)
    ensures var t := Run(Initial(handles), events).value;
            if t.runner.Returned? then Answer(events).Some? && t.emitted == [Answer(events).value]
            else t.emitted == []
  {
    UntakenStays(Initial(handles), None, events);
  }

  /** The claim of one handle, or what it reported; `failed`: its hook did. */
  predicate ClaimStands(s: State, h: nat, reason: Reason, failed: bool) {
    h < |s.handles| && !s.emitter && !s.runner.Emitting?
    && match s.handles[h]
       case Holding(r) => r == reason && s.emitted == [] && !failed
       case Revoking(r, _) => r == reason && s.emitted == [] && !failed
       case Reporting(outcome) => outcome == Reported(reason, failed) && s.emitted == []
       case Spent => s.emitted == [Reported(reason, failed)]
       case Armed => false
  }

  function Reported(reason: Reason, failed: bool): Outcome {
    if failed then Failed(HookFailed) else Cancelled(reason)
  }

  lemma ClaimStandsStep(s: State, h: nat, reason: Reason, failed: bool, e: Event)
    requires Inv(s) && ClaimStands(s, h, reason, failed) && Step(s, e).Some?
    ensures ClaimStands(Step(s, e).value, h, reason, failed || e == Invoke(h, false))
  {
    hide HooksOk, CancelledByClaimant, HandleStep, RunnerStep, ClaimStands, OneEmission;
    if HandleEvent(e) {
      if e.handle == h {
        OwnClaimStands(s, h, reason, failed, e);
      } else {
        OtherClaimStands(s, h, reason, failed, e.handle, e);
      }
    } else {
      RunnerClaimStands(s, h, reason, failed, e);
    }
  }

  lemma OwnClaimStands(s: State, h: nat, reason: Reason, failed: bool, e: Event)
    requires ClaimStands(s, h, reason, failed) && HandleEvent(e) && e.handle == h && HandleStep(s, h, e).Some?
    ensures ClaimStands(HandleStep(s, h, e).value, h, reason, failed || e == Invoke(h, false))
  {
  }

  lemma OtherClaimStands(s: State, h: nat, reason: Reason, failed: bool, other: nat, e: Event)
    requires OneEmission(s) && ClaimStands(s, h, reason, failed) && other < |s.handles| && other != h
    requires HandleStep(s, other, e).Some?
    ensures ClaimStands(HandleStep(s, other, e).value, h, reason, failed)
  {
    assert e.Report? ==> ClaimedBy(s, other);
    assert !s.handles[h].Spent? ==> ClaimedBy(s, h);
    hide OneEmission, ClaimedBy;
  }

  lemma RunnerClaimStands(s: State, h: nat, reason: Reason, failed: bool, e: Event)
    requires ClaimStands(s, h, reason, failed) && RunnerStep(s, e).Some?
    ensures ClaimStands(RunnerStep(s, e).value, h, reason, failed)
  {
  }

  lemma {:induction false} ClaimStandsRun(s: State, h: nat, reason: Reason, failed: bool, events: seq<Event>)
    requires Inv(s) && ClaimStands(s, h, reason, failed) && Run(s, events).Some?
    ensures ClaimStands(Run(s, events).value, h, reason, failed || Invoke(h, false) in events)
    decreases |events|
  {
    hide Inv, Step, ClaimStands;
    if events == [] {
    } else {
      StepKeepsInv(s, events[0]);
      ClaimStandsStep(s, h, reason, failed, events[0]);
      ClaimStandsRun(Step(s, events[0]).value, h, reason, failed || events[0] == Invoke(h, false), events[1..]);
      assert events == [events[0]] + events[1..];
    }
  }

  /** A cancellation that finds the emitter decides the outcome: whatever the work does or returns
      afterwards, what is emitted is that cancellation's reason, or its hook's failure if the hook failed. */
  lemma CancelRulesOutSuccess(handles: nat, before: seq<Event>, h: nat, reason: Reason, after: seq<Event>)
    requires Run(Initial(handles), before).Some? && Run(Initial(handles), before).value.emitter
    requires Step(Run(Initial(handles), before).value, Fire(h, reason)).Some?
    requires Run(Step(Run(Initial(handles), before).value, Fire(h, reason)).value, after).Some?
    ensures var t := Run(Step(Run(Initial(handles), before).value, Fire(h, reason)).value, after).value;
            h < |t.handles|
            && t.emitted == if !t.handles[h].Spent? then []
                            else if Invoke(h, false) in after then [Failed(HookFailed)]
                            else [Cancelled(reason)]
  {
    hide Run;
    InitialInv(handles);
    RunKeepsInv(Initial(handles), before);
    var s := Run(Initial(handles), before).value;
    StepKeepsInv(s, Fire(h, reason));
    ClaimStandsRun(Step(s, Fire(h, reason)).value, h, reason, false, after);
  }

  // ---------------------------------------------------------------- hooks

  /** A hook runs at most once. When every party is done, each hook that was installed and detached by a
      cancellation, or offered too late, has run exactly once; one cleared or rejected never runs. */
  lemma HooksRunOnce(handles: nat, events: seq<Event>, k: nat)
    requires Run(Initial(handles), events).Some? && k < |Run(Initial(handles), events).value.hooks|
    ensures var s := Run(Initial(handles), events).value;
            && s.hooks[k].runs <= 1
            && (Quiet(s) ==> s.hooks[k].runs == if Due(s.hooks[k]) then 1 else 0)
            && (Quiet(s) ==> !s.hooks[k].fate.Waiting?)
  {
    InitialInv(handles);
    RunKeepsInv(Initial(handles), events);
  }

  /** While a hook waits in the slot, a cancellation always detaches it and nothing later changes that. */
  lemma {:induction false} DetachedStays(s: State, events: seq<Event>, k: nat)
    requires Inv(s) && k < |s.hooks| && !s.hooks[k].fate.Waiting? && Run(s, events).Some?
    ensures k < |Run(s, events).value.hooks| && Run(s, events).value.hooks[k].fate == s.hooks[k].fate
    decreases |events|
  {
    hide Inv;
    if events == [] {
    } else {
      StepKeepsInv(s, events[0]);
      FateStays(s, events[0], k);
      DetachedStays(Step(s, events[0]).value, events[1..], k);
    }
  }

  lemma FateStays(s: State, e: Event, k: nat)
    requires Inv(s) && k < |s.hooks| && !s.hooks[k].fate.Waiting? && Step(s, e).Some?
    ensures k < |Step(s, e).value.hooks| && Step(s, e).value.hooks[k].fate == s.hooks[k].fate
  {
    hide OneEmission, CancelledByClaimant, HandleStep, RunnerStep;
    assert s.token.slot != Some(k);
    hide HooksOk;
    if HandleEvent(e) {
      HandleKeepsFate(s, e.handle, e, k);
    } else {
      RunnerKeepsFate(s, e, k);
    }
  }

  lemma HandleKeepsFate(s: State, h: nat, e: Event, k: nat)
    requires h < |s.handles| && HandleStep(s, h, e).Some? && k < |s.hooks| && s.token.slot != Some(k)
    ensures var t := HandleStep(s, h, e).value;
            k < |t.hooks| && t.hooks[k].fate == s.hooks[k].fate
  {
  }

  lemma RunnerKeepsFate(s: State, e: Event, k: nat)
    requires RunnerStep(s, e).Some? && k < |s.hooks| && s.token.slot != Some(k)
    ensures var t := RunnerStep(s, e).value;
            k < |t.hooks| && t.hooks[k].fate == s.hooks[k].fate
  {
  }

  /** A hook still installed when the token is cancelled runs exactly once, however the run goes on. */
  lemma InstalledHookRuns(handles: nat, before: seq<Event>, cancel: Event, after: seq<Event>)
    requires Run(Initial(handles), before).Some? && Run(Initial(handles), before).value.token.slot.Some?
    requires cancel.Detach? || cancel.PanicDetach?
    requires Step(Run(Initial(handles), before).value, cancel).Some?
    requires Run(Step(Run(Initial(handles), before).value, cancel).value, after).Some?
    ensures var s := Run(Initial(handles), before).value;
            var k, t := s.token.slot.value, Run(Step(s, cancel).value, after).value;
            k < |t.hooks| && (Quiet(t) ==> t.hooks[k].runs == 1)
  {
    hide Run;
    InitialInv(handles);
    RunKeepsInv(Initial(handles), before);
    var s := Run(Initial(handles), before).value;
    var k, u := s.token.slot.value, Step(s, cancel).value;
    StepKeepsInv(s, cancel);
    DetachedStays(u, after, k);
    RunKeepsInv(u, after);
  }

  /** A hook that was in the slot when it was cleared never runs, however the run goes on. */
  lemma ClearedHookNeverRuns(handles: nat, before: seq<Event>, clear: Event, after: seq<Event>)
    requires Run(Initial(handles), before).Some? && Run(Initial(handles), before).value.token.slot.Some?
    requires clear.WorkClear? || clear.FinalClear?
    requires Step(Run(Initial(handles), before).value, clear).Some?
    requires Run(Step(Run(Initial(handles), before).value, clear).value, after).Some?
    ensures var s := Run(Initial(handles), before).value;
            var k, t := s.token.slot.value, Run(Step(s, clear).value, after).value;
            k < |t.hooks| && t.hooks[k].runs == 0
  {
    hide Run;
    InitialInv(handles);
    RunKeepsInv(Initial(handles), before);
    var s := Run(Initial(handles), before).value;
    var k, u := s.token.slot.value, Step(s, clear).value;
    StepKeepsInv(s, clear);
    DetachedStays(u, after, k);
    RunKeepsInv(u, after);
  }

  // ---------------------------------------------------------------- after a cancellation

  /** Cancelled for good: every hook offered since was offered too late; `idle`: and the work never starts. */
  ghost predicate Sealed(s: State, since: nat, idle: bool) {
    && s.token == Token(true, None) && since <= |s.hooks|
    && (forall k :: since <= k < |s.hooks| ==> s.hooks[k].fate.RanLate?)
    && (idle ==> s.runner.Starting? || s.runner.Checking? || s.runner.Finishing? || s.runner.Emitting?
                 || s.runner.Returned?)
  }

  lemma SealedKept(s: State, since: nat, idle: bool, e: Event)
    requires Sealed(s, since, idle) && Step(s, e).Some?
    ensures Sealed(Step(s, e).value, since, idle) && (idle ==> !e.Register? && !e.Return?)
  {
    hide HandleStep, RunnerStep;
    if HandleEvent(e) {
      HandleKeepsSealed(s, since, idle, e.handle, e);
    } else {
      RunnerKeepsSealed(s, since, idle, e);
    }
  }

  lemma HandleKeepsSealed(s: State, since: nat, idle: bool, h: nat, e: Event)
    requires Sealed(s, since, idle) && h < |s.handles| && HandleStep(s, h, e).Some?
    ensures Sealed(HandleStep(s, h, e).value, since, idle)
  {
  }

  lemma RunnerKeepsSealed(s: State, since: nat, idle: bool, e: Event)
    requires Sealed(s, since, idle) && RunnerStep(s, e).Some?
    ensures Sealed(RunnerStep(s, e).value, since, idle) && (idle ==> !e.Register? && !e.Return?)
  {
  }

  lemma {:induction false} SealedStays(s: State, since: nat, idle: bool, events: seq<Event>)
    requires Sealed(s, since, idle) && Run(s, events).Some?
    ensures Sealed(Run(s, events).value, since, idle)
    ensures idle ==> forall e :: e in events ==> !e.Register? && !e.Return?
    decreases |events|
  {
    hide Sealed, Step;
    if events == [] {
    } else {
      SealedKept(s, since, idle, events[0]);
      SealedStays(Step(s, events[0]).value, since, idle, events[1..]);
      assert events == [events[0]] + events[1..];
    }
  }

  /** From a cancellation on, whichever party it came from: the token stays cancelled, every hook offered later runs
      at once, exactly once in the end, and work that had not started never does. */
  lemma CancellationIsSeen(handles: nat, before: seq<Event>, cancel: Event, after: seq<Event>)
    requires Run(Initial(handles), before).Some? && (cancel.Detach? || cancel.PanicDetach?)
    requires Step(Run(Initial(handles), before).value, cancel).Some?
    requires Run(Step(Run(Initial(handles), before).value, cancel).value, after).Some?
    ensures var s := Run(Initial(handles), before).value;
            var t := Run(Step(s, cancel).value, after).value;
            && t.token == Token(true, None)
            && (forall k :: |s.hooks| <= k < |t.hooks| ==>
                  t.hooks[k].fate.RanLate? && (Quiet(t) ==> t.hooks[k].runs == 1))
            && (s.runner.Starting? || s.runner.Checking? ==> forall e :: e in after ==> !e.Register? && !e.Return?)
  {
    hide Run;
    InitialInv(handles);
    RunKeepsInv(Initial(handles), before);
    var s := Run(Initial(handles), before).value;
    var u := Step(s, cancel).value;
    StepKeepsInv(s, cancel);
    SealedStays(u, |s.hooks|, s.runner.Starting? || s.runner.Checking?, after);
    RunKeepsInv(u, after);
  }
}
