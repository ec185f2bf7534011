/** Ownership of one child process: spawn, wait and drop by the owner, cancellation by any number of parties,
    the child's own exit and other owners of the same token. One event per mutex section or system call, in
    any order. */
module Process {
  import opened Wrappers
  import opened Cancel

  datatype Child = Unborn | Live | Exited | Reaped

  datatype Owner =
    | Registering
    | InvokingLate
    | Checking
    | Refusing
    | Spawning
    | Landing
    | Owning
    | Polling
    | Revoking
    | Reaping
    | Releasing
    | Terminating
    | Killing
    | Dropping
    | Gone

  datatype Canceller = Idle | Detaching(ours: bool) | Done

  /** What the mutex guards. */
  datatype Group = Group(pid: bool, cancelled: bool, leased: bool)

  /** `hook`: this process's number in the token's slot; any other belongs to another owner.
      `attempted`: the group was signalled, or its lease shut, whatever the system answered.
      `shuts`: how often the lease was shut.
      `groupKills`, `childKills`: the child as it was at each kill sent to the group or to it alone.
      `disarmed`: another owner of the same token cleared this process's hook. */
  datatype State = State(hook: nat, token: Token, group: Group, child: Child, owner: Owner, reaped: bool,
                         dropping: bool, cancellers: seq<Canceller>, attempted: bool, shuts: nat,
                         groupKills: seq<Child>, childKills: seq<Child>, waitFailed: bool, disarmed: bool)

  datatype Event =
    | Register
    | InvokeLate(ok: bool)
    | Check
    | Refuse
    | Spawn(ok: bool)
    | Land(ok: bool)
    | Terminate
    | Wait
    | Poll(ok: bool)
    | Revoke
    | Reap(ok: bool)
    | Release
    | Drop
    | KillChild
    | Forget
    | Detach(party: nat)
    | Invoke(party: nat)
    | Exit
    | ForeignOffer(hook: nat)
    | ForeignClear

  function Initial(hook: nat, cancellers: nat, leased: bool, token: Token): State {
    State(hook, token, Group(false, false, leased), Unborn, Registering, false, false,
          seq(cancellers, _ => Idle), false, 0, [], [], false, false)
  }

  // ---------------------------------------------------------------- the group's sections

  /** A lease is shut instead of signalling; without either there is nothing to signal. */
  function Signal(s: State): State {
    if s.group.leased then s.(attempted := true, shuts := s.shuts + 1)
    else if s.group.pid then s.(attempted := true, groupKills := s.groupKills + [s.child])
    else s
  }

  /** Only an actual attempt can fail. */
  predicate CanFail(group: Group) { group.leased || group.pid }

  function CancelGroup(s: State): State {
    Signal(s.(group := s.group.(cancelled := true)))
  }

  function ClearSlot(s: State): State { s.(token := s.token.(slot := None)) }

  /** After a wait: back to the caller, or on with the drop. */
  function AfterWait(s: State): State { s.(owner := if s.dropping then Dropping else Owning) }

  function Landed(s: State, ok: bool): State {
    var t := s.(group := s.group.(pid := true), owner := Owning);
    if t.group.cancelled || t.token.cancelled then
      CancelGroup(t).(owner := if ok then Owning else Terminating, dropping := !ok)
    else t
  }

  /** An occupied slot refuses the process; a token already cancelled has it run its hook at once. */
  function Registered(s: State): State {
    var (token, registration) := Offer(s.token, s.hook);
    var owner := match registration case Installed => Checking case Occupied => Gone case Late => InvokingLate;
    s.(token := token, owner := owner)
  }

  // ---------------------------------------------------------------- steps

  /** A kill goes to a group with a number, or one that is just getting it, and to the child as it is. */
  predicate KilledNow(s: State, t: State) {
    && (t.groupKills == s.groupKills || (t.groupKills == s.groupKills + [s.child] && (s.group.pid || s.owner.Landing?)))
    && (t.childKills == s.childKills || (t.childKills == s.childKills + [s.child] && s.owner.Killing?))
  }

  predicate Unspawned(owner: Owner) {
    owner.Registering? || owner.InvokingLate? || owner.Checking? || owner.Refusing? || owner.Spawning?
  }

  function SpawnStep(s: State, e: Event): Option<State> {
    match e
    case Register => if !s.owner.Registering? then None else Some(Registered(s))
    case InvokeLate(ok) =>
      if !s.owner.InvokingLate? || (!ok && !CanFail(s.group)) then None
      else Some(CancelGroup(s).(owner := if ok then Checking else Gone))
    case Check => if !s.owner.Checking? then None
      else Some(s.(owner := if s.token.cancelled then Refusing else Spawning))
    case Refuse => if !s.owner.Refusing? then None else Some(ClearSlot(s).(owner := Gone))
    case Spawn(ok) =>
      if !s.owner.Spawning? then None
      else Some(if ok then s.(child := Live, owner := Landing) else s.(owner := Refusing))
    case Land(ok) => if !s.owner.Landing? then None else Some(Landed(s, ok))
    case _ => None
  }

  function WaitStep(s: State, e: Event): (t: Option<State>)
    ensures t.Some? ==> t.value.cancellers == s.cancellers && KilledNow(s, t.value)
  {
    match e
    case Wait => if !s.owner.Owning? then None else Some(s.(owner := if s.reaped then Revoking else Polling))
    case Poll(ok) =>
      if !s.owner.Polling? then None
      else if !ok then Some(AfterWait(s.(waitFailed := true)))
      else Some(s.(owner := if s.child.Exited? then Revoking else Polling))
    case Revoke => if !s.owner.Revoking? then None else Some(s.(group := s.group.(pid := false), owner := Reaping))
    case Reap(ok) =>
      if !s.owner.Reaping? || (!ok && s.reaped) then None
      else if ok then Some(s.(child := Reaped, reaped := true, owner := Releasing))
      else Some(AfterWait(s.(waitFailed := true)))
    case Release => if !s.owner.Releasing? then None else Some(AfterWait(ClearSlot(s)))
    case _ => None
  }

  function DropStep(s: State, e: Event): (t: Option<State>)
    ensures t.Some? ==> t.value.cancellers == s.cancellers && KilledNow(s, t.value)
  {
    match e
    case Terminate =>
      if s.owner.Owning? then Some(Signal(s)) else if s.owner.Terminating? then Some(Signal(s).(owner := Killing))
        else None
    case Drop =>
      if !s.owner.Owning? then None else Some(s.(dropping := true, owner := if s.reaped then Dropping else Terminating))
    case KillChild =>
      if !s.owner.Killing? then None
      else Some(s.(childKills := if s.group.leased then s.childKills else s.childKills + [s.child], owner := Polling))
    case Forget => if !s.owner.Dropping? then None else Some(ClearSlot(s).(owner := Gone))
    case _ => None
  }

  predicate SpawnEvent(e: Event) { e.Register? || e.InvokeLate? || e.Check? || e.Refuse? || e.Spawn? || e.Land? }

  predicate WaitEvent(e: Event) { e.Wait? || e.Poll? || e.Revoke? || e.Reap? || e.Release? }

  predicate DropEvent(e: Event) { e.Terminate? || e.Drop? || e.KillChild? || e.Forget? }

  function CancellerStep(s: State, i: nat, e: Event): (t: Option<State>)
    requires i < |s.cancellers|
    ensures t.Some? ==> KilledNow(s, t.value)
  {
    match (s.cancellers[i], e)
    case (Idle, Detach(_)) =>
      Some(s.(token := Token(true, None), cancellers := s.cancellers[i := Detaching(s.token.slot == Some(s.hook))]))
    case (Detaching(ours), Invoke(_)) =>
      Some((if ours then CancelGroup(s) else s).(cancellers := s.cancellers[i := Done]))
    case _ => None
  }

  /** The child may exit on its own at any time; other owners share the token. */
  function OutsideStep(s: State, e: Event): (t: Option<State>)
    ensures t.Some? ==> t.value.cancellers == s.cancellers && KilledNow(s, t.value)
  {
    match e
    case Exit => if s.child.Live? then Some(s.(child := Exited)) else None
    case ForeignOffer(hook) => if hook == s.hook then None else Some(s.(token := Offer(s.token, hook).0))
    case ForeignClear => Some(ClearSlot(s).(disarmed := s.disarmed || s.token.slot == Some(s.hook)))
    case _ => None
  }

  function Step(s: State, e: Event): Option<State> {
    if SpawnEvent(e) then SpawnStep(s, e)
    else if WaitEvent(e) then WaitStep(s, e)
    else if DropEvent(e) then DropStep(s, e)
    else if e.Detach? || e.Invoke? then if e.party < |s.cancellers| then CancellerStep(s, e.party, e) else None
    else OutsideStep(s, e)
  }

  function Run(s: State, events: seq<Event>): Option<State>
    decreases |events|
  {
    if events == [] then Some(s)
    else match Step(s, events[0])
      case None => None
      case Some(next) => Run(next, events[1..])
  }

  // ---------------------------------------------------------------- what every step keeps

  predicate Waitable(child: Child) { child.Live? || child.Exited? }

  predicate PastPoll(owner: Owner) { owner.Revoking? || owner.Reaping? }

  /** The child's life follows the owner's. */
  predicate LifeOk(s: State) {
    && (Unspawned(s.owner) ==> s.child.Unborn?)
    && (s.owner.Landing? ==> Waitable(s.child))
    && (!Unspawned(s.owner) && !s.owner.Gone? ==> !s.child.Unborn?)
    && (s.reaped <==> s.child.Reaped?)
    && (s.group.pid ==> Waitable(s.child) && !Unspawned(s.owner) && !s.owner.Landing?)
    && (s.child.Live? ==> s.group.pid || s.owner.Landing?)
    && (PastPoll(s.owner) ==> !s.child.Live?)
    && (s.owner.Reaping? ==> !s.group.pid)
    && (s.owner.Releasing? ==> s.reaped)
    && (s.owner.Terminating? || s.owner.Killing? || s.owner.Dropping? ==> s.dropping)
    && (s.dropping ==> !Unspawned(s.owner) && !s.owner.Landing? && !s.owner.Owning?)
    && (s.owner.Polling? || s.owner.Terminating? || s.owner.Killing? ==> !s.reaped)
    && (s.owner.Dropping? || s.owner.Gone? ==> s.child in {Unborn, Reaped} || s.waitFailed)
    && (s.dropping && s.child.Live? && !s.owner.Terminating? ==> s.attempted)
  }

  /** Every kill found the child spawned and not yet reaped. */
  predicate KillsOk(s: State) {
    && (forall k :: 0 <= k < |s.groupKills| ==> Waitable(s.groupKills[k]))
    && (forall k :: 0 <= k < |s.childKills| ==> Waitable(s.childKills[k]))
  }

  ghost predicate HookInFlight(s: State) {
    exists i :: 0 <= i < |s.cancellers| && s.cancellers[i] == Detaching(true)
  }

  /** Cancellation reaches the child: through the slot before, through a party on its way or through the
      landing after. */
  ghost predicate Reachable(s: State) {
    && (s.group.cancelled ==> s.token.cancelled)
    && (s.token.cancelled ==> s.token.slot.None?)
    && (forall i :: 0 <= i < |s.cancellers| && s.cancellers[i].Detaching? ==> s.token.cancelled)
    && (!s.token.cancelled && !s.disarmed && (s.child.Live? || s.owner.Checking? || s.owner.Spawning?) ==>
          s.token.slot == Some(s.hook) || (s.owner.Gone? && s.attempted))
    && (s.token.cancelled && !s.disarmed && s.child.Live? && !s.owner.Landing? ==> s.attempted || HookInFlight(s))
    && (s.owner.InvokingLate? ==> s.token.cancelled)
  }

  ghost predicate Inv(s: State) {
    LifeOk(s) && KillsOk(s) && Reachable(s)
  }

  lemma InitialInv(hook: nat, cancellers: nat, leased: bool, token: Token)
    requires token.cancelled ==> token.slot.None?
    ensures Inv(Initial(hook, cancellers, leased, token))
  {
  }

  lemma LifeKept(s: State, e: Event)
    requires LifeOk(s) && Step(s, e).Some?
    ensures LifeOk(Step(s, e).value)
  {
    hide LifeOk, SpawnStep, WaitStep, DropStep, CancellerStep, OutsideStep;
    if SpawnEvent(e) {
      SpawnKeepsLife(s, e);
    } else if DropEvent(e) {
      DropKeepsLife(s, e);
    } else if e.Poll? {
      PollKeepsLife(s, e);
    } else if e.Reap? {
      ReapKeepsLife(s, e);
    } else if WaitEvent(e) {
      WaitKeepsLife(s, e);
    } else if e.Detach? || e.Invoke? {
      CancelKeepsLife(s, e.party, e);
    } else {
      OutsideKeepsLife(s, e);
    }
  }

  lemma SpawnKeepsLife(s: State, e: Event)
    requires LifeOk(s) && Step(s, e).Some? && SpawnEvent(e)
    ensures LifeOk(Step(s, e).value)
  {
    hide WaitStep, DropStep, CancellerStep, OutsideStep;
  }

  lemma WaitKeepsLife(s: State, e: Event)
    requires LifeOk(s) && Step(s, e).Some? && (e.Wait? || e.Revoke? || e.Release?)
    ensures LifeOk(Step(s, e).value)
  {
    hide SpawnStep, DropStep, CancellerStep, OutsideStep;
  }

  lemma PollKeepsLife(s: State, e: Event)
    requires LifeOk(s) && WaitStep(s, e).Some? && e.Poll?
    ensures LifeOk(WaitStep(s, e).value)
  {
    hide KilledNow;
  }

  lemma ReapKeepsLife(s: State, e: Event)
    requires LifeOk(s) && WaitStep(s, e).Some? && e.Reap?
    ensures LifeOk(WaitStep(s, e).value)
  {
    hide KilledNow;
  }

  lemma DropKeepsLife(s: State, e: Event)
    requires LifeOk(s) && Step(s, e).Some? && DropEvent(e)
    ensures LifeOk(Step(s, e).value)
  {
    hide WaitStep, SpawnStep, CancellerStep, OutsideStep;
  }

  lemma CancelKeepsLife(s: State, i: nat, e: Event)
    requires LifeOk(s) && i < |s.cancellers| && CancellerStep(s, i, e).Some?
    ensures LifeOk(CancellerStep(s, i, e).value)
  {
    var t := CancellerStep(s, i, e).value;
    assert (t.owner, t.child, t.reaped, t.dropping, t.waitFailed)
      == (s.owner, s.child, s.reaped, s.dropping, s.waitFailed);
    assert t.group.pid == s.group.pid && (s.attempted ==> t.attempted);
    hide CancellerStep;
  }

  lemma OutsideKeepsLife(s: State, e: Event)
    requires LifeOk(s) && OutsideStep(s, e).Some?
    ensures LifeOk(OutsideStep(s, e).value)
  {
  }

  lemma SpawnKills(s: State, e: Event)
    requires SpawnStep(s, e).Some?
    ensures SpawnStep(s, e).value.cancellers == s.cancellers && KilledNow(s, SpawnStep(s, e).value)
  {
    hide Landed, CancelGroup;
    if e.InvokeLate? { CancelGroupKills(s); }
    if e.Land? { LandKills(s, e.ok); }
  }

  lemma CancelGroupKills(s: State)
    ensures CancelGroup(s).cancellers == s.cancellers && CancelGroup(s).childKills == s.childKills
    ensures CancelGroup(s).groupKills == s.groupKills
            || (CancelGroup(s).groupKills == s.groupKills + [s.child] && s.group.pid)
  {
  }

  lemma LandKills(s: State, ok: bool)
    requires s.owner.Landing?
    ensures Landed(s, ok).cancellers == s.cancellers && KilledNow(s, Landed(s, ok))
  {
  }

  lemma KillsGrow(s: State, e: Event)
    requires Step(s, e).Some?
    ensures KilledNow(s, Step(s, e).value)
  {
    if SpawnEvent(e) { SpawnKills(s, e); }
    hide SpawnStep, WaitStep, DropStep, CancellerStep, OutsideStep;
  }

  lemma KillsKept(s: State, e: Event)
    requires LifeOk(s) && KillsOk(s) && Step(s, e).Some?
    ensures KillsOk(Step(s, e).value)
  {
    hide Step;
    KillsGrow(s, e);
  }

  lemma ReachableKept(s: State, e: Event)
    requires LifeOk(s) && Reachable(s) && Step(s, e).Some?
    ensures Reachable(Step(s, e).value)
  {
    hide LifeOk, Reachable, SpawnStep, WaitStep, DropStep, CancellerStep, OutsideStep;
    if SpawnEvent(e) {
      SpawnKeepsReachable(s, e);
    } else if WaitEvent(e) {
      WaitKeepsReachable(s, e);
    } else if DropEvent(e) {
      DropKeepsReachable(s, e);
    } else if e.Detach? || e.Invoke? {
      CancelKeepsReachable(s, e.party, e);
    } else {
      OutsideKeepsReachable(s, e);
    }
  }

  lemma SpawnKeepsReachable(s: State, e: Event)
    requires LifeOk(s) && Reachable(s) && Step(s, e).Some? && SpawnEvent(e)
    ensures Reachable(Step(s, e).value)
  {
    hide WaitStep, DropStep, CancellerStep, OutsideStep;
    SameFlight(s, e);
    hide HookInFlight;
  }

  lemma WaitKeepsReachable(s: State, e: Event)
    requires LifeOk(s) && Reachable(s) && Step(s, e).Some? && WaitEvent(e)
    ensures Reachable(Step(s, e).value)
  {
    hide SpawnStep, DropStep, CancellerStep, OutsideStep;
    SameFlight(s, e);
    hide HookInFlight;
  }

  lemma DropKeepsReachable(s: State, e: Event)
    requires LifeOk(s) && Reachable(s) && Step(s, e).Some? && DropEvent(e)
    ensures Reachable(Step(s, e).value)
  {
    hide WaitStep, SpawnStep, CancellerStep, OutsideStep;
    SameFlight(s, e);
    hide HookInFlight;
  }

  lemma SameFlight(s: State, e: Event)
    requires Step(s, e).Some? && !e.Detach? && !e.Invoke?
    ensures Step(s, e).value.cancellers == s.cancellers && (HookInFlight(Step(s, e).value) <==> HookInFlight(s))
  {
    if SpawnEvent(e) { SpawnKills(s, e); }
    hide SpawnStep, WaitStep, DropStep, CancellerStep, OutsideStep;
  }

  lemma CancelKeepsReachable(s: State, i: nat, e: Event)
    requires LifeOk(s) && Reachable(s) && i < |s.cancellers| && CancellerStep(s, i, e).Some?
    ensures Reachable(CancellerStep(s, i, e).value)
  {
    var t := CancellerStep(s, i, e).value;
    if e.Detach? {
      if s.token.slot == Some(s.hook) {
        assert t.cancellers[i] == Detaching(true);
      }
      assert forall k :: 0 <= k < |s.cancellers| && s.cancellers[k].Detaching? ==> t.cancellers[k] == s.cancellers[k];
    } else {
      assert forall k :: 0 <= k < |s.cancellers| && k != i ==> t.cancellers[k] == s.cancellers[k];
    }
  }

  lemma OutsideKeepsReachable(s: State, e: Event)
    requires LifeOk(s) && Reachable(s) && OutsideStep(s, e).Some?
    ensures Reachable(OutsideStep(s, e).value)
  {
    assert HookInFlight(OutsideStep(s, e).value) <==> HookInFlight(s);
    hide HookInFlight, LifeOk;
  }

  lemma StepKeepsInv(s: State, e: Event)
    requires Inv(s) && Step(s, e).Some?
    ensures Inv(Step(s, e).value)
  {
    hide Step, LifeOk, KillsOk, Reachable;
    LifeKept(s, e);
    KillsKept(s, e);
    ReachableKept(s, e);
  }

  lemma {:induction false} RunKeepsInv(s: State, events: seq<Event>)
    requires Inv(s) && Run(s, events).Some?
    ensures Inv(Run(s, events).value)
    decreases |events|
  {
    hide Inv, Step;
    if events == [] {
    } else {
      StepKeepsInv(s, events[0]);
      RunKeepsInv(Step(s, events[0]).value, events[1..]);
    }
  }

  // ---------------------------------------------------------------- safety over all runs

  /** No signal ever reaches the child's number before the spawn or after the reap. */
  lemma NoKillAfterReap(hook: nat, cancellers: nat, leased: bool, token: Token, events: seq<Event>)
    requires token.cancelled ==> token.slot.None?
    requires Run(Initial(hook, cancellers, leased, token), events).Some?
    ensures var s := Run(Initial(hook, cancellers, leased, token), events).value;
            && (forall k :: 0 <= k < |s.groupKills| ==> s.groupKills[k] !in {Unborn, Reaped})
            && (forall k :: 0 <= k < |s.childKills| ==> s.childKills[k] !in {Unborn, Reaped})
  {
    InitialInv(hook, cancellers, leased, token);
    RunKeepsInv(Initial(hook, cancellers, leased, token), events);
  }

  /** A cancelled child that is still alive once it landed has been signalled, or a party holding its hook
      is about to; so when all parties are done it has been signalled, unless another owner of the token
      cleared the hook. */
  lemma CancelledChildIsSignalled(hook: nat, cancellers: nat, leased: bool, token: Token, events: seq<Event>)
    requires token.cancelled ==> token.slot.None?
    requires Run(Initial(hook, cancellers, leased, token), events).Some?
    ensures var s := Run(Initial(hook, cancellers, leased, token), events).value;
            s.token.cancelled && s.child.Live? && !s.owner.Landing? && !s.disarmed
            && (forall i :: 0 <= i < |s.cancellers| ==> !s.cancellers[i].Detaching?)
            ==> s.attempted
  {
    InitialInv(hook, cancellers, leased, token);
    RunKeepsInv(Initial(hook, cancellers, leased, token), events);
  }

  /** The token was cancelled while the spawn was under way, or before it. */
  predicate CancelledInTime(s: State) {
    s.token.cancelled && (BeforeSpawn(s) || (s.owner.Spawning? && s.child.Unborn?) || s.owner.Landing? || s.attempted)
  }

  /** Not yet past the check, or never going to be. */
  predicate BeforeSpawn(s: State) {
    s.child.Unborn? && (s.owner.Registering? || s.owner.InvokingLate? || s.owner.Checking? || s.owner.Refusing?
                        || s.owner.Gone?)
  }

  lemma InTimeKept(s: State, e: Event)
    requires CancelledInTime(s) && Step(s, e).Some?
    ensures CancelledInTime(Step(s, e).value)
    ensures BeforeSpawn(s) ==> BeforeSpawn(Step(s, e).value)
  {
    hide KilledNow, SpawnStep, WaitStep, DropStep, CancellerStep, OutsideStep;
    if SpawnEvent(e) {
      SpawnKeepsInTime(s, e);
    } else {
      LaterKeepsInTime(s, e);
    }
  }

  lemma SpawnKeepsInTime(s: State, e: Event)
    requires CancelledInTime(s) && SpawnStep(s, e).Some?
    ensures CancelledInTime(SpawnStep(s, e).value)
    ensures BeforeSpawn(s) ==> BeforeSpawn(SpawnStep(s, e).value)
  {
    hide KilledNow;
  }

  lemma LaterKeepsInTime(s: State, e: Event)
    requires CancelledInTime(s) && Step(s, e).Some? && !SpawnEvent(e)
    ensures CancelledInTime(Step(s, e).value)
    ensures BeforeSpawn(s) ==> BeforeSpawn(Step(s, e).value)
  {
    StepIsOnward(s, e);
    hide Step;
  }

  /** The hook is offered once, a clear of it by another owner is remembered, and neither a cancellation nor an
      attempt to signal is taken back. */
  predicate Onward(s: State, t: State) {
    && t.hook == s.hook && (s.attempted ==> t.attempted) && (s.token.cancelled ==> t.token.cancelled)
    && (t.owner.Registering? ==> s.owner.Registering?)
    && (t.token.slot == Some(s.hook) ==>
        s.token.slot == Some(s.hook) || (s.owner.Registering? && !t.owner.Registering?))
    && (t.disarmed ==> s.disarmed || (t.token.slot.None? && s.token.slot == Some(s.hook)))
    && (s.owner.Registering? && !t.owner.Registering? ==> t.disarmed == s.disarmed)
  }

  /** The owner stays where it is on its way to the landing, or gone, and no child is born. */
  predicate StageKept(s: State, t: State) {
    && (Unspawned(s.owner) || s.owner.Landing? || s.owner.Gone? ==> t.owner == s.owner)
    && (s.child.Unborn? && (Unspawned(s.owner) || s.owner.Gone?) ==> t.child.Unborn?)
  }

  lemma StepIsOnward(s: State, e: Event)
    requires Step(s, e).Some?
    ensures Onward(s, Step(s, e).value) && (!SpawnEvent(e) ==> StageKept(s, Step(s, e).value))
  {
    hide Onward, StageKept, SpawnStep, WaitStep, DropStep, CancellerStep, OutsideStep, KilledNow;
    if SpawnEvent(e) {
      SpawnIsOnward(s, e);
    } else if WaitEvent(e) {
      WaitIsOnward(s, e);
    } else if DropEvent(e) {
      DropIsOnward(s, e);
    } else if e.Detach? || e.Invoke? {
      CancelIsOnward(s, e.party, e);
    } else {
      OutsideIsOnward(s, e);
    }
  }

  lemma SpawnIsOnward(s: State, e: Event)
    requires SpawnStep(s, e).Some?
    ensures Onward(s, SpawnStep(s, e).value)
  {
    hide KilledNow, Registered, Landed;
    if e.Register? { RegisterIsOnward(s); }
    if e.Land? { LandIsOnward(s, e.ok); }
  }

  lemma RegisterIsOnward(s: State)
    requires s.owner.Registering?
    ensures Onward(s, Registered(s))
  {
  }

  lemma LandIsOnward(s: State, ok: bool)
    requires s.owner.Landing?
    ensures Onward(s, Landed(s, ok))
  {
  }

  lemma WaitIsOnward(s: State, e: Event)
    requires WaitStep(s, e).Some?
    ensures Onward(s, WaitStep(s, e).value) && StageKept(s, WaitStep(s, e).value)
  {
    hide KilledNow;
  }

  lemma DropIsOnward(s: State, e: Event)
    requires DropStep(s, e).Some?
    ensures Onward(s, DropStep(s, e).value) && StageKept(s, DropStep(s, e).value)
  {
    hide KilledNow, Signal;
    SignalFrame(s);
  }

  lemma SignalFrame(s: State)
    ensures var t := Signal(s);
            && (t.hook, t.token, t.child, t.owner, t.disarmed) == (s.hook, s.token, s.child, s.owner, s.disarmed)
            && (s.attempted ==> t.attempted)
  {
  }

  lemma CancelIsOnward(s: State, i: nat, e: Event)
    requires i < |s.cancellers| && CancellerStep(s, i, e).Some?
    ensures Onward(s, CancellerStep(s, i, e).value) && StageKept(s, CancellerStep(s, i, e).value)
  {
    hide KilledNow;
  }

  lemma OutsideIsOnward(s: State, e: Event)
    requires OutsideStep(s, e).Some?
    ensures Onward(s, OutsideStep(s, e).value) && StageKept(s, OutsideStep(s, e).value)
  {
    hide KilledNow;
  }

  lemma {:induction false} InTimeStays(s: State, events: seq<Event>)
    requires CancelledInTime(s) && Run(s, events).Some?
    ensures CancelledInTime(Run(s, events).value)
    ensures BeforeSpawn(s) ==> BeforeSpawn(Run(s, events).value)
    decreases |events|
  {
    hide Step, CancelledInTime, BeforeSpawn;
    if events == [] {
    } else {
      InTimeKept(s, events[0]);
      InTimeStays(Step(s, events[0]).value, events[1..]);
    }
  }

  /** Cancellation racing the spawn, over whole runs: a token cancelled before the check never spawns a child,
      whatever follows; one cancelled later, up to the landing, has the child signalled once it landed. */
  lemma SpawnRaceIsCaught(hook: nat, cancellers: nat, leased: bool, token: Token, before: seq<Event>, after: seq<Event>)
    requires token.cancelled ==> token.slot.None?
    requires Run(Initial(hook, cancellers, leased, token), before).Some?
    requires Run(Run(Initial(hook, cancellers, leased, token), before).value, after).Some?
    ensures var s := Run(Initial(hook, cancellers, leased, token), before).value;
            var t := Run(s, after).value;
            && (s.token.cancelled && Unspawned(s.owner) && !s.owner.Spawning? ==> t.child.Unborn?)
            && (s.token.cancelled && (s.owner.Spawning? || s.owner.Landing?) && t.child.Live? && !t.owner.Landing? ==>
                  t.attempted)
  {
    InitialInv(hook, cancellers, leased, token);
    RunKeepsInv(Initial(hook, cancellers, leased, token), before);
    var s := Run(Initial(hook, cancellers, leased, token), before).value;
    RunKeepsInv(s, after);
    if s.token.cancelled && (Unspawned(s.owner) || s.owner.Landing?) {
      InTimeStays(s, after);
    }
  }

  /** An owner that is gone leaves no child behind, unless observing or reaping it failed. */
  lemma NoChildLeftBehind(hook: nat, cancellers: nat, leased: bool, token: Token, events: seq<Event>)
    requires token.cancelled ==> token.slot.None?
    requires Run(Initial(hook, cancellers, leased, token), events).Some?
    ensures var s := Run(Initial(hook, cancellers, leased, token), events).value;
            s.owner.Gone? && !s.waitFailed ==> s.child in {Unborn, Reaped}
  {
    InitialInv(hook, cancellers, leased, token);
    RunKeepsInv(Initial(hook, cancellers, leased, token), events);
  }

  // ---------------------------------------------------------------- ending the child

  /** What one attempt on the group comes to: its lease is shut, or the live child's group is killed. */
  predicate Attempted(s: State, t: State) {
    t.attempted && if s.group.leased then t.shuts == s.shuts + 1 && t.groupKills == s.groupKills
                   else t.shuts == s.shuts && t.groupKills == s.groupKills + [Live]
  }

  /** In every run an owner that terminates its live child makes one attempt and keeps the child; one that drops it
      makes one attempt, kills the child itself as well unless the lease answers for it, and goes on to wait. */
  lemma EndingSignals(hook: nat, cancellers: nat, leased: bool, token: Token, events: seq<Event>)
    requires token.cancelled ==> token.slot.None?
    requires Run(Initial(hook, cancellers, leased, token), events).Some?
    ensures var s := Run(Initial(hook, cancellers, leased, token), events).value;
            s.owner.Owning? && s.child.Live? ==>
              && Step(s, Terminate).Some? && Attempted(s, Step(s, Terminate).value)
              && Step(s, Terminate).value.owner.Owning?
              && Run(s, [Drop, Terminate, KillChild]).Some?
              && var t := Run(s, [Drop, Terminate, KillChild]).value;
                 && Attempted(s, t) && t.dropping && t.owner.Polling?
                 && t.childKills == if s.group.leased then s.childKills else s.childKills + [Live]
  {
    InitialInv(hook, cancellers, leased, token);
    RunKeepsInv(Initial(hook, cancellers, leased, token), events);
    var s := Run(Initial(hook, cancellers, leased, token), events).value;
    if s.owner.Owning? && s.child.Live? {
      DropSignals(s);
    }
  }

  lemma DropSignals(s: State)
    requires LifeOk(s) && s.owner.Owning? && s.child.Live?
    ensures Step(s, Terminate).Some? && Attempted(s, Step(s, Terminate).value)
    ensures Step(s, Terminate).value.owner.Owning?
    ensures Run(s, [Drop, Terminate, KillChild]).Some?
    ensures var t := Run(s, [Drop, Terminate, KillChild]).value;
            && Attempted(s, t) && t.dropping && t.owner.Polling?
            && t.childKills == if s.group.leased then s.childKills else s.childKills + [Live]
  {
    var a := Step(s, Drop).value;
    var b := Step(a, Terminate).value;
    assert [Drop, Terminate, KillChild][1..] == [Terminate, KillChild];
    RunTwo(a, Terminate, KillChild);
  }

  // ---------------------------------------------------------------- two owners, one token

  /** A live child whose hook is not in the slot of a token nobody has cancelled yet. */
  predicate Exposed(s: State) {
    s.child.Live? && !s.owner.Landing? && !s.owner.Gone? && !s.token.cancelled && s.token.slot != Some(s.hook)
  }

  predicate Quiet(cancellers: seq<Canceller>) {
    forall i :: 0 <= i < |cancellers| ==> !cancellers[i].Detaching?
  }

  /** Exactly then a cancellation misses the child: it sends nothing. Otherwise it kills the group of the live
      child, or shuts its lease, then and there. */
  lemma CancellationMisses(s: State, i: nat)
    requires Inv(s) && i < |s.cancellers| && s.cancellers[i].Idle?
    requires s.child.Live? && !s.owner.Landing? && !s.owner.Gone? && !s.token.cancelled
    ensures Run(s, [Detach(i), Invoke(i)]).Some?
    ensures var t := Run(s, [Detach(i), Invoke(i)]).value;
            t.token.cancelled && t.child.Live?
            && (Exposed(s) ==> t.groupKills == s.groupKills && t.shuts == s.shuts && t.attempted == s.attempted)
            && (!Exposed(s) ==> t.attempted
                                && if s.group.leased then t.shuts == s.shuts + 1
                                  else t.groupKills == s.groupKills + [Live])
  {
    RunTwo(s, Detach(i), Invoke(i));
  }

  lemma RunTwo(s: State, a: Event, b: Event)
    requires Step(s, a).Some? && Step(Step(s, a).value, b).Some?
    ensures Run(s, [a, b]) == Step(Step(s, a).value, b)
  {
    var t := Step(s, a).value;
    assert [a, b][1..] == [b] && [b][1..] == [];
    assert Run(t, [b]) == Run(Step(t, b).value, []);
  }

  /** A hook is offered once, so one that was cleared is never in the slot again. */
  predicate DisarmedForGood(s: State) {
    (s.owner.Registering? || s.disarmed ==> s.token.slot != Some(s.hook)) && (s.owner.Registering? ==> !s.disarmed)
  }

  lemma DisarmedKept(s: State, e: Event)
    requires DisarmedForGood(s) && Step(s, e).Some?
    ensures DisarmedForGood(Step(s, e).value)
  {
    StepIsOnward(s, e);
    hide Step;
  }

  lemma {:induction false} DisarmedStays(s: State, events: seq<Event>)
    requires DisarmedForGood(s) && Run(s, events).Some?
    ensures DisarmedForGood(Run(s, events).value)
    decreases |events|
  {
    hide Step, DisarmedForGood;
    if events == [] {
    } else {
      DisarmedKept(s, events[0]);
      DisarmedStays(Step(s, events[0]).value, events[1..]);
    }
  }

  /** A child under an owner, its token not cancelled, is exposed exactly when another owner of the token
      cleared its hook. */
  lemma ExposedOnlyByOthers(hook: nat, cancellers: nat, leased: bool, token: Token, events: seq<Event>)
    requires (token.cancelled ==> token.slot.None?) && token.slot != Some(hook)
    requires Run(Initial(hook, cancellers, leased, token), events).Some?
    ensures var s := Run(Initial(hook, cancellers, leased, token), events).value;
            s.child.Live? && !s.owner.Landing? && !s.owner.Gone? && !s.token.cancelled ==> (Exposed(s) <==> s.disarmed)
  {
    InitialInv(hook, cancellers, leased, token);
    RunKeepsInv(Initial(hook, cancellers, leased, token), events);
    DisarmedStays(Initial(hook, cancellers, leased, token), events);
  }

  lemma NextInstalls(s: State, next: nat)
    requires LifeOk(s) && s.owner.Releasing? && !s.dropping && !s.token.cancelled && next != s.hook
    ensures Run(s, [Release, ForeignOffer(next)])
         == Some(s.(owner := Owning, token := Token(false, Some(next))))
    ensures s.reaped
  {
    RunTwo(s, Release, ForeignOffer(next));
  }

  /** And an owner does that to another: after any successful wait, once the next process under the same
      token has installed its hook, dropping the first process clears the slot a second time. */
  lemma LateDropClearsTheNextHook(s: State, next: nat)
    requires Inv(s) && s.owner.Releasing? && !s.dropping && !s.token.cancelled && next != s.hook
    ensures var started := [Release, ForeignOffer(next)];
            && Run(s, started).Some? && Run(s, started).value.token == Token(false, Some(next))
            && Run(s, started + [Drop, Forget]).Some?
            && Run(s, started + [Drop, Forget]).value.token == Token(false, None)
  {
    NextInstalls(s, next);
    hide LifeOk, KillsOk, Reachable;
    var t := Run(s, [Release, ForeignOffer(next)]).value;
    RunTwo(t, Drop, Forget);
    RunConcat(s, [Release, ForeignOffer(next)], [Drop, Forget]);
  }

  lemma {:induction false} RunConcat(s: State, a: seq<Event>, b: seq<Event>)
    requires Run(s, a).Some?
    ensures Run(s, a + b) == Run(Run(s, a).value, b)
    decreases |a|
  {
    if a == [] {
      assert a + b == b;
    } else {
      assert (a + b)[0] == a[0] && (a + b)[1..] == a[1..] + b;
      RunConcat(Step(s, a[0]).value, a[1..], b);
    }
  }
}
