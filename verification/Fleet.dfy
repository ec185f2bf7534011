/** Several processes started under one token. Every process sees the same token; each has its own hook. A
    cancelling party detaches whatever hook is in the slot and runs it, which signals the one process that
    the hook belongs to. Each process goes through a run of its own. */
module Fleet {
  import opened Wrappers
  import opened Cancel
  import P = Process

  type Fleet = seq<P.State>

  datatype Event = Own(process: nat, event: P.Event) | Detach(party: nat) | Invoke(party: nat)

  function Start(processes: nat, cancellers: nat, leased: seq<bool>): Fleet
    requires |leased| == processes
  {
    seq(processes, i requires 0 <= i < processes => P.Initial(i, cancellers, leased[i], Token(false, None)))
  }

  // ---------------------------------------------------------------- steps

  /** A process learns what another one did to the token. */
  function Notice(s: P.State, token: Token): P.State {
    s.(token := token, disarmed := s.disarmed || (s.token.slot == Some(s.hook) && token.slot != Some(s.hook)))
  }

  predicate OwnEvent(e: P.Event) {
    P.SpawnEvent(e) || P.WaitEvent(e) || P.DropEvent(e) || e.Exit?
  }

  function OwnStep(f: Fleet, i: nat, e: P.Event): Option<Fleet>
    requires i < |f|
  {
    if !OwnEvent(e) then None
    else match P.Step(f[i], e)
      case None => None
      case Some(t) => Some(seq(|f|, j requires 0 <= j < |f| => if j == i then t else Notice(f[j], t.token)))
  }

  predicate AllCan(f: Fleet, e: P.Event) {
    f != [] && forall j :: 0 <= j < |f| ==> P.Step(f[j], e).Some?
  }

  /** The party's section, in which every process sees the same. */
  function Together(f: Fleet, e: P.Event): Option<Fleet> {
    if AllCan(f, e) then Some(seq(|f|, j requires 0 <= j < |f| => P.Step(f[j], e).value)) else None
  }

  function Step(f: Fleet, e: Event): Option<Fleet> {
    match e
    case Own(i, event) => if i < |f| then OwnStep(f, i, event) else None
    case Detach(c) => Together(f, P.Detach(c))
    case Invoke(c) => Together(f, P.Invoke(c))
  }

  function Run(f: Fleet, events: seq<Event>): Option<Fleet>
    decreases |events|
  {
    if events == [] then Some(f)
    else match Step(f, events[0])
      case None => None
      case Some(next) => Run(next, events[1..])
  }

  // ---------------------------------------------------------------- each process for itself

  /** One token, and every hook its process's number. */
  predicate Shared(f: Fleet) {
    && (forall i, j :: 0 <= i < |f| && 0 <= j < |f| ==> f[i].token == f[j].token)
    && (forall i :: 0 <= i < |f| ==> f[i].hook == i)
  }

  /** The events in which an owner clears the slot, whoever's hook is in it. */
  predicate Clears(e: P.Event) { e.Release? || e.Forget? || e.Refuse? }

  /** The token after an owner's step: cleared, with the hook offered, or as it was. */
  predicate TokenMoved(s: P.State, e: P.Event, t: P.State) {
    && t.hook == s.hook && t.disarmed == s.disarmed
    && t.token == if Clears(e) then s.token.(slot := None)
                  else if e.Register? then Offer(s.token, s.hook).0
                  else s.token
  }

  lemma OwnToken(s: P.State, e: P.Event)
    requires OwnEvent(e) && P.Step(s, e).Some?
    ensures TokenMoved(s, e, P.Step(s, e).value)
  {
    hide P.KilledNow, TokenMoved, P.SpawnStep, P.WaitStep, P.DropStep, P.OutsideStep;
    if P.SpawnEvent(e) {
      SpawnToken(s, e);
    } else if P.WaitEvent(e) {
      WaitToken(s, e);
    } else if P.DropEvent(e) {
      DropToken(s, e);
    } else {
      ExitToken(s);
    }
  }

  lemma SpawnToken(s: P.State, e: P.Event)
    requires P.SpawnStep(s, e).Some?
    ensures TokenMoved(s, e, P.SpawnStep(s, e).value)
  {
    hide P.KilledNow;
  }

  lemma WaitToken(s: P.State, e: P.Event)
    requires P.WaitStep(s, e).Some?
    ensures TokenMoved(s, e, P.WaitStep(s, e).value)
  {
    hide P.KilledNow;
  }

  lemma DropToken(s: P.State, e: P.Event)
    requires P.DropStep(s, e).Some?
    ensures TokenMoved(s, e, P.DropStep(s, e).value)
  {
    hide P.KilledNow;
  }

  lemma ExitToken(s: P.State)
    requires P.OutsideStep(s, P.Exit).Some?
    ensures TokenMoved(s, P.Exit, P.OutsideStep(s, P.Exit).value)
  {
  }

  /** Seen from any one process, each step of the fleet is a step of its own, another owner's offer or clear,
      or nothing. */
  lemma StepProjects(f: Fleet, e: Event, j: nat) returns (own: seq<P.Event>)
    requires Shared(f) && Step(f, e).Some? && j < |f|
    ensures Shared(Step(f, e).value) && |Step(f, e).value| == |f|
    ensures P.Run(f[j], own) == Some(Step(f, e).value[j])
  {
    hide P.Step;
    var g := Step(f, e).value;
    match e
    case Detach(c) =>
      PartyStep(f, P.Detach(c));
      own := [P.Detach(c)];
      RunOne(f[j], own[0]);
    case Invoke(c) =>
      PartyStep(f, P.Invoke(c));
      own := [P.Invoke(c)];
      RunOne(f[j], own[0]);
    case Own(i, event) =>
      OwnToken(f[i], event);
      if j == i {
        own := [event];
        RunOne(f[j], event);
      } else {
        own := NoticeIsForeign(f[j], i, g[i].token);
      }
  }

  /** A party's section leaves the processes with one token. */
  lemma PartyStep(f: Fleet, e: P.Event)
    requires Shared(f) && Together(f, e).Some? && (e.Detach? || e.Invoke?)
    ensures Shared(Together(f, e).value)
  {
    forall i | 0 <= i < |f|
      ensures P.Step(f[i], e).value.hook == f[i].hook
      ensures P.Step(f[i], e).value.token == if e.Detach? then Token(true, None) else f[i].token
    {
      PartyToken(f[i], e);
    }
  }

  lemma PartyToken(s: P.State, e: P.Event)
    requires P.Step(s, e).Some? && (e.Detach? || e.Invoke?)
    ensures P.Step(s, e).value.hook == s.hook
    ensures P.Step(s, e).value.token == if e.Detach? then Token(true, None) else s.token
  {
    hide P.KilledNow, P.SpawnStep, P.WaitStep, P.DropStep, P.OutsideStep;
  }

  lemma RunOne(s: P.State, e: P.Event)
    requires P.Step(s, e).Some?
    ensures P.Run(s, [e]) == P.Step(s, e)
  {
    hide P.Step;
    assert [e][1..] == [];
    assert P.Run(P.Step(s, e).value, []) == P.Step(s, e);
  }

  lemma NoticeIsForeign(s: P.State, other: nat, token: Token) returns (own: seq<P.Event>)
    requires other != s.hook
    requires token in {s.token, s.token.(slot := None), Offer(s.token, other).0}
    ensures P.Run(s, own) == Some(Notice(s, token))
  {
    hide P.KilledNow, P.SpawnStep, P.WaitStep, P.DropStep, P.CancellerStep;
    if token == s.token {
      own := [];
    } else if token == s.token.(slot := None) {
      own := [P.ForeignClear];
      RunOne(s, own[0]);
    } else {
      own := [P.ForeignOffer(other)];
      RunOne(s, own[0]);
    }
  }

  /** So in every run of a fleet each process goes through a run of its own, and all that holds of one process
      under a token shared with others holds of it. */
  lemma {:induction false} FleetProjects(f: Fleet, events: seq<Event>, j: nat) returns (own: seq<P.Event>)
    requires Shared(f) && Run(f, events).Some? && j < |f|
    ensures Shared(Run(f, events).value) && |Run(f, events).value| == |f|
    ensures P.Run(f[j], own) == Some(Run(f, events).value[j])
    decreases |events|
  {
    hide Step, P.Step;
    if events == [] {
      own := [];
    } else {
      var first := StepProjects(f, events[0], j);
      var rest := FleetProjects(Step(f, events[0]).value, events[1..], j);
      P.RunConcat(f[j], first, rest);
      own := first + rest;
    }
  }

  lemma StartIsShared(processes: nat, cancellers: nat, leased: seq<bool>)
    requires |leased| == processes
    ensures Shared(Start(processes, cancellers, leased))
  {
  }

  // ---------------------------------------------------------------- exactly the exposed ones

  /** At some moment of the run another process cleared the slot while hook j was in it. */
  predicate ClearedByOther(f: Fleet, events: seq<Event>, j: nat)
    requires j < |f|
    decreases |events|
  {
    events != [] && Step(f, events[0]).Some? && |Step(f, events[0]).value| == |f|
    && ((f[j].token.slot == Some(j) && events[0].Own? && events[0].process != j && Clears(events[0].event))
        || ClearedByOther(Step(f, events[0]).value, events[1..], j))
  }

  lemma StepDisarms(f: Fleet, e: Event, j: nat)
    requires Shared(f) && Step(f, e).Some? && j < |f|
    ensures |Step(f, e).value| == |f|
    ensures Step(f, e).value[j].disarmed <==>
              f[j].disarmed || (f[j].token.slot == Some(j) && e.Own? && e.process != j && Clears(e.event))
  {
    hide P.Step;
    if e.Own? {
      OwnToken(f[e.process], e.event);
    } else {
      PartyKeepsOwner(f[j], if e.Detach? then P.Detach(e.party) else P.Invoke(e.party));
    }
  }

  lemma {:induction false} RunDisarms(f: Fleet, events: seq<Event>, j: nat)
    requires Shared(f) && Run(f, events).Some? && j < |f|
    ensures |Run(f, events).value| == |f|
    ensures Run(f, events).value[j].disarmed <==> f[j].disarmed || ClearedByOther(f, events, j)
    decreases |events|
  {
    hide Step;
    if events == [] {
    } else {
      var own := StepProjects(f, events[0], j);
      StepDisarms(f, events[0], j);
      RunDisarms(Step(f, events[0]).value, events[1..], j);
    }
  }

  /** Of the live children whose token nobody has cancelled, exactly those are exposed whose hook was in the slot
      when another process gave up, was dropped or came back from its wait. */
  lemma ExposedExactly(processes: nat, cancellers: nat, leased: seq<bool>, events: seq<Event>, j: nat)
    requires |leased| == processes && j < processes
    requires Run(Start(processes, cancellers, leased), events).Some?
    ensures j < |Run(Start(processes, cancellers, leased), events).value|
    ensures var s := Run(Start(processes, cancellers, leased), events).value[j];
            s.child.Live? && !s.owner.Landing? && !s.owner.Gone? && !s.token.cancelled ==>
              (P.Exposed(s) <==> ClearedByOther(Start(processes, cancellers, leased), events, j))
  {
    hide Run, ClearedByOther, P.Run;
    var f := Start(processes, cancellers, leased);
    StartIsShared(processes, cancellers, leased);
    var own := FleetProjects(f, events, j);
    RunDisarms(f, events, j);
    assert f[j] == P.Initial(j, cancellers, leased[j], Token(false, None));
    P.ExposedOnlyByOthers(j, cancellers, leased[j], Token(false, None), own);
  }

  // ---------------------------------------------------------------- one process at a time

  predicate Active(s: P.State) { !s.owner.Registering? && !s.owner.Gone? }

  /** A process is started only when every other one is not yet started or gone, dropped and all. */
  predicate Alone(f: Fleet, i: nat) {
    forall j :: 0 <= j < |f| && j != i ==> !Active(f[j])
  }

  predicate Disciplined(f: Fleet, events: seq<Event>)
    decreases |events|
  {
    events == [] || Run(f, events).None?
    || ((events[0].Own? && events[0].event.Register? ==> Alone(f, events[0].process))
        && Disciplined(Step(f, events[0]).value, events[1..]))
  }

  /** At most one process is active, and only its hook can be in the slot. */
  ghost predicate Sole(f: Fleet) {
    && Shared(f)
    && (forall i, j :: 0 <= i < j < |f| ==> !Active(f[i]) || !Active(f[j]))
    && (forall i :: 0 <= i < |f| ==> P.Inv(f[i]) && !f[i].disarmed
                                     && (f[i].token.slot.Some? ==> f[i].token.slot.value < |f|)
                                     && (f[i].token.slot == Some(i) ==> Active(f[i])))
  }

  lemma StartIsSole(processes: nat, cancellers: nat, leased: seq<bool>)
    requires |leased| == processes
    ensures Sole(Start(processes, cancellers, leased))
  {
    forall i: nat | i < processes ensures P.Inv(Start(processes, cancellers, leased)[i]) {
      P.InitialInv(i, cancellers, leased[i], Token(false, None));
    }
  }

  /** Becoming active takes a registration; going takes the hook out of the slot. */
  predicate Activity(s: P.State, e: P.Event, t: P.State) {
    && (Active(t) && !Active(s) ==> e.Register?)
    && (t.token != s.token ==> Active(s) || e.Register?)
    && (t.owner.Gone? && s.token.slot == Some(s.hook) && Active(s) ==> t.token.slot.None?)
    && (t.disarmed ==> s.disarmed)
    && (Active(s) && !t.owner.Gone? ==> Active(t))
    && (e.Register? && t.token.slot == Some(s.hook) && s.token.slot != Some(s.hook) ==> Active(t))
  }

  lemma OwnActivity(s: P.State, e: P.Event)
    requires P.Inv(s) && OwnEvent(e) && P.Step(s, e).Some?
    ensures Activity(s, e, P.Step(s, e).value)
  {
    hide P.KilledNow, Activity, P.Inv, P.SpawnStep, P.WaitStep, P.DropStep, P.OutsideStep;
    if P.SpawnEvent(e) {
      SpawnActivity(s, e);
    } else if P.WaitEvent(e) {
      WaitActivity(s, e);
    } else if P.DropEvent(e) {
      DropActivity(s, e);
    } else {
      ExitActivity(s);
    }
  }

  lemma SpawnActivity(s: P.State, e: P.Event)
    requires P.Inv(s) && P.SpawnStep(s, e).Some?
    ensures Activity(s, e, P.SpawnStep(s, e).value)
  {
    hide P.KilledNow, P.KillsOk, P.LifeOk;
  }

  lemma WaitActivity(s: P.State, e: P.Event)
    requires P.WaitStep(s, e).Some?
    ensures Activity(s, e, P.WaitStep(s, e).value)
  {
    hide P.KilledNow;
  }

  lemma DropActivity(s: P.State, e: P.Event)
    requires P.DropStep(s, e).Some?
    ensures Activity(s, e, P.DropStep(s, e).value)
  {
    hide P.KilledNow;
  }

  lemma ExitActivity(s: P.State)
    requires P.OutsideStep(s, P.Exit).Some?
    ensures Activity(s, P.Exit, P.OutsideStep(s, P.Exit).value)
  {
  }

  lemma SoleKept(f: Fleet, e: Event)
    requires Sole(f) && Step(f, e).Some? && (e.Own? && e.event.Register? ==> Alone(f, e.process))
    ensures Sole(Step(f, e).value)
  {
    var g := Step(f, e).value;
    forall j: nat | j < |f| ensures Shared(g) && P.Inv(g[j]) {
      var own := StepProjects(f, e, j);
      hide P.Step;
      P.RunKeepsInv(f[j], own);
    }
    hide P.Step, P.Inv;
    if e.Own? {
      OwnKeepsSole(f, e.process, e.event);
    } else {
      forall j: nat | j < |f| ensures g[j].owner == f[j].owner && g[j].disarmed == f[j].disarmed {
        PartyKeepsOwner(f[j], if e.Detach? then P.Detach(e.party) else P.Invoke(e.party));
      }
      forall j: nat | j < |f| ensures g[j].token.slot.None? || g[j].token == f[j].token {
        PartyToken(f[j], if e.Detach? then P.Detach(e.party) else P.Invoke(e.party));
      }
    }
  }

  lemma PartyKeepsOwner(s: P.State, e: P.Event)
    requires P.Step(s, e).Some? && (e.Detach? || e.Invoke?)
    ensures P.Step(s, e).value.owner == s.owner && P.Step(s, e).value.disarmed == s.disarmed
  {
    hide P.KilledNow, P.SpawnStep, P.WaitStep, P.DropStep, P.OutsideStep;
  }

  lemma OwnKeepsSole(f: Fleet, i: nat, e: P.Event)
    requires Sole(f) && i < |f| && OwnStep(f, i, e).Some? && (e.Register? ==> Alone(f, i))
    requires Shared(OwnStep(f, i, e).value) && forall j :: 0 <= j < |f| ==> P.Inv(OwnStep(f, i, e).value[j])
    ensures Sole(OwnStep(f, i, e).value)
  {
    hide P.Step, P.Inv;
    var g := OwnStep(f, i, e).value;
    OwnActivity(f[i], e);
    OwnToken(f[i], e);
    assert forall j :: 0 <= j < |f| && j != i ==> g[j] == Notice(f[j], g[i].token);
    assert forall j :: 0 <= j < |f| && j != i ==> (Active(g[j]) <==> Active(f[j]));
  }

  lemma {:induction false} DisciplineKeepsSole(f: Fleet, events: seq<Event>)
    requires Sole(f) && Run(f, events).Some? && Disciplined(f, events)
    ensures Sole(Run(f, events).value)
    decreases |events|
  {
    hide Step, Sole;
    if events == [] {
    } else {
      SoleKept(f, events[0]);
      DisciplineKeepsSole(Step(f, events[0]).value, events[1..]);
    }
  }

  /** When each process is gone before the next is started under the token, no child is ever exposed, and once
      the token is cancelled and all parties are done every child still alive has been signalled. */
  lemma DisciplineProtects(processes: nat, cancellers: nat, leased: seq<bool>, events: seq<Event>, j: nat)
    requires |leased| == processes && j < processes
    requires Run(Start(processes, cancellers, leased), events).Some?
    requires Disciplined(Start(processes, cancellers, leased), events)
    ensures j < |Run(Start(processes, cancellers, leased), events).value|
    ensures var s := Run(Start(processes, cancellers, leased), events).value[j];
            && !P.Exposed(s)
            && (s.token.cancelled && s.child.Live? && !s.owner.Landing? && P.Quiet(s.cancellers) ==> s.attempted)
  {
    hide Run, Disciplined, Sole, P.Run;
    var f := Start(processes, cancellers, leased);
    StartIsShared(processes, cancellers, leased);
    StartIsSole(processes, cancellers, leased);
    DisciplineKeepsSole(f, events);
    var own := FleetProjects(f, events, j);
    assert f[j] == P.Initial(j, cancellers, leased[j], Token(false, None));
    P.ExposedOnlyByOthers(j, cancellers, leased[j], Token(false, None), own);
    P.CancelledChildIsSignalled(j, cancellers, leased[j], Token(false, None), own);
    SoleIsArmed(Run(f, events).value, j);
  }

  lemma SoleIsArmed(f: Fleet, j: nat)
    requires Sole(f) && j < |f|
    ensures !f[j].disarmed
  {
  }

  // ---------------------------------------------------------------- two processes at a time

  const STARTED: seq<P.Event> := [P.Register, P.Check, P.Spawn(true), P.Land(true)]
  const WAITED: seq<P.Event> := [P.Exit, P.Wait, P.Poll(true), P.Revoke, P.Reap(true), P.Release]
  const DROPPED: seq<P.Event> := [P.Drop, P.Forget]

  function Owns(i: nat, events: seq<P.Event>): (own: seq<Event>)
    ensures |own| == |events| && forall k :: 0 <= k < |own| ==> own[k] == Own(i, events[k])
  {
    seq(|events|, k requires 0 <= k < |events| => Own(i, events[k]))
  }

  /** A first process is started and waited for, a second one started under the same token, the first dropped;
      then a party cancels the token. */
  function MissedChild(): seq<Event> {
    Owns(0, STARTED) + (Owns(0, WAITED) + (Owns(1, STARTED) + (Owns(0, DROPPED) + [Detach(0), Invoke(0)])))
  }

  /** Two processes and one cancelling party. */
  function Pair(): Fleet { Start(2, 1, [false, false]) }

  /** One run in which dropping a process that was already waited for makes a cancellation miss the next one:
      the token is cancelled, the party is done, the second child lives and nothing was sent to it. */
  lemma LateDropMissesChild()
    ensures Run(Pair(), MissedChild()).Some? && |Run(Pair(), MissedChild()).value| == 2
    ensures var s := Run(Pair(), MissedChild()).value[1];
            s.token.cancelled && P.Quiet(s.cancellers) && s.child.Live? && !s.attempted && s.groupKills == []
  {
    hide Run;
    var empty := Token(false, None);
    var a, b := P.Initial(0, 1, false, empty), P.Initial(1, 1, false, empty);
    assert Pair() == [a, b];
    FirstStarts(a, b);
    FirstIsWaited(Begun(a), b.(token := Token(false, Some(0))));
    var waited := Waited(Begun(a));
    SecondStarts(waited, b);
    FirstIsDropped(waited.(token := Token(false, Some(1))), Begun(b));
    var gone, missed := Dropped(waited), Begun(b).(token := empty, disarmed := true);
    CancelMisses(gone, missed);
    var end := [Detach(0), Invoke(0)];
    RunConcat([waited.(token := Token(false, Some(1))), Begun(b)], Owns(0, DROPPED), end);
    RunConcat([waited, b], Owns(1, STARTED), Owns(0, DROPPED) + end);
    RunConcat([Begun(a), b.(token := Token(false, Some(0)))], Owns(0, WAITED),
              Owns(1, STARTED) + (Owns(0, DROPPED) + end));
    RunConcat(Pair(), Owns(0, STARTED), Owns(0, WAITED) + (Owns(1, STARTED) + (Owns(0, DROPPED) + end)));
  }

  /** A process ready to start under a token that holds no hook. */
  predicate Ready(s: P.State) {
    s.owner.Registering? && s.child.Unborn? && s.token == Token(false, None) && !s.group.cancelled
  }

  function Begun(s: P.State): P.State {
    s.(token := Token(false, Some(s.hook)), group := s.group.(pid := true), child := P.Live, owner := P.Owning)
  }

  function Waited(s: P.State): P.State {
    s.(token := Token(false, None), group := s.group.(pid := false), child := P.Reaped, owner := P.Owning,
       reaped := true)
  }

  function Dropped(s: P.State): P.State {
    s.(token := Token(false, None), dropping := true, owner := P.Gone)
  }

  lemma OwnFirst(a: P.State, b: P.State, events: seq<P.Event>, k: nat, t: P.State, c: P.State)
    requires k < |events| && OwnEvent(events[k]) && P.Step(a, events[k]) == Some(t) && Notice(b, t.token) == c
    ensures Run([a, b], Owns(0, events)[k..]) == Run([t, c], Owns(0, events)[k + 1..])
  {
    hide P.Step, Notice;
    var next := OwnStep([a, b], 0, events[k]).value;
    assert |next| == 2 && next[0] == t && next[1] == c;
    assert next == [t, c];
    assert Owns(0, events)[k..][1..] == Owns(0, events)[k + 1..];
  }

  lemma OwnSecond(a: P.State, b: P.State, events: seq<P.Event>, k: nat, c: P.State, t: P.State)
    requires k < |events| && OwnEvent(events[k]) && P.Step(b, events[k]) == Some(t) && Notice(a, t.token) == c
    ensures Run([a, b], Owns(1, events)[k..]) == Run([c, t], Owns(1, events)[k + 1..])
  {
    hide P.Step, Notice;
    var next := OwnStep([a, b], 1, events[k]).value;
    assert |next| == 2 && next[0] == c && next[1] == t;
    assert next == [c, t];
    assert Owns(1, events)[k..][1..] == Owns(1, events)[k + 1..];
  }

  lemma BothStep(f: Fleet, e: P.Event, a: P.State, b: P.State)
    requires |f| == 2 && P.Step(f[0], e) == Some(a) && P.Step(f[1], e) == Some(b)
    ensures Together(f, e) == Some([a, b])
  {
    hide P.Step;
    assert Together(f, e).value == [a, b];
  }

  lemma AllRun(f: Fleet, i: nat, events: seq<P.Event>, g: Fleet)
    requires Run(f, Owns(i, events)[0..]) == Run(g, Owns(i, events)[|events|..])
    ensures Run(f, Owns(i, events)) == Some(g)
  {
    assert Owns(i, events)[0..] == Owns(i, events) && Owns(i, events)[|events|..] == [];
  }

  lemma {:induction false} RunConcat(f: Fleet, a: seq<Event>, b: seq<Event>)
    requires Run(f, a).Some?
    ensures Run(f, a + b) == Run(Run(f, a).value, b)
    decreases |a|
  {
    hide Step;
    if a == [] {
      assert a + b == b;
    } else {
      assert (a + b)[0] == a[0] && (a + b)[1..] == a[1..] + b;
      RunConcat(Step(f, a[0]).value, a[1..], b);
    }
  }

  lemma FirstStarts(a: P.State, b: P.State)
    requires Ready(a) && b.token == a.token && b.hook != a.hook
    ensures Run([a, b], Owns(0, STARTED)) == Some([Begun(a), b.(token := Token(false, Some(a.hook)))])
  {
    hide Run, P.KilledNow, P.WaitStep, P.DropStep, P.CancellerStep, P.OutsideStep;
    var c := b.(token := Token(false, Some(a.hook)));
    var a1 := a.(token := c.token, owner := P.Checking);
    var a2 := a1.(owner := P.Spawning);
    var a3 := a2.(owner := P.Landing, child := P.Live);
    OwnFirst(a, b, STARTED, 0, a1, c);
    OwnFirst(a1, c, STARTED, 1, a2, c);
    OwnFirst(a2, c, STARTED, 2, a3, c);
    OwnFirst(a3, c, STARTED, 3, Begun(a), c);
    AllRun([a, b], 0, STARTED, [Begun(a), c]);
  }

  lemma FirstIsWaited(a: P.State, b: P.State)
    requires a.owner.Owning? && !a.reaped && !a.dropping && a.child.Live? && a.token == b.token && !a.token.cancelled
    requires b.hook != a.hook && a.token.slot == Some(a.hook)
    ensures Run([a, b], Owns(0, WAITED)) == Some([Waited(a), b.(token := Token(false, None))])
  {
    hide Run;
    var seen := a.(child := P.Exited, owner := P.Revoking);
    FirstIsObserved(a, b);
    FirstIsReaped(seen, b);
    AllRun([a, b], 0, WAITED, [Waited(a), b.(token := Token(false, None))]);
  }

  lemma FirstIsObserved(a: P.State, b: P.State)
    requires a.owner.Owning? && !a.reaped && a.child.Live? && a.token == b.token
    ensures Run([a, b], Owns(0, WAITED)[0..])
              == Run([a.(child := P.Exited, owner := P.Revoking), b], Owns(0, WAITED)[3..])
  {
    hide Run, P.KilledNow, P.SpawnStep, P.DropStep, P.CancellerStep;
    var a1 := a.(child := P.Exited);
    var a2 := a1.(owner := P.Polling);
    OwnFirst(a, b, WAITED, 0, a1, b);
    OwnFirst(a1, b, WAITED, 1, a2, b);
    OwnFirst(a2, b, WAITED, 2, a2.(owner := P.Revoking), b);
  }

  lemma FirstIsReaped(a: P.State, b: P.State)
    requires a.owner.Revoking? && !a.reaped && !a.dropping && a.token == b.token == Token(false, Some(a.hook))
    requires b.hook != a.hook
    ensures Run([a, b], Owns(0, WAITED)[3..]) == Run([Waited(a), b.(token := Token(false, None))], Owns(0, WAITED)[6..])
  {
    hide Run, P.Step;
    var a1 := a.(group := a.group.(pid := false), owner := P.Reaping);
    var a2 := a1.(child := P.Reaped, reaped := true, owner := P.Releasing);
    ReapSteps(a, a1, a2);
    OwnFirst(a, b, WAITED, 3, a1, b);
    OwnFirst(a1, b, WAITED, 4, a2, b);
    OwnFirst(a2, b, WAITED, 5, Waited(a), b.(token := Token(false, None)));
  }

  lemma ReapSteps(a: P.State, a1: P.State, a2: P.State)
    requires a.owner.Revoking? && !a.reaped && !a.dropping && a.token == Token(false, Some(a.hook))
    requires a1 == a.(group := a.group.(pid := false), owner := P.Reaping)
    requires a2 == a1.(child := P.Reaped, reaped := true, owner := P.Releasing)
    ensures P.Step(a, P.Revoke) == Some(a1) && P.Step(a1, P.Reap(true)) == Some(a2)
              && P.Step(a2, P.Release) == Some(Waited(a))
  {
    hide P.KilledNow, P.SpawnStep, P.DropStep, P.CancellerStep, P.OutsideStep;
  }

  lemma SecondStarts(a: P.State, b: P.State)
    requires Ready(b) && b.token == a.token && b.hook != a.hook
    ensures Run([a, b], Owns(1, STARTED)) == Some([a.(token := Token(false, Some(b.hook))), Begun(b)])
  {
    hide Run, P.KilledNow, P.WaitStep, P.DropStep, P.CancellerStep, P.OutsideStep;
    var c := a.(token := Token(false, Some(b.hook)));
    var b1 := b.(token := c.token, owner := P.Checking);
    var b2 := b1.(owner := P.Spawning);
    var b3 := b2.(owner := P.Landing, child := P.Live);
    OwnSecond(a, b, STARTED, 0, c, b1);
    OwnSecond(c, b1, STARTED, 1, c, b2);
    OwnSecond(c, b2, STARTED, 2, c, b3);
    OwnSecond(c, b3, STARTED, 3, c, Begun(b));
    AllRun([a, b], 1, STARTED, [c, Begun(b)]);
  }

  lemma FirstIsDropped(a: P.State, b: P.State)
    requires a.owner.Owning? && a.reaped && a.token == b.token == Token(false, Some(b.hook)) && a.hook != b.hook
    ensures Run([a, b], Owns(0, DROPPED)) == Some([Dropped(a), b.(token := Token(false, None), disarmed := true)])
  {
    hide Run, P.KilledNow, P.SpawnStep, P.WaitStep, P.CancellerStep, P.OutsideStep;
    var a1 := a.(dropping := true, owner := P.Dropping);
    OwnFirst(a, b, DROPPED, 0, a1, b);
    OwnFirst(a1, b, DROPPED, 1, Dropped(a), b.(token := Token(false, None), disarmed := true));
    AllRun([a, b], 0, DROPPED, [Dropped(a), b.(token := Token(false, None), disarmed := true)]);
  }

  lemma CancelMisses(a: P.State, b: P.State)
    requires a.token == b.token == Token(false, None) && a.cancellers == b.cancellers == [P.Idle]
    ensures var done := Token(true, None);
            Run([a, b], [Detach(0), Invoke(0)])
            == Some([a.(token := done, cancellers := [P.Done]), b.(token := done, cancellers := [P.Done])])
  {
    hide P.KilledNow;
    var done := Token(true, None);
    var a1, b1 := a.(token := done, cancellers := [P.Detaching(false)]),
      b.(token := done, cancellers := [P.Detaching(false)]);
    assert a.cancellers[0 := P.Detaching(false)] == [P.Detaching(false)];
    BothStep([a, b], P.Detach(0), a1, b1);
    var a2, b2 := a1.(cancellers := [P.Done]), b1.(cancellers := [P.Done]);
    assert a1.cancellers[0 := P.Done] == [P.Done];
    BothStep([a1, b1], P.Invoke(0), a2, b2);
    assert [Detach(0), Invoke(0)][1..] == [Invoke(0)] && [Invoke(0)][1..] == [];
    assert Run([a1, b1], [Invoke(0)]) == Run([a2, b2], []);
  }
}
