/** One supervised module instance: its flags, the events it emits, and the protocol its event stream obeys. */
module SupervisedInstance {
  import opened Optional
  import opened ModuleLifecycle

  const VIOLATION_LIMIT := 10
  const CONSECUTIVE_VIOLATION_LIMIT := 3
  const VIOLATION_WINDOW := 60_000
  const EOF_GRACE := 20

  datatype Request = Request(instanceId: string, policy: Policy, timings: Timings, program: string)

  datatype DeliveryError = UnknownInstance | GenerationMismatch | Unavailable | QueueSaturated | SerializationFailed

  /** What an action result says; older modules leave the invocation out. */
  datatype ActionAnswer = ActionAnswer(actionId: string, accepted: bool, invocation: Option<nat>)

  datatype Event =
    | ProcessStarted(instanceId: string, pid: int, generation: nat)
    | StateChanged(instanceId: string, transition: Transition)
    | ModuleMessage(instanceId: string, ready: bool, content: string, generation: nat, answer: Option<ActionAnswer>)
    | ContextsRemoved(instanceId: string, generation: nat)
    | ProcessExited(instanceId: string, pid: int, cause: Cause, generation: nat)
    | RestartCompleted(instanceId: string, token: nat, succeeded: bool, state: State)
    | ActionDelivery(instanceId: string, target: nat, invocation: nat, accepted: bool, error: Option<DeliveryError>,
      at: int)
    | ProtocolViolationSeen(instanceId: string, consecutive: nat, rolling: nat)
    | SupervisorError(instanceId: string)
    | StderrLog(instanceId: string, line: string, truncated: bool)

  /** What the operating system and the pipes answer, once per process generation. */
  datatype World = World(
    spawned: nat -> Option<int>,
    initQueued: nat -> bool,
    shutdownQueued: nat -> bool,
    signalled: (nat, Signal) -> bool)

  /** A complete line of standard output, as far as the state depends on it. */
  datatype Line =
    | Malformed
    | ReadyLine(content: string, acceptable: bool)
    | OtherLine(content: string, negotiated: bool, answer: Option<ActionAnswer>)

  datatype Instance = Instance(
    request: Request, life: Life, process: Option<int>, generation: nat,
    ready: bool, contextsRemoved: bool,
    violations: seq<int>, consecutive: nat,
    restartAfterStop: bool, restartToken: Option<nat>, replacement: Option<Request>,
    eofAt: Option<int>)

  /** An instance after a call and what the call emitted. */
  datatype Effect = Effect(instance: Instance, events: seq<Event>)

  function NewInstance(request: Request): Instance {
    Instance(request, Fresh(request.policy, request.timings), None, 0, false, true, [], 0, false, None, None, None)
  }

  predicate IsActive(state: State) {
    state.Starting? || state.Running? || state.Backoff? || state.Stopping?
  }

  function ErrorOf(i: Instance): Event {
    SupervisorError(i.request.instanceId)
  }

  function RemoveContexts(i: Instance): Effect {
    if i.contextsRemoved then Effect(i, [])
    else Effect(i.(contextsRemoved := true), [ContextsRemoved(i.request.instanceId, i.generation)])
  }

  function CompleteRestart(i: Instance, succeeded: bool, state: State): Effect {
    if i.restartToken.None? then Effect(i, [])
    else Effect(i.(restartToken := None),
      [RestartCompleted(i.request.instanceId, i.restartToken.value, succeeded, state)])
  }

  /** Announces a transition, and the outcome of a restart that it decides. */
  function Announce(i: Instance, t: Transition): Effect {
    var completed :=
      if t.to.Running? then CompleteRestart(i, true, t.to)
      else if t.to.Failed? || (t.from.Starting? && !t.cause.Requested?) then CompleteRestart(i, false, t.to)
      else Effect(i, []);
    Effect(completed.instance, [StateChanged(i.request.instanceId, t)] + completed.events)
  }

  function Apply(i: Instance, moved: Moved): Effect {
    var after := i.(life := moved.life);
    if moved.transition.Some? then Announce(after, moved.transition.value) else Effect(after, [])
  }

  function BeginFailure(i: Instance, cause: Cause, now: int): Effect {
    if !i.life.state.Starting? && !i.life.state.Running? then Effect(i, [])
    else
      var removed := RemoveContexts(i);
      var moved := Fail(removed.instance.life, cause, now);
      if moved.accepted then
        var applied := Apply(removed.instance, moved);
        Effect(applied.instance, removed.events + applied.events)
      else Effect(removed.instance, removed.events + [ErrorOf(i)])
  }

  /** Violations older than a minute no longer count. */
  function RecentViolations(violations: seq<int>, now: int): seq<int> {
    Dropped(violations, now - VIOLATION_WINDOW) + [now]
  }

  function RecordViolation(i: Instance, now: int): Effect {
    if i.life.state.Stopping? then Effect(i, [])
    else
      var noted := i.(violations := RecentViolations(i.violations, now), consecutive := i.consecutive + 1);
      var seen := ProtocolViolationSeen(i.request.instanceId, noted.consecutive, |noted.violations|);
      if i.life.state.Starting? || noted.consecutive >= CONSECUTIVE_VIOLATION_LIMIT ||
        |noted.violations| >= VIOLATION_LIMIT then
        var failed := BeginFailure(noted, ProtocolViolation, now);
        Effect(failed.instance, [seen] + failed.events)
      else Effect(noted, [seen])
  }

  /** The first message must be an acceptable ready; later ones must not be a ready and need what was negotiated. */
  function HandleLine(i: Instance, line: Line, now: int): Effect {
    if i.life.state.Stopping? then Effect(i, [])
    else if line.Malformed? then RecordViolation(i, now)
    else if !i.ready then
      if !line.ReadyLine? || !line.acceptable then RecordViolation(i, now)
      else
        var marked := i.(consecutive := 0, ready := true);
        var moved := Ready(marked.life, now);
        if !moved.accepted then RecordViolation(marked, now)
        else
          var applied := Apply(marked, moved);
          Effect(applied.instance,
            applied.events + [ModuleMessage(i.request.instanceId, true, line.content, i.generation, None)])
    else if line.ReadyLine? || !i.life.state.Running? || !line.negotiated then RecordViolation(i, now)
    else Effect(i.(consecutive := 0),
      [ModuleMessage(i.request.instanceId, false, line.content, i.generation, line.answer)])
  }

  /** A new process generation. If spawning fails, its contexts count as removed at once. */
  function Spawn(i: Instance, w: World, g: nat, now: int): Effect {
    var reset := i.(consecutive := 0, ready := false, contextsRemoved := false, eofAt := None, generation := g);
    var pid := w.spawned(g);
    if pid.None? then
      var removed := RemoveContexts(reset);
      var applied := Apply(removed.instance, Exited(removed.instance.life, SpawnError, now));
      Effect(applied.instance, [ErrorOf(i)] + removed.events + applied.events)
    else
      var running := reset.(process := pid);
      var started := ProcessStarted(i.request.instanceId, pid.value, g);
      if w.initQueued(g) then Effect(running, [started])
      else
        var failed := BeginFailure(running, Unresponsive, now);
        Effect(failed.instance, [started, ErrorOf(i)] + failed.events)
  }

  function SendDueSignal(i: Instance, w: World, now: int): Effect {
    var due := DueSignal(i.life, now);
    if i.process.None? || due.None? then Effect(i, [])
    else
      var moved := SignalSent(i.life, due.value, now);
      var trouble := if w.signalled(i.generation, due.value) then [] else [ErrorOf(i)];
      Effect(i.(life := moved.life), trouble + if moved.accepted then [] else [ErrorOf(i)])
  }

  /** The transition a tick makes, announced. A backoff that ends goes on to a spawn. */
  function TickLife(i: Instance, now: int): Effect {
    var moved := Tick(i.life, now);
    if moved.transition.Some? && moved.transition.value.to.Stopping? then
      var removed := RemoveContexts(i);
      var applied := Apply(removed.instance, moved);
      Effect(applied.instance, removed.events + applied.events)
    else Apply(i, moved)
  }

  /** The part of a stop request that a process notices. */
  function AskToStop(i: Instance, w: World): Effect {
    if i.life.state.Starting? || i.life.state.Running? then
      var removed := RemoveContexts(i);
      Effect(removed.instance,
        (if w.shutdownQueued(i.generation) then [] else [ErrorOf(i), ErrorOf(i)]) + removed.events)
    else Effect(i, [])
  }

  /** The process has been waited for: contexts go, the exit is reported, the lifecycle moves on. */
  function Reap(i: Instance, status: Cause, now: int): Effect
    requires i.process.Some?
  {
    var removed := RemoveContexts(i);
    var moved := Exited(removed.instance.life, status, now);
    var effective := if moved.transition.Some? then moved.transition.value.cause else status;
    var gone := ProcessExited(i.request.instanceId, i.process.value, effective, i.generation);
    var applied := Apply(removed.instance, moved);
    Effect(applied.instance.(process := None), removed.events + [gone] + applied.events)
  }

  // ---- The event protocol of one process generation ----

  datatype Phase = Unborn | Spawned | Talking | Removed | Over | Broken

  /** ProcessStarted, then ready and further messages, then one ContextsRemoved, then ProcessExited; or, when no
      process came to be, a lone ContextsRemoved. Anything else is broken. */
  function Next(phase: Phase, e: Event): Phase {
    match e
    case ProcessStarted(_, _, _) => if phase.Unborn? then Spawned else Broken
    case ModuleMessage(_, ready, _, _, _) => if (ready && phase.Spawned?) || (!ready && phase.Talking?) then Talking
      else Broken
    case ContextsRemoved(_, _) => if phase.Unborn? then Over else if phase.Spawned? || phase.Talking? then Removed
      else Broken
    case ProcessExited(_, _, _, _) => if phase.Removed? then Over else Broken
    case _ => phase
  }

  function GenerationOf(e: Event): Option<nat> {
    match e
    case ProcessStarted(_, _, g) => Some(g)
    case ModuleMessage(_, _, _, g, _) => Some(g)
    case ContextsRemoved(_, g) => Some(g)
    case ProcessExited(_, _, _, g) => Some(g)
    case _ => None
  }

  function PhaseFrom(phase: Phase, events: seq<Event>, g: nat): Phase
    decreases events
  {
    if events == [] then phase
    else PhaseFrom(if GenerationOf(events[0]) == Some(g) then Next(phase, events[0]) else phase, events[1..], g)
  }

  lemma {:induction false} PhaseFromJoins(phase: Phase, first: seq<Event>, second: seq<Event>, g: nat)
    ensures PhaseFrom(phase, first + second, g) == PhaseFrom(PhaseFrom(phase, first, g), second, g)
    decreases first
  {
    if first == [] {
      assert first + second == second;
    } else {
      assert (first + second)[1..] == first[1..] + second;
      PhaseFromJoins(if GenerationOf(first[0]) == Some(g) then Next(phase, first[0]) else phase, first[1..], second, g);
    }
  }

  /** The events concern no process generation but `g`. */
  predicate Only(events: seq<Event>, g: nat) {
    forall k :: 0 <= k < |events| ==> GenerationOf(events[k]) == None || GenerationOf(events[k]) == Some(g)
  }

  predicate Silent(events: seq<Event>) {
    forall k :: 0 <= k < |events| ==> GenerationOf(events[k]) == None
  }

  lemma {:induction false} SilentKeepsPhase(phase: Phase, events: seq<Event>, g: nat)
    requires Silent(events)
    ensures PhaseFrom(phase, events, g) == phase
    decreases events
  {
    if events != [] { SilentKeepsPhase(phase, events[1..], g); }
  }

  lemma {:induction false} OthersKeepPhase(phase: Phase, events: seq<Event>, g: nat, other: nat)
    requires Only(events, g) && other != g
    ensures PhaseFrom(phase, events, other) == phase
    decreases events
  {
    if events != [] { OthersKeepPhase(phase, events[1..], g, other); }
  }

  /** Where an instance with a process stands in the protocol. */
  function PhaseOf(i: Instance): Phase {
    if i.process.None? then Over
    else if i.contextsRemoved then Removed
    else if i.ready then Talking
    else Spawned
  }

  /** Which flags go with which lifecycle state, between calls. */
  predicate Settled(i: Instance) {
    && (i.process.Some? <==> HasProcess(i.life.state))
    && (!i.contextsRemoved <==> i.life.state.Starting? || i.life.state.Running?)
    && (i.life.state.Running? ==> i.ready)
    && (i.life.state.Starting? ==> !i.ready)
  }

  /** A call on an instance kept its flags right, spoke for its own generation only, and moved the protocol to where
      the instance now stands. */
  predicate Obeys(before: Instance, e: Effect) {
    && Settled(e.instance)
    && e.instance.generation == before.generation && e.instance.request == before.request
    && Only(e.events, before.generation)
    && PhaseFrom(PhaseOf(before), e.events, before.generation) == PhaseOf(e.instance)
  }

  lemma AnnounceIsSilent(i: Instance, t: Transition)
    ensures Silent(Announce(i, t).events)
    ensures Announce(i, t).instance == i.(restartToken := Announce(i, t).instance.restartToken)
  {
  }

  lemma ApplyIsSilent(i: Instance, moved: Moved)
    ensures Silent(Apply(i, moved).events)
    ensures Apply(i, moved).instance == i.(life := moved.life, restartToken := Apply(i, moved).instance.restartToken)
  {
    if moved.transition.Some? { AnnounceIsSilent(i.(life := moved.life), moved.transition.value); }
  }

  /** Events of the form: a removal of `g` or nothing, then silent ones. */
  lemma RemovalPhase(i: Instance, rest: seq<Event>)
    requires i.process.Some? && Silent(rest)
    ensures Only(RemoveContexts(i).events + rest, i.generation)
    ensures PhaseFrom(PhaseOf(i), RemoveContexts(i).events + rest, i.generation) == Removed
    ensures PhaseOf(RemoveContexts(i).instance) == Removed
  {
    PhaseFromJoins(PhaseOf(i), RemoveContexts(i).events, rest, i.generation);
    SilentKeepsPhase(Removed, rest, i.generation);
    if !i.contextsRemoved { assert RemoveContexts(i).events[1..] == []; }
  }

  lemma SilentObeys(before: Instance, e: Effect)
    requires Settled(e.instance) && e.instance.generation == before.generation && e.instance.request == before.request
    requires Silent(e.events) && PhaseOf(e.instance) == PhaseOf(before)
    ensures Obeys(before, e)
  {
    SilentKeepsPhase(PhaseOf(before), e.events, before.generation);
  }

  lemma BeginFailureObeys(i: Instance, cause: Cause, now: int)
    requires Settled(i) && IsFailure(cause)
    ensures Obeys(i, BeginFailure(i, cause, now))
    ensures i.life.state.Starting? || i.life.state.Running? ==>
      BeginFailure(i, cause, now).instance.life.state.Stopping?
  {
    if i.life.state.Starting? || i.life.state.Running? {
      var removed := RemoveContexts(i).instance;
      ApplyIsSilent(removed, Fail(removed.life, cause, now));
      RemovalPhase(i, Apply(removed, Fail(removed.life, cause, now)).events);
    } else {
      SilentObeys(i, Effect(i, []));
    }
  }

  lemma {:induction false} SilentFirst(phase: Phase, first: seq<Event>, second: seq<Event>, g: nat)
    requires Silent(first)
    ensures PhaseFrom(phase, first + second, g) == PhaseFrom(phase, second, g)
    ensures Only(second, g) ==> Only(first + second, g)
  {
    PhaseFromJoins(phase, first, second, g);
    SilentKeepsPhase(phase, first, g);
  }

  /** A silent event ahead of a call on the same instance changes nothing for the protocol. */
  lemma SilentAheadObeys(before: Instance, marked: Instance, seen: Event, e: Effect)
    requires GenerationOf(seen) == None && Obeys(marked, e) && PhaseOf(marked) == PhaseOf(before)
    requires marked.generation == before.generation && marked.request == before.request
    ensures Obeys(before, Effect(e.instance, [seen] + e.events))
  {
    SilentFirst(PhaseOf(before), [seen], e.events, before.generation);
  }

  /** A violation is noted; it may also be the one that fails the module. */
  lemma NotedObeys(i: Instance, noted: Instance, seen: Event, e: Effect, now: int)
    requires Settled(i) && noted == i.(violations := noted.violations, consecutive := noted.consecutive)
    requires GenerationOf(seen) == None
    requires var failed := BeginFailure(noted, ProtocolViolation, now);
      e == Effect(failed.instance, [seen] + failed.events) || e == Effect(noted, [seen])
    ensures Obeys(i, e)
  {
    BeginFailureObeys(noted, ProtocolViolation, now);
    SilentAheadObeys(i, noted, seen, BeginFailure(noted, ProtocolViolation, now));
    SilentObeys(i, Effect(noted, [seen]));
  }

  lemma RecordViolationObeys(i: Instance, now: int)
    requires Settled(i)
    ensures Obeys(i, RecordViolation(i, now))
  {
    if i.life.state.Stopping? {
      SilentObeys(i, Effect(i, []));
    } else {
      var noted := i.(violations := RecentViolations(i.violations, now), consecutive := i.consecutive + 1);
      var seen := ProtocolViolationSeen(i.request.instanceId, noted.consecutive, |noted.violations|);
      NotedObeys(i, noted, seen, RecordViolation(i, now), now);
    }
  }

  lemma FirstReadyObeys(i: Instance, content: string, now: int)
    requires Settled(i) && i.life.state.Starting?
    ensures Obeys(i, HandleLine(i, ReadyLine(content, true), now))
    ensures HandleLine(i, ReadyLine(content, true), now).instance.life.state.Running?
  {
    var marked := i.(consecutive := 0, ready := true);
    var moved := Ready(marked.life, now);
    ApplyIsSilent(marked, moved);
    var message := [ModuleMessage(i.request.instanceId, true, content, i.generation, None)];
    SilentFirst(PhaseOf(i), Apply(marked, moved).events, message, i.generation);
    assert message[1..] == [];
  }

  lemma HandleLineObeys(i: Instance, line: Line, now: int)
    requires Settled(i)
    ensures Obeys(i, HandleLine(i, line, now))
  {
    RecordViolationObeys(i, now);
    if i.life.state.Stopping? {
      SilentObeys(i, Effect(i, []));
    } else if line.ReadyLine? && line.acceptable && !i.ready {
      if i.life.state.Starting? {
        FirstReadyObeys(i, line.content, now);
      } else {
        RecordViolationObeys(i.(consecutive := 0, ready := true), now);
        assert i.process.None?;
      }
    } else if line.OtherLine? && i.ready && i.life.state.Running? && line.negotiated {
      var message := [ModuleMessage(i.request.instanceId, false, line.content, i.generation, line.answer)];
      assert message[1..] == [];
    }
  }

  /** A new generation runs the protocol from its beginning. */
  lemma SpawnObeys(i: Instance, w: World, g: nat, now: int)
    requires i.life.state.Starting? && i.process.None?
    ensures var e := Spawn(i, w, g, now);
      && Settled(e.instance) && e.instance.generation == g && e.instance.request == i.request
      && Only(e.events, g) && PhaseFrom(Unborn, e.events, g) == PhaseOf(e.instance)
  {
    var reset := i.(consecutive := 0, ready := false, contextsRemoved := false, eofAt := None, generation := g);
    if w.spawned(g).None? {
      FailedSpawnObeys(i, reset, g, now);
    } else {
      var running := reset.(process := w.spawned(g));
      var started := [ProcessStarted(i.request.instanceId, w.spawned(g).value, g)];
      assert started[1..] == [];
      BeginFailureObeys(running, Unresponsive, now);
      var failed := BeginFailure(running, Unresponsive, now).events;
      PhaseFromJoins(Unborn, started, [ErrorOf(i)] + failed, g);
      SilentFirst(Spawned, [ErrorOf(i)], failed, g);
      assert started + ([ErrorOf(i)] + failed) == [started[0], ErrorOf(i)] + failed;
    }
  }

  lemma FailedSpawnObeys(i: Instance, reset: Instance, g: nat, now: int)
    requires reset.life.state.Starting? && reset.process.None? && reset.generation == g && !reset.contextsRemoved
    ensures var removed := RemoveContexts(reset);
      var applied := Apply(removed.instance, Exited(removed.instance.life, SpawnError, now));
      var events := [ErrorOf(i)] + removed.events + applied.events;
      && Settled(applied.instance) && applied.instance.process.None?
      && Only(events, g) && PhaseFrom(Unborn, events, g) == Over
  {
    var removed := RemoveContexts(reset);
    var moved := Exited(removed.instance.life, SpawnError, now);
    ApplyIsSilent(removed.instance, moved);
    var applied := Apply(removed.instance, moved);
    assert [ErrorOf(i)] + removed.events + applied.events == [ErrorOf(i)] + (removed.events + applied.events);
    SilentFirst(Unborn, [ErrorOf(i)], removed.events + applied.events, g);
    PhaseFromJoins(Unborn, removed.events, applied.events, g);
    assert removed.events[1..] == [];
    SilentKeepsPhase(Over, applied.events, g);
  }

  lemma SendDueSignalObeys(i: Instance, w: World, now: int)
    requires Settled(i)
    ensures Obeys(i, SendDueSignal(i, w, now))
    ensures SendDueSignal(i, w, now).instance.life.state == i.life.state
  {
    SilentObeys(i, SendDueSignal(i, w, now));
  }

  /** A tick either leaves the process where it is, or ends a backoff: then a spawn follows. */
  lemma TickLifeObeys(i: Instance, now: int)
    requires Settled(i)
    ensures var e := TickLife(i, now);
      if i.life.state.Backoff? && e.instance.life.state.Starting? then
        && e.instance.process.None? && Silent(e.events)
        && e.instance.generation == i.generation && e.instance.request == i.request
      else Obeys(i, e)
  {
    var moved := Tick(i.life, now);
    ApplyIsSilent(i, moved);
    if moved.transition.Some? && moved.transition.value.to.Stopping? {
      var removed := RemoveContexts(i).instance;
      ApplyIsSilent(removed, moved);
      RemovalPhase(i, Apply(removed, moved).events);
    } else if !(i.life.state.Backoff? && moved.life.state.Starting?) {
      SilentObeys(i, Apply(i, moved));
    }
  }

  lemma ReapedObeys(i: Instance, gone: Event, applied: Effect)
    requires Settled(i) && i.process.Some? && gone.ProcessExited? && gone.generation == i.generation
    requires applied.instance.generation == i.generation && applied.instance.request == i.request
    requires Settled(applied.instance.(process := None)) && Silent(applied.events)
    ensures Obeys(i, Effect(applied.instance.(process := None), RemoveContexts(i).events + [gone] + applied.events))
  {
    RemovalThenExit(i, [gone]);
    PhaseFromJoins(PhaseOf(i), RemoveContexts(i).events + [gone], applied.events, i.generation);
    SilentKeepsPhase(Over, applied.events, i.generation);
  }

  lemma ReapObeys(i: Instance, status: Cause, now: int)
    requires Settled(i) && i.process.Some?
    ensures Obeys(i, Reap(i, status, now))
    ensures !HasProcess(Reap(i, status, now).instance.life.state)
  {
    var removed := RemoveContexts(i);
    var moved := Exited(removed.instance.life, status, now);
    ApplyIsSilent(removed.instance, moved);
    var effective := if moved.transition.Some? then moved.transition.value.cause else status;
    var gone := ProcessExited(i.request.instanceId, i.process.value, effective, i.generation);
    ReapedObeys(i, gone, Apply(removed.instance, moved));
  }

  lemma RemovalThenExit(i: Instance, gone: seq<Event>)
    requires i.process.Some? && Settled(i)
    requires |gone| == 1 && gone[0].ProcessExited? && gone[0].generation == i.generation
    ensures PhaseFrom(PhaseOf(i), RemoveContexts(i).events + gone, i.generation) == Over
    ensures Only(RemoveContexts(i).events + gone, i.generation)
  {
    RemovalPhase(i, []);
    assert gone[1..] == [];
    assert RemoveContexts(i).events + [] == RemoveContexts(i).events;
    PhaseFromJoins(PhaseOf(i), RemoveContexts(i).events, gone, i.generation);
  }
}
