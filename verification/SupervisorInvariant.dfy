/** What every step of the supervisor keeps, and so every run: processes exist only in the states that have one, at
    most 32 instances are active, and each process generation's events follow the protocol. */
module SupervisorInvariant {
  import opened Optional
  import opened ModuleLifecycle
  import opened SupervisedInstance
  import opened ModuleSupervisor

  function PhaseIn(trace: seq<Event>, g: nat): Phase {
    PhaseFrom(Unborn, trace, g)
  }

  predicate InstancesSettled(s: Supervisor) {
    forall id :: id in s.instances ==>
      && s.instances[id].request.instanceId == id && Settled(s.instances[id])
      && s.instances[id].generation <= s.generations
      && (s.instances[id].process.Some? ==> PhaseIn(s.trace, s.instances[id].generation) == PhaseOf(s.instances[id]))
  }

  /** No two processes share a generation. */
  predicate GenerationsDistinct(instances: map<string, Instance>) {
    forall a, b :: a in instances && b in instances && a != b ==>
      instances[a].process.Some? && instances[b].process.Some? ==>
        instances[a].generation != instances[b].generation
  }

  ghost predicate NeverBroken(s: Supervisor) {
    && (forall g: nat :: PhaseIn(s.trace, g) != Broken)
    && (forall g: nat :: g > s.generations ==> PhaseIn(s.trace, g) == Unborn)
  }

  /** Generations of started processes increase along the trace. */
  predicate StartsAscend(trace: seq<Event>, limit: nat) {
    && (forall i :: 0 <= i < |trace| && trace[i].ProcessStarted? ==> trace[i].generation <= limit)
    && (forall i, j :: 0 <= i < j < |trace| && trace[i].ProcessStarted? && trace[j].ProcessStarted? ==>
          trace[i].generation < trace[j].generation)
  }

  ghost predicate Sane(s: Supervisor) {
    && InstancesSettled(s) && GenerationsDistinct(s.instances) && NeverBroken(s)
    && ActiveCount(s) <= MAXIMUM_INSTANCES && StartsAscend(s.trace, s.generations)
  }

  // ---- Traces ----

  lemma PhaseInJoins(trace: seq<Event>, events: seq<Event>, g: nat)
    ensures PhaseIn(trace + events, g) == PhaseFrom(PhaseIn(trace, g), events, g)
  {
    PhaseFromJoins(Unborn, trace, events, g);
  }

  predicate NoStarts(events: seq<Event>) {
    forall k :: 0 <= k < |events| ==> !events[k].ProcessStarted?
  }

  lemma StartsStay(trace: seq<Event>, limit: nat, events: seq<Event>)
    requires StartsAscend(trace, limit) && NoStarts(events)
    ensures StartsAscend(trace + events, limit)
  {
  }

  /** A generation that is past being born starts no process. */
  lemma {:induction false} BornDoesNotStart(phase: Phase, events: seq<Event>, g: nat)
    requires Only(events, g) && PhaseFrom(phase, events, g) != Broken && !phase.Unborn?
    ensures NoStarts(events)
    decreases events
  {
    if events != [] {
      var next := if GenerationOf(events[0]) == Some(g) then Next(phase, events[0]) else phase;
      if next.Broken? { BrokenStays(events[1..], g); }
      BornDoesNotStart(next, events[1..], g);
      forall k | 0 <= k < |events| ensures !events[k].ProcessStarted? {
        if k > 0 { assert events[k] == events[1..][k - 1]; }
      }
    }
  }

  lemma {:induction false} BrokenStays(events: seq<Event>, g: nat)
    ensures PhaseFrom(Broken, events, g) == Broken
    decreases events
  {
    if events != [] { BrokenStays(events[1..], g); }
  }

  /** A new generation starts at most one process. */
  lemma {:induction false} NewStartsOnce(trace: seq<Event>, limit: nat, events: seq<Event>)
    requires StartsAscend(trace, limit) && Only(events, limit + 1) && PhaseFrom(Unborn, events, limit + 1) != Broken
    ensures StartsAscend(trace + events, limit + 1)
    decreases events
  {
    if events == [] {
      assert trace + events == trace;
    } else {
      var rest := events[1..];
      var next := if GenerationOf(events[0]) == Some(limit + 1) then Next(Unborn, events[0]) else Unborn;
      assert trace + events == (trace + [events[0]]) + rest;
      if next.Broken? { BrokenStays(rest, limit + 1); }
      if next.Unborn? {
        assert NoStarts([events[0]]);
        StartsStay(trace, limit, [events[0]]);
        NewStartsOnce(trace + [events[0]], limit, rest);
      } else {
        BornDoesNotStart(next, rest, limit + 1);
        assert StartsAscend(trace + [events[0]], limit + 1);
        StartsStay(trace + [events[0]], limit + 1, rest);
      }
    }
  }

  // ---- Counting ----

  lemma {:induction false} SubsetCount(a: set<string>, b: set<string>)
    requires a <= b
    ensures |a| <= |b|
  {
    if a != {} {
      var x :| x in a;
      SubsetCount(a - {x}, b - {x});
    }
  }

  lemma PutCount(s: Supervisor, id: string, e: Effect)
    ensures ActiveCount(Put(s, id, e)) <= ActiveCount(Erase(s, id)) + 1
    ensures id in s.instances && (IsActive(e.instance.life.state) ==> IsActive(s.instances[id].life.state)) ==>
      ActiveCount(Put(s, id, e)) <= ActiveCount(s)
    ensures ActiveCount(Erase(s, id)) <= ActiveCount(s)
  {
    var after := ActiveIds(Put(s, id, e).instances);
    SubsetCount(after, ActiveIds(Erase(s, id).instances) + {id});
    SubsetCount(ActiveIds(Erase(s, id).instances), ActiveIds(s.instances));
    if id in s.instances && (IsActive(e.instance.life.state) ==> IsActive(s.instances[id].life.state)) {
      SubsetCount(after, ActiveIds(s.instances));
    }
  }

  // ---- One instance at a time ----

  lemma SilentIsSane(s: Supervisor, events: seq<Event>)
    requires Sane(s) && Silent(events)
    ensures Sane(Emit(s, events))
  {
    forall g: nat ensures PhaseIn(s.trace + events, g) == PhaseIn(s.trace, g) {
      PhaseInJoins(s.trace, events, g);
      SilentKeepsPhase(PhaseIn(s.trace, g), events, g);
    }
    StartsStay(s.trace, s.generations, events);
  }

  lemma PutIsSane(s: Supervisor, id: string, e: Effect)
    requires Sane(s) && id in s.instances && Obeys(s.instances[id], e)
    requires IsActive(e.instance.life.state) ==> IsActive(s.instances[id].life.state)
    requires e.instance.process.Some? ==> s.instances[id].process.Some?
    requires s.instances[id].process.None? ==> Silent(e.events)
    ensures Sane(Put(s, id, e))
  {
    var i := s.instances[id];
    var after := Put(s, id, e);
    PutCount(s, id, e);
    if i.process.None? {
      SilentIsSane(s, e.events);
    } else {
      PutMovesPhase(s, id, e);
      BornDoesNotStart(PhaseOf(i), e.events, i.generation);
      StartsStay(s.trace, s.generations, e.events);
    }
  }

  lemma PutMovesPhase(s: Supervisor, id: string, e: Effect)
    requires Sane(s) && id in s.instances && Obeys(s.instances[id], e) && s.instances[id].process.Some?
    ensures PhaseIn(s.trace + e.events, e.instance.generation) == PhaseOf(e.instance)
    ensures forall g: nat :: g != e.instance.generation ==> PhaseIn(s.trace + e.events, g) == PhaseIn(s.trace, g)
    ensures InstancesSettled(Put(s, id, e)) && NeverBroken(Put(s, id, e))
  {
    var i := s.instances[id];
    PhaseInJoins(s.trace, e.events, i.generation);
    forall g: nat | g != i.generation ensures PhaseIn(s.trace + e.events, g) == PhaseIn(s.trace, g) {
      PhaseInJoins(s.trace, e.events, g);
      OthersKeepPhase(PhaseIn(s.trace, g), e.events, i.generation, g);
    }
  }

  /** The map and the trace once `spawn` has happened under generation `g`. */
  function Spawned(s: Supervisor, id: string, spawn: Effect, g: nat): Supervisor {
    Supervisor(s.instances[id := spawn.instance], s.pending, s.shutdown, g, s.trace + spawn.events)
  }

  lemma SpawnedSettled(s: Supervisor, id: string, spawn: Effect)
    requires Sane(s) && spawn.instance.request.instanceId == id && Settled(spawn.instance)
    requires spawn.instance.generation == s.generations + 1
    requires PhaseIn(s.trace + spawn.events, s.generations + 1) == PhaseOf(spawn.instance)
    requires forall g: nat :: g != s.generations + 1 ==> PhaseIn(s.trace + spawn.events, g) == PhaseIn(s.trace, g)
    ensures InstancesSettled(Spawned(s, id, spawn, s.generations + 1))
    ensures GenerationsDistinct(s.instances[id := spawn.instance])
  {
  }

  lemma SpawnedIsSane(s: Supervisor, id: string, spawn: Effect)
    requires Sane(s) && spawn.instance.request.instanceId == id && Settled(spawn.instance)
    requires spawn.instance.generation == s.generations + 1 && Only(spawn.events, s.generations + 1)
    requires PhaseFrom(Unborn, spawn.events, s.generations + 1) == PhaseOf(spawn.instance)
    requires ActiveCount(Erase(s, id)) < MAXIMUM_INSTANCES
    ensures Sane(Spawned(s, id, spawn, s.generations + 1))
  {
    var g := s.generations + 1;
    SpawnMovesPhase(s, s.trace, spawn, g);
    NewStartsOnce(s.trace, s.generations, spawn.events);
    SpawnedSettled(s, id, spawn);
    PutCount(s, id, Effect(spawn.instance, []));
    assert ActiveIds(s.instances[id := spawn.instance]) == ActiveIds(Put(s, id, Effect(spawn.instance, [])).instances);
  }

  lemma SpawnNextIs(s: Supervisor, w: World, id: string, e: Effect, now: int, spawn: Effect)
    requires spawn == Spawn(e.instance, w, s.generations + 1, now)
    ensures SpawnNext(Put(s, id, e), w, id, now) == Spawned(Emit(s, e.events), id, spawn, s.generations + 1)
  {
    assert s.instances[id := e.instance][id := spawn.instance] == s.instances[id := spawn.instance];
  }

  /** Starting an instance that has no process: silent news, then a spawn under the next generation. */
  lemma SpawnIsSane(s: Supervisor, w: World, id: string, e: Effect, now: int)
    requires Sane(s) && e.instance.request.instanceId == id && Silent(e.events)
    requires e.instance.life.state.Starting? && e.instance.process.None?
    requires ActiveCount(Erase(s, id)) < MAXIMUM_INSTANCES
    ensures Sane(SpawnNext(Put(s, id, e), w, id, now))
  {
    var spawn := Spawn(e.instance, w, s.generations + 1, now);
    SpawnObeys(e.instance, w, s.generations + 1, now);
    SilentIsSane(s, e.events);
    SpawnedIsSane(Emit(s, e.events), id, spawn);
    SpawnNextIs(s, w, id, e, now, spawn);
  }

  lemma SpawnMovesPhase(s: Supervisor, trace: seq<Event>, spawn: Effect, g: nat)
    requires Only(spawn.events, g) && PhaseFrom(Unborn, spawn.events, g) == PhaseOf(spawn.instance)
    requires PhaseIn(trace, g) == Unborn
    ensures PhaseIn(trace + spawn.events, g) == PhaseOf(spawn.instance)
    ensures forall other: nat :: other != g ==> PhaseIn(trace + spawn.events, other) == PhaseIn(trace, other)
  {
    PhaseInJoins(trace, spawn.events, g);
    forall other: nat | other != g ensures PhaseIn(trace + spawn.events, other) == PhaseIn(trace, other) {
      PhaseInJoins(trace, spawn.events, other);
      OthersKeepPhase(PhaseIn(trace, other), spawn.events, g, other);
    }
  }

  /** Flags that no protocol depends on may change freely. */
  lemma FlagsAreSane(s: Supervisor, id: string, i: Instance)
    requires Sane(s) && id in s.instances
    requires i == s.instances[id].(restartAfterStop := i.restartAfterStop, restartToken := i.restartToken,
               replacement := i.replacement, eofAt := i.eofAt)
    ensures Sane(s.(instances := s.instances[id := i])) &&
      Put(s, id, Effect(i, [])) == s.(instances := s.instances[id := i])
  {
    SilentObeys(s.instances[id], Effect(i, []));
    PutIsSane(s, id, Effect(i, []));
    assert s.trace + [] == s.trace;
  }

  lemma CompleteIsSane(s: Supervisor, id: string, i: Instance, succeeded: bool)
    requires Sane(s) && id in s.instances
    requires i == s.instances[id].(restartAfterStop := i.restartAfterStop)
    ensures Sane(Put(s, id, CompleteRestart(i, succeeded, i.life.state)))
  {
    SilentObeys(s.instances[id], CompleteRestart(i, succeeded, i.life.state));
    PutIsSane(s, id, CompleteRestart(i, succeeded, i.life.state));
  }

  lemma StartExistingIsSane(s: Supervisor, w: World, id: string, now: int)
    requires Sane(s) && id in s.instances
    ensures Sane(StartExisting(s, w, id, now))
  {
    var i := s.instances[id];
    var failed := Emit(s, [ErrorOf(i)]);
    SilentIsSane(s, [ErrorOf(i)]);
    CompleteIsSane(s, id, i, false);
    CompleteIsSane(failed, id, i, false);
    var moved := Start(i.life, now);
    if moved.accepted && ActiveCount(s) < MAXIMUM_INSTANCES {
      ApplyIsSilent(i, moved);
      PutCount(s, id, Effect(i, []));
      SpawnIsSane(s, w, id, Apply(i, moved), now);
    }
  }

  lemma EraseIsSane(s: Supervisor, id: string)
    requires Sane(s)
    ensures Sane(Erase(s, id))
  {
    PutCount(s, id, Effect(NewInstance(Request(id, Never, Timings(0, 0, 0, 0, 0, 0), "")), []));
  }

  lemma NewIsSane(s: Supervisor, w: World, request: Request, now: int)
    requires Sane(s) && request.instanceId !in s.instances && ActiveCount(s) < MAXIMUM_INSTANCES
    ensures var i := NewInstance(request);
      Sane(SpawnNext(Put(s, request.instanceId, Apply(i, Start(i.life, now))), w, request.instanceId, now))
  {
    var i := NewInstance(request);
    ApplyIsSilent(i, Start(i.life, now));
    assert Erase(s, request.instanceId) == s by { assert s.instances - {request.instanceId} == s.instances; }
    SpawnIsSane(s, w, request.instanceId, Apply(i, Start(i.life, now)), now);
  }

  lemma HandleStartIsSane(s: Supervisor, w: World, request: Request, now: int)
    requires Sane(s)
    ensures Sane(HandleStart(s, w, request, now))
  {
    var id := request.instanceId;
    var erased := Erase(s, id);
    SilentIsSane(s, [SupervisorError(id)]);
    EraseIsSane(s, id);
    SilentIsSane(erased, [SupervisorError(id)]);
    if ActiveCount(erased) < MAXIMUM_INSTANCES { NewIsSane(erased, w, request, now); }
  }

  // ---- Commands ----

  lemma AskToStopObeys(i: Instance, w: World, now: int)
    requires Settled(i)
    ensures var asked := AskToStop(i, w);
      var applied := Apply(asked.instance, Stop(asked.instance.life, now));
      Stop(asked.instance.life, now).accepted ==> Obeys(i, Effect(applied.instance, asked.events + applied.events))
  {
    var asked := AskToStop(i, w);
    var moved := Stop(asked.instance.life, now);
    ApplyIsSilent(asked.instance, moved);
    var applied := Apply(asked.instance, moved);
    if i.life.state.Starting? || i.life.state.Running? {
      var trouble := if w.shutdownQueued(i.generation) then [] else [ErrorOf(i), ErrorOf(i)];
      assert asked.events + applied.events == trouble + (RemoveContexts(i).events + applied.events);
      RemovalPhase(i, applied.events);
      SilentFirst(PhaseOf(i), trouble, RemoveContexts(i).events + applied.events, i.generation);
    } else if moved.accepted {
      assert asked.events + applied.events == applied.events;
      SilentObeys(i, Effect(applied.instance, applied.events));
    }
  }

  /** In every state but stopped and stopping the lifecycle accepts a stop, and then no process is without one. */
  lemma StopOutcome(i: Instance, w: World, now: int)
    requires Settled(i) && !i.life.state.Stopping? && !i.life.state.Stopped?
    ensures var asked := AskToStop(i, w);
      var applied := Apply(asked.instance, Stop(asked.instance.life, now));
      && Stop(asked.instance.life, now).accepted
      && (applied.instance.life.state.Stopping? || applied.instance.life.state.Stopped?)
      && (IsActive(applied.instance.life.state) ==> IsActive(i.life.state))
      && applied.instance.process == i.process
      && (i.process.None? ==> Silent(asked.events + applied.events))
      && applied.instance.restartAfterStop == i.restartAfterStop
  {
    var asked := AskToStop(i, w);
    ApplyIsSilent(asked.instance, Stop(asked.instance.life, now));
  }

  lemma HandleStopIsSane(s: Supervisor, w: World, id: string, now: int, restart: bool)
    requires Sane(s)
    ensures Sane(HandleStop(s, w, id, now, restart))
  {
    SilentIsSane(s, [SupervisorError(id)]);
    if id in s.instances {
      var i := s.instances[id].(restartAfterStop := s.instances[id].restartAfterStop || restart);
      FlagsAreSane(s, id, i);
      var marked := Put(s, id, Effect(i, []));
      if i.life.state.Stopped? {
        if restart && !s.shutdown { StartExistingIsSane(marked, w, id, now); }
      } else if !i.life.state.Stopping? {
        HandleLiveStopIsSane(s, w, id, i, now);
      }
    }
  }

  lemma HandleLiveStopIsSane(s: Supervisor, w: World, id: string, i: Instance, now: int)
    requires Sane(s) && id in s.instances && !i.life.state.Stopping? && !i.life.state.Stopped?
    requires i == s.instances[id].(restartAfterStop := i.restartAfterStop)
    ensures var asked := AskToStop(i, w);
      var applied := Apply(asked.instance, Stop(asked.instance.life, now));
      && Stop(asked.instance.life, now).accepted
      && Sane(Put(s, id, Effect(applied.instance, asked.events + applied.events)))
      && (applied.instance.life.state.Stopped? && applied.instance.restartAfterStop ==>
            Sane(StartExisting(Put(s, id,
              Effect(applied.instance.(restartAfterStop := false), asked.events + applied.events)), w, id, now)))
  {
    var asked := AskToStop(i, w);
    var applied := Apply(asked.instance, Stop(asked.instance.life, now));
    AskToStopObeys(i, w, now);
    StopOutcome(i, w, now);
    var e := Effect(applied.instance, asked.events + applied.events);
    PutIsSane(s, id, e);
    if applied.instance.life.state.Stopped? && applied.instance.restartAfterStop {
      var cleared := applied.instance.(restartAfterStop := false);
      PutIsSane(s, id, Effect(cleared, asked.events + applied.events));
      StartExistingIsSane(Put(s, id, Effect(cleared, asked.events + applied.events)), w, id, now);
    }
  }

  lemma MarkRestartIsSane(s: Supervisor, id: string, token: nat)
    requires Sane(s) && id in s.instances
    ensures var i := s.instances[id];
      Sane(Put(s, id, Effect(i.(restartToken := Some(token), life := ResetForRestart(i.life).life), [])))
  {
    var i := s.instances[id];
    var reset := i.(restartToken := Some(token), life := ResetForRestart(i.life).life);
    SilentObeys(i, Effect(reset, []));
    PutIsSane(s, id, Effect(reset, []));
  }

  lemma LeaveBackoffIsSane(s: Supervisor, id: string, i: Instance, now: int)
    requires Sane(s) && id in s.instances && i.life.state.Backoff?
    requires i == s.instances[id].(restartToken := i.restartToken, life := i.life) &&
      s.instances[id].life.state.Backoff?
    ensures Sane(Put(s, id, Apply(i, Stop(i.life, now))))
  {
    ApplyIsSilent(i, Stop(i.life, now));
    SilentObeys(s.instances[id], Apply(i, Stop(i.life, now)));
    PutIsSane(s, id, Apply(i, Stop(i.life, now)));
  }

  lemma HandleRestartIsSane(s: Supervisor, w: World, id: string, token: nat, now: int)
    requires Sane(s)
    ensures Sane(HandleRestart(s, w, id, token, now))
  {
    if id !in s.instances {
      SilentIsSane(s, [SupervisorError(id), RestartCompleted(id, token, false, Failed)]);
    } else {
      var i := s.instances[id];
      var reset := i.(restartToken := Some(token), life := ResetForRestart(i.life).life);
      if i.restartToken.Some? {
        SilentIsSane(s, [RestartCompleted(id, token, false, i.life.state)]);
      } else if i.life.state.Backoff? {
        LeaveBackoffIsSane(s, id, reset, now);
        StartExistingIsSane(Put(s, id, Apply(reset, Stop(reset.life, now))), w, id, now);
      } else {
        MarkRestartIsSane(s, id, token);
        StartExistingIsSane(Put(s, id, Effect(reset, [])), w, id, now);
        HandleStopIsSane(Put(s, id, Effect(reset, [])), w, id, now, true);
      }
    }
  }

  lemma FailIsSane(s: Supervisor, id: string, cause: Cause, now: int)
    requires Sane(s) && id in s.instances && IsFailure(cause)
    ensures Sane(Put(s, id, BeginFailure(s.instances[id], cause, now)))
    ensures Sane(Put(Emit(s, [ErrorOf(s.instances[id])]), id, BeginFailure(s.instances[id], cause, now)))
  {
    var i := s.instances[id];
    var e := BeginFailure(i, cause, now);
    BeginFailureObeys(i, cause, now);
    BeginFailureQuiet(i, cause, now);
    PutIsSane(s, id, e);
    SilentIsSane(s, [ErrorOf(i)]);
    PutIsSane(Emit(s, [ErrorOf(i)]), id, e);
  }

  lemma BeginFailureQuiet(i: Instance, cause: Cause, now: int)
    requires Settled(i)
    ensures var e := BeginFailure(i, cause, now);
      && e.instance.process == i.process && (i.process.None? ==> e.events == [])
      && (IsActive(e.instance.life.state) ==> IsActive(i.life.state))
  {
    if i.life.state.Starting? || i.life.state.Running? {
      ApplyIsSilent(RemoveContexts(i).instance, Fail(RemoveContexts(i).instance.life, cause, now));
    }
  }

  lemma HandleSendIsSane(s: Supervisor, id: string, queued: bool, now: int)
    requires Sane(s)
    ensures Sane(HandleSend(s, id, queued, now))
  {
    SilentIsSane(s, [SupervisorError(id)]);
    if id in s.instances {
      SilentIsSane(s, [ErrorOf(s.instances[id])]);
      FailIsSane(s, id, Unresponsive, now);
    }
  }

  lemma HandleSendActionIsSane(s: Supervisor, id: string, generation: nat, invocation: nat, push: PushOutcome, now: int)
    requires Sane(s)
    ensures Sane(HandleSendAction(s, id, generation, invocation, push, now))
  {
    forall accepted, error ensures Sane(Emit(s, [ActionDelivery(id, generation, invocation, accepted, error, now)])) {
      SilentIsSane(s, [ActionDelivery(id, generation, invocation, accepted, error, now)]);
    }
    if id in s.instances {
      var delivered := Emit(s, [ActionDelivery(id, generation, invocation, false, Some(QueueSaturated), now)]);
      FailIsSane(delivered, id, Unresponsive, now);
    }
  }

  lemma CancelAndReplaceIsSane(s: Supervisor, id: string, replacement: Option<Request>)
    requires Sane(s) && id in s.instances
    ensures Sane(Replace(CancelRestart(s, id), id, replacement))
  {
    var i := s.instances[id].(restartAfterStop := false);
    CompleteIsSane(s, id, i, false);
    var cancelled := CancelRestart(s, id);
    FlagsAreSane(cancelled, id, cancelled.instances[id].(replacement := replacement));
  }

  lemma PendingIsSane(s: Supervisor, pending: seq<Request>, shutdown: bool)
    requires Sane(s)
    ensures Sane(s.(pending := pending, shutdown := shutdown))
  {
  }

  lemma ReconfigureStopIsSane(s: Supervisor, w: World, id: string, now: int)
    requires Sane(s)
    ensures Sane(ReconfigureStop(s, w, id, now))
  {
    var dropped := s.(pending := WithoutPending(s.pending, id));
    PendingIsSane(s, dropped.pending, s.shutdown);
    if id in s.instances {
      CancelAndReplaceIsSane(dropped, id, None);
      HandleStopIsSane(Replace(CancelRestart(dropped, id), id, None), w, id, now, false);
    }
  }

  lemma StartReplacementIsSane(s: Supervisor, w: World, id: string, now: int)
    requires Sane(s)
    ensures Sane(StartReplacement(s, w, id, now))
  {
    if id in s.instances && s.instances[id].replacement.Some? {
      EraseIsSane(s, id);
      HandleStartIsSane(Erase(s, id), w, s.instances[id].replacement.value, now);
    }
  }

  lemma ReconfigureStartIsSane(s: Supervisor, w: World, request: Request, now: int)
    requires Sane(s)
    ensures Sane(ReconfigureStart(s, w, request, now))
  {
    var id := request.instanceId;
    if id !in s.instances {
      HandleStartIsSane(s, w, request, now);
    } else {
      CancelAndReplaceIsSane(s, id, Some(request));
      var replaced := Replace(CancelRestart(s, id), id, Some(request));
      HandleStopIsSane(replaced, w, id, now, false);
      StartReplacementIsSane(HandleStop(replaced, w, id, now, false), w, id, now);
    }
  }

  lemma {:induction false} StopAllIsSane(s: Supervisor, w: World, ids: seq<string>, now: int)
    requires Sane(s)
    ensures Sane(StopAll(s, w, ids, now))
    decreases ids
  {
    if ids != [] {
      HandleStopIsSane(s, w, ids[0], now, false);
      StopAllIsSane(HandleStop(s, w, ids[0], now, false), w, ids[1..], now);
    }
  }

  // ---- Ticks, lines and exits ----

  lemma AdvanceIsSane(s: Supervisor, w: World, id: string, now: int)
    requires Sane(s) && id in s.instances
    ensures Sane(AdvanceLifecycle(s, w, id, now))
  {
    var i := s.instances[id];
    var ticked := TickLife(i, now);
    TickLifeObeys(i, now);
    TickLifeQuiet(i, now);
    var spawned := if i.life.state.Backoff? && ticked.instance.life.state.Starting? && ticked.instance.process.None?
      then SpawnNext(Put(s, id, ticked), w, id, now) else Put(s, id, ticked);
    if i.life.state.Backoff? && ticked.instance.life.state.Starting? {
      ActiveOthers(s, id);
      SpawnIsSane(s, w, id, ticked, now);
    } else {
      PutIsSane(s, id, ticked);
    }
    SendDueSignalObeys(spawned.instances[id], w, now);
    PutIsSane(spawned, id, SendDueSignal(spawned.instances[id], w, now));
  }

  lemma TickLifeQuiet(i: Instance, now: int)
    requires Settled(i)
    ensures var e := TickLife(i, now);
      && e.instance.process == i.process && (i.process.None? ==> Silent(e.events))
      && (IsActive(e.instance.life.state) ==> IsActive(i.life.state))
  {
    var moved := Tick(i.life, now);
    ApplyIsSilent(i, moved);
    ApplyIsSilent(RemoveContexts(i).instance, moved);
  }

  lemma ActiveOthers(s: Supervisor, id: string)
    requires Sane(s) && id in s.instances && IsActive(s.instances[id].life.state)
    ensures ActiveCount(Erase(s, id)) < MAXIMUM_INSTANCES
  {
    assert ActiveIds(Erase(s, id).instances) == ActiveIds(s.instances) - {id};
  }

  lemma RecordViolationIsSane(s: Supervisor, id: string, now: int)
    requires Sane(s) && id in s.instances
    ensures Sane(Put(s, id, RecordViolation(s.instances[id], now)))
  {
    var i := s.instances[id];
    RecordViolationObeys(i, now);
    RecordViolationQuiet(i, now);
    PutIsSane(s, id, RecordViolation(i, now));
  }

  lemma RecordViolationQuiet(i: Instance, now: int)
    requires Settled(i)
    ensures var e := RecordViolation(i, now);
      && e.instance.process == i.process && (i.process.None? ==> Silent(e.events))
      && (IsActive(e.instance.life.state) ==> IsActive(i.life.state))
  {
    BeginFailureQuiet(i.(violations := RecentViolations(i.violations, now), consecutive := i.consecutive + 1),
      ProtocolViolation, now);
  }

  lemma HandleLineIsSane(s: Supervisor, id: string, line: Line, now: int)
    requires Sane(s) && id in s.instances && s.instances[id].process.Some?
    ensures Sane(Put(s, id, HandleLine(s.instances[id], line, now)))
    ensures HandleLine(s.instances[id], line, now).instance.process.Some?
  {
    var i := s.instances[id];
    HandleLineObeys(i, line, now);
    RecordViolationQuiet(i, now);
    PutIsSane(s, id, HandleLine(i, line, now));
  }

  lemma {:induction false} HandleLinesIsSane(s: Supervisor, id: string, lines: seq<Line>, now: int)
    requires Sane(s) && id in s.instances && s.instances[id].process.Some?
    ensures Sane(HandleLines(s, id, lines, now))
    decreases lines
  {
    if lines != [] {
      HandleLineIsSane(s, id, lines[0], now);
      HandleLinesIsSane(Put(s, id, HandleLine(s.instances[id], lines[0], now)), id, lines[1..], now);
    }
  }

  lemma ServiceStdoutIsSane(s: Supervisor, id: string, read: ReadOutcome, now: int)
    requires Sane(s)
    ensures Sane(ServiceStdout(s, id, read, now))
  {
    if id in s.instances && s.instances[id].process.Some? && s.instances[id].eofAt.None? {
      match read
      case Lines(lines) => HandleLinesIsSane(s, id, lines, now);
      case Overlong => RecordViolationIsSane(s, id, now);
      case EndOfFile(last) =>
        FlagsAreSane(s, id, s.instances[id].(eofAt := Some(now)));
        if last.Some? {
          HandleLinesIsSane(s.(instances := s.instances[id := s.instances[id].(eofAt := Some(now))]), id, [last.value],
            now);
        }
      case ReadError => FailIsSane(s, id, IoError, now);
    }
  }

  lemma PipeFailsIsSane(s: Supervisor, id: string, reported: bool, now: int)
    requires Sane(s)
    ensures Sane(PipeFails(s, id, reported, now))
  {
    if id in s.instances {
      FailIsSane(s, id, IoError, now);
      assert Emit(s, []) == s;
    }
  }

  lemma ReapIsSane(s: Supervisor, id: string, status: Cause, now: int)
    requires Sane(s) && id in s.instances && s.instances[id].process.Some?
    ensures Sane(Put(s, id, Reap(s.instances[id], status, now)))
  {
    var i := s.instances[id];
    ReapObeys(i, status, now);
    PutIsSane(s, id, Reap(i, status, now));
  }

  lemma HandleReapedIsSane(s: Supervisor, w: World, id: string, now: int)
    requires Sane(s) && id in s.instances
    ensures Sane(HandleReaped(s, w, id, now))
  {
    var i := s.instances[id];
    FlagsAreSane(s, id, i.(restartAfterStop := false));
    StartExistingIsSane(Put(s, id, Effect(i.(restartAfterStop := false), [])), w, id, now);
    if i.life.state.Backoff? { LeaveBackoffIsSane(s, id, i, now); }
  }

  lemma ReapInstanceIsSane(s: Supervisor, w: World, id: string, wait: WaitOutcome, now: int)
    requires Sane(s)
    ensures Sane(ReapInstance(s, w, id, wait, now))
  {
    if id in s.instances && s.instances[id].process.Some? {
      FailIsSane(s, id, IoError, now);
      if wait.ExitStatus? {
        ReapIsSane(s, id, wait.cause, now);
        HandleReapedIsSane(Put(s, id, Reap(s.instances[id], wait.cause, now)), w, id, now);
      }
    }
  }

  lemma {:induction false} StartPendingIsSane(s: Supervisor, w: World, now: int)
    requires Sane(s)
    ensures Sane(StartPending(s, w, now))
    decreases |s.pending|
  {
    if !s.shutdown && s.pending != [] && ActiveCount(s) < MAXIMUM_INSTANCES {
      PendingIsSane(s, s.pending[1..], s.shutdown);
      HandleStartIsSane(s.(pending := s.pending[1..]), w, s.pending[0], now);
      StartPendingIsSane(HandleStart(s.(pending := s.pending[1..]), w, s.pending[0], now), w, now);
    }
  }
}
