/** The supervisor as it is kept: a map of instances and counters updated in place by its handlers. Each handler
    does to the fields what its function does to the state. */
module SupervisorLoop {
  import opened Optional
  import opened ModuleLifecycle
  import opened SupervisedInstance
  import opened ModuleSupervisor

  lemma PutTwice(s: Supervisor, id: string, first: Effect, second: Effect)
    ensures Put(Put(s, id, first), id, second) == Put(s, id, Effect(second.instance, first.events + second.events))
  {
    assert s.instances[id := first.instance][id := second.instance] == s.instances[id := second.instance];
    assert (s.trace + first.events) + second.events == s.trace + (first.events + second.events);
  }

  lemma EmitFirst(s: Supervisor, events: seq<Event>, id: string, e: Effect)
    ensures Put(Emit(s, events), id, e) == Put(s, id, Effect(e.instance, events + e.events))
  {
    assert (s.trace + events) + e.events == s.trace + (events + e.events);
  }

  /** For an instance that has to be stopped, noting the restart first changes nothing. */
  lemma MarkThenStop(s: Supervisor, w: World, id: string, i: Instance, now: int, restart: bool)
    requires id in s.instances && i == s.instances[id].(restartAfterStop := s.instances[id].restartAfterStop || restart)
    requires !i.life.state.Stopping? && !i.life.state.Stopped?
    ensures HandleStop(s, w, id, now, restart) == HandleStop(s.(instances := s.instances[id := i]), w, id, now, false)
  {
    var asked := AskToStop(i, w);
    var applied := Apply(asked.instance, Stop(asked.instance.life, now));
    var marked := s.(instances := s.instances[id := i]);
    assert marked.instances[id].(restartAfterStop := marked.instances[id].restartAfterStop || false) == i;
    PutOverMark(s, id, i, asked);
    PutOverMark(s, id, i, Effect(applied.instance, asked.events + applied.events));
    PutOverMark(s, id, i, Effect(applied.instance.(restartAfterStop := false), asked.events + applied.events));
  }

  lemma PutOverMark(s: Supervisor, id: string, i: Instance, e: Effect)
    requires id in s.instances
    ensures Put(s.(instances := s.instances[id := i]), id, e) == Put(s, id, e)
  {
    assert s.instances[id := i][id := e.instance] == s.instances[id := e.instance];
  }

  /** Marking an instance and then leaving its backoff is leaving it from the mark. */
  lemma LeaveFromMark(s: Supervisor, w: World, id: string, reset: Instance, now: int)
    requires id in s.instances
    ensures Put(s.(instances := s.instances[id := reset]), id, Apply(reset, Stop(reset.life, now)))
      == Put(s, id, Apply(reset, Stop(reset.life, now)))
  {
    PutOverMark(s, id, reset, Apply(reset, Stop(reset.life, now)));
  }

  function Prefixed(front: seq<Request>, rest: Option<seq<Request>>): Option<seq<Request>> {
    if rest.Some? then Some(front + rest.value) else None
  }

  lemma OverwrittenStep(pending: seq<Request>, request: Request, k: nat)
    requires k < |pending|
    ensures Prefixed(pending[..k], Overwritten(pending[k..], request)) ==
      if pending[k].instanceId == request.instanceId then Some(pending[..k] + ([request] + pending[k + 1..]))
      else Prefixed(pending[..k + 1], Overwritten(pending[k + 1..], request))
  {
    assert pending[k..][1..] == pending[k + 1..];
    if pending[k].instanceId != request.instanceId && Overwritten(pending[k + 1..], request).Some? {
      var rest := Overwritten(pending[k + 1..], request).value;
      assert pending[..k] + ([pending[k]] + rest) == pending[..k + 1] + rest;
    }
  }

  class Loop {
    var instances: map<string, Instance>
    var pending: seq<Request>
    var shutdown: bool
    var generations: nat
    ghost var trace: seq<Event>

    constructor ()
      ensures Value() == IDLE
    {
      instances, pending, shutdown, generations := map[], [], false, 0;
      trace := [];
    }

    ghost function Value(): Supervisor
      reads this
    {
      Supervisor(instances, pending, shutdown, generations, trace)
    }

    method Send(e: Event)
      modifies this`trace
      ensures trace == old(trace) + [e]
    {
      trace := trace + [e];
    }

    method EmitContextRemoval(id: string)
      requires id in instances
      modifies this
      ensures Value() == Put(old(Value()), id, RemoveContexts(old(instances[id])))
    {
      var i := instances[id];
      if i.contextsRemoved {
        assert instances[id := i] == instances && trace + [] == trace;
        return;
      }
      instances := instances[id := i.(contextsRemoved := true)];
      Send(ContextsRemoved(i.request.instanceId, i.generation));
    }

    method FinishRestart(id: string, succeeded: bool, state: State)
      requires id in instances
      modifies this
      ensures Value() == Put(old(Value()), id, CompleteRestart(old(instances[id]), succeeded, state))
    {
      var i := instances[id];
      if i.restartToken.None? {
        assert instances[id := i] == instances && trace + [] == trace;
        return;
      }
      instances := instances[id := i.(restartToken := None)];
      Send(RestartCompleted(i.request.instanceId, i.restartToken.value, succeeded, state));
    }

    method EmitTransition(id: string, t: Transition)
      requires id in instances
      modifies this
      ensures Value() == Put(old(Value()), id, Announce(old(instances[id]), t))
    {
      Send(StateChanged(instances[id].request.instanceId, t));
      if t.to.Running? {
        FinishRestart(id, true, t.to);
      } else if t.to.Failed? || (t.from.Starting? && !t.cause.Requested?) {
        FinishRestart(id, false, t.to);
      } else {
        assert instances[id := instances[id]] == instances;
      }
    }

    /** Stores a lifecycle's new state and announces the transition it made. */
    method Move(id: string, moved: Moved)
      requires id in instances
      modifies this
      ensures Value() == Put(old(Value()), id, Apply(old(instances[id]), moved))
    {
      instances := instances[id := instances[id].(life := moved.life)];
      if moved.transition.Some? { EmitTransition(id, moved.transition.value); }
    }

    method FailInstance(id: string, cause: Cause, now: int)
      requires id in instances
      modifies this
      ensures Value() == Put(old(Value()), id, BeginFailure(old(instances[id]), cause, now))
    {
      var i := instances[id];
      if !i.life.state.Starting? && !i.life.state.Running? {
        assert instances[id := i] == instances && trace + [] == trace;
        return;
      }
      EmitContextRemoval(id);
      ghost var removed := RemoveContexts(i);
      var moved := Fail(instances[id].life, cause, now);
      PutTwice(old(Value()), id, removed, Apply(removed.instance, moved));
      if moved.accepted {
        Move(id, moved);
      } else {
        Send(SupervisorError(i.request.instanceId));
      }
    }

    method Violate(id: string, now: int)
      requires id in instances
      modifies this
      ensures Value() == Put(old(Value()), id, RecordViolation(old(instances[id]), now))
    {
      var i := instances[id];
      if i.life.state.Stopping? {
        assert instances[id := i] == instances && trace + [] == trace;
        return;
      }
      var recent := i.violations;
      while recent != [] && recent[0] < now - VIOLATION_WINDOW
        invariant Dropped(recent, now - VIOLATION_WINDOW) == Dropped(i.violations, now - VIOLATION_WINDOW)
        decreases |recent|
      {
        recent := recent[1..];
      }
      recent := recent + [now];
      instances := instances[id := i.(violations := recent, consecutive := i.consecutive + 1)];
      Send(ProtocolViolationSeen(i.request.instanceId, i.consecutive + 1, |recent|));
      if i.life.state.Starting? || i.consecutive + 1 >= CONSECUTIVE_VIOLATION_LIMIT || |recent| >= VIOLATION_LIMIT {
        ghost var noted := instances[id];
        PutTwice(old(Value()), id,
          Effect(noted, [ProtocolViolationSeen(i.request.instanceId, noted.consecutive, |noted.violations|)]),
          BeginFailure(noted, ProtocolViolation, now));
        FailInstance(id, ProtocolViolation, now);
      }
    }

    method ProtocolLine(id: string, line: Line, now: int)
      requires id in instances
      modifies this
      ensures Value() == Put(old(Value()), id, HandleLine(old(instances[id]), line, now))
    {
      var i := instances[id];
      if i.life.state.Stopping? {
        assert instances[id := i] == instances && trace + [] == trace;
      } else if line.Malformed? {
        Violate(id, now);
      } else if !i.ready {
        if !line.ReadyLine? || !line.acceptable {
          Violate(id, now);
        } else {
          instances := instances[id := i.(consecutive := 0, ready := true)];
          var moved := Ready(i.life, now);
          if !moved.accepted {
            Violate(id, now);
          } else {
            Move(id, moved);
            Send(ModuleMessage(i.request.instanceId, true, line.content, i.generation, None));
          }
        }
      } else if line.ReadyLine? || !i.life.state.Running? || !line.negotiated {
        Violate(id, now);
      } else {
        instances := instances[id := i.(consecutive := 0)];
        Send(ModuleMessage(i.request.instanceId, false, line.content, i.generation, line.answer));
      }
    }

    /** Lines of one read, until one of them stops the module. */
    method ConsumeLines(id: string, lines: seq<Line>, now: int)
      requires id in instances
      modifies this
      ensures Value() == HandleLines(old(Value()), id, lines, now)
    {
      var k := 0;
      assert lines[0..] == lines;
      while k < |lines|
        invariant 0 <= k <= |lines| && id in instances
        invariant HandleLines(Value(), id, lines[k..], now) == HandleLines(old(Value()), id, lines, now)
      {
        assert lines[k..][1..] == lines[k + 1..];
        ProtocolLine(id, lines[k], now);
        k := k + 1;
        if instances[id].life.state.Stopping? { return; }
      }
    }

    method SpawnInstance(w: World, id: string, now: int)
      requires id in instances
      modifies this
      ensures Value() == SpawnNext(old(Value()), w, id, now)
    {
      var i := instances[id];
      generations := generations + 1;
      var reset :=
        i.(consecutive := 0, ready := false, contextsRemoved := false, eofAt := None, generation := generations);
      instances := instances[id := reset];
      var pid := w.spawned(generations);
      if pid.None? {
        SpawnFails(id, now);
        return;
      }
      instances := instances[id := reset.(process := pid)];
      SpawnSucceeds(w, id, pid.value, now);
    }

    method SpawnSucceeds(w: World, id: string, pid: int, now: int)
      requires id in instances
      modifies this
      ensures var i := old(instances[id]);
        var started := ProcessStarted(i.request.instanceId, pid, i.generation);
        var failed := BeginFailure(i, Unresponsive, now);
        Value() == Put(old(Value()), id,
          if w.initQueued(i.generation) then Effect(i, [started])
            else Effect(failed.instance, [started, ErrorOf(i)] + failed.events))
    {
      var i := instances[id];
      Send(ProcessStarted(i.request.instanceId, pid, i.generation));
      if w.initQueued(i.generation) {
        assert instances[id := i] == instances;
        return;
      }
      Send(SupervisorError(i.request.instanceId));
      FailInstance(id, Unresponsive, now);
      ghost var news := [ProcessStarted(i.request.instanceId, pid, i.generation), ErrorOf(i)];
      assert old(trace) + [news[0]] + [news[1]] == old(trace) + news;
      EmitFirst(old(Value()), news, id, BeginFailure(i, Unresponsive, now));
    }

    method SpawnFails(id: string, now: int)
      requires id in instances
      modifies this
      ensures var i := old(instances[id]);
        var removed := RemoveContexts(i);
        var applied := Apply(removed.instance, Exited(removed.instance.life, SpawnError, now));
        Value() == Put(old(Value()), id, Effect(applied.instance, [ErrorOf(i)] + removed.events + applied.events))
    {
      var i := instances[id];
      Send(SupervisorError(i.request.instanceId));
      EmitContextRemoval(id);
      ghost var removed := RemoveContexts(i);
      ghost var applied := Apply(removed.instance, Exited(removed.instance.life, SpawnError, now));
      Move(id, Exited(instances[id].life, SpawnError, now));
      EmitFirst(old(Value()), [ErrorOf(i)], id, removed);
      PutTwice(old(Value()), id, Effect(removed.instance, [ErrorOf(i)] + removed.events), applied);
    }

    /** How many instances count against the limit. */
    method CountActive() returns (count: nat)
      ensures count == ActiveCount(Value())
    {
      var rest := instances;
      count := 0;
      while rest != map[]
        invariant forall id :: id in rest ==> id in instances && rest[id] == instances[id]
        invariant count + |ActiveIds(rest)| == ActiveCount(Value())
        decreases |rest|
      {
        var id :| id in rest;
        var others := rest - {id};
        assert ActiveIds(others) == ActiveIds(rest) - {id};
        if IsActive(rest[id].life.state) { count := count + 1; }
        rest := others;
      }
      assert ActiveIds(rest) == {};
    }

    method StartAgain(w: World, id: string, now: int)
      requires id in instances
      modifies this
      ensures Value() == StartExisting(old(Value()), w, id, now)
    {
      var i := instances[id];
      if shutdown {
        FinishRestart(id, false, i.life.state);
        return;
      }
      var active := CountActive();
      if active >= MAXIMUM_INSTANCES {
        Send(SupervisorError(i.request.instanceId));
        FinishRestart(id, false, i.life.state);
        return;
      }
      var moved := Start(i.life, now);
      if !moved.accepted {
        Send(SupervisorError(i.request.instanceId));
        FinishRestart(id, false, i.life.state);
        return;
      }
      Move(id, moved);
      SpawnInstance(w, id, now);
    }

    method StartRequest(w: World, request: Request, now: int)
      modifies this
      ensures Value() == HandleStart(old(Value()), w, request, now)
    {
      var id := request.instanceId;
      if shutdown {
        Send(SupervisorError(id));
        return;
      }
      if id in instances && IsActive(instances[id].life.state) {
        Send(SupervisorError(id));
        return;
      }
      instances := instances - {id};
      var active := CountActive();
      if active >= MAXIMUM_INSTANCES {
        Send(SupervisorError(id));
        return;
      }
      Enter(w, request, now);
    }

    /** A new instance enters the map and is started. */
    method Enter(w: World, request: Request, now: int)
      requires request.instanceId !in instances
      modifies this
      ensures var i := NewInstance(request);
        Value() ==
          SpawnNext(Put(old(Value()), request.instanceId, Apply(i, Start(i.life, now))), w, request.instanceId, now)
    {
      var id := request.instanceId;
      var i := NewInstance(request);
      instances := instances[id := i];
      ghost var entered := Value();
      Move(id, Start(i.life, now));
      assert old(instances)[id := i][id := instances[id]] == old(instances)[id := instances[id]];
      SpawnInstance(w, id, now);
    }

    method StopInstance(w: World, id: string, now: int, restart: bool)
      modifies this
      ensures Value() == HandleStop(old(Value()), w, id, now, restart)
    {
      if id !in instances {
        Send(SupervisorError(id));
        return;
      }
      var i := instances[id].(restartAfterStop := instances[id].restartAfterStop || restart);
      instances := instances[id := i];
      if i.life.state.Stopping? {
        assert trace + [] == trace;
        return;
      }
      if i.life.state.Stopped? {
        assert trace + [] == trace;
        if restart && !shutdown { StartAgain(w, id, now); }
        return;
      }
      MarkThenStop(old(Value()), w, id, i, now, restart);
      StopLive(w, id, now);
    }

    method Ask(w: World, id: string)
      requires id in instances
      modifies this
      ensures Value() == Put(old(Value()), id, AskToStop(old(instances[id]), w))
    {
      var i := instances[id];
      if i.life.state.Starting? || i.life.state.Running? {
        if !w.shutdownQueued(i.generation) {
          Send(SupervisorError(i.request.instanceId));
          Send(SupervisorError(i.request.instanceId));
        }
        ghost var trouble := if w.shutdownQueued(i.generation) then [] else [ErrorOf(i), ErrorOf(i)];
        assert trace == old(trace) + trouble;
        EmitContextRemoval(id);
        EmitFirst(old(Value()), trouble, id, RemoveContexts(i));
      } else {
        assert instances[id := i] == instances;
      }
    }

    /** What a stop request does to an instance that is neither stopped nor stopping. */
    method StopLive(w: World, id: string, now: int)
      requires id in instances && !instances[id].life.state.Stopping? && !instances[id].life.state.Stopped?
      modifies this
      ensures Value() == HandleStop(old(Value()), w, id, now, false)
    {
      var i := instances[id];
      Ask(w, id);
      ghost var asked := AskToStop(i, w);
      var moved := Stop(instances[id].life, now);
      if !moved.accepted {
        Send(SupervisorError(i.request.instanceId));
        return;
      }
      Move(id, moved);
      ghost var applied := Apply(asked.instance, moved);
      PutTwice(old(Value()), id, asked, applied);
      if instances[id].life.state.Stopped? && instances[id].restartAfterStop && !shutdown {
        instances := instances[id := instances[id].(restartAfterStop := false)];
        assert Value() ==
          Put(old(Value()), id, Effect(applied.instance.(restartAfterStop := false), asked.events + applied.events));
        StartAgain(w, id, now);
      }
    }

    method RestartInstance(w: World, id: string, token: nat, now: int)
      modifies this
      ensures Value() == HandleRestart(old(Value()), w, id, token, now)
    {
      if id !in instances {
        Send(SupervisorError(id));
        Send(RestartCompleted(id, token, false, Failed));
        return;
      }
      var i := instances[id];
      if i.restartToken.Some? {
        Send(RestartCompleted(id, token, false, i.life.state));
        return;
      }
      var reset := i.(restartToken := Some(token), life := ResetForRestart(i.life).life);
      if i.life.state.Backoff? {
        instances := instances[id := reset];
        LeaveBackoff(w, id, now);
        LeaveFromMark(old(Value()), w, id, reset, now);
        return;
      }
      instances := instances[id := reset];
      assert Value() == Put(old(Value()), id, Effect(reset, [])) by { assert trace + [] == trace; }
      if i.life.state.Failed? || i.life.state.Stopped? {
        StartAgain(w, id, now);
      } else {
        StopInstance(w, id, now, true);
      }
    }

    method LeaveBackoff(w: World, id: string, now: int)
      requires id in instances
      modifies this
      ensures Value() ==
        StartExisting(Put(old(Value()), id, Apply(old(instances[id]), Stop(old(instances[id]).life, now))), w, id, now)
    {
      Move(id, Stop(instances[id].life, now));
      StartAgain(w, id, now);
    }

    method SendMessage(id: string, queued: bool, now: int)
      modifies this
      ensures Value() == HandleSend(old(Value()), id, queued, now)
    {
      if id !in instances {
        Send(SupervisorError(id));
        return;
      }
      if !instances[id].life.state.Running? {
        Send(SupervisorError(instances[id].request.instanceId));
        return;
      }
      if !queued {
        Send(SupervisorError(instances[id].request.instanceId));
        FailInstance(id, Unresponsive, now);
      }
    }

    method SendAction(id: string, generation: nat, invocation: nat, push: PushOutcome, now: int)
      modifies this
      ensures Value() == HandleSendAction(old(Value()), id, generation, invocation, push, now)
    {
      if id !in instances {
        Send(ActionDelivery(id, generation, invocation, false, Some(UnknownInstance), now));
      } else if instances[id].generation != generation {
        Send(ActionDelivery(id, generation, invocation, false, Some(GenerationMismatch), now));
      } else if !instances[id].life.state.Running? || instances[id].process.None? {
        Send(ActionDelivery(id, generation, invocation, false, Some(Unavailable), now));
      } else {
        match push
        case Saturated =>
          Send(ActionDelivery(id, generation, invocation, false, Some(QueueSaturated), now));
          FailInstance(id, Unresponsive, now);
        case Unserializable =>
          Send(ActionDelivery(id, generation, invocation, false, Some(SerializationFailed), now));
        case Queued =>
          Send(ActionDelivery(id, generation, invocation, true, None, now));
      }
    }

    method Cancel(id: string, replacement: Option<Request>)
      requires id in instances
      modifies this
      ensures Value() == Replace(CancelRestart(old(Value()), id), id, replacement)
    {
      var i := instances[id].(restartAfterStop := false);
      instances := instances[id := i];
      FinishRestart(id, false, i.life.state);
      assert old(instances)[id := i][id := instances[id]] == old(instances)[id := instances[id]];
      instances := instances[id := instances[id].(replacement := replacement)];
    }

    /** Drops the waiting requests of an instance. */
    method ErasePending(id: string)
      modifies this`pending
      ensures pending == WithoutPending(old(pending), id)
    {
      var kept: seq<Request> := [];
      var rest := pending;
      while rest != []
        invariant kept + WithoutPending(rest, id) == WithoutPending(old(pending), id)
        decreases |rest|
      {
        if rest[0].instanceId != id {
          assert kept + ([rest[0]] + WithoutPending(rest[1..], id)) ==
            (kept + [rest[0]]) + WithoutPending(rest[1..], id);
          kept := kept + [rest[0]];
        }
        rest := rest[1..];
      }
      assert kept + [] == kept;
      pending := kept;
    }

    method StopForReconfiguration(w: World, id: string, now: int)
      modifies this
      ensures Value() == ReconfigureStop(old(Value()), w, id, now)
    {
      ErasePending(id);
      if id !in instances { return; }
      Cancel(id, None);
      StopInstance(w, id, now, false);
    }

    method StartForReconfiguration(w: World, request: Request, now: int)
      modifies this
      ensures Value() == ReconfigureStart(old(Value()), w, request, now)
    {
      var id := request.instanceId;
      if id !in instances {
        QueueRequest(w, request, now);
        return;
      }
      Cancel(id, Some(request));
      StopInstance(w, id, now, false);
      StartReplacementNow(w, id, now);
    }

    method StartReplacementNow(w: World, id: string, now: int)
      modifies this
      ensures Value() == StartReplacement(old(Value()), w, id, now)
    {
      if id !in instances || instances[id].process.Some? || instances[id].replacement.None?
         || (!instances[id].life.state.Stopped? && !instances[id].life.state.Failed?) { return; }
      var request := instances[id].replacement.value;
      instances := instances - {id};
      StartRequest(w, request, now);
    }

    /** Replaces the first waiting request for the same instance, if there is one. */
    method ReplaceWaiting(request: Request) returns (found: bool)
      modifies this`pending
      ensures found == Overwritten(old(pending), request).Some?
      ensures pending == if found then Overwritten(old(pending), request).value else old(pending)
    {
      var k := 0;
      assert pending[0..] == pending && pending[..0] == [];
      assert Overwritten(pending, request).Some? ==>
        [] + Overwritten(pending, request).value == Overwritten(pending, request).value;
      while k < |pending|
        invariant 0 <= k <= |pending| && pending == old(pending)
        invariant Overwritten(pending, request) == Prefixed(pending[..k], Overwritten(pending[k..], request))
      {
        OverwrittenStep(pending, request, k);
        if pending[k].instanceId == request.instanceId {
          pending := pending[k := request];
          assert pending == old(pending)[..k] + ([request] + old(pending)[k + 1..]);
          return true;
        }
        k := k + 1;
      }
      found := false;
    }

    method QueueRequest(w: World, request: Request, now: int)
      modifies this
      ensures Value() == QueueOrStart(old(Value()), w, request, now)
    {
      var found := ReplaceWaiting(request);
      if found { return; }
      var active := CountActive();
      if active >= MAXIMUM_INSTANCES {
        pending := pending + [request];
      } else {
        StartRequest(w, request, now);
      }
    }

    method Reconfigure(w: World, stops: seq<string>, starts: seq<Request>, now: int)
      modifies this
      ensures Value() == ReconfigureStarts(ReconfigureStops(old(Value()), w, stops, now), w, starts, now)
    {
      var k := 0;
      assert stops[0..] == stops && starts[0..] == starts;
      while k < |stops|
        invariant 0 <= k <= |stops|
        invariant ReconfigureStops(Value(), w, stops[k..], now) == ReconfigureStops(old(Value()), w, stops, now)
      {
        assert stops[k..][1..] == stops[k + 1..];
        StopForReconfiguration(w, stops[k], now);
        k := k + 1;
      }
      k := 0;
      while k < |starts|
        invariant 0 <= k <= |starts|
        invariant ReconfigureStarts(Value(), w, starts[k..], now)
          == ReconfigureStarts(ReconfigureStops(old(Value()), w, stops, now), w, starts, now)
      {
        assert starts[k..][1..] == starts[k + 1..];
        StartForReconfiguration(w, starts[k], now);
        k := k + 1;
      }
    }

    method BeginShutdown(w: World, ids: seq<string>, now: int)
      modifies this
      ensures Value() == GlobalShutdown(old(Value()), w, ids, now)
    {
      if shutdown { return; }
      shutdown, pending := true, [];
      var k := 0;
      assert ids[0..] == ids;
      while k < |ids|
        invariant 0 <= k <= |ids|
        invariant StopAll(Value(), w, ids[k..], now) ==
          StopAll(old(Value()).(shutdown := true, pending := []), w, ids, now)
      {
        assert ids[k..][1..] == ids[k + 1..];
        StopInstance(w, ids[k], now, false);
        k := k + 1;
      }
    }

    method Advance(w: World, id: string, now: int)
      requires id in instances
      modifies this
      ensures Value() == AdvanceLifecycle(old(Value()), w, id, now)
    {
      var before := instances[id].life.state;
      TickInstance(id, now);
      if before.Backoff? && instances[id].life.state.Starting? && instances[id].process.None? {
        SpawnInstance(w, id, now);
      }
      SignalInstance(w, id, now);
    }

    method TickInstance(id: string, now: int)
      requires id in instances
      modifies this
      ensures Value() == Put(old(Value()), id, TickLife(old(instances[id]), now))
    {
      var moved := Tick(instances[id].life, now);
      if moved.transition.Some? && moved.transition.value.to.Stopping? {
        ghost var removed := RemoveContexts(instances[id]);
        EmitContextRemoval(id);
        Move(id, moved);
        PutTwice(old(Value()), id, removed, Apply(removed.instance, moved));
      } else {
        Move(id, moved);
      }
    }

    method SignalInstance(w: World, id: string, now: int)
      requires id in instances
      modifies this
      ensures Value() == Put(old(Value()), id, SendDueSignal(old(instances[id]), w, now))
    {
      var i := instances[id];
      var due := DueSignal(i.life, now);
      if i.process.None? || due.None? {
        assert instances[id := i] == instances && trace + [] == trace;
        return;
      }
      if !w.signalled(i.generation, due.value) { Send(SupervisorError(i.request.instanceId)); }
      var moved := SignalSent(i.life, due.value, now);
      instances := instances[id := i.(life := moved.life)];
      assert moved.accepted && trace + [] == trace;
    }

    method ReapNow(w: World, id: string, wait: WaitOutcome, now: int)
      modifies this
      ensures Value() == ReapInstance(old(Value()), w, id, wait, now)
    {
      if id !in instances || instances[id].process.None? { return; }
      var i := instances[id];
      match wait
      case WaitError =>
        Send(SupervisorError(i.request.instanceId));
        FailInstance(id, IoError, now);
      case StillRunning =>
        if i.eofAt.Some? && now - i.eofAt.value >= EOF_GRACE && (i.life.state.Starting? || i.life.state.Running?) {
          FailInstance(id, IoError, now);
        }
      case ExitStatus(cause) =>
        Bury(id, cause, now);
        AfterExit(w, id, now);
    }

    method AnnounceExit(id: string, cause: Cause)
      requires id in instances && instances[id].process.Some?
      modifies this
      ensures var i := old(instances[id]);
        var removed := RemoveContexts(i);
        Value() == Put(old(Value()), id, Effect(removed.instance,
          removed.events + [ProcessExited(i.request.instanceId, i.process.value, cause, i.generation)]))
    {
      var i := instances[id];
      EmitContextRemoval(id);
      Send(ProcessExited(i.request.instanceId, i.process.value, cause, i.generation));
      ghost var gone := [ProcessExited(i.request.instanceId, i.process.value, cause, i.generation)];
      assert (old(trace) + RemoveContexts(i).events) + gone == old(trace) + (RemoveContexts(i).events + gone);
    }

    /** Contexts go, the exit is announced, the lifecycle moves on and the process is forgotten, in that order. */
    method Bury(id: string, status: Cause, now: int)
      requires id in instances && instances[id].process.Some?
      modifies this
      ensures Value() == Put(old(Value()), id, Reap(old(instances[id]), status, now))
    {
      var i := instances[id];
      var moved := Exited(i.life, status, now);
      var effective := if moved.transition.Some? then moved.transition.value.cause else status;
      AnnounceExit(id, effective);
      ghost var announced :=
        RemoveContexts(i).events + [ProcessExited(i.request.instanceId, i.process.value, effective, i.generation)];
      ghost var removed := RemoveContexts(i).instance;
      ghost var applied := Apply(removed, moved);
      Move(id, moved);
      PutTwice(old(Value()), id, Effect(removed, announced), applied);
      assert Value() == Put(old(Value()), id, Effect(applied.instance, announced + applied.events));
      Forget(id);
      assert instances == old(instances)[id := applied.instance.(process := None)];
      assert Reap(i, status, now) == Effect(applied.instance.(process := None), announced + applied.events);
    }

    method Forget(id: string)
      requires id in instances
      modifies this`instances
      ensures instances == old(instances)[id := old(instances[id]).(process := None)]
    {
      instances := instances[id := instances[id].(process := None)];
    }

    method AfterExit(w: World, id: string, now: int)
      requires id in instances
      modifies this
      ensures Value() == HandleReaped(old(Value()), w, id, now)
    {
      var i := instances[id];
      if i.replacement.Some? && i.life.state.Stopped? { return; }
      if i.restartAfterStop && !shutdown && i.life.state.Stopped? {
        instances := instances[id := i.(restartAfterStop := false)];
        assert trace + [] == trace;
        StartAgain(w, id, now);
      } else if shutdown && i.life.state.Backoff? {
        Move(id, Stop(i.life, now));
      }
    }

    /** Waiting requests start while there is room. */
    method StartWaiting(w: World, now: int)
      modifies this
      ensures Value() == StartPending(old(Value()), w, now)
    {
      var active := CountActive();
      while !shutdown && pending != [] && active < MAXIMUM_INSTANCES
        invariant active == ActiveCount(Value())
        invariant StartPending(Value(), w, now) == StartPending(old(Value()), w, now)
        decreases |pending|
      {
        var request := pending[0];
        pending := pending[1..];
        StartRequest(w, request, now);
        active := CountActive();
      }
    }
  }
}
