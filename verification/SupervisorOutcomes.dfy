/** What each command and each step of the supervisor achieves, instance by instance: starts, stops, restarts and
    replacements end where they should. */
module SupervisorOutcomes {
  import opened Optional
  import opened ModuleLifecycle
  import opened SupervisedInstance
  import opened ModuleSupervisor
  import opened SupervisorInvariant

  // ---- Vocabulary ----

  /** No instance but this one is touched. */
  predicate OthersSame(s: Supervisor, t: Supervisor, id: string) {
    && (forall other :: other in s.instances && other != id ==>
      other in t.instances && t.instances[other] == s.instances[other])
    && (forall other :: other in t.instances && other != id ==> other in s.instances)
  }

  /** What has been told since. */
  function News(s: Supervisor, t: Supervisor): seq<Event> {
    if |s.trace| <= |t.trace| then t.trace[|s.trace|..] else []
  }

  /** Everything but the instances and the trace is as it was, and the trace only grew. */
  predicate SameCourse(s: Supervisor, t: Supervisor) {
    t.generations == s.generations && t.pending == s.pending && t.shutdown == s.shutdown && s.trace <= t.trace
  }

  /** Fewer than 32 other instances are neither stopped nor failed. */
  predicate Room(s: Supervisor, id: string) {
    |set other | other in s.instances && other != id && !AtRest(s.instances[other].life.state)| < 32
  }

  /** The new process waits for its ready line. */
  predicate Begun(i: Instance, now: int) {
    && i.life.state.Starting? && !i.ready && !i.contextsRemoved && i.eofAt.None? && i.consecutive == 0
    && i.life.handshakeDeadline == Some(now + i.life.timings.handshake)
  }

  /** The next generation of the instance has been spawned, under this request: its process is told and waits for its
      ready line, or is being stopped because it could not be initialised; or there is none and its contexts are told
      removed. */
  predicate Launched(s: Supervisor, t: Supervisor, w: World, id: string, request: Request, now: int) {
    var g := s.generations + 1;
    && t.generations == g && t.pending == s.pending && t.shutdown == s.shutdown && s.trace <= t.trace
    && OthersSame(s, t, id) && id in t.instances
    && var i := t.instances[id];
       && i.request == request && i.generation == g && i.process == w.spawned(g)
       && (w.spawned(g).Some? ==>
             && ProcessStarted(id, w.spawned(g).value, g) in News(s, t)
             && (w.initQueued(g) ==> Begun(i, now))
             && (!w.initQueued(g) ==>
                   i.life.state.Stopping? && i.life.pendingCause == Some(Unresponsive) && ErrorOf(i) in News(s, t)))
       && (w.spawned(g).None? ==>
             && ContextsRemoved(id, g) in News(s, t) && ErrorOf(i) in News(s, t)
             && (AtRest(i.life.state) || i.life.state.Backoff?))
  }

  // ---- Spawning ----

  /** What a start leaves in the instance's own part: the restart it may answer, and nothing else changes. */
  predicate KeepsPlans(before: Instance, after: Instance) {
    && after.restartAfterStop == before.restartAfterStop && after.replacement == before.replacement
    && (after.restartToken == before.restartToken || after.restartToken.None?)
  }

  /** What spawning an instance that is to start comes to. */
  predicate SpawnedAs(i: Instance, w: World, g: nat, now: int, e: Effect) {
    && e.instance.request == i.request && e.instance.generation == g && e.instance.process == w.spawned(g)
    && KeepsPlans(i, e.instance)
    && (w.spawned(g).Some? ==>
          && ProcessStarted(i.request.instanceId, w.spawned(g).value, g) in e.events
          && (w.initQueued(g) ==> Begun(e.instance, now) && e.instance.restartToken == i.restartToken)
          && (!w.initQueued(g) ==>
                && e.instance.life.state.Stopping? && e.instance.life.pendingCause == Some(Unresponsive)
                && ErrorOf(i) in e.events))
    && (w.spawned(g).None? ==>
          && ContextsRemoved(i.request.instanceId, g) in e.events && ErrorOf(i) in e.events
          && (AtRest(e.instance.life.state) || e.instance.life.state.Backoff?)
          && (i.restartToken.Some? ==>
                RestartCompleted(i.request.instanceId, i.restartToken.value, false, e.instance.life.state) in e.events))
  }

  lemma SpawnSucceeds(i: Instance, w: World, g: nat, now: int, e: Effect)
    requires i.life.state.Starting? && i.process.None? && w.spawned(g).Some? && e == Spawn(i, w, g, now)
    requires i.life.handshakeDeadline == Some(now + i.life.timings.handshake)
    ensures SpawnedAs(i, w, g, now, e)
  {
    assert e.events[0] == ProcessStarted(i.request.instanceId, w.spawned(g).value, g);
    if !w.initQueued(g) { assert e.events[1] == ErrorOf(i); }
  }

  lemma SpawnFails(i: Instance, w: World, g: nat, now: int, e: Effect)
    requires i.life.state.Starting? && i.process.None? && w.spawned(g).None? && e == Spawn(i, w, g, now)
    ensures SpawnedAs(i, w, g, now, e)
  {
    assert e.events[0] == ErrorOf(i);
    assert e.events[1] == ContextsRemoved(i.request.instanceId, g);
    if i.restartToken.Some? {
      assert e.events[3] == RestartCompleted(i.request.instanceId, i.restartToken.value, false, e.instance.life.state);
    }
  }

  lemma LaunchedBy(s: Supervisor, w: World, id: string, e: Effect, spawned: Effect, now: int, t: Supervisor)
    requires e.instance.request.instanceId == id && SpawnedAs(e.instance, w, s.generations + 1, now, spawned)
    requires t.instances == s.instances[id := spawned.instance] && t.pending == s.pending && t.shutdown == s.shutdown
    requires t.generations == s.generations + 1 && t.trace == s.trace + (e.events + spawned.events)
    ensures Launched(s, t, w, id, e.instance.request, now) && KeepsPlans(e.instance, t.instances[id])
    ensures AnswersRestart(s, t, w, id, e.instance.restartToken)
  {
    assert News(s, t) == e.events + spawned.events;
  }

  /** A restart that waits is answered as failed if no process came of it; otherwise it goes on waiting, unless the
      process could not be initialised. */
  predicate AnswersRestart(s: Supervisor, t: Supervisor, w: World, id: string, token: Option<nat>)
    requires id in t.instances
  {
    var g := s.generations + 1;
    && (w.spawned(g).Some? && w.initQueued(g) ==> t.instances[id].restartToken == token)
    && (w.spawned(g).None? && token.Some? ==>
          RestartCompleted(id, token.value, false, t.instances[id].life.state) in News(s, t))
  }

  /** Storing the instance and spawning it launches its next generation. */
  lemma SpawnLaunches(s: Supervisor, w: World, id: string, e: Effect, now: int, t: Supervisor)
    requires e.instance.request.instanceId == id && e.instance.life.state.Starting? && e.instance.process.None?
    requires e.instance.life.handshakeDeadline == Some(now + e.instance.life.timings.handshake)
    requires t == SpawnNext(Put(s, id, e), w, id, now)
    ensures Launched(s, t, w, id, e.instance.request, now) && KeepsPlans(e.instance, t.instances[id])
    ensures AnswersRestart(s, t, w, id, e.instance.restartToken)
  {
    var g := s.generations + 1;
    var spawned := Spawn(e.instance, w, g, now);
    if w.spawned(g).Some? {
      SpawnSucceeds(e.instance, w, g, now, spawned);
    } else {
      SpawnFails(e.instance, w, g, now, spawned);
    }
    SpawnPuts(s, w, id, e, now, spawned, t);
    LaunchedBy(s, w, id, e, spawned, now, t);
  }

  lemma PutTwice(s: Supervisor, id: string, e: Effect, g: nat, spawned: Effect, t: Supervisor)
    requires t == Put(Put(s, id, e).(generations := g), id, spawned)
    ensures t.instances == s.instances[id := spawned.instance] && t.pending == s.pending && t.shutdown == s.shutdown
    ensures t.generations == g && t.trace == s.trace + (e.events + spawned.events)
  {
  }

  lemma SpawnPuts(s: Supervisor, w: World, id: string, e: Effect, now: int, spawned: Effect, t: Supervisor)
    requires spawned == Spawn(e.instance, w, s.generations + 1, now) && t == SpawnNext(Put(s, id, e), w, id, now)
    ensures t.instances == s.instances[id := spawned.instance] && t.pending == s.pending && t.shutdown == s.shutdown
    ensures t.generations == s.generations + 1 && t.trace == s.trace + (e.events + spawned.events)
  {
    PutTwice(s, id, e, s.generations + 1, spawned, t);
  }

  // ---- Starting ----

  lemma RoomIff(s: Supervisor, id: string)
    requires id in s.instances ==> AtRest(s.instances[id].life.state)
    ensures Room(s, id) <==> ActiveCount(s) < MAXIMUM_INSTANCES
    ensures Room(s, id) <==> ActiveCount(Erase(s, id)) < MAXIMUM_INSTANCES
  {
    var others := set other | other in s.instances && other != id && !AtRest(s.instances[other].life.state);
    assert ActiveIds(s.instances) == others;
    assert ActiveIds(Erase(s, id).instances) == others;
  }

  /** The instance runs a request of its own: nothing is left of an earlier life. */
  predicate LaunchedFresh(s: Supervisor, t: Supervisor, w: World, id: string, request: Request, now: int) {
    && Launched(s, t, w, id, request, now)
    && !t.instances[id].restartAfterStop && t.instances[id].restartToken.None? && t.instances[id].replacement.None?
  }

  /** The request is answered by an error alone; only the record of an instance at rest may be gone. */
  predicate Refused(s: Supervisor, t: Supervisor, id: string) {
    && SameCourse(s, t) && News(s, t) == [SupervisorError(id)] && OthersSame(s, t, id)
    && (id in t.instances ==> id in s.instances && t.instances[id] == s.instances[id])
    && (id in s.instances && (s.shutdown || !AtRest(s.instances[id].life.state)) ==> id in t.instances)
  }

  predicate Startable(s: Supervisor, id: string) {
    !s.shutdown && (id in s.instances ==> AtRest(s.instances[id].life.state)) && Room(s, id)
  }

  /** A start request launches a fresh instance exactly if nothing shuts down, the instance is at rest and there is
      room. Otherwise it is refused. */
  lemma StartAnswers(s: Supervisor, w: World, request: Request, now: int, t: Supervisor)
    requires t == HandleStart(s, w, request, now)
    ensures if Startable(s, request.instanceId) then LaunchedFresh(s, t, w, request.instanceId, request, now)
            else Refused(s, t, request.instanceId)
  {
    var id := request.instanceId;
    if !s.shutdown && (id in s.instances ==> AtRest(s.instances[id].life.state)) {
      RoomIff(s, id);
      if Room(s, id) {
        StartLaunches(s, w, request, now, t);
      } else {
        assert News(s, t) == [SupervisorError(id)];
      }
    }
  }

  lemma StartLaunches(s: Supervisor, w: World, request: Request, now: int, t: Supervisor)
    requires Startable(s, request.instanceId) && t == HandleStart(s, w, request, now)
    ensures LaunchedFresh(s, t, w, request.instanceId, request, now)
  {
    RoomIff(s, request.instanceId);
    var i := NewInstance(request);
    ApplyIsSilent(i, Start(i.life, now));
    NewLaunches(s, w, request, now, Apply(i, Start(i.life, now)), t);
  }

  lemma NewLaunches(s: Supervisor, w: World, request: Request, now: int, e: Effect, t: Supervisor)
    requires e.instance.request == request && e.instance.life.state.Starting? && e.instance.process.None?
    requires e.instance.life.handshakeDeadline == Some(now + e.instance.life.timings.handshake)
    requires !e.instance.restartAfterStop && e.instance.restartToken.None? && e.instance.replacement.None?
    requires t == SpawnNext(Put(Erase(s, request.instanceId), request.instanceId, e), w, request.instanceId, now)
    ensures LaunchedFresh(s, t, w, request.instanceId, request, now)
  {
    SpawnLaunches(Erase(s, request.instanceId), w, request.instanceId, e, now, t);
    LaunchedAfterErase(s, w, request.instanceId, request, now, t);
  }

  lemma LaunchedAfterErase(s: Supervisor, w: World, id: string, request: Request, now: int, t: Supervisor)
    requires Launched(Erase(s, id), t, w, id, request, now)
    ensures Launched(s, t, w, id, request, now)
  {
    assert News(s, t) == News(Erase(s, id), t);
  }

  /** Starting an instance at rest again: its next generation is launched unless there is a shutdown or no room; then
      a restart that waits is answered as failed, and a lack of room is told. */
  predicate StartsAgain(s: Supervisor, w: World, id: string, i: Instance, now: int, t: Supervisor) {
    if !s.shutdown && Room(s, id) then
      && Launched(s, t, w, id, i.request, now) && KeepsPlans(i, t.instances[id])
      && AnswersRestart(s, t, w, id, i.restartToken)
    else
      && SameCourse(s, t) && OthersSame(s, t, id) && id in t.instances
      && t.instances[id] == i.(restartToken := None)
      && (i.restartToken.Some? ==> RestartCompleted(id, i.restartToken.value, false, i.life.state) in News(s, t))
      && (!s.shutdown ==> SupervisorError(id) in News(s, t))
  }

  lemma NotStarted(s: Supervisor, w: World, id: string, i: Instance, now: int, e: Effect, t: Supervisor)
    requires i.request.instanceId == id && (s.shutdown || !Room(s, id))
    requires e == CompleteRestart(i, false, i.life.state)
    requires t == Put(if s.shutdown then s else Emit(s, [ErrorOf(i)]), id, e)
    ensures StartsAgain(s, w, id, i, now, t)
  {
    assert News(s, t) == (if s.shutdown then [] else [ErrorOf(i)]) + e.events;
    if i.restartToken.Some? { assert e.events[0] == RestartCompleted(id, i.restartToken.value, false, i.life.state); }
    if !s.shutdown { assert News(s, t)[0] == ErrorOf(i); }
  }

  lemma StartAgainAnswers(s: Supervisor, w: World, id: string, now: int, t: Supervisor)
    requires id in s.instances && s.instances[id].request.instanceId == id && AtRest(s.instances[id].life.state)
    requires s.instances[id].process.None? && t == StartExisting(s, w, id, now)
    ensures StartsAgain(s, w, id, s.instances[id], now, t)
  {
    var i := s.instances[id];
    RoomIff(s, id);
    if !s.shutdown && Room(s, id) {
      ApplyIsSilent(i, Start(i.life, now));
      SpawnLaunches(s, w, id, Apply(i, Start(i.life, now)), now, t);
    } else {
      NotStarted(s, w, id, i, now, CompleteRestart(i, false, i.life.state), t);
    }
  }

  lemma PutKeepsRoom(s: Supervisor, id: string, e: Effect)
    ensures Room(Put(s, id, e), id) <==> Room(s, id)
  {
    var put := Put(s, id, e);
    assert (set other | other in put.instances && other != id && !AtRest(put.instances[other].life.state))
      == (set other | other in s.instances && other != id && !AtRest(s.instances[other].life.state));
  }

  lemma NewsAfterPut(s: Supervisor, id: string, e: Effect, t: Supervisor)
    requires Put(s, id, e).trace <= t.trace
    ensures s.trace <= t.trace && News(s, t) == e.events + News(Put(s, id, e), t)
  {
  }

  /** What went before on the same instance is part of it. */
  lemma LaunchedAfterPut(s: Supervisor, w: World, id: string, e: Effect, request: Request, now: int, t: Supervisor)
    requires Launched(Put(s, id, e), t, w, id, request, now)
    ensures Launched(s, t, w, id, request, now)
    ensures forall token :: AnswersRestart(Put(s, id, e), t, w, id, token) ==> AnswersRestart(s, t, w, id, token)
  {
    NewsAfterPut(s, id, e, t);
  }

  lemma StartsAgainAfterPut(s: Supervisor, w: World, id: string, e: Effect, i: Instance, now: int, t: Supervisor)
    requires StartsAgain(Put(s, id, e), w, id, i, now, t)
    ensures StartsAgain(s, w, id, i, now, t)
  {
    PutKeepsRoom(s, id, e);
    if !s.shutdown && Room(s, id) {
      LaunchedAfterPut(s, w, id, e, i.request, now, t);
    } else {
      NewsAfterPut(s, id, e, t);
    }
  }

  /** Storing an instance at rest and starting it again. */
  lemma PutAndStartAgain(s: Supervisor, w: World, id: string, e: Effect, now: int, t: Supervisor)
    requires e.instance.request.instanceId == id && AtRest(e.instance.life.state) && e.instance.process.None?
    requires t == StartExisting(Put(s, id, e), w, id, now)
    ensures StartsAgain(s, w, id, e.instance, now, t)
  {
    StartAgainAnswers(Put(s, id, e), w, id, now, t);
    StartsAgainAfterPut(s, w, id, e, e.instance, now, t);
  }

  // ---- Stopping ----

  /** Only this instance has changed, into this. */
  predicate Becomes(s: Supervisor, t: Supervisor, id: string, i: Instance) {
    SameCourse(s, t) && OthersSame(s, t, id) && id in t.instances && t.instances[id] == i
  }

  /** A live module is asked to stop: its contexts are told removed, a shutdown message that cannot be queued is told,
      and TERM follows after the graceful delay. Everything else about it stays. */
  predicate StopsLive(s: Supervisor, w: World, id: string, i: Instance, now: int, t: Supervisor) {
    && Becomes(s, t, id, i.(contextsRemoved := true, life := i.life.(state := Stopping, pendingCause := Some(Requested),
         pendingSignal := Some(Terminate), signalAt := Some(now + i.life.timings.gracefulShutdown))))
    && (!i.contextsRemoved ==> ContextsRemoved(id, i.generation) in News(s, t))
    && StateChanged(id, Transition(i.life.state, Stopping, Requested, now)) in News(s, t)
    && (!w.shutdownQueued(i.generation) ==> SupervisorError(id) in News(s, t))
    && (w.shutdownQueued(i.generation) ==> SupervisorError(id) !in News(s, t))
  }

  lemma LiveStops(s: Supervisor, w: World, id: string, i: Instance, now: int, e: Effect, t: Supervisor)
    requires i.request.instanceId == id && (i.life.state.Starting? || i.life.state.Running?)
    requires var asked := AskToStop(i, w);
      var applied := Apply(asked.instance, Stop(asked.instance.life, now));
      e == Effect(applied.instance, asked.events + applied.events)
    requires t == Put(s, id, e)
    ensures StopsLive(s, w, id, i, now, t)
  {
    assert News(s, t) == e.events;
    var k := if w.shutdownQueued(i.generation) then 0 else 2;
    if k == 2 { assert e.events[0] == ErrorOf(i); }
    if i.contextsRemoved {
      assert e.events[k] == StateChanged(id, Transition(i.life.state, Stopping, Requested, now));
    } else {
      assert e.events[k] == ContextsRemoved(id, i.generation);
      assert e.events[k + 1] == StateChanged(id, Transition(i.life.state, Stopping, Requested, now));
    }
  }

  /** A module that waits for its restart, or has failed, once it is told to stop. */
  function Rested(i: Instance): Instance {
    i.(life := i.life.(state := Stopped, restartAt := None, failures := [],
      nextBackoff := i.life.timings.initialBackoff))
  }

  /** What a stop request comes to. The mark for a restart, once set, stays until the module is stopped; a module
      that has no process is stopped at once and, if it is marked, started again. */
  predicate StopAnswered(s: Supervisor, w: World, id: string, now: int, restart: bool, t: Supervisor)
    requires id in s.instances
  {
    var i := s.instances[id].(restartAfterStop := s.instances[id].restartAfterStop || restart);
    match i.life.state
    case Stopping => Becomes(s, t, id, i) && News(s, t) == []
    case Stopped =>
      if restart && !s.shutdown then StartsAgain(s, w, id, i, now, t) else Becomes(s, t, id, i) && News(s, t) == []
    case Starting => StopsLive(s, w, id, i, now, t)
    case Running => StopsLive(s, w, id, i, now, t)
    case _ =>
      if i.restartAfterStop && !s.shutdown then StartsAgain(s, w, id, Rested(i).(restartAfterStop := false), now, t)
      else Becomes(s, t, id, Rested(i))
  }

  lemma StopAnswers(s: Supervisor, w: World, id: string, now: int, restart: bool, t: Supervisor)
    requires Sane(s) && t == HandleStop(s, w, id, now, restart)
    ensures id !in s.instances ==> t == s.(trace := s.trace + [SupervisorError(id)])
    ensures id in s.instances ==> StopAnswered(s, w, id, now, restart, t)
  {
    if id in s.instances {
      var i := s.instances[id].(restartAfterStop := s.instances[id].restartAfterStop || restart);
      if i.life.state.Stopped? || i.life.state.Stopping? {
        EndedStops(s, w, id, now, restart, t);
      } else if i.life.state.Starting? || i.life.state.Running? {
        RunningStops(s, w, id, i, now, restart, t);
      } else {
        RestingStops(s, w, id, i, now, restart, t);
      }
    }
  }

  lemma RunningStops(s: Supervisor, w: World, id: string, i: Instance, now: int, restart: bool, t: Supervisor)
    requires Sane(s) && id in s.instances && t == HandleStop(s, w, id, now, restart)
    requires i == s.instances[id].(restartAfterStop := s.instances[id].restartAfterStop || restart)
    requires i.life.state.Starting? || i.life.state.Running?
    ensures StopsLive(s, w, id, i, now, t)
  {
    assert Settled(s.instances[id]);
    var asked := AskToStop(i, w);
    var applied := Apply(asked.instance, Stop(asked.instance.life, now));
    LiveStops(s, w, id, i, now, Effect(applied.instance, asked.events + applied.events), t);
  }

  lemma EndedStops(s: Supervisor, w: World, id: string, now: int, restart: bool, t: Supervisor)
    requires Sane(s) && id in s.instances && t == HandleStop(s, w, id, now, restart)
    requires s.instances[id].life.state.Stopped? || s.instances[id].life.state.Stopping?
    ensures StopAnswered(s, w, id, now, restart, t)
  {
    var i := s.instances[id].(restartAfterStop := s.instances[id].restartAfterStop || restart);
    assert Settled(s.instances[id]);
    if i.life.state.Stopped? && restart && !s.shutdown { PutAndStartAgain(s, w, id, Effect(i, []), now, t); }
  }

  lemma RestingStops(s: Supervisor, w: World, id: string, i: Instance, now: int, restart: bool, t: Supervisor)
    requires Sane(s) && id in s.instances && t == HandleStop(s, w, id, now, restart)
    requires i == s.instances[id].(restartAfterStop := s.instances[id].restartAfterStop || restart)
    requires i.life.state.Backoff? || i.life.state.Failed?
    ensures if i.restartAfterStop && !s.shutdown then
      StartsAgain(s, w, id, Rested(i).(restartAfterStop := false), now, t)
            else Becomes(s, t, id, Rested(i))
  {
    assert Settled(s.instances[id]);
    var applied := Apply(i, Stop(i.life, now));
    assert applied.instance == Rested(i);
    assert AskToStop(i, w) == Effect(i, []);
    if i.restartAfterStop && !s.shutdown {
      PutAndStartAgain(s, w, id, Effect(Rested(i).(restartAfterStop := false), [] + applied.events), now, t);
    }
  }

  // ---- Restarting ----

  /** The instance with a restart noted: its failures are forgiven. */
  function Renewed(i: Instance, token: nat): Instance {
    i.(restartToken := Some(token), life := i.life.(failures := [], nextBackoff := i.life.timings.initialBackoff))
  }

  /** What a restart request comes to. While one waits, another is answered as failed. A module without a process is
      launched again at once; a live one is asked to stop first and one that stops already is marked. */
  predicate RestartAnswered(s: Supervisor, w: World, id: string, token: nat, now: int, t: Supervisor)
    requires id in s.instances
  {
    var i := s.instances[id];
    if i.restartToken.Some? then t == s.(trace := s.trace + [RestartCompleted(id, token, false, i.life.state)])
    else match i.life.state
      case Stopping => Becomes(s, t, id, Renewed(i, token).(restartAfterStop := true)) && News(s, t) == []
      case Starting => StopsLive(s, w, id, Renewed(i, token).(restartAfterStop := true), now, t)
      case Running => StopsLive(s, w, id, Renewed(i, token).(restartAfterStop := true), now, t)
      case Backoff => StartsAgain(s, w, id, Rested(Renewed(i, token)), now, t)
      case _ => StartsAgain(s, w, id, Renewed(i, token), now, t)
  }

  lemma RestartAnswers(s: Supervisor, w: World, id: string, token: nat, now: int, t: Supervisor)
    requires Sane(s) && t == HandleRestart(s, w, id, token, now)
    ensures id !in s.instances ==>
      t == s.(trace := s.trace + [SupervisorError(id), RestartCompleted(id, token, false, Failed)])
    ensures id in s.instances ==> RestartAnswered(s, w, id, token, now, t)
  {
    if id in s.instances && s.instances[id].restartToken.None? {
      var i := s.instances[id];
      assert Settled(i) && i.request.instanceId == id;
      var reset := Renewed(i, token);
      assert reset == i.(restartToken := Some(token), life := ResetForRestart(i.life).life);
      if AtRest(i.life.state) {
        PutAndStartAgain(s, w, id, Effect(reset, []), now, t);
      } else if i.life.state.Backoff? {
        BackoffRestarts(s, w, id, reset, now, t);
      } else {
        MarkRestartIsSane(s, id, token);
        StopAnswers(Put(s, id, Effect(reset, [])), w, id, now, true, t);
        MarkedStops(s, w, id, reset, now, t);
      }
    }
  }

  lemma BackoffRestarts(s: Supervisor, w: World, id: string, reset: Instance, now: int, t: Supervisor)
    requires reset.life.state.Backoff? && reset.process.None? && reset.request.instanceId == id
    requires t == StartExisting(Put(s, id, Apply(reset, Stop(reset.life, now))), w, id, now)
    ensures StartsAgain(s, w, id, Rested(reset), now, t)
  {
    var applied := Apply(reset, Stop(reset.life, now));
    assert applied.instance == Rested(reset);
    PutAndStartAgain(s, w, id, applied, now, t);
  }

  /** Noting something on an instance before stopping it is part of stopping it. */
  lemma MarkedStops(s: Supervisor, w: World, id: string, marked: Instance, now: int, t: Supervisor)
    requires var put := Put(s, id, Effect(marked, []));
      && StopAnswered(put, w, id, now, true, t)
      && (marked.life.state.Stopping? || marked.life.state.Starting? || marked.life.state.Running?)
    ensures var i := marked.(restartAfterStop := true);
      if marked.life.state.Stopping? then Becomes(s, t, id, i) && News(s, t) == [] else StopsLive(s, w, id, i, now, t)
  {
    assert Put(s, id, Effect(marked, [])).trace == s.trace;
  }

  // ---- A process that has ended ----

  /** The exit is told, and before it that the contexts are gone; the cause told is the one that counts. */
  predicate ExitTold(i: Instance, cause: Cause, e: Effect)
    requires i.process.Some?
  {
    && e.instance == i.(contextsRemoved := true, process := None, life := e.instance.life,
                        restartToken := e.instance.restartToken)
    && (!i.contextsRemoved ==> ContextsRemoved(i.request.instanceId, i.generation) in e.events)
    && exists told :: ProcessExited(i.request.instanceId, i.process.value, told, i.generation) in e.events
         && (i.life.state.Running? ==> told == cause)
         && (i.life.state.Starting? ==> told == if cause.CleanExit? then FailedExit else cause)
         && (i.life.state.Stopping? && i.life.pendingCause.Some? ==> told == i.life.pendingCause.value)
  }

  lemma ExitIsTold(i: Instance, cause: Cause, now: int, e: Effect)
    requires i.process.Some? && Settled(i) && e == Reap(i, cause, now)
    ensures ExitTold(i, cause, e)
  {
    var removed := RemoveContexts(i);
    var moved := Exited(removed.instance.life, cause, now);
    ApplyIsSilent(removed.instance, moved);
    var k := |removed.events|;
    assert e.events[k].ProcessExited?;
    assert ProcessExited(i.request.instanceId, i.process.value, e.events[k].cause, i.generation) in e.events;
    if !i.contextsRemoved { assert e.events[0] == ContextsRemoved(i.request.instanceId, i.generation); }
  }

  /** A module that is stopped on request and was told to restart. */
  predicate AwaitsRestart(s: Supervisor, id: string) {
    && !s.shutdown && id in s.instances
    && var i := s.instances[id];
       i.process.Some? && StoppingOnRequest(i.life) && i.restartAfterStop && i.replacement.None?
  }

  lemma RequestedExit(i: Instance, cause: Cause, now: int, e: Effect)
    requires i.process.Some? && Settled(i) && StoppingOnRequest(i.life) && e == Reap(i, cause, now)
    ensures e.instance.life.state.Stopped? && e.instance.restartToken == i.restartToken && e.instance.process.None?
    ensures e.instance.request == i.request && KeepsPlans(i, e.instance) && e.instance.generation == i.generation
  {
  }

  /** When the process of a module that awaits its restart ends, however it ends, the module's next generation is
      launched in that very step. */
  lemma ExitRestarts(s: Supervisor, w: World, id: string, cause: Cause, now: int, t: Supervisor)
    requires Sane(s) && AwaitsRestart(s, id) && t == ReapInstance(s, w, id, ExitStatus(cause), now)
    ensures Launched(s, t, w, id, s.instances[id].request, now)
    ensures !t.instances[id].restartAfterStop && t.instances[id].replacement.None?
    ensures AnswersRestart(s, t, w, id, s.instances[id].restartToken)
  {
    var i := s.instances[id];
    assert Settled(i) && i.request.instanceId == id;
    var e := Reap(i, cause, now);
    RequestedExit(i, cause, now, e);
    LiveLeavesRoom(s, id);
    var reaped := Put(s, id, e);
    var marked := Effect(e.instance.(restartAfterStop := false), []);
    PutKeepsRoom(s, id, e);
    assert t == StartExisting(Put(reaped, id, marked), w, id, now);
    PutAndStartAgain(reaped, w, id, marked, now, t);
    LaunchedAfterPut(s, w, id, e, i.request, now, t);
  }

  /** Not more than 32 instances are active, so one that is leaves room for itself. */
  lemma LiveLeavesRoom(s: Supervisor, id: string)
    requires Sane(s) && id in s.instances && !AtRest(s.instances[id].life.state)
    ensures Room(s, id)
  {
    OneOfTheActive(s.instances, id);
  }

  lemma OneOfTheActive(instances: map<string, Instance>, id: string)
    requires id in instances && !AtRest(instances[id].life.state)
    ensures |set other | other in instances && other != id && !AtRest(instances[other].life.state)|
      == |ActiveIds(instances)| - 1
  {
    var others := set other | other in instances && other != id && !AtRest(instances[other].life.state);
    assert ActiveIds(instances) == others + {id};
  }
}
