/** Reconfiguration, replacement and the passing of time: which request runs in the end, and that no step touches an
    instance it is not about. */
module SupervisorPlans {
  import opened Optional
  import opened ModuleLifecycle
  import opened SupervisedInstance
  import opened ModuleSupervisor
  import opened SupervisorInvariant
  import opened SupervisorOutcomes
  import opened SupervisorSteps

  // ---- Waiting requests ----

  /** Dropping an instance's waiting requests keeps all others in order. */
  lemma {:induction false} WithoutPendingJoins(a: seq<Request>, b: seq<Request>, id: string)
    ensures WithoutPending(a + b, id) == WithoutPending(a, id) + WithoutPending(b, id)
  {
    if a == [] {
      assert a + b == b;
    } else {
      assert (a + b)[1..] == a[1..] + b;
      WithoutPendingJoins(a[1..], b, id);
    }
  }

  predicate FirstOf(pending: seq<Request>, id: string, k: nat)
    requires k < |pending|
  {
    pending[k].instanceId == id && forall j :: 0 <= j < k ==> pending[j].instanceId != id
  }

  /** The first waiting request of that instance is the one that is replaced. */
  lemma {:induction false} OverwrittenIs(pending: seq<Request>, request: Request, k: nat)
    requires k < |pending| && FirstOf(pending, request.instanceId, k)
    ensures Overwritten(pending, request) == Some(pending[k := request])
    decreases k
  {
    if k == 0 {
      assert [request] + pending[1..] == pending[0 := request];
    } else {
      assert pending[0].instanceId != request.instanceId;
      assert FirstOf(pending[1..], request.instanceId, k - 1);
      OverwrittenIs(pending[1..], request, k - 1);
      assert [pending[0]] + pending[1..][k - 1 := request] == pending[k := request];
    }
  }

  lemma {:induction false} OverwrittenNone(pending: seq<Request>, request: Request)
    requires forall j :: 0 <= j < |pending| ==> pending[j].instanceId != request.instanceId
    ensures Overwritten(pending, request).None?
  {
    if pending != [] { OverwrittenNone(pending[1..], request); }
  }

  // ---- Reconfiguring ----

  /** The instance has been taken out of every plan but this replacement: a live one is asked to stop, one that stops
      goes on, any other is stopped. */
  predicate SetAside(i: Instance, replacement: Option<Request>, now: int, after: Instance) {
    && after.request == i.request && after.generation == i.generation && after.process == i.process
    && !after.restartAfterStop && after.replacement == replacement && after.restartToken.None?
    && (Live(i.life.state) ==>
          && StoppingOnRequest(after.life) && after.contextsRemoved
          && after.life.pendingSignal == Some(Terminate)
          && after.life.signalAt == Some(now + i.life.timings.gracefulShutdown))
    && (i.life.state.Stopping? ==> after.life == i.life)
    && (!HasProcess(i.life.state) ==> after.life.state.Stopped?)
  }

  /** Only this instance has been set aside, and a restart that waited is answered as failed. */
  predicate SetsAside(s: Supervisor, t: Supervisor, id: string, replacement: Option<Request>, now: int)
    requires id in s.instances
  {
    var i := s.instances[id];
    && SameCourse(s, t) && OthersSame(s, t, id) && id in t.instances
    && SetAside(i, replacement, now, t.instances[id])
    && (i.restartToken.Some? ==> RestartCompleted(id, i.restartToken.value, false, i.life.state) in News(s, t))
  }

  /** The instance without its plans, as the stop request then finds it. */
  function Unplanned(i: Instance, replacement: Option<Request>): Instance {
    i.(restartAfterStop := false, restartToken := None, replacement := replacement)
  }

  lemma SettingAside(s: Supervisor, w: World, id: string, replacement: Option<Request>, now: int, t: Supervisor)
    requires Sane(s) && id in s.instances
    requires t == HandleStop(Replace(CancelRestart(s, id), id, replacement), w, id, now, false)
    ensures SetsAside(s, t, id, replacement, now)
  {
    var i := s.instances[id];
    var asked := Replace(CancelRestart(s, id), id, replacement);
    CancelAndReplaceIsSane(s, id, replacement);
    StopAnswers(asked, w, id, now, false, t);
    CancelledIs(s, id, replacement, asked);
    UnplannedStops(s, w, id, replacement, now, asked, t);
  }

  lemma CancelledIs(s: Supervisor, id: string, replacement: Option<Request>, asked: Supervisor)
    requires Sane(s) && id in s.instances && asked == Replace(CancelRestart(s, id), id, replacement)
    ensures asked.instances == s.instances[id := Unplanned(s.instances[id], replacement)] && SameCourse(s, asked)
    ensures s.instances[id].restartToken.Some? ==>
      RestartCompleted(id, s.instances[id].restartToken.value, false, s.instances[id].life.state) in News(s, asked)
  {
    var i := s.instances[id].(restartAfterStop := false);
    assert i.request.instanceId == id;
    var completed := CompleteRestart(i, false, i.life.state);
    if i.restartToken.Some? {
      assert completed.events[0] == RestartCompleted(id, i.restartToken.value, false, i.life.state);
    }
    PutReplaced(s, id, completed, replacement, asked);
  }

  lemma PutReplaced(s: Supervisor, id: string, e: Effect, replacement: Option<Request>, asked: Supervisor)
    requires asked == Replace(Put(s, id, e), id, replacement)
    ensures asked.instances == s.instances[id := e.instance.(replacement := replacement)] && SameCourse(s, asked)
    ensures News(s, asked) == e.events
  {
  }

  lemma UnplannedStops(s: Supervisor, w: World, id: string, replacement: Option<Request>, now: int, asked: Supervisor,
      t: Supervisor)
    requires id in s.instances && asked.instances == s.instances[id := Unplanned(s.instances[id], replacement)]
    requires SameCourse(s, asked) && StopAnswered(asked, w, id, now, false, t)
    requires s.instances[id].restartToken.Some? ==>
      RestartCompleted(id, s.instances[id].restartToken.value, false, s.instances[id].life.state) in News(s, asked)
    ensures SetsAside(s, t, id, replacement, now)
  {
    assert News(s, t) == News(s, asked) + News(asked, t);
  }

  /** A module that a reconfiguration stops is set aside for good, and its waiting requests are dropped. */
  lemma ReconfigureStopAnswers(s: Supervisor, w: World, id: string, now: int, t: Supervisor)
    requires Sane(s) && t == ReconfigureStop(s, w, id, now)
    ensures var dropped := s.(pending := WithoutPending(s.pending, id));
      if id in s.instances then SetsAside(dropped, t, id, None, now) else t == dropped
  {
    if id in s.instances {
      var dropped := s.(pending := WithoutPending(s.pending, id));
      PendingIsSane(s, dropped.pending, s.shutdown);
      SettingAside(dropped, w, id, None, now, t);
    }
  }

  /** A request for a module that is not known replaces its first waiting one, waits if there are 32 active, or is
      started. */
  lemma NewRequestAnswers(s: Supervisor, w: World, request: Request, now: int, t: Supervisor)
    requires Sane(s) && request.instanceId !in s.instances && t == ReconfigureStart(s, w, request, now)
    ensures (forall k: nat :: k < |s.pending| && FirstOf(s.pending, request.instanceId, k) ==>
               t == s.(pending := s.pending[k := request]))
    ensures (forall j :: 0 <= j < |s.pending| ==> s.pending[j].instanceId != request.instanceId) ==>
      if !Room(s, request.instanceId) then t == s.(pending := s.pending + [request])
      else if s.shutdown then Refused(s, t, request.instanceId)
      else LaunchedFresh(s, t, w, request.instanceId, request, now)
  {
    RoomIff(s, request.instanceId);
    forall k: nat | k < |s.pending| && FirstOf(s.pending, request.instanceId, k)
      ensures t == s.(pending := s.pending[k := request])
    {
      OverwrittenIs(s.pending, request, k);
    }
    if forall j :: 0 <= j < |s.pending| ==> s.pending[j].instanceId != request.instanceId {
      OverwrittenNone(s.pending, request);
      if Room(s, request.instanceId) { StartAnswers(s, w, request, now, t); }
    }
  }

  /** The request that replaces an instance at rest, whatever became of its record. */
  predicate Replaced(s: Supervisor, t: Supervisor, w: World, request: Request, now: int) {
    var id := request.instanceId;
    if !s.shutdown && Room(s, id) then LaunchedFresh(s, t, w, id, request, now)
    else SameCourse(s, t) && OthersSame(s, t, id) && SupervisorError(id) in News(s, t) && id !in t.instances
  }

  lemma ReplacingStarts(s: Supervisor, w: World, request: Request, now: int, t: Supervisor)
    requires request.instanceId in s.instances && AtRest(s.instances[request.instanceId].life.state)
    requires t == HandleStart(Erase(s, request.instanceId), w, request, now)
    ensures Replaced(s, t, w, request, now)
  {
    var id := request.instanceId;
    var erased := Erase(s, id);
    StartAnswers(erased, w, request, now, t);
    assert (set other | other in erased.instances && other != id && !AtRest(erased.instances[other].life.state))
      == (set other | other in s.instances && other != id && !AtRest(s.instances[other].life.state));
    if !s.shutdown && Room(s, id) {
      LaunchedAfterErase(s, w, id, request, now, t);
    } else {
      assert News(s, t) == News(erased, t) && News(erased, t)[0] == SupervisorError(id);
    }
  }

  /** A replacement that waits takes the place of its instance once that is at rest without a process. */
  lemma ReplacementAnswers(s: Supervisor, w: World, id: string, now: int, t: Supervisor)
    requires t == StartReplacement(s, w, id, now)
    requires id in s.instances && s.instances[id].replacement.Some? ==>
      s.instances[id].replacement.value.instanceId == id
    ensures if id in s.instances && s.instances[id].process.None? && s.instances[id].replacement.Some?
               && AtRest(s.instances[id].life.state) then
              Replaced(s, t, w, s.instances[id].replacement.value, now)
            else t == s
  {
    if id in s.instances && s.instances[id].process.None? && s.instances[id].replacement.Some?
       && AtRest(s.instances[id].life.state) {
      ReplacingStarts(s, w, s.instances[id].replacement.value, now, t);
    }
  }

  /** A request for a known module replaces it: at once if it has no process, else it is noted and the module asked to
      stop. */
  lemma ReplaceAnswers(s: Supervisor, w: World, request: Request, now: int, t: Supervisor)
    requires Sane(s) && request.instanceId in s.instances && t == ReconfigureStart(s, w, request, now)
    ensures var id := request.instanceId;
      if s.instances[id].process.Some? then SetsAside(s, t, id, Some(request), now)
      else Replaced(s, t, w, request, now)
  {
    var id := request.instanceId;
    var aside := HandleStop(Replace(CancelRestart(s, id), id, Some(request)), w, id, now, false);
    SettingAside(s, w, id, Some(request), now, aside);
    ReplacementAnswers(aside, w, id, now, t);
    assert Settled(s.instances[id]);
    if s.instances[id].process.None? { ReplacedAfter(s, aside, w, request, now, t); }
  }

  lemma ReplacedAfter(s: Supervisor, aside: Supervisor, w: World, request: Request, now: int, t: Supervisor)
    requires SameCourse(s, aside) && OthersSame(s, aside, request.instanceId) && Replaced(aside, t, w, request, now)
    ensures Replaced(s, t, w, request, now)
  {
    var id := request.instanceId;
    assert (set other | other in aside.instances && other != id && !AtRest(aside.instances[other].life.state))
      == (set other | other in s.instances && other != id && !AtRest(s.instances[other].life.state));
    assert News(s, t) == News(s, aside) + News(aside, t);
  }

  /** A module that is stopped on request to make room for its replacement: when its process ends, however it ends, it
      is at rest, its replacement still waiting. */
  lemma ExitAwaitsReplacement(s: Supervisor, w: World, id: string, cause: Cause, now: int, t: Supervisor)
    requires Sane(s) && id in s.instances && s.instances[id].process.Some? && StoppingOnRequest(s.instances[id].life)
    requires s.instances[id].replacement.Some? && t == ReapInstance(s, w, id, ExitStatus(cause), now)
    ensures SameCourse(s, t) && OthersSame(s, t, id) && id in t.instances
    ensures t.instances[id].life.state.Stopped? && t.instances[id].process.None?
    ensures t.instances[id].replacement == s.instances[id].replacement
  {
    RequestedExit(s.instances[id], cause, now, Reap(s.instances[id], cause, now));
  }

  // ---- Time ----

  /** Signalling a module that stops: what is due is sent, in order, and a signal that fails is told. */
  predicate Signalled(i: Instance, w: World, now: int, e: Effect) {
    var due := i.process.Some? && i.life.state.Stopping? && i.life.pendingSignal.Some?
               && i.life.signalAt.Some? && i.life.signalAt.value <= now;
    if !due then e == Effect(i, [])
    else
      && e.instance == i.(life := i.life.(
           pendingSignal := if i.life.pendingSignal.value.Terminate? then Some(Kill) else None,
           signalAt := if i.life.pendingSignal.value.Terminate? then Some(now + i.life.timings.terminateGrace)
             else None))
      && e.events == if w.signalled(i.generation, i.life.pendingSignal.value) then [] else [ErrorOf(i)]
  }

  lemma SignalAnswers(i: Instance, w: World, now: int)
    ensures Signalled(i, w, now, SendDueSignal(i, w, now))
  {
  }

  /** A backoff that is over launches the next generation. */
  lemma BackoffEnds(s: Supervisor, w: World, id: string, now: int, t: Supervisor)
    requires Sane(s) && id in s.instances && s.instances[id].life.state.Backoff?
    requires t == AdvanceLifecycle(s, w, id, now)
    ensures if Due(s.instances[id].life.restartAt, now) then
              Launched(s, t, w, id, s.instances[id].request, now) && KeepsPlans(s.instances[id], t.instances[id])
            else t == s
  {
    var i := s.instances[id];
    assert Settled(i) && i.request.instanceId == id;
    if Due(i.life.restartAt, now) {
      BackoffTicks(i, now, TickLife(i, now));
      BackoffLaunches(s, w, id, TickLife(i, now), now, t);
    } else {
      BackoffWaits(s, w, id, now, t);
    }
  }

  lemma BackoffWaits(s: Supervisor, w: World, id: string, now: int, t: Supervisor)
    requires id in s.instances && s.instances[id].life.state.Backoff? && s.instances[id].process.None?
    requires !Due(s.instances[id].life.restartAt, now) && t == AdvanceLifecycle(s, w, id, now)
    ensures t == s
  {
    var i := s.instances[id];
    assert TickLife(i, now) == Effect(i, []) && SendDueSignal(i, w, now) == Effect(i, []);
    assert s.instances[id := i] == s.instances && s.trace + [] == s.trace;
  }

  lemma BackoffTicks(i: Instance, now: int, ticked: Effect)
    requires Settled(i) && i.life.state.Backoff? && Due(i.life.restartAt, now) && ticked == TickLife(i, now)
    ensures ticked.instance.request == i.request && KeepsPlans(i, ticked.instance) && ticked.instance.process.None?
    ensures ticked.instance.life.state.Starting?
    ensures ticked.instance.life.handshakeDeadline == Some(now + ticked.instance.life.timings.handshake)
    ensures ticked.instance.restartToken == i.restartToken
  {
  }

  lemma BackoffLaunches(s: Supervisor, w: World, id: string, ticked: Effect, now: int, t: Supervisor)
    requires ticked.instance.request.instanceId == id && ticked.instance.process.None?
    requires ticked.instance.life.state.Starting?
    requires ticked.instance.life.handshakeDeadline == Some(now + ticked.instance.life.timings.handshake)
    requires var spawned := SpawnNext(Put(s, id, ticked), w, id, now);
      t == Put(spawned, id, SendDueSignal(spawned.instances[id], w, now))
    ensures Launched(s, t, w, id, ticked.instance.request, now) && KeepsPlans(ticked.instance, t.instances[id])
  {
    var spawned := SpawnNext(Put(s, id, ticked), w, id, now);
    SpawnLaunches(s, w, id, ticked, now, spawned);
    SignalAnswers(spawned.instances[id], w, now);
    LaunchedAndSignalled(s, w, id, ticked.instance.request, now, spawned,
      SendDueSignal(spawned.instances[id], w, now), t);
  }

  lemma LaunchedAndSignalled(s: Supervisor, w: World, id: string, request: Request, now: int, spawned: Supervisor,
      e: Effect, t: Supervisor)
    requires Launched(s, spawned, w, id, request, now) && Signalled(spawned.instances[id], w, now, e)
    requires t == Put(spawned, id, e)
    ensures Launched(s, t, w, id, request, now) && KeepsPlans(spawned.instances[id], t.instances[id])
  {
    assert News(s, t) == News(s, spawned) + e.events;
  }

  /** A starting module whose ready line did not come in time, asked to stop. */
  predicate HandshakeMissed(i: Instance, ticked: Effect) {
    && ticked.instance == i.(contextsRemoved := true, restartToken := None, life := ticked.instance.life)
    && ticked.instance.life.state.Stopping? && ticked.instance.life.pendingCause == Some(HandshakeTimeout)
    && ContextsRemoved(i.request.instanceId, i.generation) in ticked.events
    && (i.restartToken.Some? ==>
          RestartCompleted(i.request.instanceId, i.restartToken.value, false, Stopping) in ticked.events)
  }

  lemma HandshakeTicks(i: Instance, now: int, ticked: Effect)
    requires Settled(i) && i.life.state.Starting? && ticked == TickLife(i, now)
    ensures if Due(i.life.handshakeDeadline, now) then
              && HandshakeMissed(i, ticked)
              && ticked.instance.life.pendingSignal == Some(Terminate) && ticked.instance.life.signalAt == Some(now)
            else ticked == Effect(i, [])
  {
    if Due(i.life.handshakeDeadline, now) {
      assert ticked.events[0] == ContextsRemoved(i.request.instanceId, i.generation);
      if i.restartToken.Some? {
        assert ticked.events[2] == RestartCompleted(i.request.instanceId, i.restartToken.value, false, Stopping);
      }
    }
  }

  /** A ready line that does not come in time stops the module, and TERM is sent at once. */
  lemma HandshakeEnds(s: Supervisor, w: World, id: string, now: int, t: Supervisor)
    requires Sane(s) && id in s.instances && s.instances[id].life.state.Starting?
    requires t == AdvanceLifecycle(s, w, id, now)
    ensures if Due(s.instances[id].life.handshakeDeadline, now) then
              && SameCourse(s, t) && OthersSame(s, t, id) && id in t.instances
              && HandshakeMissed(s.instances[id], Effect(t.instances[id], News(s, t)))
              && t.instances[id].life.pendingSignal == Some(Kill)
            else t == s
  {
    var i := s.instances[id];
    assert Settled(i) && i.request.instanceId == id;
    var ticked := TickLife(i, now);
    HandshakeTicks(i, now, ticked);
    SignalAnswers(ticked.instance, w, now);
    TickedAndSignalled(s, w, id, now, ticked, SendDueSignal(ticked.instance, w, now), t);
    if !Due(i.life.handshakeDeadline, now) { assert s.instances[id := i] == s.instances && s.trace + [] == s.trace; }
  }

  lemma TickedAndSignalled(s: Supervisor, w: World, id: string, now: int, ticked: Effect, e: Effect, t: Supervisor)
    requires t == Put(Put(s, id, ticked), id, e)
    ensures SameCourse(s, t) && OthersSame(s, t, id) && id in t.instances && t.instances[id] == e.instance
    ensures News(s, t) == ticked.events + e.events
  {
  }

  /** In the other states time only forgives the failures of a healthy module, and sends the signals that are due. */
  lemma TimePasses(s: Supervisor, w: World, id: string, now: int, t: Supervisor)
    requires Sane(s) && id in s.instances && t == AdvanceLifecycle(s, w, id, now)
    requires !s.instances[id].life.state.Starting? && !s.instances[id].life.state.Backoff?
    ensures SameCourse(s, t) && OthersSame(s, t, id) && id in t.instances
    ensures !s.instances[id].life.state.Running? ==>
      Signalled(s.instances[id], w, now, Effect(t.instances[id], News(s, t)))
    ensures s.instances[id].life.state.Running? ==>
      && News(s, t) == []
      && t.instances[id] == s.instances[id].(life := s.instances[id].life.(nextBackoff :=
           if s.instances[id].life.runningSince.Some?
              && now - s.instances[id].life.runningSince.value >= s.instances[id].life.timings.healthyReset
           then s.instances[id].life.timings.initialBackoff
           else s.instances[id].life.nextBackoff))
  {
    var i := s.instances[id];
    var ticked := TickLife(i, now);
    SignalAnswers(ticked.instance, w, now);
    assert ticked.events == [];
    assert News(s, t) == SendDueSignal(ticked.instance, w, now).events;
  }
}
