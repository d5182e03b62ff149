/** What the remaining steps achieve: failures, messages, lines, signals, reconfiguration and replacement. */
module SupervisorSteps {
  import opened Optional
  import opened ModuleLifecycle
  import opened SupervisedInstance
  import opened ModuleSupervisor
  import opened SupervisorInvariant
  import opened SupervisorOutcomes

  // ---- Failing ----

  /** A live module that fails is stopped for that cause: its contexts are told removed, TERM is due at once, and a
      restart that waited for it to start is answered as failed. */
  predicate FailedBy(i: Instance, cause: Cause, now: int, e: Effect) {
    && e.instance == i.(contextsRemoved := true,
         restartToken := if i.life.state.Starting? then None else i.restartToken,
         life := i.life.(state := Stopping, pendingCause := Some(cause), pendingSignal := Some(Terminate),
                         signalAt := Some(now)))
    && (!i.contextsRemoved ==> ContextsRemoved(i.request.instanceId, i.generation) in e.events)
    && StateChanged(i.request.instanceId, Transition(i.life.state, Stopping, cause, now)) in e.events
    && (i.life.state.Starting? && i.restartToken.Some? ==>
          RestartCompleted(i.request.instanceId, i.restartToken.value, false, Stopping) in e.events)
    && ErrorOf(i) !in e.events
  }

  lemma FailureAnswers(i: Instance, cause: Cause, now: int, e: Effect)
    requires IsFailure(cause) && e == BeginFailure(i, cause, now)
    ensures if Live(i.life.state) then FailedBy(i, cause, now, e) else e == Effect(i, [])
  {
    if Live(i.life.state) {
      var k := if i.contextsRemoved then 0 else 1;
      if k == 1 { assert e.events[0] == ContextsRemoved(i.request.instanceId, i.generation); }
      assert e.events[k] == StateChanged(i.request.instanceId, Transition(i.life.state, Stopping, cause, now));
      if i.life.state.Starting? && i.restartToken.Some? {
        assert e.events[k + 1] == RestartCompleted(i.request.instanceId, i.restartToken.value, false, Stopping);
      }
    }
  }

  // ---- Lines ----

  /** A violation counts: those of the last minute and those in a row are told, and it stops the module that is
      starting, at the third in a row, and at the tenth in a minute. */
  predicate Violated(i: Instance, now: int, e: Effect) {
    var recent := e.instance.violations;
    && recent != [] && recent[|recent| - 1] == now
    && e.events != []
    && e.events[0] == ProtocolViolationSeen(i.request.instanceId, i.consecutive + 1, |recent|)
    && var noted := i.(violations := recent, consecutive := i.consecutive + 1);
       if i.life.state.Starting? || (i.life.state.Running? && (i.consecutive + 1 >= 3 || |recent| >= 10)) then
         FailedBy(noted, ProtocolViolation, now, Effect(e.instance, e.events[1..]))
       else e == Effect(noted, [e.events[0]])
  }

  /** Of violations in the order of time, exactly those of the last minute are kept. */
  lemma RecentViolationsAre(violations: seq<int>, now: int, k: nat)
    requires Ascending(violations) && k < |violations|
    ensures var recent := RecentViolations(violations, now);
      && recent == violations[|violations| + 1 - |recent|..] + [now]
      && (k >= |violations| + 1 - |recent| <==> now - violations[k] <= 60_000)
  {
    DroppedIsSuffix(violations, now - VIOLATION_WINDOW);
    DroppedKeepsRecent(violations, now - VIOLATION_WINDOW);
    var kept := Dropped(violations, now - VIOLATION_WINDOW);
    if k >= |violations| - |kept| { assert kept[k - (|violations| - |kept|)] == violations[k]; }
  }

  lemma ViolatedBy(i: Instance, now: int, noted: Instance, failed: Effect, e: Effect)
    requires noted.violations != [] && noted.violations[|noted.violations| - 1] == now
    requires noted == i.(violations := noted.violations, consecutive := i.consecutive + 1)
    requires if Live(i.life.state) then FailedBy(noted, ProtocolViolation, now, failed) else failed == Effect(noted, [])
    requires var seen := ProtocolViolationSeen(i.request.instanceId, noted.consecutive, |noted.violations|);
      e == if i.life.state.Starting? || noted.consecutive >= 3 || |noted.violations| >= 10
           then Effect(failed.instance, [seen] + failed.events) else Effect(noted, [seen])
    ensures Violated(i, now, e)
  {
    if i.life.state.Starting? || noted.consecutive >= 3 || |noted.violations| >= 10 {
      assert e.events[1..] == failed.events;
    }
  }

  lemma ViolationAnswers(i: Instance, now: int, e: Effect)
    requires Settled(i) && e == RecordViolation(i, now)
    ensures if i.life.state.Stopping? then e == Effect(i, []) else Violated(i, now, e)
  {
    if !i.life.state.Stopping? {
      var noted := i.(violations := RecentViolations(i.violations, now), consecutive := i.consecutive + 1);
      var failed := BeginFailure(noted, ProtocolViolation, now);
      FailureAnswers(noted, ProtocolViolation, now, failed);
      ViolatedBy(i, now, noted, failed, e);
    }
  }

  /** The first acceptable ready makes a starting module run: a restart that waits is answered as done, and the ready
      is passed on last. */
  predicate MadeReady(i: Instance, content: string, now: int, e: Effect) {
    && e.instance == i.(ready := true, consecutive := 0, restartToken := None,
         life := i.life.(state := Running, handshakeDeadline := None, runningSince := Some(now)))
    && e.events == [StateChanged(i.request.instanceId, Transition(Starting, Running, Requested, now))]
         + (if i.restartToken.Some? then [RestartCompleted(i.request.instanceId, i.restartToken.value, true, Running)]
           else [])
         + [ModuleMessage(i.request.instanceId, true, content, i.generation, None)]
  }

  /** A starting module has to say that it is ready; a running one passes on what was negotiated; anything else is a
      violation, and a module that stops is not heard. */
  lemma LineAnswers(i: Instance, line: Line, now: int, e: Effect)
    requires Settled(i) && e == HandleLine(i, line, now)
    ensures i.life.state.Stopping? ==> e == Effect(i, [])
    ensures i.life.state.Starting? ==>
      if line.ReadyLine? && line.acceptable then MadeReady(i, line.content, now, e) else Violated(i, now, e)
    ensures i.life.state.Running? ==>
      if line.OtherLine? && line.negotiated then
        && e.instance == i.(consecutive := 0)
        && e.events == [ModuleMessage(i.request.instanceId, false, line.content, i.generation, line.answer)]
      else Violated(i, now, e)
  {
    ViolationAnswers(i, now, RecordViolation(i, now));
  }

  /** Lines are taken one after the other until one of them stops the module. */
  lemma LinesAnswer(s: Supervisor, id: string, first: Line, rest: seq<Line>, now: int)
    requires id in s.instances
    ensures var next := Put(s, id, HandleLine(s.instances[id], first, now));
      HandleLines(s, id, [first] + rest, now)
        == if next.instances[id].life.state.Stopping? then next else HandleLines(next, id, rest, now)
    ensures HandleLines(s, id, [], now) == s
  {
    assert ([first] + rest)[1..] == rest;
  }

  // ---- Reading and waiting ----

  /** The failure of one instance, after an error that is told or not. */
  predicate FailsOne(s: Supervisor, t: Supervisor, id: string, told: bool, cause: Cause, now: int)
    requires id in s.instances
  {
    && SameCourse(s, t) && OthersSame(s, t, id) && id in t.instances
    && (told ==> News(s, t) != [] && News(s, t)[0] == SupervisorError(id))
    && var rest := Effect(t.instances[id], if told then News(s, t)[1..] else News(s, t));
       if Live(s.instances[id].life.state) then FailedBy(s.instances[id], cause, now, rest)
       else rest == Effect(s.instances[id], [])
  }

  lemma PutFails(s: Supervisor, id: string, told: bool, cause: Cause, now: int, t: Supervisor)
    requires id in s.instances && s.instances[id].request.instanceId == id && IsFailure(cause)
    requires t ==
      Put(if told then Emit(s, [ErrorOf(s.instances[id])]) else s, id, BeginFailure(s.instances[id], cause, now))
    ensures FailsOne(s, t, id, told, cause, now)
  {
    var e := BeginFailure(s.instances[id], cause, now);
    FailureAnswers(s.instances[id], cause, now, e);
    PutFailed(s, id, told, cause, now, e, t);
  }

  lemma PutFailed(s: Supervisor, id: string, told: bool, cause: Cause, now: int, e: Effect, t: Supervisor)
    requires id in s.instances && s.instances[id].request.instanceId == id
    requires if Live(s.instances[id].life.state) then FailedBy(s.instances[id], cause, now, e)
             else e == Effect(s.instances[id], [])
    requires t == Put(if told then Emit(s, [ErrorOf(s.instances[id])]) else s, id, e)
    ensures FailsOne(s, t, id, told, cause, now)
  {
    var before := if told then [SupervisorError(id)] else [];
    NewsOf(s, before, e, id, t);
    assert (before + e.events)[|before|..] == e.events;
  }

  lemma NewsOf(s: Supervisor, before: seq<Event>, e: Effect, id: string, t: Supervisor)
    requires t == Put(s.(trace := s.trace + before), id, e)
    ensures SameCourse(s, t) && OthersSame(s, t, id) && News(s, t) == before + e.events
    ensures id in t.instances && t.instances[id] == e.instance
  {
  }

  /** Reading standard output: lines are handled, a line too long is a violation, the end is noted once with the last
      unfinished line handled, and an error stops the module. After the end nothing is read. */
  lemma StdoutAnswers(s: Supervisor, id: string, read: ReadOutcome, now: int, t: Supervisor)
    requires Sane(s) && t == ServiceStdout(s, id, read, now)
    ensures id !in s.instances || s.instances[id].process.None? || s.instances[id].eofAt.Some? ==> t == s
    ensures id in s.instances && s.instances[id].process.Some? && s.instances[id].eofAt.None? ==>
      var ended := s.(instances := s.instances[id := s.instances[id].(eofAt := Some(now))]);
      && (read.Lines? ==> t == HandleLines(s, id, read.lines, now))
      && (read.Overlong? ==> t == Put(s, id, RecordViolation(s.instances[id], now)))
      && (read.ReadError? ==> FailsOne(s, t, id, true, IoError, now))
      && (read.EndOfFile? ==> t == if read.last.Some? then HandleLines(ended, id, [read.last.value], now) else ended)
  {
    if id in s.instances && s.instances[id].process.Some? && s.instances[id].eofAt.None? && read.ReadError? {
      PutFails(s, id, true, IoError, now, t);
    }
  }

  lemma StderrAnswers(s: Supervisor, id: string, line: string, truncated: bool)
    requires Sane(s)
    ensures ServiceStderr(s, id, line, truncated) == s.(trace := s.trace
      + if id in s.instances && s.instances[id].process.Some? then [StderrLog(id, line, truncated)] else [])
  {
  }

  lemma PipeAnswers(s: Supervisor, id: string, reported: bool, now: int, t: Supervisor)
    requires Sane(s) && t == PipeFails(s, id, reported, now)
    ensures if id in s.instances && s.instances[id].process.Some? then FailsOne(s, t, id, reported, IoError, now)
      else t == s
  {
    if id in s.instances && s.instances[id].process.Some? {
      assert Emit(s, []) == s;
      PutFails(s, id, reported, IoError, now, t);
    }
  }

  /** While a process runs, a failing wait stops it, and so does its silence 20 milliseconds after the end of its
      standard output. */
  lemma WaitAnswers(s: Supervisor, w: World, id: string, wait: WaitOutcome, now: int, t: Supervisor)
    requires Sane(s) && !wait.ExitStatus? && t == ReapInstance(s, w, id, wait, now)
    ensures id !in s.instances || s.instances[id].process.None? ==> t == s
    ensures id in s.instances && s.instances[id].process.Some? ==>
      if wait.WaitError? then FailsOne(s, t, id, true, IoError, now)
      else if s.instances[id].eofAt.Some? && now - s.instances[id].eofAt.value >= 20 then
        FailsOne(s, t, id, false, IoError, now)
      else t == s
  {
    if id in s.instances && s.instances[id].process.Some? {
      var i := s.instances[id];
      if wait.WaitError? {
        PutFails(s, id, true, IoError, now, t);
      } else if i.eofAt.Some? && now - i.eofAt.value >= 20 && Live(i.life.state) {
        PutFails(s, id, false, IoError, now, t);
      }
    }
  }

  // ---- Sending ----

  /** A message is taken by a running module; if it cannot be queued, the module is stopped as unresponsive. */
  lemma SendAnswers(s: Supervisor, id: string, queued: bool, now: int, t: Supervisor)
    requires Sane(s) && t == HandleSend(s, id, queued, now)
    ensures if id !in s.instances || !s.instances[id].life.state.Running? then t ==
      s.(trace := s.trace + [SupervisorError(id)])
            else if queued then t == s
            else FailsOne(s, t, id, true, Unresponsive, now)
  {
    if id in s.instances && s.instances[id].life.state.Running? && !queued {
      PutFails(s, id, true, Unresponsive, now, t);
    }
  }

  /** Why an action cannot be delivered to that process, the first reason first; none if it can. */
  function Obstacle(s: Supervisor, id: string, generation: nat, push: PushOutcome): Option<DeliveryError> {
    if id !in s.instances then Some(UnknownInstance)
    else if s.instances[id].generation != generation then Some(GenerationMismatch)
    else if !s.instances[id].life.state.Running? then Some(Unavailable)
    else if push.Saturated? then Some(QueueSaturated)
    else if push.Unserializable? then Some(SerializationFailed)
    else None
  }

  /** One delivery event answers every action, with the reason if it was not delivered; only a full queue stops the
      module as well. */
  lemma SendActionAnswers(s: Supervisor, id: string, generation: nat, invocation: nat, push: PushOutcome, now: int,
      t: Supervisor)
    requires Sane(s) && t == HandleSendAction(s, id, generation, invocation, push, now)
    ensures var why := Obstacle(s, id, generation, push);
      var told := s.(trace := s.trace + [ActionDelivery(id, generation, invocation, why.None?, why, now)]);
      if why == Some(QueueSaturated) then FailsOne(told, t, id, false, Unresponsive, now) else t == told
  {
    if id in s.instances && s.instances[id].generation == generation && s.instances[id].life.state.Running? {
      assert Settled(s.instances[id]);
      if push.Saturated? {
        var told := Emit(s, [ActionDelivery(id, generation, invocation, false, Some(QueueSaturated), now)]);
        PutFails(told, id, false, Unresponsive, now, t);
      }
    }
  }
}
