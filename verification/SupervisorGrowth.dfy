/** What each call adds to the supervisor's trace: answers to actions come from lines of standard output and nowhere
    else, in the name of the process they were read from. */
module SupervisorGrowth {
  import opened Optional
  import opened ModuleLifecycle
  import opened SupervisedInstance
  import opened ModuleSupervisor
  import opened SupervisorInvariant

  /** A module message that answers an invocation. */
  predicate Answering(e: Event) {
    e.ModuleMessage? && e.answer.Some? && e.answer.value.invocation.Some?
  }

  predicate Quiet(events: seq<Event>) {
    forall k :: 0 <= k < |events| ==> !Answering(events[k])
  }

  /** The later state has told everything the earlier one had. */
  predicate Extends(s: Supervisor, t: Supervisor) {
    |s.trace| <= |t.trace| && forall k :: 0 <= k < |s.trace| ==> t.trace[k] == s.trace[k]
  }

  /** And nothing it told since is an answer. */
  predicate Grows(s: Supervisor, t: Supervisor) {
    Extends(s, t) && forall k :: |s.trace| <= k < |t.trace| ==> !Answering(t.trace[k])
  }

  lemma GrowsTwice(s: Supervisor, t: Supervisor, u: Supervisor)
    requires Grows(s, t) && Grows(t, u)
    ensures Grows(s, u)
  {
  }

  // ---- Calls on an instance ----

  lemma FailureIsQuiet(i: Instance, cause: Cause, now: int)
    ensures Quiet(BeginFailure(i, cause, now).events)
  {
    var removed := RemoveContexts(i).instance;
    ApplyIsSilent(removed, Fail(removed.life, cause, now));
  }

  lemma ViolationIsQuiet(i: Instance, now: int)
    ensures Quiet(RecordViolation(i, now).events)
  {
    FailureIsQuiet(i.(violations := RecentViolations(i.violations, now), consecutive := i.consecutive + 1),
      ProtocolViolation, now);
  }

  lemma SpawnIsQuiet(i: Instance, w: World, g: nat, now: int)
    ensures Quiet(Spawn(i, w, g, now).events)
  {
    var reset := i.(consecutive := 0, ready := false, contextsRemoved := false, eofAt := None, generation := g);
    var removed := RemoveContexts(reset).instance;
    ApplyIsSilent(removed, Exited(removed.life, SpawnError, now));
    FailureIsQuiet(reset.(process := w.spawned(g)), Unresponsive, now);
  }

  lemma TickIsQuiet(i: Instance, now: int)
    ensures Quiet(TickLife(i, now).events)
  {
    ApplyIsSilent(i, Tick(i.life, now));
    ApplyIsSilent(RemoveContexts(i).instance, Tick(i.life, now));
  }

  lemma ReapIsQuiet(i: Instance, status: Cause, now: int)
    requires i.process.Some?
    ensures Quiet(Reap(i, status, now).events)
  {
    var removed := RemoveContexts(i).instance;
    ApplyIsSilent(removed, Exited(removed.life, status, now));
  }

  lemma StopIsQuiet(i: Instance, w: World, now: int)
    ensures var asked := AskToStop(i, w);
      Quiet(asked.events) && Quiet(asked.events + Apply(asked.instance, Stop(asked.instance.life, now)).events)
  {
    var asked := AskToStop(i, w);
    ApplyIsSilent(asked.instance, Stop(asked.instance.life, now));
  }

  // ---- Calls on the supervisor ----

  lemma PutGrows(s: Supervisor, id: string, e: Effect)
    requires Quiet(e.events)
    ensures Grows(s, Put(s, id, e))
  {
  }

  lemma EmitPutGrows(s: Supervisor, events: seq<Event>, id: string, e: Effect)
    requires Quiet(events) && Quiet(e.events)
    ensures Grows(s, Emit(s, events)) && Grows(s, Put(Emit(s, events), id, e))
  {
  }

  lemma SpawnedGrows(s: Supervisor, g: nat, id: string, spawned: Effect, t: Supervisor)
    requires Quiet(spawned.events) && t == Put(s.(generations := g), id, spawned)
    ensures Grows(s, t)
  {
  }

  lemma SpawnNextGrows(s: Supervisor, w: World, id: string, now: int)
    requires id in s.instances
    ensures Grows(s, SpawnNext(s, w, id, now))
  {
    SpawnIsQuiet(s.instances[id], w, s.generations + 1, now);
    SpawnedGrows(s, s.generations + 1, id, Spawn(s.instances[id], w, s.generations + 1, now), SpawnNext(s, w, id, now));
  }

  /** Storing an instance with quiet events and then spawning it. */
  lemma PutAndSpawnGrows(s: Supervisor, w: World, id: string, e: Effect, now: int)
    requires Quiet(e.events)
    ensures Grows(s, SpawnNext(Put(s, id, e), w, id, now))
  {
    PutGrows(s, id, e);
    SpawnNextGrows(Put(s, id, e), w, id, now);
    GrowsTwice(s, Put(s, id, e), SpawnNext(Put(s, id, e), w, id, now));
  }

  lemma StartExistingGrows(s: Supervisor, w: World, id: string, now: int)
    requires id in s.instances
    ensures Grows(s, StartExisting(s, w, id, now))
  {
    var i := s.instances[id];
    var completed := CompleteRestart(i, false, i.life.state);
    PutGrows(s, id, completed);
    EmitPutGrows(s, [ErrorOf(i)], id, completed);
    ApplyIsSilent(i, Start(i.life, now));
    PutAndSpawnGrows(s, w, id, Apply(i, Start(i.life, now)), now);
  }

  lemma HandleStartGrows(s: Supervisor, w: World, request: Request, now: int)
    ensures Grows(s, HandleStart(s, w, request, now))
  {
    var id, i := request.instanceId, NewInstance(request);
    ApplyIsSilent(i, Start(i.life, now));
    PutAndSpawnGrows(Erase(s, id), w, id, Apply(i, Start(i.life, now)), now);
  }

  /** Storing an instance with quiet events and then starting it. */
  lemma PutAndStartGrows(s: Supervisor, w: World, id: string, e: Effect, now: int)
    requires Quiet(e.events)
    ensures Grows(s, StartExisting(Put(s, id, e), w, id, now))
  {
    PutGrows(s, id, e);
    StartExistingGrows(Put(s, id, e), w, id, now);
    GrowsTwice(s, Put(s, id, e), StartExisting(Put(s, id, e), w, id, now));
  }

  lemma StopLiveGrows(s: Supervisor, w: World, id: string, i: Instance, now: int, t: Supervisor)
    requires id in s.instances
    requires var asked := AskToStop(i, w);
      var applied := Apply(asked.instance, Stop(asked.instance.life, now));
      || t == Emit(Put(s, id, asked), [ErrorOf(i)])
      || t == Put(s, id, Effect(applied.instance, asked.events + applied.events))
      || t == StartExisting(Put(s, id, Effect(applied.instance.(restartAfterStop := false),
                                              asked.events + applied.events)), w, id, now)
    ensures Grows(s, t)
  {
    var asked := AskToStop(i, w);
    var applied := Apply(asked.instance, Stop(asked.instance.life, now));
    StopIsQuiet(i, w, now);
    PutGrows(s, id, asked);
    PutGrows(s, id, Effect(applied.instance, asked.events + applied.events));
    PutAndStartGrows(s, w, id, Effect(applied.instance.(restartAfterStop := false), asked.events + applied.events),
      now);
  }

  lemma HandleStopGrows(s: Supervisor, w: World, id: string, now: int, restart: bool)
    ensures Grows(s, HandleStop(s, w, id, now, restart))
  {
    if id in s.instances {
      var i := s.instances[id].(restartAfterStop := s.instances[id].restartAfterStop || restart);
      if i.life.state.Stopping? || i.life.state.Stopped? {
        PutGrows(s, id, Effect(i, []));
        PutAndStartGrows(s, w, id, Effect(i, []), now);
      } else {
        StopLiveGrows(s, w, id, i, now, HandleStop(s, w, id, now, restart));
      }
    }
  }

  lemma PutAndStopGrows(s: Supervisor, w: World, id: string, e: Effect, now: int, restart: bool)
    requires Quiet(e.events)
    ensures Grows(s, HandleStop(Put(s, id, e), w, id, now, restart))
  {
    PutGrows(s, id, e);
    HandleStopGrows(Put(s, id, e), w, id, now, restart);
    GrowsTwice(s, Put(s, id, e), HandleStop(Put(s, id, e), w, id, now, restart));
  }

  lemma HandleRestartGrows(s: Supervisor, w: World, id: string, token: nat, now: int)
    ensures Grows(s, HandleRestart(s, w, id, token, now))
  {
    if id in s.instances && s.instances[id].restartToken.None? {
      var i := s.instances[id];
      var reset := i.(restartToken := Some(token), life := ResetForRestart(i.life).life);
      ApplyIsSilent(reset, Stop(reset.life, now));
      PutAndStartGrows(s, w, id, Effect(reset, []), now);
      PutAndStartGrows(s, w, id, Apply(reset, Stop(reset.life, now)), now);
      PutAndStopGrows(s, w, id, Effect(reset, []), now, true);
    }
  }

  lemma SendGrows(s: Supervisor, id: string, queued: bool, now: int)
    ensures Grows(s, HandleSend(s, id, queued, now))
  {
    if id in s.instances {
      FailureIsQuiet(s.instances[id], Unresponsive, now);
      EmitPutGrows(s, [ErrorOf(s.instances[id])], id, BeginFailure(s.instances[id], Unresponsive, now));
    }
  }

  lemma SendActionGrows(s: Supervisor, id: string, generation: nat, invocation: nat, push: PushOutcome, now: int)
    ensures Grows(s, HandleSendAction(s, id, generation, invocation, push, now))
  {
    if id in s.instances {
      var failed := BeginFailure(s.instances[id], Unresponsive, now);
      FailureIsQuiet(s.instances[id], Unresponsive, now);
      EmitPutGrows(s, [ActionDelivery(id, generation, invocation, false, Some(QueueSaturated), now)], id, failed);
    }
  }

  /** Cancelling the restart under way and noting a replacement, then stopping. */
  lemma ReplaceAndStopGrows(s: Supervisor, w: World, id: string, replacement: Option<Request>, now: int)
    requires id in s.instances
    ensures Grows(s, HandleStop(Replace(CancelRestart(s, id), id, replacement), w, id, now, false))
  {
    var i := s.instances[id].(restartAfterStop := false);
    PutGrows(s, id, CompleteRestart(i, false, i.life.state));
    var replaced := Replace(CancelRestart(s, id), id, replacement);
    assert Grows(s, replaced);
    HandleStopGrows(replaced, w, id, now, false);
    GrowsTwice(s, replaced, HandleStop(replaced, w, id, now, false));
  }

  lemma ReconfigureStopGrows(s: Supervisor, w: World, id: string, now: int)
    ensures Grows(s, ReconfigureStop(s, w, id, now))
  {
    if id in s.instances { ReplaceAndStopGrows(s.(pending := WithoutPending(s.pending, id)), w, id, None, now); }
  }

  lemma StartReplacementGrows(s: Supervisor, w: World, id: string, now: int)
    ensures Grows(s, StartReplacement(s, w, id, now))
  {
    if id in s.instances && s.instances[id].replacement.Some? {
      HandleStartGrows(Erase(s, id), w, s.instances[id].replacement.value, now);
    }
  }

  lemma ReconfigureStartGrows(s: Supervisor, w: World, request: Request, now: int)
    ensures Grows(s, ReconfigureStart(s, w, request, now))
  {
    var id := request.instanceId;
    if id in s.instances {
      var stopped := HandleStop(Replace(CancelRestart(s, id), id, Some(request)), w, id, now, false);
      ReplaceAndStopGrows(s, w, id, Some(request), now);
      StartReplacementGrows(stopped, w, id, now);
      GrowsTwice(s, stopped, StartReplacement(stopped, w, id, now));
    } else {
      HandleStartGrows(s, w, request, now);
    }
  }

  lemma {:induction false} StopAllGrows(s: Supervisor, w: World, ids: seq<string>, now: int)
    ensures Grows(s, StopAll(s, w, ids, now))
    decreases ids
  {
    if ids != [] {
      var next := HandleStop(s, w, ids[0], now, false);
      HandleStopGrows(s, w, ids[0], now, false);
      StopAllGrows(next, w, ids[1..], now);
      GrowsTwice(s, next, StopAll(next, w, ids[1..], now));
    }
  }

  lemma AdvanceGrows(s: Supervisor, w: World, id: string, now: int)
    requires id in s.instances
    ensures Grows(s, AdvanceLifecycle(s, w, id, now))
  {
    var ticked := TickLife(s.instances[id], now);
    TickIsQuiet(s.instances[id], now);
    PutGrows(s, id, ticked);
    PutAndSpawnGrows(s, w, id, ticked, now);
    var moved := Put(s, id, ticked);
    var spawned := SpawnNext(moved, w, id, now);
    PutGrows(moved, id, SendDueSignal(moved.instances[id], w, now));
    PutGrows(spawned, id, SendDueSignal(spawned.instances[id], w, now));
    GrowsTwice(s, moved, Put(moved, id, SendDueSignal(moved.instances[id], w, now)));
    GrowsTwice(s, spawned, Put(spawned, id, SendDueSignal(spawned.instances[id], w, now)));
  }

  lemma HandleReapedGrows(s: Supervisor, w: World, id: string, now: int)
    requires id in s.instances
    ensures Grows(s, HandleReaped(s, w, id, now))
  {
    var i := s.instances[id];
    PutAndStartGrows(s, w, id, Effect(i.(restartAfterStop := false), []), now);
    ApplyIsSilent(i, Stop(i.life, now));
    PutGrows(s, id, Apply(i, Stop(i.life, now)));
  }

  lemma ReapInstanceGrows(s: Supervisor, w: World, id: string, wait: WaitOutcome, now: int)
    ensures Grows(s, ReapInstance(s, w, id, wait, now))
  {
    if id in s.instances && s.instances[id].process.Some? {
      var i := s.instances[id];
      match wait
      case ExitStatus(cause) =>
        ReapIsQuiet(i, cause, now);
        var reaped := Put(s, id, Reap(i, cause, now));
        PutGrows(s, id, Reap(i, cause, now));
        HandleReapedGrows(reaped, w, id, now);
        GrowsTwice(s, reaped, HandleReaped(reaped, w, id, now));
      case _ => FailureIsQuiet(i, IoError, now);
    }
  }

  lemma PipeGrows(s: Supervisor, id: string, reported: bool, now: int)
    ensures Grows(s, PipeFails(s, id, reported, now))
  {
    if id in s.instances { FailureIsQuiet(s.instances[id], IoError, now); }
  }

  lemma {:induction false} StartPendingGrows(s: Supervisor, w: World, now: int)
    ensures Grows(s, StartPending(s, w, now))
    decreases |s.pending|
  {
    if !s.shutdown && s.pending != [] && ActiveCount(s) < MAXIMUM_INSTANCES {
      var next := HandleStart(s.(pending := s.pending[1..]), w, s.pending[0], now);
      HandleStartGrows(s.(pending := s.pending[1..]), w, s.pending[0], now);
      StartPendingGrows(next, w, now);
      GrowsTwice(s, next, StartPending(next, w, now));
    }
  }

  // ---- Answers ----

  /** If the event is an answer, it is one of the lines', told in the name of the instance and its generation. */
  predicate Says(e: Event, id: string, g: nat, lines: seq<Line>) {
    Answering(e) ==>
      && e.instanceId == id && e.generation == g
      && exists k :: 0 <= k < |lines| && lines[k].OtherLine? && lines[k].answer == e.answer
  }

  predicate AllSay(s: Supervisor, t: Supervisor, id: string, g: nat, lines: seq<Line>) {
    Extends(s, t) && forall k :: |s.trace| <= k < |t.trace| ==> Says(t.trace[k], id, g, lines)
  }

  lemma LineSays(i: Instance, line: Line, now: int)
    ensures forall k :: 0 <= k < |HandleLine(i, line, now).events| ==>
      Says(HandleLine(i, line, now).events[k], i.request.instanceId, i.generation, [line])
  {
    ViolationIsQuiet(i, now);
    var marked := i.(consecutive := 0, ready := true);
    ViolationIsQuiet(marked, now);
    ApplyIsSilent(marked, Ready(marked.life, now));
    if line.OtherLine? { assert [line][0].answer == line.answer; }
  }

  lemma SaysMore(e: Event, id: string, g: nat, lines: seq<Line>, more: seq<Line>)
    requires Says(e, id, g, lines) && forall k :: 0 <= k < |lines| ==> lines[k] in more
    ensures Says(e, id, g, more)
  {
    if Answering(e) {
      var k :| 0 <= k < |lines| && lines[k].OtherLine? && lines[k].answer == e.answer;
      var j :| 0 <= j < |more| && more[j] == lines[k];
    }
  }

  lemma SayTogether(s: Supervisor, next: Supervisor, after: Supervisor, id: string, g: nat, lines: seq<Line>)
    requires lines != [] && AllSay(s, next, id, g, [lines[0]]) && AllSay(next, after, id, g, lines[1..])
    ensures AllSay(s, after, id, g, lines)
  {
    forall k | |s.trace| <= k < |after.trace| ensures Says(after.trace[k], id, g, lines) {
      if k < |next.trace| {
        SaysMore(next.trace[k], id, g, [lines[0]], lines);
      } else {
        SaysMore(after.trace[k], id, g, lines[1..], lines);
      }
    }
  }

  lemma FirstLineSays(s: Supervisor, id: string, line: Line, now: int)
    requires id in s.instances && s.instances[id].request.instanceId == id
    ensures AllSay(s, Put(s, id, HandleLine(s.instances[id], line, now)), id, s.instances[id].generation, [line])
  {
    LineSays(s.instances[id], line, now);
  }

  lemma {:induction false} LinesSay(s: Supervisor, id: string, lines: seq<Line>, now: int)
    requires id in s.instances && Settled(s.instances[id]) && s.instances[id].request.instanceId == id
    ensures AllSay(s, HandleLines(s, id, lines, now), id, s.instances[id].generation, lines)
    decreases lines
  {
    if lines != [] {
      var next := Put(s, id, HandleLine(s.instances[id], lines[0], now));
      FirstLineSays(s, id, lines[0], now);
      HandleLineObeys(s.instances[id], lines[0], now);
      LinesSay(next, id, lines[1..], now);
      SayTogether(s, next, next, id, s.instances[id].generation, lines);
      SayTogether(s, next, HandleLines(next, id, lines[1..], now), id, s.instances[id].generation, lines);
    }
  }

  function LinesOf(read: ReadOutcome): seq<Line> {
    match read
    case Lines(lines) => lines
    case EndOfFile(Some(last)) => [last]
    case _ => []
  }

  lemma StdoutSays(s: Supervisor, id: string, read: ReadOutcome, now: int)
    requires Sane(s) && id in s.instances
    ensures AllSay(s, ServiceStdout(s, id, read, now), id, s.instances[id].generation, LinesOf(read))
  {
    var i := s.instances[id];
    ViolationIsQuiet(i, now);
    FailureIsQuiet(i, IoError, now);
    if i.process.Some? && i.eofAt.None? {
      match read
      case Lines(lines) => LinesSay(s, id, lines, now);
      case EndOfFile(last) =>
        var ended := s.(instances := s.instances[id := i.(eofAt := Some(now))]);
        if last.Some? { LinesSay(ended, id, [last.value], now); }
      case _ =>
    }
  }
}
