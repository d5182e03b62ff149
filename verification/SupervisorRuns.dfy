/** Runs of the supervisor: every interleaving of commands, ticks, reads and exits. */
module SupervisorRuns {
  import opened Optional
  import opened ModuleLifecycle
  import opened SupervisedInstance
  import opened ModuleSupervisor
  import opened SupervisorInvariant

  datatype Step =
    | StartCommand(request: Request)
    | StopCommand(id: string)
    | RestartCommand(id: string, token: nat)
    | SendCommand(id: string, queued: bool)
    | SendActionCommand(id: string, generation: nat, invocation: nat, push: PushOutcome)
    | ReconfigureStopCommand(id: string)
    | ReconfigureStartCommand(request: Request)
    | ShutdownCommand(ids: seq<string>)
    | AdvanceStep(id: string)
    | StdoutStep(id: string, read: ReadOutcome)
    | StderrStep(id: string, line: string, truncated: bool)
    | PipeStep(id: string, reported: bool)
    | ReapStep(id: string, wait: WaitOutcome)
    | ReplacementStep(id: string)
    | PendingStep

  function Take(s: Supervisor, w: World, step: Step, now: int): Supervisor {
    match step
    case StartCommand(request) => HandleStart(s, w, request, now)
    case StopCommand(id) => HandleStop(s, w, id, now, false)
    case RestartCommand(id, token) => HandleRestart(s, w, id, token, now)
    case SendCommand(id, queued) => HandleSend(s, id, queued, now)
    case SendActionCommand(id, generation, invocation, push) =>
      HandleSendAction(s, id, generation, invocation, push, now)
    case ReconfigureStopCommand(id) => ReconfigureStop(s, w, id, now)
    case ReconfigureStartCommand(request) => ReconfigureStart(s, w, request, now)
    case ShutdownCommand(ids) => GlobalShutdown(s, w, ids, now)
    case AdvanceStep(id) => if id in s.instances then AdvanceLifecycle(s, w, id, now) else s
    case StdoutStep(id, read) => ServiceStdout(s, id, read, now)
    case StderrStep(id, line, truncated) => ServiceStderr(s, id, line, truncated)
    case PipeStep(id, reported) => PipeFails(s, id, reported, now)
    case ReapStep(id, wait) => ReapInstance(s, w, id, wait, now)
    case ReplacementStep(id) => StartReplacement(s, w, id, now)
    case PendingStep => StartPending(s, w, now)
  }

  function Run(w: World, steps: seq<(Step, int)>): Supervisor {
    if steps == [] then IDLE
    else
      var last := |steps| - 1;
      Take(Run(w, steps[..last]), w, steps[last].0, steps[last].1)
  }

  lemma TakeIsSane(s: Supervisor, w: World, step: Step, now: int)
    requires Sane(s)
    ensures Sane(Take(s, w, step, now))
  {
    match step
    case StartCommand(request) => HandleStartIsSane(s, w, request, now);
    case StopCommand(id) => HandleStopIsSane(s, w, id, now, false);
    case RestartCommand(id, token) => HandleRestartIsSane(s, w, id, token, now);
    case SendCommand(id, queued) => HandleSendIsSane(s, id, queued, now);
    case SendActionCommand(id, generation, invocation, push) =>
      HandleSendActionIsSane(s, id, generation, invocation, push, now);
    case ReconfigureStopCommand(id) => ReconfigureStopIsSane(s, w, id, now);
    case ReconfigureStartCommand(request) => ReconfigureStartIsSane(s, w, request, now);
    case ShutdownCommand(ids) => GlobalShutdownIsSane(s, w, ids, now);
    case AdvanceStep(id) => if id in s.instances { AdvanceIsSane(s, w, id, now); }
    case StdoutStep(id, read) => ServiceStdoutIsSane(s, id, read, now);
    case StderrStep(id, line, truncated) => ServiceStderrIsSane(s, id, line, truncated);
    case PipeStep(id, reported) => PipeFailsIsSane(s, id, reported, now);
    case ReapStep(id, wait) => ReapInstanceIsSane(s, w, id, wait, now);
    case ReplacementStep(id) => StartReplacementIsSane(s, w, id, now);
    case PendingStep => StartPendingIsSane(s, w, now);
  }

  lemma GlobalShutdownIsSane(s: Supervisor, w: World, ids: seq<string>, now: int)
    requires Sane(s)
    ensures Sane(GlobalShutdown(s, w, ids, now))
  {
    PendingIsSane(s, [], true);
    StopAllIsSane(s.(shutdown := true, pending := []), w, ids, now);
  }

  lemma ServiceStderrIsSane(s: Supervisor, id: string, line: string, truncated: bool)
    requires Sane(s)
    ensures Sane(ServiceStderr(s, id, line, truncated))
  {
    if id in s.instances { SilentIsSane(s, [StderrLog(s.instances[id].request.instanceId, line, truncated)]); }
  }

  /** Every reachable state is sane, whatever the interleaving and whatever the world answers. */
  lemma {:induction false} RunIsSane(w: World, steps: seq<(Step, int)>)
    ensures Sane(Run(w, steps))
  {
    if steps != [] {
      var last := |steps| - 1;
      RunIsSane(w, steps[..last]);
      TakeIsSane(Run(w, steps[..last]), w, steps[last].0, steps[last].1);
    } else {
      assert ActiveIds(map[]) == {};
    }
  }

  // ---- What a generation tells the outside ----

  datatype Letter = Born | Greeting | Saying | Gone | Dead

  function LetterOf(e: Event): Letter
    requires GenerationOf(e).Some?
  {
    match e
    case ProcessStarted(_, _, _) => Born
    case ModuleMessage(_, ready, _, _, _) => if ready then Greeting else Saying
    case ContextsRemoved(_, _) => Gone
    case ProcessExited(_, _, _, _) => Dead
  }

  /** The events of one generation, in order. */
  function Word(trace: seq<Event>, g: nat): seq<Letter> {
    if trace == [] then []
    else (if GenerationOf(trace[0]) == Some(g) then [LetterOf(trace[0])] else []) + Word(trace[1..], g)
  }

  /** Nothing, or a ready followed by other messages. */
  predicate Conversation(word: seq<Letter>) {
    word == [] || (word[0].Greeting? && forall k :: 1 <= k < |word| ==> word[k].Saying?)
  }

  predicate Ending(word: seq<Letter>) {
    word == [] || word == [Gone] || word == [Gone, Dead]
  }

  /** The life of a generation: never spawned; spawned in vain; or started, talking, and then ending, with its
      contexts removed once and before its exit. */
  predicate Story(word: seq<Letter>) {
    word == [] || word == [Gone] ||
      (word[0].Born? && exists n :: 1 <= n <= |word| && Conversation(word[1..n]) && Ending(word[n..]))
  }

  /** What may still follow in each phase. */
  predicate Continues(phase: Phase, word: seq<Letter>) {
    match phase
    case Unborn => Story(word)
    case Spawned => exists n :: 0 <= n <= |word| && Conversation(word[..n]) && Ending(word[n..])
    case Talking => exists n :: 0 <= n <= |word| && (forall k :: 0 <= k < n ==> word[k].Saying?) && Ending(word[n..])
    case Removed => word == [] || word == [Dead]
    case Over => word == []
    case Broken => false
  }

  lemma SpawnedContinues(word: seq<Letter>)
    requires Continues(Spawned, word)
    ensures Story([Born] + word)
  {
    var n :| 0 <= n <= |word| && Conversation(word[..n]) && Ending(word[n..]);
    var all := [Born] + word;
    assert all[1..] == word;
    assert all[1..n + 1] == word[..n];
    assert all[n + 1..] == word[n..];
  }

  lemma TalkingContinues(word: seq<Letter>)
    requires Continues(Talking, word)
    ensures Continues(Spawned, [Greeting] + word)
    ensures Continues(Talking, [Saying] + word)
  {
    var n :| 0 <= n <= |word| && (forall k :: 0 <= k < n ==> word[k].Saying?) && Ending(word[n..]);
    var greeted, said := [Greeting] + word, [Saying] + word;
    assert greeted[..n + 1] == [Greeting] + word[..n] && greeted[n + 1..] == word[n..];
    assert said[..n + 1] == [Saying] + word[..n] && said[n + 1..] == word[n..];
    assert forall k :: 0 <= k < n + 1 ==> said[k].Saying?;
  }

  lemma EndingContinues(word: seq<Letter>)
    requires Ending(word)
    ensures Continues(Spawned, word) && Continues(Talking, word)
  {
    assert word[..0] == [] && word[0..] == word;
  }

  lemma RemovedContinues(word: seq<Letter>)
    requires Continues(Removed, word)
    ensures Continues(Spawned, [Gone] + word) && Continues(Talking, [Gone] + word)
  {
    EndingContinues([Gone] + word);
  }

  /** An event stream that never breaks the protocol tells a story. */
  lemma {:induction false} UnbrokenContinues(phase: Phase, events: seq<Event>, g: nat)
    requires PhaseFrom(phase, events, g) != Broken
    ensures Continues(phase, Word(events, g))
    decreases events
  {
    if events == [] {
      EndingContinues([]);
    } else if GenerationOf(events[0]) != Some(g) {
      UnbrokenContinues(phase, events[1..], g);
      assert [] + Word(events[1..], g) == Word(events[1..], g);
    } else {
      var next := Next(phase, events[0]);
      if next.Broken? { BrokenStays(events[1..], g); }
      UnbrokenContinues(next, events[1..], g);
      var rest := Word(events[1..], g);
      match events[0]
      case ProcessStarted(_, _, _) => SpawnedContinues(rest);
      case ModuleMessage(_, _, _, _, _) => TalkingContinues(rest);
      case ContextsRemoved(_, _) =>
        if phase.Unborn? { assert [Gone] + rest == [Gone]; } else { RemovedContinues(rest); }
      case ProcessExited(_, _, _, _) => assert [Dead] + rest == [Dead];
    }
  }

  /** The trace theorem. On every run each generation tells one story, generations increase with every process
      started, and a process exists exactly in the states starting, running and stopping. */
  lemma EveryGenerationTellsItsStory(w: World, steps: seq<(Step, int)>, g: nat)
    ensures Story(Word(Run(w, steps).trace, g))
    ensures StartsAscend(Run(w, steps).trace, Run(w, steps).generations)
    ensures ActiveCount(Run(w, steps)) <= MAXIMUM_INSTANCES
    ensures forall id :: id in Run(w, steps).instances ==>
      (Run(w, steps).instances[id].process.Some? <==> HasProcess(Run(w, steps).instances[id].life.state))
  {
    RunIsSane(w, steps);
    assert PhaseIn(Run(w, steps).trace, g) != Broken;
    UnbrokenContinues(Unborn, Run(w, steps).trace, g);
  }

  // ---- Shutdown ----

  /** Once everything has been told to stop, nothing can start. */
  predicate ShutDown(s: Supervisor) {
    && s.shutdown
    && forall id :: id in s.instances ==>
         s.instances[id].life.state.Stopping? || s.instances[id].life.state.Stopped? ||
           s.instances[id].life.state.Failed?
  }

  lemma StopShutsDown(s: Supervisor, w: World, id: string, now: int, restart: bool)
    requires Sane(s) && s.shutdown
    ensures var after := HandleStop(s, w, id, now, restart);
      && after.shutdown && after.generations == s.generations && after.instances.Keys == s.instances.Keys
      && (id in s.instances ==> after.instances[id].life.state.Stopping? || after.instances[id].life.state.Stopped?)
      && (forall other :: other in s.instances && other != id ==> after.instances[other] == s.instances[other])
  {
    if id in s.instances {
      var i := s.instances[id].(restartAfterStop := s.instances[id].restartAfterStop || restart);
      if !i.life.state.Stopping? && !i.life.state.Stopped? { StopOutcome(i, w, now); }
    }
  }

  predicate Quiescing(state: State) {
    state.Stopping? || state.Stopped?
  }

  lemma {:induction false} StopAllShutsDown(s: Supervisor, w: World, ids: seq<string>, now: int)
    requires Sane(s) && s.shutdown
    requires forall id :: id in s.instances && id !in ids ==> Quiescing(s.instances[id].life.state)
    ensures ShutDown(StopAll(s, w, ids, now)) && StopAll(s, w, ids, now).generations == s.generations
    decreases ids
  {
    if ids != [] {
      var next := HandleStop(s, w, ids[0], now, false);
      StopShutsDown(s, w, ids[0], now, false);
      HandleStopIsSane(s, w, ids[0], now, false);
      forall id | id in next.instances && id !in ids[1..] ensures Quiescing(next.instances[id].life.state) {
        if id != ids[0] { assert id !in ids; }
      }
      StopAllShutsDown(next, w, ids[1..], now);
    }
  }

  /** A shutdown that reaches every instance leaves nothing starting, running or backing off. */
  lemma ShutdownReachesAll(s: Supervisor, w: World, ids: seq<string>, now: int)
    requires Sane(s) && !s.shutdown && forall id :: id in s.instances ==> id in ids
    ensures ShutDown(GlobalShutdown(s, w, ids, now)) && GlobalShutdown(s, w, ids, now).generations == s.generations
  {
    PendingIsSane(s, [], true);
    StopAllShutsDown(s.(shutdown := true, pending := []), w, ids, now);
  }

  lemma ReapDownStays(s: Supervisor, w: World, id: string, wait: WaitOutcome, now: int)
    requires Sane(s) && ShutDown(s)
    ensures ShutDown(ReapInstance(s, w, id, wait, now)) &&
      ReapInstance(s, w, id, wait, now).generations == s.generations
  {
    if id in s.instances && s.instances[id].process.Some? && wait.ExitStatus? {
      var i := s.instances[id];
      ReapObeys(i, wait.cause, now);
      var e := Reap(i, wait.cause, now);
      if e.instance.life.state.Backoff? {
        ApplyIsSilent(e.instance, Stop(e.instance.life, now));
      }
      assert Put(s, id, e).instances[id] == e.instance;
    }
  }

  lemma {:induction false} LinesDownStay(s: Supervisor, id: string, lines: seq<Line>, now: int)
    requires ShutDown(s) && id in s.instances && s.instances[id].life.state.Stopping?
    ensures ShutDown(HandleLines(s, id, lines, now)) && HandleLines(s, id, lines, now).generations == s.generations
  {
  }

  lemma StdoutDownStays(s: Supervisor, id: string, read: ReadOutcome, now: int)
    requires Sane(s) && ShutDown(s)
    ensures ShutDown(ServiceStdout(s, id, read, now)) && ServiceStdout(s, id, read, now).generations == s.generations
  {
    if id in s.instances && s.instances[id].process.Some? && s.instances[id].eofAt.None? {
      assert s.instances[id].life.state.Stopping?;
      match read
      case Lines(lines) => LinesDownStay(s, id, lines, now);
      case EndOfFile(last) =>
        var ended := s.(instances := s.instances[id := s.instances[id].(eofAt := Some(now))]);
        if last.Some? { LinesDownStay(ended, id, [last.value], now); }
      case _ =>
    }
  }

  lemma StopDownStays(s: Supervisor, w: World, id: string, now: int, restart: bool)
    requires Sane(s) && ShutDown(s)
    ensures ShutDown(HandleStop(s, w, id, now, restart)) &&
      HandleStop(s, w, id, now, restart).generations == s.generations
  {
    StopShutsDown(s, w, id, now, restart);
  }

  lemma StartDownStays(s: Supervisor, w: World, request: Request, now: int)
    requires ShutDown(s)
    ensures ShutDown(HandleStart(s, w, request, now)) && HandleStart(s, w, request, now).generations == s.generations
  {
  }

  lemma RestartDownStays(s: Supervisor, w: World, id: string, token: nat, now: int)
    requires Sane(s) && ShutDown(s)
    ensures ShutDown(HandleRestart(s, w, id, token, now)) &&
      HandleRestart(s, w, id, token, now).generations == s.generations
  {
    if id in s.instances && s.instances[id].restartToken.None? {
      var i := s.instances[id];
      var reset := i.(restartToken := Some(token), life := ResetForRestart(i.life).life);
      if i.life.state.Stopping? {
        MarkRestartIsSane(s, id, token);
        StopDownStays(Put(s, id, Effect(reset, [])), w, id, now, true);
      }
    }
  }

  lemma ReconfigureDownStays(s: Supervisor, w: World, id: string, replacement: Option<Request>, now: int)
    requires Sane(s) && ShutDown(s) && id in s.instances
    ensures var replaced := Replace(CancelRestart(s, id), id, replacement);
      ShutDown(HandleStop(replaced, w, id, now, false)) &&
        HandleStop(replaced, w, id, now, false).generations == s.generations
  {
    CancelAndReplaceIsSane(s, id, replacement);
    StopDownStays(Replace(CancelRestart(s, id), id, replacement), w, id, now, false);
  }

  lemma ReplacementDownStays(s: Supervisor, w: World, id: string, now: int)
    requires ShutDown(s)
    ensures ShutDown(StartReplacement(s, w, id, now)) && StartReplacement(s, w, id, now).generations == s.generations
  {
    if id in s.instances && s.instances[id].replacement.Some? {
      StartDownStays(Erase(s, id), w, s.instances[id].replacement.value, now);
    }
  }

  lemma AdvanceDownStays(s: Supervisor, w: World, id: string, now: int)
    requires Sane(s) && ShutDown(s) && id in s.instances
    ensures ShutDown(AdvanceLifecycle(s, w, id, now)) && AdvanceLifecycle(s, w, id, now).generations == s.generations
  {
    var i := s.instances[id];
    assert Tick(i.life, now) == Quiet(i.life);
    assert TickLife(i, now) == Effect(i, []);
    SendDueSignalObeys(i, w, now);
  }

  lemma ReconfigureStopDownStays(s: Supervisor, w: World, id: string, now: int)
    requires Sane(s) && ShutDown(s)
    ensures ShutDown(ReconfigureStop(s, w, id, now)) && ReconfigureStop(s, w, id, now).generations == s.generations
  {
    if id in s.instances { ReconfigureDownStays(s.(pending := WithoutPending(s.pending, id)), w, id, None, now); }
  }

  lemma ReconfigureStartDownStays(s: Supervisor, w: World, request: Request, now: int)
    requires Sane(s) && ShutDown(s)
    ensures ShutDown(ReconfigureStart(s, w, request, now)) &&
      ReconfigureStart(s, w, request, now).generations == s.generations
  {
    var id := request.instanceId;
    if id in s.instances {
      ReconfigureDownStays(s, w, id, Some(request), now);
      ReplacementDownStays(HandleStop(Replace(CancelRestart(s, id), id, Some(request)), w, id, now, false), w, id, now);
    } else {
      StartDownStays(s, w, request, now);
    }
  }

  lemma OthersDownStay(s: Supervisor, w: World, step: Step, now: int)
    requires ShutDown(s)
    requires step.SendCommand? || step.SendActionCommand? || step.ShutdownCommand? || step.StderrStep? ||
      step.PipeStep? || step.PendingStep?
    ensures ShutDown(Take(s, w, step, now)) && Take(s, w, step, now).generations == s.generations
  {
  }

  /** After shutdown no step starts a process. */
  lemma NothingStartsAfterShutdown(s: Supervisor, w: World, step: Step, now: int)
    requires Sane(s) && ShutDown(s)
    ensures ShutDown(Take(s, w, step, now)) && Take(s, w, step, now).generations == s.generations
  {
    match step
    case StartCommand(request) => StartDownStays(s, w, request, now);
    case StopCommand(id) => StopDownStays(s, w, id, now, false);
    case RestartCommand(id, token) => RestartDownStays(s, w, id, token, now);
    case ReconfigureStopCommand(id) => ReconfigureStopDownStays(s, w, id, now);
    case ReconfigureStartCommand(request) => ReconfigureStartDownStays(s, w, request, now);
    case AdvanceStep(id) => if id in s.instances { AdvanceDownStays(s, w, id, now); }
    case StdoutStep(id, read) => StdoutDownStays(s, id, read, now);
    case ReapStep(id, wait) => ReapDownStays(s, w, id, wait, now);
    case ReplacementStep(id) => ReplacementDownStays(s, w, id, now);
    case _ => OthersDownStay(s, w, step, now);
  }

  /** One more step of a run. */
  lemma RunStep(w: World, steps: seq<(Step, int)>, step: Step, now: int)
    ensures Run(w, steps + [(step, now)]) == Take(Run(w, steps), w, step, now)
  {
    var all := steps + [(step, now)];
    assert all[..|all| - 1] == steps;
  }

  /** On every run the processes spawned up to a complete shutdown are all there ever are. */
  lemma {:induction false} ShutdownIsFinal(w: World, before: seq<(Step, int)>, after: seq<(Step, int)>)
    requires ShutDown(Run(w, before))
    ensures ShutDown(Run(w, before + after)) && Run(w, before + after).generations == Run(w, before).generations
    decreases after
  {
    if after == [] {
      assert before + after == before;
    } else {
      var last := |after| - 1;
      var steps := before + after[..last];
      ShutdownIsFinal(w, before, after[..last]);
      RunIsSane(w, steps);
      NothingStartsAfterShutdown(Run(w, steps), w, after[last].0, after[last].1);
      RunStep(w, steps, after[last].0, after[last].1);
      assert before + after == steps + [(after[last].0, after[last].1)];
    }
  }
}
