/** Promises over runs: a restart that is asked for ends in a new generation, and a replacement in its own request,
    whatever else happens meanwhile. */
module SupervisorPromises {
  import opened Optional
  import L = ModuleLifecycle
  import opened SupervisedInstance
  import opened ModuleSupervisor
  import opened SupervisorInvariant
  import opened SupervisorOutcomes
  import opened SupervisorSteps
  import opened SupervisorPlans
  import opened SupervisorRuns

  // ---- What a step is about ----

  /** Every instance's replacement is a request of its own. */
  predicate OwnPlans(s: Supervisor) {
    forall id :: id in s.instances && s.instances[id].replacement.Some? ==>
      s.instances[id].replacement.value.instanceId == id
  }

  /** Only this instance may have changed; its replacement is an old one or its own. */
  predicate Local(s: Supervisor, t: Supervisor, id: string) {
    && OthersSame(s, t, id) && t.shutdown == s.shutdown
    && (id in t.instances && t.instances[id].replacement.Some? ==>
          || t.instances[id].replacement.value.instanceId == id
          || (id in s.instances && t.instances[id].replacement == s.instances[id].replacement))
  }

  /** The instance a step is about; a shutdown and waiting requests are about any. */
  function Subject(step: Step): Option<string> {
    match step
    case StartCommand(request) => Some(request.instanceId)
    case ReconfigureStartCommand(request) => Some(request.instanceId)
    case ShutdownCommand(_) => None
    case PendingStep => None
    case _ => Some(step.id)
  }

  lemma StartIsLocal(s: Supervisor, w: World, request: Request, now: int, t: Supervisor)
    requires t == HandleStart(s, w, request, now)
    ensures Local(s, t, request.instanceId)
  {
    StartAnswers(s, w, request, now, t);
  }

  lemma StopIsLocal(s: Supervisor, w: World, id: string, now: int, t: Supervisor)
    requires Sane(s) && t == HandleStop(s, w, id, now, false)
    ensures Local(s, t, id)
  {
    StopAnswers(s, w, id, now, false, t);
  }

  lemma RestartIsLocal(s: Supervisor, w: World, id: string, token: nat, now: int, t: Supervisor)
    requires Sane(s) && t == HandleRestart(s, w, id, token, now)
    ensures Local(s, t, id)
  {
    RestartAnswers(s, w, id, token, now, t);
  }

  lemma ReconfigureStopIsLocal(s: Supervisor, w: World, id: string, now: int, t: Supervisor)
    requires Sane(s) && t == ReconfigureStop(s, w, id, now)
    ensures Local(s, t, id)
  {
    ReconfigureStopAnswers(s, w, id, now, t);
  }

  lemma ReconfigureStartIsLocal(s: Supervisor, w: World, request: Request, now: int, t: Supervisor)
    requires Sane(s) && t == ReconfigureStart(s, w, request, now)
    ensures Local(s, t, request.instanceId)
  {
    if request.instanceId in s.instances {
      ReplaceAnswers(s, w, request, now, t);
    } else {
      StartIsLocal(s, w, request, now, HandleStart(s, w, request, now));
    }
  }

  lemma ReplacementIsLocal(s: Supervisor, w: World, id: string, now: int, t: Supervisor)
    requires OwnPlans(s) && t == StartReplacement(s, w, id, now)
    ensures Local(s, t, id)
  {
    ReplacementAnswers(s, w, id, now, t);
  }

  lemma AdvanceIsLocal(s: Supervisor, w: World, id: string, now: int, t: Supervisor)
    requires Sane(s) && id in s.instances && t == AdvanceLifecycle(s, w, id, now)
    ensures Local(s, t, id)
  {
    var state := s.instances[id].life.state;
    if state.Backoff? {
      BackoffEnds(s, w, id, now, t);
    } else if state.Starting? {
      HandshakeEnds(s, w, id, now, t);
    } else {
      TimePasses(s, w, id, now, t);
    }
  }

  lemma PutIsLocal(s: Supervisor, id: string, e: Effect)
    requires id in s.instances && e.instance.replacement == s.instances[id].replacement
    ensures Local(s, Put(s, id, e), id) && SameCourse(s, Put(s, id, e))
  {
  }

  lemma LocalJoins(s: Supervisor, m: Supervisor, t: Supervisor, id: string)
    requires Local(s, m, id) && SameCourse(s, m) && Local(m, t, id) && SameCourse(m, t)
    ensures Local(s, t, id) && SameCourse(s, t)
  {
  }

  lemma LineIsLocal(i: Instance, line: Line, now: int)
    requires Settled(i)
    ensures HandleLine(i, line, now).instance.replacement == i.replacement
    ensures HandleLine(i, line, now).instance.process == i.process
  {
    LineAnswers(i, line, now, HandleLine(i, line, now));
  }

  lemma {:induction false} LinesAreLocal(s: Supervisor, id: string, lines: seq<Line>, now: int)
    requires id in s.instances && Settled(s.instances[id]) && s.instances[id].process.Some?
    ensures SameCourse(s, HandleLines(s, id, lines, now)) && Local(s, HandleLines(s, id, lines, now), id)
    decreases lines
  {
    if lines != [] {
      LineIsLocal(s.instances[id], lines[0], now);
      HandleLineObeys(s.instances[id], lines[0], now);
      FirstLineIsLocal(s, id, lines, now, HandleLine(s.instances[id], lines[0], now));
    }
  }

  lemma {:induction false} FirstLineIsLocal(s: Supervisor, id: string, lines: seq<Line>, now: int, e: Effect)
    requires id in s.instances && s.instances[id].process.Some? && lines != []
    requires e == HandleLine(s.instances[id], lines[0], now) && Settled(e.instance)
    requires e.instance.replacement == s.instances[id].replacement && e.instance.process == s.instances[id].process
    ensures SameCourse(s, HandleLines(s, id, lines, now)) && Local(s, HandleLines(s, id, lines, now), id)
    decreases lines, 0
  {
    var next := Put(s, id, e);
    PutIsLocal(s, id, e);
    if !e.instance.life.state.Stopping? {
      LinesAreLocal(next, id, lines[1..], now);
      LocalJoins(s, next, HandleLines(next, id, lines[1..], now), id);
    }
  }

  lemma EndIsLocal(s: Supervisor, id: string, last: Option<Line>, now: int, ended: Supervisor)
    requires id in s.instances && Settled(s.instances[id]) && s.instances[id].process.Some?
    requires ended == s.(instances := s.instances[id := s.instances[id].(eofAt := Some(now))])
    ensures Local(s, if last.Some? then HandleLines(ended, id, [last.value], now) else ended, id)
  {
    if last.Some? {
      LinesAreLocal(ended, id, [last.value], now);
      LocalJoins(s, ended, HandleLines(ended, id, [last.value], now), id);
    }
  }

  lemma OverlongIsLocal(s: Supervisor, id: string, now: int, e: Effect)
    requires id in s.instances && Settled(s.instances[id]) && e == RecordViolation(s.instances[id], now)
    ensures Local(s, Put(s, id, e), id)
  {
    ViolationAnswers(s.instances[id], now, e);
    PutIsLocal(s, id, e);
  }

  lemma StdoutIsLocal(s: Supervisor, id: string, read: ReadOutcome, now: int, t: Supervisor)
    requires Sane(s) && t == ServiceStdout(s, id, read, now)
    ensures Local(s, t, id)
  {
    if id in s.instances && s.instances[id].process.Some? && s.instances[id].eofAt.None? {
      match read
      case Lines(lines) => LinesAreLocal(s, id, lines, now);
      case EndOfFile(last) =>
        EndIsLocal(s, id, last, now, s.(instances := s.instances[id := s.instances[id].(eofAt := Some(now))]));
      case Overlong => OverlongIsLocal(s, id, now, RecordViolation(s.instances[id], now));
      case ReadError => StdoutAnswers(s, id, read, now, t);
    }
  }

  lemma ReapIsLocal(s: Supervisor, w: World, id: string, wait: WaitOutcome, now: int, t: Supervisor)
    requires Sane(s) && t == ReapInstance(s, w, id, wait, now)
    ensures Local(s, t, id)
  {
    if !wait.ExitStatus? {
      WaitAnswers(s, w, id, wait, now, t);
    } else if id in s.instances && s.instances[id].process.Some? {
      ExitIsLocal(s, w, id, wait.cause, now, t);
    }
  }

  lemma ExitIsLocal(s: Supervisor, w: World, id: string, cause: L.Cause, now: int, t: Supervisor)
    requires Sane(s) && id in s.instances && s.instances[id].process.Some?
    requires t == ReapInstance(s, w, id, ExitStatus(cause), now)
    ensures Local(s, t, id)
  {
    var e := Reap(s.instances[id], cause, now);
    ExitIsTold(s.instances[id], cause, now, e);
    ExitThenLocal(s, w, id, e, now, t);
  }

  lemma ExitThenLocal(s: Supervisor, w: World, id: string, e: Effect, now: int, t: Supervisor)
    requires id in s.instances && e.instance.replacement == s.instances[id].replacement
    requires e.instance.request.instanceId == id && e.instance.process.None?
    requires t == HandleReaped(Put(s, id, e), w, id, now)
    ensures Local(s, t, id)
  {
    PutIsLocal(s, id, e);
    ReapedIsLocal(Put(s, id, e), w, id, now, t);
  }

  lemma ReapedIsLocal(s: Supervisor, w: World, id: string, now: int, t: Supervisor)
    requires id in s.instances && s.instances[id].request.instanceId == id && s.instances[id].process.None?
    requires t == HandleReaped(s, w, id, now)
    ensures Local(s, t, id)
  {
    var i := s.instances[id];
    if i.replacement.None? && i.restartAfterStop && !s.shutdown && i.life.state.Stopped? {
      PutAndStartAgain(s, w, id, Effect(i.(restartAfterStop := false), []), now, t);
    } else if s.shutdown && i.life.state.Backoff? {
      ApplyIsSilent(i, L.Stop(i.life, now));
      PutIsLocal(s, id, Apply(i, L.Stop(i.life, now)));
    }
  }

  lemma SendIsLocal(s: Supervisor, w: World, step: Step, now: int, t: Supervisor)
    requires Sane(s) && t == Take(s, w, step, now)
    requires step.SendCommand? || step.StderrStep? || step.PipeStep?
    ensures Local(s, t, step.id)
  {
    match step
    case SendCommand(id, queued) => SendAnswers(s, id, queued, now, t);
    case StderrStep(_, _, _) =>
    case PipeStep(id, reported) => PipeAnswers(s, id, reported, now, t);
  }

  lemma SendActionIsLocal(s: Supervisor, id: string, generation: nat, invocation: nat, push: PushOutcome, now: int,
      t: Supervisor)
    requires Sane(s) && t == HandleSendAction(s, id, generation, invocation, push, now)
    ensures Local(s, t, id)
  {
    SendActionAnswers(s, id, generation, invocation, push, now, t);
  }

  /** A step touches no instance but the one it is about. */
  lemma StepIsLocal(s: Supervisor, w: World, step: Step, now: int, t: Supervisor)
    requires Sane(s) && OwnPlans(s) && Subject(step).Some? && t == Take(s, w, step, now)
    ensures Local(s, t, Subject(step).value)
  {
    match step
    case StartCommand(request) => StartIsLocal(s, w, request, now, t);
    case StopCommand(id) => StopIsLocal(s, w, id, now, t);
    case RestartCommand(id, token) => RestartIsLocal(s, w, id, token, now, t);
    case ReconfigureStopCommand(id) => ReconfigureStopIsLocal(s, w, id, now, t);
    case ReconfigureStartCommand(request) => ReconfigureStartIsLocal(s, w, request, now, t);
    case AdvanceStep(id) => if id in s.instances { AdvanceIsLocal(s, w, id, now, t); }
    case StdoutStep(id, read) => StdoutIsLocal(s, id, read, now, t);
    case ReapStep(id, wait) => ReapIsLocal(s, w, id, wait, now, t);
    case ReplacementStep(id) => ReplacementIsLocal(s, w, id, now, t);
    case SendActionCommand(id, generation, invocation, push) =>
      SendActionIsLocal(s, id, generation, invocation, push, now, t);
    case _ => SendIsLocal(s, w, step, now, t);
  }

  // ---- Replacements belong to their instances ----

  lemma LocalKeepsOwn(s: Supervisor, t: Supervisor, id: string)
    requires OwnPlans(s) && Local(s, t, id)
    ensures OwnPlans(t)
  {
  }

  lemma {:induction false} PendingKeepsOwn(s: Supervisor, w: World, now: int)
    requires OwnPlans(s)
    ensures OwnPlans(StartPending(s, w, now))
    decreases |s.pending|
  {
    if !s.shutdown && s.pending != [] && ActiveCount(s) < MAXIMUM_INSTANCES {
      var rest := s.(pending := s.pending[1..]);
      var next := HandleStart(rest, w, s.pending[0], now);
      StartIsLocal(rest, w, s.pending[0], now, next);
      LocalKeepsOwn(rest, next, s.pending[0].instanceId);
      PendingKeepsOwn(next, w, now);
    }
  }

  lemma {:induction false} StopAllKeepsOwn(s: Supervisor, w: World, ids: seq<string>, now: int)
    requires Sane(s) && OwnPlans(s)
    ensures OwnPlans(StopAll(s, w, ids, now))
    decreases ids
  {
    if ids != [] {
      var next := HandleStop(s, w, ids[0], now, false);
      StopIsLocal(s, w, ids[0], now, next);
      LocalKeepsOwn(s, next, ids[0]);
      HandleStopIsSane(s, w, ids[0], now, false);
      StopAllKeepsOwn(next, w, ids[1..], now);
    }
  }

  lemma StepKeepsOwn(s: Supervisor, w: World, step: Step, now: int, t: Supervisor)
    requires Sane(s) && OwnPlans(s) && t == Take(s, w, step, now)
    ensures OwnPlans(t)
  {
    if Subject(step).Some? {
      StepIsLocal(s, w, step, now, t);
      LocalKeepsOwn(s, t, Subject(step).value);
    } else if step.PendingStep? {
      PendingKeepsOwn(s, w, now);
    } else if !s.shutdown {
      PendingIsSane(s, [], true);
      StopAllKeepsOwn(s.(shutdown := true, pending := []), w, step.ids, now);
    }
  }

  lemma {:induction false} RunOwns(w: World, steps: seq<(Step, int)>)
    ensures Sane(Run(w, steps)) && OwnPlans(Run(w, steps))
  {
    RunIsSane(w, steps);
    if steps != [] {
      var last := |steps| - 1;
      RunIsSane(w, steps[..last]);
      RunOwns(w, steps[..last]);
      StepKeepsOwn(Run(w, steps[..last]), w, steps[last].0, steps[last].1, Run(w, steps));
    }
  }

  // ---- What leaves an instance alone ----

  predicate Untouched(s: Supervisor, t: Supervisor, id: string) {
    && t.shutdown == s.shutdown && (id in s.instances <==> id in t.instances)
    && (id in s.instances ==> t.instances[id] == s.instances[id])
  }

  /** Waiting requests leave an active instance alone, and every instance that none of them is for. */
  lemma {:induction false} PendingLeaves(s: Supervisor, w: World, now: int, id: string)
    requires (forall k :: 0 <= k < |s.pending| ==> s.pending[k].instanceId != id)
             || (id in s.instances && !L.AtRest(s.instances[id].life.state))
    ensures Untouched(s, StartPending(s, w, now), id)
    decreases |s.pending|
  {
    if !s.shutdown && s.pending != [] && ActiveCount(s) < MAXIMUM_INSTANCES {
      var rest := s.(pending := s.pending[1..]);
      var next := HandleStart(rest, w, s.pending[0], now);
      StartAnswers(rest, w, s.pending[0], now, next);
      assert Untouched(s, next, id);
      assert forall k :: 0 <= k < |next.pending| ==> next.pending[k] == s.pending[k + 1];
      PendingLeaves(next, w, now, id);
    }
  }

  /** Steps that neither end the process of the instance, nor plan anew for it, nor shut everything down. */
  predicate Spares(step: Step, id: string) {
    && !step.ShutdownCommand?
    && (step.ReapStep? && step.id == id ==> !step.wait.ExitStatus?)
    && (step.ReconfigureStopCommand? ==> step.id != id)
    && (step.ReconfigureStartCommand? ==> step.request.instanceId != id)
  }

  /** The instance is still the same process stopping on request, with the same plans; a restart that it is to answer
      stays the same. */
  predicate StillStops(before: Instance, after: Instance) {
    && after.request == before.request && after.generation == before.generation && after.process == before.process
    && L.StoppingOnRequest(after.life) && after.replacement == before.replacement
    && (before.restartAfterStop ==> after.restartAfterStop)
    && (before.restartToken.Some? ==> after.restartToken == before.restartToken)
  }

  predicate StopGoesOn(s: Supervisor, t: Supervisor, id: string)
    requires id in s.instances
  {
    t.shutdown == s.shutdown && id in t.instances && StillStops(s.instances[id], t.instances[id])
  }

  predicate Stops(s: Supervisor, id: string) {
    id in s.instances && s.instances[id].process.Some? && L.StoppingOnRequest(s.instances[id].life)
  }

  lemma CommandSpares(s: Supervisor, w: World, step: Step, now: int, id: string, t: Supervisor)
    requires Sane(s) && Stops(s, id) && t == Take(s, w, step, now)
    requires step.StopCommand? || step.RestartCommand?
    requires step.id == id
    ensures StopGoesOn(s, t, id)
  {
    if step.StopCommand? {
      StopAnswers(s, w, id, now, false, t);
    } else {
      RestartAnswers(s, w, id, step.token, now, t);
    }
  }

  lemma {:induction false} StdoutSpares(s: Supervisor, id: string, read: ReadOutcome, now: int, t: Supervisor)
    requires Sane(s) && Stops(s, id) && t == ServiceStdout(s, id, read, now)
    ensures StopGoesOn(s, t, id)
  {
    StdoutAnswers(s, id, read, now, t);
    if s.instances[id].eofAt.None? {
      match read
      case Lines(lines) => StoppingIsDeaf(s, id, lines, now);
      case EndOfFile(last) =>
        var ended := s.(instances := s.instances[id := s.instances[id].(eofAt := Some(now))]);
        if last.Some? { StoppingIsDeaf(ended, id, [last.value], now); }
      case _ =>
    }
  }

  /** A module that stops is not heard. */
  lemma {:induction false} StoppingIsDeaf(s: Supervisor, id: string, lines: seq<Line>, now: int)
    requires id in s.instances && s.instances[id].life.state.Stopping?
    ensures id in HandleLines(s, id, lines, now).instances && HandleLines(s, id, lines, now).shutdown == s.shutdown
    ensures HandleLines(s, id, lines, now).instances[id] == s.instances[id]
  {
  }

  lemma OwnStepSpares(s: Supervisor, w: World, step: Step, now: int, id: string, t: Supervisor)
    requires Sane(s) && Stops(s, id) && Spares(step, id) && Subject(step) == Some(id) && t == Take(s, w, step, now)
    ensures StopGoesOn(s, t, id)
  {
    match step
    case StartCommand(request) => StartAnswers(s, w, request, now, t);
    case StopCommand(_) => CommandSpares(s, w, step, now, id, t);
    case RestartCommand(_, _) => CommandSpares(s, w, step, now, id, t);
    case SendCommand(_, queued) => SendAnswers(s, id, queued, now, t);
    case SendActionCommand(_, generation, invocation, push) =>
      SendActionAnswers(s, id, generation, invocation, push, now, t);
    case AdvanceStep(_) => TimePasses(s, w, id, now, t);
    case StdoutStep(_, read) => StdoutSpares(s, id, read, now, t);
    case StderrStep(_, _, _) =>
    case PipeStep(_, reported) => PipeAnswers(s, id, reported, now, t);
    case ReapStep(_, wait) => WaitAnswers(s, w, id, wait, now, t);
    case ReplacementStep(_) =>
  }

  /** While a module stops on request, nothing that spares it changes its process or its plans. */
  lemma StepSpares(s: Supervisor, w: World, step: Step, now: int, id: string, t: Supervisor)
    requires Sane(s) && OwnPlans(s) && Stops(s, id) && Spares(step, id) && t == Take(s, w, step, now)
    ensures StopGoesOn(s, t, id)
  {
    if Subject(step) == Some(id) {
      OwnStepSpares(s, w, step, now, id, t);
    } else if step.PendingStep? {
      PendingLeaves(s, w, now, id);
    } else {
      StepIsLocal(s, w, step, now, t);
    }
  }

  predicate SparesAll(steps: seq<(Step, int)>, id: string) {
    forall k :: 0 <= k < |steps| ==> Spares(steps[k].0, id)
  }

  /** The state after these steps. */
  function After(s: Supervisor, w: World, steps: seq<(Step, int)>): Supervisor
    decreases steps
  {
    if steps == [] then s else After(Take(s, w, steps[0].0, steps[0].1), w, steps[1..])
  }

  lemma FirstJoins<T>(before: seq<T>, steps: seq<T>)
    requires steps != []
    ensures before + [steps[0]] + steps[1..] == before + steps
  {
  }

  /** A run that goes on. */
  lemma {:induction false} RunGoesOn(w: World, before: seq<(Step, int)>, steps: seq<(Step, int)>)
    ensures Run(w, before + steps) == After(Run(w, before), w, steps)
    decreases steps
  {
    if steps == [] {
      assert before + steps == before;
    } else {
      FirstJoins(before, steps);
      RunGoesOn(w, before + [steps[0]], steps[1..]);
      RunStep(w, before, steps[0].0, steps[0].1);
    }
  }

  lemma {:induction false} StepsSpare(s: Supervisor, w: World, steps: seq<(Step, int)>, id: string)
    requires Sane(s) && OwnPlans(s) && Stops(s, id) && SparesAll(steps, id)
    ensures var t := After(s, w, steps);
      Sane(t) && OwnPlans(t) && Stops(t, id) && StopGoesOn(s, t, id)
    decreases steps
  {
    if steps != [] {
      var next := Take(s, w, steps[0].0, steps[0].1);
      FirstSpares(s, w, steps, id, next);
      StepsSpare(next, w, steps[1..], id);
    }
  }

  lemma FirstSpares(s: Supervisor, w: World, steps: seq<(Step, int)>, id: string, next: Supervisor)
    requires Sane(s) && OwnPlans(s) && Stops(s, id) && steps != [] && SparesAll(steps, id)
    requires next == Take(s, w, steps[0].0, steps[0].1)
    ensures Sane(next) && OwnPlans(next) && StopGoesOn(s, next, id) && Stops(next, id) && SparesAll(steps[1..], id)
  {
    TakeIsSane(s, w, steps[0].0, steps[0].1);
    StepKeepsOwn(s, w, steps[0].0, steps[0].1, next);
    StepSpares(s, w, steps[0].0, steps[0].1, id, next);
  }

  // ---- A requested restart ----

  lemma LiveHasProcess(s: Supervisor, id: string)
    requires Sane(s) && id in s.instances && L.Live(s.instances[id].life.state)
    ensures s.instances[id].process.Some?
  {
    assert Settled(s.instances[id]);
  }

  lemma RestartAsked(s: Supervisor, w: World, id: string, token: nat, at: int, asked: Supervisor)
    requires Sane(s) && OwnPlans(s) && id in s.instances && L.Live(s.instances[id].life.state) && !s.shutdown
    requires s.instances[id].restartToken.None? && s.instances[id].replacement.None?
    requires asked == HandleRestart(s, w, id, token, at)
    ensures Sane(asked) && OwnPlans(asked) && AwaitsRestart(asked, id)
    ensures asked.instances[id].restartToken == Some(token) && asked.instances[id].request == s.instances[id].request
  {
    LiveHasProcess(s, id);
    RestartAnswers(s, w, id, token, at, asked);
    HandleRestartIsSane(s, w, id, token, at);
    RestartIsLocal(s, w, id, token, at, asked);
    LocalKeepsOwn(s, asked, id);
  }

  lemma StillAwaits(s: Supervisor, w: World, steps: seq<(Step, int)>, id: string, t: Supervisor)
    requires Sane(s) && OwnPlans(s) && AwaitsRestart(s, id) && SparesAll(steps, id) && t == After(s, w, steps)
    ensures Sane(t) && AwaitsRestart(t, id) && t.instances[id].request == s.instances[id].request
    ensures s.instances[id].restartToken.Some? ==> t.instances[id].restartToken == s.instances[id].restartToken
  {
    StepsSpare(s, w, steps, id);
  }

  /** The restart promise. On every run, a live module that is told to restart is stopped, and whatever else happens in
      between, the step in which its process ends, however it ends, spawns its next generation under the same
      request. */
  lemma RestartEndsInNewGeneration(w: World, before: seq<(Step, int)>, id: string, token: nat, at: int,
      between: seq<(Step, int)>, cause: L.Cause, now: int, s: Supervisor, asked: Supervisor, stopping: Supervisor,
      t: Supervisor)
    requires s == Run(w, before) && id in s.instances && L.Live(s.instances[id].life.state) && !s.shutdown
    requires s.instances[id].restartToken.None? && s.instances[id].replacement.None?
    requires asked == HandleRestart(s, w, id, token, at) && SparesAll(between, id)
    requires stopping == After(asked, w, between) && t == ReapInstance(stopping, w, id, ExitStatus(cause), now)
    ensures Launched(stopping, t, w, id, s.instances[id].request, now)
    ensures AnswersRestart(stopping, t, w, id, Some(token))
  {
    RunOwns(w, before);
    RestartAsked(s, w, id, token, at, asked);
    StillAwaits(asked, w, between, id, stopping);
    ExitRestarts(stopping, w, id, cause, now, t);
  }

  // ---- Waiting requests that start ----

  function StartSteps(requests: seq<Request>, now: int): seq<(Step, int)> {
    seq(|requests|, k requires 0 <= k < |requests| => (StartCommand(requests[k]), now))
  }

  lemma StartIgnoresPending(s: Supervisor, w: World, request: Request, now: int, pending: seq<Request>)
    ensures HandleStart(s.(pending := pending), w, request, now)
      == HandleStart(s, w, request, now).(pending := pending)
  {
  }

  /** Fewer than 32 instances are active. */
  predicate HasRoom(s: Supervisor) {
    |set id | id in s.instances && !L.AtRest(s.instances[id].life.state)| < 32
  }

  /** Requests are left waiting only for want of room or after a shutdown, and everything before them was started while
      there was room. */
  predicate StartedInTurn(s: Supervisor, w: World, now: int, n: nat, t: Supervisor)
    requires n <= |s.pending|
  {
    var left := s.(pending := s.pending[n..]);
    && t == After(left, w, StartSteps(s.pending[..n], now))
    && (forall k :: 0 <= k < n ==> HasRoom(After(left, w, StartSteps(s.pending[..k], now))))
    && (n < |s.pending| ==> s.shutdown || !HasRoom(t)) && (s.shutdown ==> n == 0)
  }

  /** Waiting requests are started in the order in which they wait, as long as there is room. */
  lemma {:induction false} PendingStartsAreSteps(s: Supervisor, w: World, now: int, t: Supervisor) returns (n: nat)
    requires t == StartPending(s, w, now)
    ensures n <= |s.pending| && StartedInTurn(s, w, now, n, t)
    decreases |s.pending|
  {
    assert ActiveIds(s.instances) == set id | id in s.instances && !L.AtRest(s.instances[id].life.state);
    if s.shutdown || s.pending == [] || !HasRoom(s) {
      n := 0;
      assert s.pending[0..] == s.pending;
    } else {
      var next := HandleStart(s.(pending := s.pending[1..]), w, s.pending[0], now);
      var m := PendingStartsAreSteps(next, w, now, t);
      n := m + 1;
      FirstStarted(s, w, now, next, m, t);
    }
  }

  lemma FirstStarts(s: Supervisor, w: World, now: int, next: Supervisor, pending: seq<Request>, k: nat)
    requires s.pending != [] && k <= |next.pending|
    requires next == HandleStart(s.(pending := s.pending[1..]), w, s.pending[0], now)
    ensures After(s.(pending := pending), w, StartSteps(s.pending[..k + 1], now))
      == After(next.(pending := pending), w, StartSteps(next.pending[..k], now))
  {
    StartIgnoresPending(s.(pending := s.pending[1..]), w, s.pending[0], now, pending);
    assert StartSteps(s.pending[..k + 1], now)[1..] == StartSteps(next.pending[..k], now);
  }

  lemma FirstStarted(s: Supervisor, w: World, now: int, next: Supervisor, m: nat, t: Supervisor)
    requires s.pending != [] && HasRoom(s) && !s.shutdown && next.shutdown == s.shutdown
    requires next == HandleStart(s.(pending := s.pending[1..]), w, s.pending[0], now)
    requires m <= |next.pending| && StartedInTurn(next, w, now, m, t)
    ensures m < |s.pending| && StartedInTurn(s, w, now, m + 1, t)
  {
    var left := s.pending[m + 1..];
    assert next.pending[m..] == left;
    FirstStarts(s, w, now, next, left, m);
    forall k | 0 <= k < m + 1 ensures HasRoom(After(s.(pending := left), w, StartSteps(s.pending[..k], now))) {
      if k > 0 {
        FirstStarts(s, w, now, next, left, k - 1);
        assert HasRoom(After(next.(pending := left), w, StartSteps(next.pending[..k - 1], now)));
      }
    }
  }

  // ---- A reconfiguration ----

  /** A reconfiguration's stops, and then its starts, each in order and a step of its own. */
  function ReconfigurationSteps(stops: seq<string>, starts: seq<Request>, now: int): seq<(Step, int)> {
    seq(|stops|, k requires 0 <= k < |stops| => (ReconfigureStopCommand(stops[k]), now))
    + seq(|starts|, k requires 0 <= k < |starts| => (ReconfigureStartCommand(starts[k]), now))
  }

  lemma {:induction false} StartsAreSteps(s: Supervisor, w: World, starts: seq<Request>, now: int)
    ensures ReconfigureStarts(s, w, starts, now) == After(s, w, ReconfigurationSteps([], starts, now))
    decreases starts
  {
    if starts != [] {
      assert ReconfigurationSteps([], starts, now)[1..] == ReconfigurationSteps([], starts[1..], now);
      StartsAreSteps(ReconfigureStart(s, w, starts[0], now), w, starts[1..], now);
    }
  }

  /** Everything that holds of a run holds of one that reconfigures: the handler does what its steps do. */
  lemma {:induction false} ReconfigurationIsSteps(s: Supervisor, w: World, stops: seq<string>, starts: seq<Request>,
      now: int)
    ensures ReconfigureStarts(ReconfigureStops(s, w, stops, now), w, starts, now)
      == After(s, w, ReconfigurationSteps(stops, starts, now))
    decreases stops
  {
    if stops == [] {
      StartsAreSteps(s, w, starts, now);
    } else {
      assert ReconfigurationSteps(stops, starts, now)[1..] == ReconfigurationSteps(stops[1..], starts, now);
      ReconfigurationIsSteps(ReconfigureStop(s, w, stops[0], now), w, stops[1..], starts, now);
    }
  }

  // ---- A replacement ----

  predicate LeavesAlone(steps: seq<(Step, int)>, id: string) {
    forall k :: 0 <= k < |steps| ==> Subject(steps[k].0).Some? && Subject(steps[k].0) != Some(id)
  }

  lemma {:induction false} StepsLeaveAlone(s: Supervisor, w: World, steps: seq<(Step, int)>, id: string)
    requires Sane(s) && OwnPlans(s) && LeavesAlone(steps, id)
    ensures Untouched(s, After(s, w, steps), id) && OwnPlans(After(s, w, steps))
    decreases steps
  {
    if steps != [] {
      var next := Take(s, w, steps[0].0, steps[0].1);
      FirstLeavesAlone(s, w, steps, id, next);
      StepsLeaveAlone(next, w, steps[1..], id);
    }
  }

  lemma FirstLeavesAlone(s: Supervisor, w: World, steps: seq<(Step, int)>, id: string, next: Supervisor)
    requires Sane(s) && OwnPlans(s) && steps != [] && LeavesAlone(steps, id)
    requires next == Take(s, w, steps[0].0, steps[0].1)
    ensures Sane(next) && OwnPlans(next) && Untouched(s, next, id) && LeavesAlone(steps[1..], id)
  {
    TakeIsSane(s, w, steps[0].0, steps[0].1);
    StepKeepsOwn(s, w, steps[0].0, steps[0].1, next);
    StepIsLocal(s, w, steps[0].0, steps[0].1, next);
  }

  lemma ReplacementAsked(s: Supervisor, w: World, request: Request, at: int, asked: Supervisor)
    requires Sane(s) && OwnPlans(s) && request.instanceId in s.instances
    requires L.Live(s.instances[request.instanceId].life.state)
    requires asked == ReconfigureStart(s, w, request, at)
    ensures Sane(asked) && OwnPlans(asked) && Stops(asked, request.instanceId)
    ensures asked.instances[request.instanceId].replacement == Some(request)
  {
    LiveHasProcess(s, request.instanceId);
    ReplaceAnswers(s, w, request, at, asked);
    ReconfigureStartIsSane(s, w, request, at);
    ReconfigureStartIsLocal(s, w, request, at, asked);
    LocalKeepsOwn(s, asked, request.instanceId);
  }

  lemma ReplacementExits(s: Supervisor, w: World, id: string, cause: L.Cause, end: int, t: Supervisor)
    requires Sane(s) && OwnPlans(s) && Stops(s, id) && s.instances[id].replacement.Some?
    requires t == ReapInstance(s, w, id, ExitStatus(cause), end)
    ensures Sane(t) && OwnPlans(t) && id in t.instances && t.instances[id].replacement == s.instances[id].replacement
    ensures t.instances[id].life.state.Stopped? && t.instances[id].process.None?
  {
    ReapInstanceIsSane(s, w, id, ExitStatus(cause), end);
    ReapIsLocal(s, w, id, ExitStatus(cause), end, t);
    LocalKeepsOwn(s, t, id);
    ExitAwaitsReplacement(s, w, id, cause, end, t);
  }

  lemma StillToReplace(s: Supervisor, w: World, steps: seq<(Step, int)>, id: string, t: Supervisor)
    requires Sane(s) && OwnPlans(s) && Stops(s, id) && SparesAll(steps, id) && t == After(s, w, steps)
    ensures Sane(t) && OwnPlans(t) && Stops(t, id) && t.instances[id].replacement == s.instances[id].replacement
  {
    StepsSpare(s, w, steps, id);
  }

  lemma StillRests(s: Supervisor, w: World, steps: seq<(Step, int)>, id: string, t: Supervisor)
    requires Sane(s) && OwnPlans(s) && id in s.instances && LeavesAlone(steps, id) && t == After(s, w, steps)
    ensures OwnPlans(t) && id in t.instances && t.instances[id] == s.instances[id]
  {
    StepsLeaveAlone(s, w, steps, id);
  }

  /** The replacement promise. On every run, a live module that is to be replaced is stopped; once its process has
      ended, however it ends, and whatever happens to other modules until its turn comes, the new request is launched in
      its place, or refused for lack of room or a shutdown. */
  lemma ReplacementEndsInItsRequest(w: World, before: seq<(Step, int)>, request: Request, at: int,
      between: seq<(Step, int)>, cause: L.Cause, end: int, others: seq<(Step, int)>, now: int, s: Supervisor,
      asked: Supervisor, stopping: Supervisor, ended: Supervisor, rested: Supervisor, t: Supervisor)
    requires s == Run(w, before) && request.instanceId in s.instances
    requires L.Live(s.instances[request.instanceId].life.state)
    requires asked == ReconfigureStart(s, w, request, at)
    requires SparesAll(between, request.instanceId) && stopping == After(asked, w, between)
    requires ended == ReapInstance(stopping, w, request.instanceId, ExitStatus(cause), end)
    requires LeavesAlone(others, request.instanceId) && rested == After(ended, w, others)
    requires t == StartReplacement(rested, w, request.instanceId, now)
    ensures Replaced(rested, t, w, request, now)
  {
    var id := request.instanceId;
    RunOwns(w, before);
    ReplacementAsked(s, w, request, at, asked);
    StillToReplace(asked, w, between, id, stopping);
    ReplacementExits(stopping, w, id, cause, end, ended);
    StillRests(ended, w, others, id, rested);
    ReplacementAnswers(rested, w, id, now, t);
  }

  // ---- A replacement of a module that fails ----

  /** The stop that is going on ends in a rest: it was requested, the policy does not restart, or it is the tenth
      failure in five minutes. */
  predicate EndsAtRest(life: L.Life, end: int)
    requires life.pendingCause.Some?
  {
    var cause := life.pendingCause.value;
    || cause.Requested? || life.policy.Never? || (life.policy.OnFailure? && cause.CleanExit?)
    || (L.IsFailure(cause) && |L.Recorded(life.failures, end)| >= 10)
  }

  /** Once the process of a module that was stopping has ended, its replacement gets its turn exactly if that stop ends
      in a rest. Otherwise it goes on waiting, and what the backoff starts is the old request. */
  lemma ReplacementGetsItsTurnIff(s: Supervisor, w: World, id: string, cause: L.Cause, end: int, ended: Supervisor)
    requires Sane(s) && id in s.instances && s.instances[id].life.state.Stopping? && !s.shutdown
    requires s.instances[id].life.pendingCause.Some? && s.instances[id].process.Some?
    requires s.instances[id].replacement.Some? && ended == ReapInstance(s, w, id, ExitStatus(cause), end)
    ensures id in ended.instances && ended.instances[id].process.None?
    ensures ended.instances[id].replacement == s.instances[id].replacement
    ensures ended.instances[id].request == s.instances[id].request
    ensures if EndsAtRest(s.instances[id].life, end) then L.AtRest(ended.instances[id].life.state)
            else ended.instances[id].life.state.Backoff? && ended.instances[id].life.restartAt.Some?
  {
    var e := Reap(s.instances[id], cause, end);
    StopEnds(s.instances[id].life, cause, end, RemoveContexts(s.instances[id]).instance.life);
    ReapedAs(s.instances[id], cause, end, e);
    ReplacementWaits(s, w, id, end, e, ended);
  }

  lemma StopEnds(life: L.Life, cause: L.Cause, end: int, removed: L.Life)
    requires life.state.Stopping? && life.pendingCause.Some? && removed == life
    ensures var after := L.Exited(removed, cause, end).life;
      if EndsAtRest(life, end) then L.AtRest(after.state) else after.state.Backoff? && after.restartAt.Some?
  {
  }

  lemma ReapedAs(i: Instance, cause: L.Cause, end: int, e: Effect)
    requires i.process.Some? && Settled(i) && e == Reap(i, cause, end)
    ensures e.instance.life == L.Exited(RemoveContexts(i).instance.life, cause, end).life
    ensures e.instance.process.None? && e.instance.replacement == i.replacement && e.instance.request == i.request
  {
    var removed := RemoveContexts(i).instance;
    LifeApplied(removed, L.Exited(removed.life, cause, end));
  }

  lemma LifeApplied(i: Instance, moved: L.Moved)
    ensures Apply(i, moved).instance.life == moved.life && Apply(i, moved).instance.replacement == i.replacement
    ensures Apply(i, moved).instance.request == i.request
  {
    ApplyIsSilent(i, moved);
  }

  lemma ReplacementWaits(s: Supervisor, w: World, id: string, end: int, e: Effect, ended: Supervisor)
    requires e.instance.replacement.Some? && !s.shutdown && ended == HandleReaped(Put(s, id, e), w, id, end)
    requires L.AtRest(e.instance.life.state) || e.instance.life.state.Backoff?
    ensures ended == Put(s, id, e)
  {
  }

  lemma OldRequestStartsAgain(s: Supervisor, w: World, id: string, cause: L.Cause, end: int, ended: Supervisor,
      now: int, t: Supervisor)
    requires Sane(s) && id in s.instances && s.instances[id].life.state.Stopping? && !s.shutdown
    requires s.instances[id].life.pendingCause.Some? && s.instances[id].process.Some?
    requires s.instances[id].replacement.Some? && ended == ReapInstance(s, w, id, ExitStatus(cause), end)
    requires !EndsAtRest(s.instances[id].life, end) && t == AdvanceLifecycle(ended, w, id, now)
    requires id in ended.instances && ended.instances[id].life.restartAt.Some? &&
      ended.instances[id].life.restartAt.value <= now
    ensures StartReplacement(ended, w, id, end) == ended
    ensures Launched(ended, t, w, id, s.instances[id].request, now)
    ensures t.instances[id].replacement == s.instances[id].replacement
  {
    ReplacementGetsItsTurnIff(s, w, id, cause, end, ended);
    ReapInstanceIsSane(s, w, id, ExitStatus(cause), end);
    BackoffEnds(ended, w, id, now, t);
  }
}
