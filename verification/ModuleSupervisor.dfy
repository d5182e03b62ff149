/** The supervisor loop as atomic steps over all instances, and what every run of it keeps. */
module ModuleSupervisor {
  import opened Optional
  import opened ModuleLifecycle
  import opened SupervisedInstance

  const MAXIMUM_INSTANCES := 32

  /** `trace` is everything emitted so far, oldest first. */
  datatype Supervisor = Supervisor(
    instances: map<string, Instance>, pending: seq<Request>, shutdown: bool, generations: nat, trace: seq<Event>)

  const IDLE := Supervisor(map[], [], false, 0, [])

  function Emit(s: Supervisor, events: seq<Event>): Supervisor {
    s.(trace := s.trace + events)
  }

  function Put(s: Supervisor, id: string, e: Effect): Supervisor {
    s.(instances := s.instances[id := e.instance], trace := s.trace + e.events)
  }

  function Erase(s: Supervisor, id: string): Supervisor {
    s.(instances := s.instances - {id})
  }

  function ActiveIds(instances: map<string, Instance>): set<string> {
    set id | id in instances && IsActive(instances[id].life.state)
  }

  function ActiveCount(s: Supervisor): nat {
    |ActiveIds(s.instances)|
  }

  function SpawnNext(s: Supervisor, w: World, id: string, now: int): Supervisor
    requires id in s.instances
  {
    Put(s.(generations := s.generations + 1), id, Spawn(s.instances[id], w, s.generations + 1, now))
  }

  function StartExisting(s: Supervisor, w: World, id: string, now: int): Supervisor
    requires id in s.instances
  {
    var i := s.instances[id];
    if s.shutdown then Put(s, id, CompleteRestart(i, false, i.life.state))
    else if ActiveCount(s) >= MAXIMUM_INSTANCES then
      Put(Emit(s, [ErrorOf(i)]), id, CompleteRestart(i, false, i.life.state))
    else
      var moved := Start(i.life, now);
      if !moved.accepted then Put(Emit(s, [ErrorOf(i)]), id, CompleteRestart(i, false, i.life.state))
      else SpawnNext(Put(s, id, Apply(i, moved)), w, id, now)
  }

  function HandleStart(s: Supervisor, w: World, request: Request, now: int): (r: Supervisor)
    ensures r.pending == s.pending
  {
    var id := request.instanceId;
    if s.shutdown then Emit(s, [SupervisorError(id)])
    else if id in s.instances && IsActive(s.instances[id].life.state) then Emit(s, [SupervisorError(id)])
    else
      var erased := Erase(s, id);
      if ActiveCount(erased) >= MAXIMUM_INSTANCES then Emit(erased, [SupervisorError(id)])
      else
        var i := NewInstance(request);
        SpawnNext(Put(erased, id, Apply(i, Start(i.life, now))), w, id, now)
  }

  function HandleStop(s: Supervisor, w: World, id: string, now: int, restart: bool): Supervisor {
    if id !in s.instances then Emit(s, [SupervisorError(id)])
    else
      var i := s.instances[id].(restartAfterStop := s.instances[id].restartAfterStop || restart);
      if i.life.state.Stopping? then Put(s, id, Effect(i, []))
      else if i.life.state.Stopped? then
        if restart && !s.shutdown then StartExisting(Put(s, id, Effect(i, [])), w, id, now)
          else Put(s, id, Effect(i, []))
      else
        var asked := AskToStop(i, w);
        var moved := Stop(asked.instance.life, now);
        if !moved.accepted then Emit(Put(s, id, asked), [ErrorOf(i)])
        else
          var applied := Apply(asked.instance, moved);
          if applied.instance.life.state.Stopped? && applied.instance.restartAfterStop && !s.shutdown then
            StartExisting(Put(s, id,
              Effect(applied.instance.(restartAfterStop := false), asked.events + applied.events)), w, id, now)
          else Put(s, id, Effect(applied.instance, asked.events + applied.events))
  }

  function HandleRestart(s: Supervisor, w: World, id: string, token: nat, now: int): Supervisor {
    if id !in s.instances then Emit(s, [SupervisorError(id), RestartCompleted(id, token, false, Failed)])
    else
      var i := s.instances[id];
      if i.restartToken.Some? then Emit(s, [RestartCompleted(id, token, false, i.life.state)])
      else
        var reset := i.(restartToken := Some(token), life := ResetForRestart(i.life).life);
        if i.life.state.Failed? || i.life.state.Stopped? then
          StartExisting(Put(s, id, Effect(reset, [])), w, id, now)
        else if i.life.state.Backoff? then
          StartExisting(Put(s, id, Apply(reset, Stop(reset.life, now))), w, id, now)
        else HandleStop(Put(s, id, Effect(reset, [])), w, id, now, true)
  }

  function HandleSend(s: Supervisor, id: string, queued: bool, now: int): Supervisor {
    if id !in s.instances then Emit(s, [SupervisorError(id)])
    else
      var i := s.instances[id];
      if !i.life.state.Running? then Emit(s, [ErrorOf(i)])
      else if queued then s
      else Put(Emit(s, [ErrorOf(i)]), id, BeginFailure(i, Unresponsive, now))
  }

  datatype PushOutcome = Queued | Saturated | Unserializable

  /** Exactly one delivery event answers every action that is sent. */
  function HandleSendAction(s: Supervisor, id: string, generation: nat, invocation: nat, push: PushOutcome,
      now: int): Supervisor {
    if id !in s.instances then Emit(s, [ActionDelivery(id, generation, invocation, false, Some(UnknownInstance), now)])
    else
      var i := s.instances[id];
      if i.generation != generation then
        Emit(s, [ActionDelivery(id, generation, invocation, false, Some(GenerationMismatch), now)])
      else if !i.life.state.Running? || i.process.None? then
        Emit(s, [ActionDelivery(id, generation, invocation, false, Some(Unavailable), now)])
      else if push.Saturated? then
        Put(Emit(s, [ActionDelivery(id, generation, invocation, false, Some(QueueSaturated), now)]), id,
          BeginFailure(i, Unresponsive, now))
      else if push.Unserializable? then
        Emit(s, [ActionDelivery(id, generation, invocation, false, Some(SerializationFailed), now)])
      else Emit(s, [ActionDelivery(id, generation, invocation, true, None, now)])
  }

  function CancelRestart(s: Supervisor, id: string): Supervisor
    requires id in s.instances
  {
    var i := s.instances[id].(restartAfterStop := false);
    Put(s, id, CompleteRestart(i, false, i.life.state))
  }

  function Replace(s: Supervisor, id: string, replacement: Option<Request>): Supervisor
    requires id in s.instances
  {
    s.(instances := s.instances[id := s.instances[id].(replacement := replacement)])
  }

  function WithoutPending(pending: seq<Request>, id: string): seq<Request> {
    if pending == [] then []
    else if pending[0].instanceId == id then WithoutPending(pending[1..], id)
    else [pending[0]] + WithoutPending(pending[1..], id)
  }

  function ReconfigureStop(s: Supervisor, w: World, id: string, now: int): Supervisor {
    var dropped := s.(pending := WithoutPending(s.pending, id));
    if id !in s.instances then dropped
    else
      HandleStop(Replace(CancelRestart(dropped, id), id, None), w, id, now, false)
  }

  function StartReplacement(s: Supervisor, w: World, id: string, now: int): Supervisor {
    if id !in s.instances then s
    else
      var i := s.instances[id];
      if i.process.Some? || i.replacement.None? || (!i.life.state.Stopped? && !i.life.state.Failed?) then s
      else HandleStart(Erase(s, id), w, i.replacement.value, now)
  }

  /** The first pending request of that instance is replaced; otherwise the new one waits its turn. */
  function Overwritten(pending: seq<Request>, request: Request): Option<seq<Request>> {
    if pending == [] then None
    else if pending[0].instanceId == request.instanceId then Some([request] + pending[1..])
    else
      var rest := Overwritten(pending[1..], request);
      if rest.Some? then Some([pending[0]] + rest.value) else None
  }

  function QueueOrStart(s: Supervisor, w: World, request: Request, now: int): Supervisor {
    var overwritten := Overwritten(s.pending, request);
    if overwritten.Some? then s.(pending := overwritten.value)
    else if ActiveCount(s) >= MAXIMUM_INSTANCES then s.(pending := s.pending + [request])
    else HandleStart(s, w, request, now)
  }

  function ReconfigureStart(s: Supervisor, w: World, request: Request, now: int): Supervisor {
    var id := request.instanceId;
    if id !in s.instances then QueueOrStart(s, w, request, now)
    else StartReplacement(HandleStop(Replace(CancelRestart(s, id), id, Some(request)), w, id, now, false), w, id, now)
  }

  function ReconfigureStops(s: Supervisor, w: World, ids: seq<string>, now: int): Supervisor
    decreases ids
  {
    if ids == [] then s else ReconfigureStops(ReconfigureStop(s, w, ids[0], now), w, ids[1..], now)
  }

  function ReconfigureStarts(s: Supervisor, w: World, requests: seq<Request>, now: int): Supervisor
    decreases requests
  {
    if requests == [] then s else ReconfigureStarts(ReconfigureStart(s, w, requests[0], now), w, requests[1..], now)
  }

  function StopAll(s: Supervisor, w: World, ids: seq<string>, now: int): Supervisor
    decreases ids
  {
    if ids == [] then s else StopAll(HandleStop(s, w, ids[0], now, false), w, ids[1..], now)
  }

  /** `ids` lists the instances in the order of the map. */
  function GlobalShutdown(s: Supervisor, w: World, ids: seq<string>, now: int): Supervisor {
    if s.shutdown then s else StopAll(s.(shutdown := true, pending := []), w, ids, now)
  }

  function AdvanceLifecycle(s: Supervisor, w: World, id: string, now: int): Supervisor
    requires id in s.instances
  {
    var ticked := TickLife(s.instances[id], now);
    var moved := Put(s, id, ticked);
    var begins := s.instances[id].life.state.Backoff? && ticked.instance.life.state.Starting? &&
      ticked.instance.process.None?;
    var spawned := if begins then SpawnNext(moved, w, id, now) else moved;
    Put(spawned, id, SendDueSignal(spawned.instances[id], w, now))
  }

  /** Complete lines read from standard output in one go: reading ends when one of them stops the module. */
  function HandleLines(s: Supervisor, id: string, lines: seq<Line>, now: int): Supervisor
    decreases lines
  {
    if lines == [] || id !in s.instances then s
    else
      var next := Put(s, id, HandleLine(s.instances[id], lines[0], now));
      if next.instances[id].life.state.Stopping? then next else HandleLines(next, id, lines[1..], now)
  }

  /** A last line that does not fit counts as a malformed one. */
  datatype ReadOutcome = Lines(lines: seq<Line>) | Overlong | EndOfFile(last: Option<Line>) | ReadError

  function ServiceStdout(s: Supervisor, id: string, read: ReadOutcome, now: int): Supervisor {
    if id !in s.instances || s.instances[id].process.None? || s.instances[id].eofAt.Some? then s
    else match read
      case Lines(lines) => HandleLines(s, id, lines, now)
      case Overlong => Put(s, id, RecordViolation(s.instances[id], now))
      case EndOfFile(last) =>
        var ended := s.(instances := s.instances[id := s.instances[id].(eofAt := Some(now))]);
        if last.Some? then HandleLines(ended, id, [last.value], now) else ended
      case ReadError => Put(Emit(s, [ErrorOf(s.instances[id])]), id, BeginFailure(s.instances[id], IoError, now))
  }

  function ServiceStderr(s: Supervisor, id: string, line: string, truncated: bool): Supervisor {
    if id !in s.instances || s.instances[id].process.None? then s
    else Emit(s, [StderrLog(s.instances[id].request.instanceId, line, truncated)])
  }

  /** Any other pipe trouble: standard error cannot be read, standard input cannot be written. */
  function PipeFails(s: Supervisor, id: string, reported: bool, now: int): Supervisor {
    if id !in s.instances || s.instances[id].process.None? then s
    else Put(Emit(s, if reported then [ErrorOf(s.instances[id])] else []), id,
      BeginFailure(s.instances[id], IoError, now))
  }

  datatype WaitOutcome = StillRunning | ExitStatus(cause: Cause) | WaitError

  function HandleReaped(s: Supervisor, w: World, id: string, now: int): Supervisor
    requires id in s.instances
  {
    var i := s.instances[id];
    if i.replacement.Some? && i.life.state.Stopped? then s
    else if i.restartAfterStop && !s.shutdown && i.life.state.Stopped? then
      StartExisting(Put(s, id, Effect(i.(restartAfterStop := false), [])), w, id, now)
    else if s.shutdown && i.life.state.Backoff? then Put(s, id, Apply(i, Stop(i.life, now)))
    else s
  }

  function ReapInstance(s: Supervisor, w: World, id: string, wait: WaitOutcome, now: int): Supervisor {
    if id !in s.instances || s.instances[id].process.None? then s
    else
      var i := s.instances[id];
      match wait
      case WaitError => Put(Emit(s, [ErrorOf(i)]), id, BeginFailure(i, IoError, now))
      case StillRunning =>
        if i.eofAt.Some? && now - i.eofAt.value >= EOF_GRACE && (i.life.state.Starting? || i.life.state.Running?)
        then Put(s, id, BeginFailure(i, IoError, now)) else s
      case ExitStatus(cause) =>
        HandleReaped(Put(s, id, Reap(i, cause, now)), w, id, now)
  }

  /** Requests that waited for room start while there is room. */
  function StartPending(s: Supervisor, w: World, now: int): Supervisor
    decreases |s.pending|
  {
    if s.shutdown || s.pending == [] || ActiveCount(s) >= MAXIMUM_INSTANCES then s
    else StartPending(HandleStart(s.(pending := s.pending[1..]), w, s.pending[0], now), w, now)
  }
}
