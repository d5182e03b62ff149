/** The lifecycle of one supervised module process: restart policy, backoff, lockout and signal escalation. */
module ModuleLifecycle {
  import opened Optional

  const FAILURE_WINDOW := 300_000
  const FAILURE_LIMIT := 10

  datatype State = Stopped | Starting | Running | Backoff | Stopping | Failed

  datatype Cause =
    | Requested | CleanExit | FailedExit | Signalled | SpawnError | HandshakeTimeout
    | ProtocolViolation | IoError | Unresponsive

  datatype Signal = Terminate | Kill
  datatype Policy = Always | OnFailure | Never

  /** Durations in milliseconds; configuration rejects an initial backoff above the maximum. */
  datatype Timings = Timings(handshake: nat, gracefulShutdown: nat, terminateGrace: nat,
                             initialBackoff: nat, maximumBackoff: nat, healthyReset: nat)

  datatype Transition = Transition(from: State, to: State, cause: Cause, at: int)

  datatype Life = Life(
    policy: Policy, timings: Timings, state: State, nextBackoff: int,
    handshakeDeadline: Option<int>, restartAt: Option<int>, runningSince: Option<int>,
    pendingCause: Option<Cause>, pendingSignal: Option<Signal>, signalAt: Option<int>,
    failures: seq<int>)

  /** What a call returns: the new state, the transition it made, and whether it was accepted. */
  datatype Moved = Moved(life: Life, transition: Option<Transition>, accepted: bool)

  predicate IsFailure(cause: Cause) {
    !cause.Requested? && !cause.CleanExit?
  }

  predicate ShouldRestart(policy: Policy, cause: Cause) {
    !cause.Requested? && (policy.Always? || (policy.OnFailure? && IsFailure(cause)))
  }

  function Fresh(policy: Policy, timings: Timings): Life {
    Life(policy, timings, Stopped, timings.initialBackoff, None, None, None, None, None, None, [])
  }

  function Rejected(life: Life): Moved {
    Moved(life, None, false)
  }

  function Quiet(life: Life): Moved {
    Moved(life, None, true)
  }

  function To(life: Life, next: State, cause: Cause, now: int): Moved {
    Moved(life.(state := next), Some(Transition(life.state, next, cause, now)), true)
  }

  function Start(life: Life, now: int): Moved {
    if !life.state.Stopped? && !life.state.Failed? then Rejected(life)
    else To(life.(failures := if life.state.Failed? then [] else life.failures,
      nextBackoff := life.timings.initialBackoff, restartAt := None, pendingCause := None, pendingSignal := None,
      signalAt := None, handshakeDeadline := Some(now + life.timings.handshake)), Starting, Requested, now)
  }

  function Ready(life: Life, now: int): Moved {
    if !life.state.Starting? then Rejected(life)
    else To(life.(handshakeDeadline := None, runningSince := Some(now)), Running, Requested, now)
  }

  function BeginStopping(life: Life, cause: Cause, signalAt: int): Life {
    life.(pendingCause := Some(cause), pendingSignal := Some(Terminate), signalAt := Some(signalAt))
  }

  predicate Due(deadline: Option<int>, now: int) {
    deadline.Some? && deadline.value <= now
  }

  predicate Healthy(life: Life, now: int) {
    life.state.Running? && life.runningSince.Some? && now - life.runningSince.value >= life.timings.healthyReset
  }

  function ResetIfHealthy(life: Life, now: int): Life {
    if Healthy(life, now) then life.(nextBackoff := life.timings.initialBackoff) else life
  }

  function Tick(life: Life, now: int): Moved {
    if life.state.Starting? && Due(life.handshakeDeadline, now) then
      To(BeginStopping(life.(handshakeDeadline := None), HandshakeTimeout, now), Stopping, HandshakeTimeout, now)
    else if life.state.Backoff? && Due(life.restartAt, now) then
      To(life.(restartAt := None, handshakeDeadline := Some(now + life.timings.handshake)), Starting, Requested, now)
    else Quiet(ResetIfHealthy(life, now))
  }

  /** Old failures leave at the front. */
  function Dropped(failures: seq<int>, cutoff: int): (r: seq<int>)
    ensures |r| <= |failures|
  {
    if failures != [] && failures[0] < cutoff then Dropped(failures[1..], cutoff) else failures
  }

  function Recorded(failures: seq<int>, now: int): seq<int> {
    Dropped(failures, now - FAILURE_WINDOW) + [now]
  }

  /** A process that exits while it starts has failed, and one that exits while it is stopped did what it was told. */
  function EffectiveCause(life: Life, cause: Cause): Cause {
    if life.state.Stopping? && life.pendingCause.Some? then life.pendingCause.value
    else if life.state.Starting? && cause.CleanExit? then FailedExit
    else cause
  }

  function ClearProcess(life: Life): Life {
    life.(handshakeDeadline := None, runningSince := None, pendingCause := None, pendingSignal := None,
      signalAt := None)
  }

  function GrownBackoff(next: int, timings: Timings): int {
    if next >= timings.maximumBackoff / 2 then timings.maximumBackoff
    else if next * 2 < timings.maximumBackoff then next * 2 else timings.maximumBackoff
  }

  predicate HasProcess(state: State) {
    state.Starting? || state.Running? || state.Stopping?
  }

  /** The delay of the backoff that follows a failure is the old one; the next one grows. */
  function ToBackoff(life: Life, effective: Cause, now: int): Moved {
    if IsFailure(effective) then
      To(life.(restartAt := Some(now + life.nextBackoff), nextBackoff := GrownBackoff(life.nextBackoff, life.timings)),
        Backoff, effective, now)
    else
      To(life.(restartAt := Some(now + life.timings.initialBackoff), nextBackoff := life.timings.initialBackoff),
        Backoff, effective, now)
  }

  function Leave(life: Life, effective: Cause, now: int): Moved {
    var recorded := if IsFailure(effective) then life.(failures := Recorded(life.failures, now)) else life;
    if IsFailure(effective) && |recorded.failures| >= FAILURE_LIMIT then To(recorded, Failed, effective, now)
    else if !ShouldRestart(life.policy, effective) then To(recorded, Stopped, effective, now)
    else ToBackoff(recorded, effective, now)
  }

  function Exited(life: Life, cause: Cause, now: int): Moved {
    if !HasProcess(life.state) then Quiet(life)
    else Leave(ClearProcess(ResetIfHealthy(life, now)), EffectiveCause(life, cause), now)
  }

  function Stop(life: Life, now: int): Moved {
    if life.state.Starting? || life.state.Running? then
      To(BeginStopping(life, Requested, now + life.timings.gracefulShutdown), Stopping, Requested, now)
    else if life.state.Backoff? || life.state.Failed? then
      To(life.(restartAt := None, failures := [], nextBackoff := life.timings.initialBackoff), Stopped, Requested, now)
    else Rejected(life)
  }

  function Fail(life: Life, cause: Cause, now: int): Moved {
    if (!life.state.Starting? && !life.state.Running?) || !IsFailure(cause) then Rejected(life)
    else To(BeginStopping(life, cause, now), Stopping, cause, now)
  }

  function ResetForRestart(life: Life): Moved {
    Quiet(life.(failures := [], nextBackoff := life.timings.initialBackoff))
  }

  function DueSignal(life: Life, now: int): Option<Signal> {
    if life.state.Stopping? && life.pendingSignal.Some? && Due(life.signalAt, now) then life.pendingSignal else None
  }

  function SignalSent(life: Life, signal: Signal, now: int): Moved {
    if DueSignal(life, now) != Some(signal) then Rejected(life)
    else if signal.Terminate? then
      Quiet(life.(pendingSignal := Some(Kill), signalAt := Some(now + life.timings.terminateGrace)))
    else Quiet(life.(pendingSignal := None, signalAt := None))
  }

  function Earlier(a: Option<int>, b: Option<int>): Option<int> {
    if b.Some? && (a.None? || b.value < a.value) then b else a
  }

  function NextDeadline(life: Life): Option<int> {
    Earlier(Earlier(life.handshakeDeadline, life.restartAt), life.signalAt)
  }

  // ---- Runs, and what an observer of the public calls sees ----

  datatype Call =
    | CallStart | CallReady | CallTick | CallExited(cause: Cause) | CallStop | CallFail(cause: Cause)
    | CallReset | CallSignalSent(signal: Signal)

  function Step(life: Life, call: Call, now: int): Moved {
    match call
    case CallStart => Start(life, now)
    case CallReady => Ready(life, now)
    case CallTick => Tick(life, now)
    case CallExited(cause) => Exited(life, cause, now)
    case CallStop => Stop(life, now)
    case CallFail(cause) => Fail(life, cause, now)
    case CallReset => ResetForRestart(life)
    case CallSignalSent(signal) => SignalSent(life, signal, now)
  }

  /** The observer's notes: failures since they were last forgiven, and the stop in progress. */
  datatype Notes = Notes(failures: seq<int>, stopCause: Cause, stopAt: int, terminates: seq<int>, kills: seq<int>)

  const NO_NOTES := Notes([], Requested, 0, [], [])

  /** Notes are taken from transitions and accepted signals alone, never from the machine's own fields. */
  function Observe(notes: Notes, call: Call, now: int, moved: Moved): Notes {
    var forgiven := notes.(failures :=
      if call.CallReset? then []
      else if moved.transition.None? then notes.failures
      else
        var t := moved.transition.value;
        if call.CallExited? && IsFailure(t.cause) then notes.failures + [now]
        else if (call.CallStart? && t.from.Failed?) || (call.CallStop? && t.to.Stopped?) then []
        else notes.failures);
    if moved.transition.Some? && moved.transition.value.to.Stopping? then
      forgiven.(stopCause := moved.transition.value.cause, stopAt := now, terminates := [], kills := [])
    else if call.CallSignalSent? && moved.accepted then
      if call.signal.Terminate? then forgiven.(terminates := forgiven.terminates + [now])
      else forgiven.(kills := forgiven.kills + [now])
    else forgiven
  }

  datatype Observed = Observed(life: Life, notes: Notes)

  function ObservedStep(o: Observed, call: Call, now: int): Observed {
    var moved := Step(o.life, call, now);
    Observed(moved.life, Observe(o.notes, call, now, moved))
  }

  function Run(policy: Policy, timings: Timings, calls: seq<(Call, int)>): Observed {
    if calls == [] then Observed(Fresh(policy, timings), NO_NOTES)
    else
      var last := |calls| - 1;
      ObservedStep(Run(policy, timings, calls[..last]), calls[last].0, calls[last].1)
  }

  predicate NonDecreasing(calls: seq<(Call, int)>) {
    forall i, j :: 0 <= i < j < |calls| ==> calls[i].1 <= calls[j].1
  }

  // ---- The state invariant ----

  /** Which deadlines and pending facts exist in which state. */
  predicate Consistent(life: Life) {
    && (life.restartAt.Some? <==> life.state.Backoff?)
    && (life.pendingCause.Some? <==> life.state.Stopping?)
    && (life.state.Starting? ==> life.handshakeDeadline.Some?)
    && (life.runningSince.None? ==> !life.state.Running?)
    && (life.pendingSignal.Some? <==> life.signalAt.Some?)
    && (life.pendingSignal.Some? ==> life.state.Stopping?)
    && (!life.state.Failed? ==> |life.failures| < FAILURE_LIMIT)
    && |life.failures| <= FAILURE_LIMIT
    && life.timings.initialBackoff <= life.nextBackoff <= life.timings.maximumBackoff
  }

  lemma {:induction false} DroppedIsSuffix(failures: seq<int>, cutoff: int)
    ensures |Dropped(failures, cutoff)| <= |failures|
    ensures Dropped(failures, cutoff) == failures[|failures| - |Dropped(failures, cutoff)|..]
    ensures forall i :: 0 <= i < |failures| - |Dropped(failures, cutoff)| ==> failures[i] < cutoff
  {
    if failures != [] && failures[0] < cutoff {
      DroppedIsSuffix(failures[1..], cutoff);
      var n := |failures[1..]| - |Dropped(failures[1..], cutoff)|;
      assert failures[1..][n..] == failures[n + 1..];
      forall i | 0 <= i < n + 1 ensures failures[i] < cutoff {
        if i > 0 { assert failures[i] == failures[1..][i - 1]; }
      }
    }
  }

  lemma BackoffGrows(next: int, timings: Timings)
    requires timings.initialBackoff <= next <= timings.maximumBackoff
    ensures timings.initialBackoff <= GrownBackoff(next, timings) <= timings.maximumBackoff
    ensures GrownBackoff(next, timings) == 2 * next || GrownBackoff(next, timings) == timings.maximumBackoff
  {
  }

  lemma LeaveKeepsConsistent(life: Life, effective: Cause, now: int)
    requires HasProcess(life.state) && life.restartAt.None? && life.pendingCause.None? && life.pendingSignal.None? &&
      life.signalAt.None?
    requires |life.failures| < FAILURE_LIMIT
    requires life.timings.initialBackoff <= life.nextBackoff <= life.timings.maximumBackoff
    ensures Consistent(Leave(life, effective, now).life)
    ensures Leave(life, effective, now).life.timings == life.timings &&
      Leave(life, effective, now).life.policy == life.policy
  {
    BackoffGrows(life.nextBackoff, life.timings);
    assert |Recorded(life.failures, now)| <= FAILURE_LIMIT;
  }

  /** Every call keeps the state invariant. */
  lemma StepKeepsConsistent(life: Life, call: Call, now: int)
    requires Consistent(life)
    ensures Consistent(Step(life, call, now).life)
    ensures Step(life, call, now).life.timings == life.timings && Step(life, call, now).life.policy == life.policy
  {
    if call.CallExited? && HasProcess(life.state) {
      LeaveKeepsConsistent(ClearProcess(ResetIfHealthy(life, now)), EffectiveCause(life, call.cause), now);
    }
  }

  lemma {:induction false} RunIsConsistent(policy: Policy, timings: Timings, calls: seq<(Call, int)>)
    requires timings.initialBackoff <= timings.maximumBackoff
    ensures Consistent(Run(policy, timings, calls).life)
    ensures Run(policy, timings, calls).life.timings == timings && Run(policy, timings, calls).life.policy == policy
  {
    if calls != [] {
      var last := |calls| - 1;
      RunIsConsistent(policy, timings, calls[..last]);
      StepKeepsConsistent(Run(policy, timings, calls[..last]).life, calls[last].0, calls[last].1);
    }
  }

  // ---- Failures ----

  /** The failures of a history that lie in the window ending at its last one. */
  function Recent(history: seq<int>): seq<int> {
    if history == [] then [] else Dropped(history, history[|history| - 1] - FAILURE_WINDOW)
  }

  predicate Ascending(values: seq<int>) {
    forall i, j :: 0 <= i < j < |values| ==> values[i] <= values[j]
  }

  /** On ordered histories the window is exactly the entries not before it. */
  lemma RecentIsWindow(history: seq<int>, i: nat)
    requires Ascending(history) && i < |history|
    ensures history[i] >= history[|history| - 1] - FAILURE_WINDOW <==> i >= |history| - |Recent(history)|
    ensures Recent(history) == history[|history| - |Recent(history)|..]
  {
    var cutoff := history[|history| - 1] - FAILURE_WINDOW;
    DroppedIsSuffix(history, cutoff);
    DroppedKeepsRecent(history, cutoff);
  }

  lemma {:induction false} DroppedKeepsRecent(history: seq<int>, cutoff: int)
    requires Ascending(history)
    ensures forall i :: 0 <= i < |Dropped(history, cutoff)| ==> cutoff <= Dropped(history, cutoff)[i]
  {
    if history != [] && history[0] < cutoff {
      DroppedKeepsRecent(history[1..], cutoff);
    }
  }

  /** Dropping by a later cutoff what an earlier cutoff already shortened is dropping once. */
  lemma {:induction false} DroppedTwice(history: seq<int>, earlier: int, later: int)
    requires earlier <= later
    ensures Dropped(Dropped(history, earlier), later) == Dropped(history, later)
  {
    if history != [] && history[0] < earlier { DroppedTwice(history[1..], earlier, later); }
  }

  lemma {:induction false} DroppedAppends(history: seq<int>, cutoff: int, value: int)
    requires cutoff <= value
    ensures Dropped(history + [value], cutoff) == Dropped(history, cutoff) + [value]
  {
    if history != [] && history[0] < cutoff {
      assert (history + [value])[1..] == history[1..] + [value];
      DroppedAppends(history[1..], cutoff, value);
    }
  }

  lemma RecentAppends(history: seq<int>, now: int)
    requires history != [] ==> history[|history| - 1] <= now
    ensures Recent(history + [now]) == Recorded(Recent(history), now)
  {
    DroppedAppends(history, now - FAILURE_WINDOW, now);
    if history != [] { DroppedTwice(history, history[|history| - 1] - FAILURE_WINDOW, now - FAILURE_WINDOW); }
  }

  // ---- Signals ----

  /** A requested stop leaves the process the graceful delay to end by itself. */
  function FirstSignalAt(notes: Notes, timings: Timings): int {
    notes.stopAt + (if notes.stopCause.Requested? then timings.gracefulShutdown else 0)
  }

  /** What the notes of the stop in progress say about the signal still to come. */
  predicate SignalsInOrder(life: Life, notes: Notes) {
    && |notes.terminates| <= 1 && |notes.kills| <= 1
    && (notes.terminates != [] ==> FirstSignalAt(notes, life.timings) <= notes.terminates[0])
    && (notes.kills != [] ==>
      notes.terminates != [] && notes.terminates[0] + life.timings.terminateGrace <= notes.kills[0])
    && (life.state.Stopping? ==>
          && life.pendingCause == Some(notes.stopCause)
          && (life.pendingSignal == Some(Terminate) ==>
                && notes.terminates == [] && notes.kills == []
                && life.signalAt.Some? && FirstSignalAt(notes, life.timings) <= life.signalAt.value)
          && (life.pendingSignal == Some(Kill) ==>
                && |notes.terminates| == 1 && notes.kills == []
                && life.signalAt == Some(notes.terminates[0] + life.timings.terminateGrace))
          && (life.pendingSignal.None? ==> |notes.terminates| == 1 && |notes.kills| == 1))
  }

  predicate FailuresRecent(o: Observed, now: int) {
    && o.life.failures == Recent(o.notes.failures)
    && Ascending(o.notes.failures)
    && (o.notes.failures != [] ==> o.notes.failures[|o.notes.failures| - 1] <= now)
  }

  lemma LeaveRecords(life: Life, effective: Cause, now: int)
    ensures Leave(life, effective, now).transition.Some?
    ensures Leave(life, effective, now).transition.value.cause == effective
    ensures Leave(life, effective, now).life.failures == if IsFailure(effective) then Recorded(life.failures, now)
      else life.failures
  {
  }

  /** The list and the history stay, grow or are cleared together. */
  predicate Together(failures: seq<int>, history: seq<int>, failuresAfter: seq<int>, historyAfter: seq<int>, now: int) {
    || (failuresAfter == failures && historyAfter == history)
    || (failuresAfter == Recorded(failures, now) && historyAfter == history + [now])
    || (failuresAfter == [] && historyAfter == [])
  }

  lemma ExitTogether(o: Observed, cause: Cause, now: int)
    ensures var after := ObservedStep(o, CallExited(cause), now);
      Together(o.life.failures, o.notes.failures, after.life.failures, after.notes.failures, now)
  {
    if HasProcess(o.life.state) {
      LeaveRecords(ClearProcess(ResetIfHealthy(o.life, now)), EffectiveCause(o.life, cause), now);
    }
  }

  lemma StepTogether(o: Observed, call: Call, now: int)
    ensures var after := ObservedStep(o, call, now);
      Together(o.life.failures, o.notes.failures, after.life.failures, after.notes.failures, now)
  {
    if call.CallExited? { ExitTogether(o, call.cause, now); }
  }

  lemma StepKeepsFailures(o: Observed, call: Call, before: int, now: int)
    requires FailuresRecent(o, before) && before <= now
    ensures FailuresRecent(ObservedStep(o, call, now), now)
  {
    StepTogether(o, call, now);
    RecentAppends(o.notes.failures, now);
  }

  lemma StepKeepsSignals(o: Observed, call: Call, now: int)
    requires Consistent(o.life) && SignalsInOrder(o.life, o.notes)
    ensures SignalsInOrder(Step(o.life, call, now).life, Observe(o.notes, call, now, Step(o.life, call, now)))
  {
  }

  function LastTime(calls: seq<(Call, int)>): int {
    if calls == [] then 0 else calls[|calls| - 1].1
  }

  /** On every run with non-decreasing times the failure list is the last five minutes of the observed history, and
      each stop sends its signals in order. */
  lemma {:induction false} RunObserves(policy: Policy, timings: Timings, calls: seq<(Call, int)>)
    requires timings.initialBackoff <= timings.maximumBackoff && NonDecreasing(calls)
    ensures FailuresRecent(Run(policy, timings, calls), LastTime(calls))
    ensures SignalsInOrder(Run(policy, timings, calls).life, Run(policy, timings, calls).notes)
  {
    if calls != [] {
      var last := |calls| - 1;
      var before := Run(policy, timings, calls[..last]);
      RunObserves(policy, timings, calls[..last]);
      RunIsConsistent(policy, timings, calls[..last]);
      if last == 0 { assert before.notes.failures == []; }
      StepKeepsFailures(before, calls[last].0, if last == 0 then calls[last].1
        else LastTime(calls[..last]), calls[last].1);
      StepKeepsSignals(before, calls[last].0, calls[last].1);
    }
  }

  lemma LeaveLocksOut(life: Life, effective: Cause, now: int)
    requires !life.state.Failed?
    ensures Leave(life, effective, now).life.state.Failed? <==>
      IsFailure(effective) && |Recorded(life.failures, now)| >= FAILURE_LIMIT
  {
  }

  /** Lockout happens exactly at the tenth failure of the window. */
  lemma LocksOutAtTenth(policy: Policy, timings: Timings, calls: seq<(Call, int)>, cause: Cause, now: int)
    requires timings.initialBackoff <= timings.maximumBackoff && NonDecreasing(calls)
    requires calls != [] && calls[|calls| - 1].1 <= now
    requires HasProcess(Run(policy, timings, calls).life.state)
    ensures var before := Run(policy, timings, calls);
      Exited(before.life, cause, now).life.state.Failed? <==>
        IsFailure(EffectiveCause(before.life, cause)) && |Recent(before.notes.failures + [now])| == FAILURE_LIMIT
  {
    var before := Run(policy, timings, calls);
    RunIsConsistent(policy, timings, calls);
    RunObserves(policy, timings, calls);
    RecentAppends(before.notes.failures, now);
    LeaveLocksOut(ClearProcess(ResetIfHealthy(before.life, now)), EffectiveCause(before.life, cause), now);
    assert |Recorded(before.life.failures, now)| <= FAILURE_LIMIT;
  }

  // ---- A requested stop ----

  predicate NoStart(calls: seq<(Call, int)>) {
    forall i :: 0 <= i < |calls| ==> !calls[i].0.CallStart?
  }

  function RunFrom(life: Life, calls: seq<(Call, int)>): Life
    decreases calls
  {
    if calls == [] then life else RunFrom(Step(life, calls[0].0, calls[0].1).life, calls[1..])
  }

  predicate StoppingOnRequest(life: Life) {
    life.state.Stopping? && life.pendingCause == Some(Requested)
  }

  /** A requested stop is final: however the process dies and whatever else is called, nothing but another start
      brings the module back. */
  lemma {:induction false} RequestedStopHolds(life: Life, calls: seq<(Call, int)>)
    requires StoppingOnRequest(life) || life.state.Stopped?
    requires NoStart(calls)
    ensures StoppingOnRequest(RunFrom(life, calls)) || RunFrom(life, calls).state.Stopped?
    decreases calls
  {
    if calls != [] {
      assert !calls[0].0.CallStart?;
      RequestedStopHolds(Step(life, calls[0].0, calls[0].1).life, calls[1..]);
    }
  }

  lemma StopRequests(life: Life, now: int)
    requires life.state.Starting? || life.state.Running?
    ensures Stop(life, now).accepted && StoppingOnRequest(Stop(life, now).life)
    ensures forall signal, t :: SignalSent(Stop(life, now).life, signal, t).accepted ==>
      signal.Terminate? && now + life.timings.gracefulShutdown <= t
  {
  }

  /** A stop for a failure may go on to a restart: in that state a further stop request is refused. */
  lemma FailureStopIgnoresRequest(life: Life, now: int, cause: Cause, at: int)
    requires Consistent(life) && life.state.Stopping? && IsFailure(life.pendingCause.value)
    ensures !Stop(life, now).accepted && Stop(life, now).life == life
    ensures Exited(life, cause, at).life.state.Backoff? <==>
      |Recorded(life.failures, at)| < FAILURE_LIMIT && !life.policy.Never?
  {
  }

  // ---- What is told ----

  predicate Live(state: State) {
    state.Starting? || state.Running?
  }

  predicate AtRest(state: State) {
    state.Stopped? || state.Failed?
  }

  /** The transitions each call can make. */
  predicate InTable(call: Call, t: Transition) {
    match call
    case CallStart => AtRest(t.from) && t.to.Starting? && t.cause.Requested?
    case CallReady => t.from.Starting? && t.to.Running? && t.cause.Requested?
    case CallTick =>
      || (t.from.Starting? && t.to.Stopping? && t.cause.HandshakeTimeout?)
      || (t.from.Backoff? && t.to.Starting? && t.cause.Requested?)
    case CallExited(_) => (Live(t.from) || t.from.Stopping?) && (AtRest(t.to) || t.to.Backoff?)
    case CallStop =>
      && t.cause.Requested?
      && if Live(t.from) then t.to.Stopping? else (t.from.Backoff? || t.from.Failed?) && t.to.Stopped?
    case CallFail(cause) => Live(t.from) && t.to.Stopping? && t.cause == cause && !cause.Requested? && !cause.CleanExit?
    case CallReset => false
    case CallSignalSent(_) => false
  }

  /** The cause an exit is told with: the exit itself for a running module, the reason it was stopped for for a stopping
      one, and for a starting one a clean exit counts as a failed one. */
  predicate CauseTold(life: Life, cause: Cause, told: Cause) {
    && (life.state.Running? ==> told == cause)
    && (life.state.Stopping? && life.pendingCause.Some? ==> told == life.pendingCause.value)
    && (life.state.Starting? ==> told == if cause.CleanExit? then FailedExit else cause)
  }

  /** Every change of state is told, with the time of the call, and is one that the call can make; a call that is
      refused changes nothing. */
  lemma StepIsInTable(life: Life, call: Call, now: int)
    ensures var moved := Step(life, call, now);
      && (moved.transition.None? ==> moved.life.state == life.state)
      && (moved.transition.Some? ==>
            && moved.accepted && InTable(call, moved.transition.value) && moved.transition.value.at == now
            && moved.transition.value.from == life.state && moved.transition.value.to == moved.life.state)
      && (call.CallExited? && moved.transition.Some? ==> CauseTold(life, call.cause, moved.transition.value.cause))
      && (!moved.accepted ==> moved.life == life)
  {
    if call.CallExited? && HasProcess(life.state) {
      LeaveRecords(ClearProcess(ResetIfHealthy(life, now)), EffectiveCause(life, call.cause), now);
    }
  }

  /** Which calls are accepted: starts at rest, a ready while starting, a stop unless stopped or stopping, a failure
      while live. */
  lemma AcceptedIff(life: Life, call: Call, now: int)
    ensures call.CallStart? ==> (Step(life, call, now).accepted <==> AtRest(life.state))
    ensures call.CallReady? ==> (Step(life, call, now).accepted <==> life.state.Starting?)
    ensures call.CallStop? ==> (Step(life, call, now).accepted <==> !life.state.Stopped? && !life.state.Stopping?)
    ensures call.CallFail? ==>
      (Step(life, call, now).accepted <==> Live(life.state) && !call.cause.Requested? && !call.cause.CleanExit?)
  {
  }

  /** Everything told on a run, in order. */
  function Told(policy: Policy, timings: Timings, calls: seq<(Call, int)>): seq<Transition> {
    if calls == [] then []
    else
      var last := |calls| - 1;
      var moved := Step(Run(policy, timings, calls[..last]).life, calls[last].0, calls[last].1);
      Told(policy, timings, calls[..last]) + if moved.transition.Some? then [moved.transition.value] else []
  }

  /** Each transition starts where the one before ended, the first from stopped. */
  predicate Chained(told: seq<Transition>) {
    && (told != [] ==> told[0].from.Stopped?)
    && forall i :: 0 < i < |told| ==> told[i].from == told[i - 1].to
  }

  /** The state and the times it depends on, from the last transition told alone. */
  predicate FollowsFrom(life: Life, last: Option<Transition>) {
    && life.state == (if last.None? then Stopped else last.value.to)
    && (life.state.Starting? ==> last.Some? && life.handshakeDeadline == Some(last.value.at + life.timings.handshake))
    && (life.handshakeDeadline.Some? ==> life.state.Starting? || life.state.Stopping?)
    && (life.state.Running? ==> last.Some? && life.runningSince == Some(last.value.at))
    && (life.runningSince.Some? ==> life.state.Running? || life.state.Stopping?)
    && (life.state.Stopping? ==> last.Some? && life.pendingCause == Some(last.value.cause))
    && (life.state.Backoff? ==>
          && last.Some? && life.restartAt.Some?
          && last.value.at + life.timings.initialBackoff <= life.restartAt.value
          && life.restartAt.value <= last.value.at + life.timings.maximumBackoff)
  }

  function LastOf(told: seq<Transition>): Option<Transition> {
    if told == [] then None else Some(told[|told| - 1])
  }

  lemma StepFollows(life: Life, last: Option<Transition>, call: Call, now: int, moved: Moved)
    requires Consistent(life) && FollowsFrom(life, last) && moved == Step(life, call, now)
    ensures FollowsFrom(moved.life, if moved.transition.Some? then moved.transition else last)
  {
    if call.CallExited? && HasProcess(life.state) { ExitFollows(life, last, call.cause, now, moved); }
  }

  lemma ExitFollows(life: Life, last: Option<Transition>, cause: Cause, now: int, moved: Moved)
    requires Consistent(life) && HasProcess(life.state) && moved == Exited(life, cause, now)
    ensures moved.transition.Some? && FollowsFrom(moved.life, moved.transition)
  {
    BackoffGrows(life.nextBackoff, life.timings);
  }

  /** What is told tells all: on every run the transitions form a chain, and from the last of them follow the state, how
      long the module may still start, since when it runs, why it stops and when it starts again. */
  lemma {:induction false} RunFollows(policy: Policy, timings: Timings, calls: seq<(Call, int)>)
    requires timings.initialBackoff <= timings.maximumBackoff
    ensures Chained(Told(policy, timings, calls))
    ensures FollowsFrom(Run(policy, timings, calls).life, LastOf(Told(policy, timings, calls)))
  {
    if calls != [] {
      var last := |calls| - 1;
      var before := Run(policy, timings, calls[..last]).life;
      RunFollows(policy, timings, calls[..last]);
      RunIsConsistent(policy, timings, calls[..last]);
      StepIsInTable(before, calls[last].0, calls[last].1);
      StepFollows(before, LastOf(Told(policy, timings, calls[..last])), calls[last].0, calls[last].1,
        Step(before, calls[last].0, calls[last].1));
    }
  }

  // ---- Deadlines ----

  /** The next deadline is the least of those that are set. */
  lemma NextDeadlineIsLeast(life: Life)
    ensures var next, all := NextDeadline(life), [life.handshakeDeadline, life.restartAt, life.signalAt];
      && (next.None? <==> forall d :: d in all ==> d.None?)
      && (next.Some? ==> next in all && forall d: Option<int> :: d in all && d.Some? ==> next.value <= d.value)
  {
    var all := [life.handshakeDeadline, life.restartAt, life.signalAt];
    assert all[0] in all && all[1] in all && all[2] in all;
    assert forall d :: d in all ==> d == all[0] || d == all[1] || d == all[2];
  }

  /** In the states that wait for a deadline, ticking moves on exactly from that deadline, and the next deadline
      reported is never later than it. */
  lemma TickMovesAtDeadline(life: Life, now: int)
    requires Consistent(life)
    ensures Tick(life, now).transition.Some? <==>
      (life.state.Starting? && life.handshakeDeadline.value <= now) ||
        (life.state.Backoff? && life.restartAt.value <= now)
    ensures life.state.Starting? ==>
      NextDeadline(life).Some? && NextDeadline(life).value <= life.handshakeDeadline.value
    ensures life.state.Backoff? ==> NextDeadline(life).Some? && NextDeadline(life).value <= life.restartAt.value
    ensures life.pendingSignal.Some? ==> NextDeadline(life).Some? && NextDeadline(life).value <= life.signalAt.value
    ensures forall signal :: SignalSent(life, signal, now).accepted <==> DueSignal(life, now) == Some(signal)
  {
  }

  /** Where an exit leads that does not lock the module out, by the policy and the cause that counts. */
  predicate ExitLeads(life: Life, after: State, counts: Cause) {
    && (after.Backoff? <==>
          !counts.Requested? && (life.policy.Always? || (life.policy.OnFailure? && !counts.CleanExit?)))
    && (after.Backoff? || after.Stopped?)
  }

  /** The restart policy, for every exit short of a lockout: what counts is the exit itself for a running module, the
      reason it was stopped for for a stopping one, and for a starting one any exit on its own is a failed one. */
  lemma ExitFollowsPolicy(life: Life, cause: Cause, now: int)
    requires Consistent(life) && HasProcess(life.state) && !Exited(life, cause, now).life.state.Failed?
    ensures var after := Exited(life, cause, now).life.state;
      && (life.state.Running? ==> ExitLeads(life, after, cause))
      && (life.state.Stopping? ==> ExitLeads(life, after, life.pendingCause.value))
      && (life.state.Starting? && !cause.CleanExit? ==> ExitLeads(life, after, cause))
      && (life.state.Starting? && cause.CleanExit? ==> (after.Backoff? <==> !life.policy.Never?)
                                                       && (after.Backoff? || after.Stopped?))
  {
  }

  /** A failed exit that goes to backoff waits for the old delay and doubles it, or sets it to the maximum. */
  lemma BackoffDoubles(life: Life, cause: Cause, now: int)
    requires Consistent(life) && Exited(life, cause, now).life.state.Backoff? && HasProcess(life.state)
    ensures var after := Exited(life, cause, now).life;
      var healthy := life.state.Running? && now - life.runningSince.value >= life.timings.healthyReset;
      var delay := if healthy then life.timings.initialBackoff else life.nextBackoff;
      if IsFailure(EffectiveCause(life, cause)) then
        && after.restartAt == Some(now + delay)
        && after.nextBackoff == if delay < life.timings.maximumBackoff / 2 then 2 * delay
          else life.timings.maximumBackoff
      else
        && after.restartAt == Some(now + life.timings.initialBackoff)
        && after.nextBackoff == life.timings.initialBackoff
  {
  }

  // ---- The object ----

  /** The machine as it is kept: fields updated by its calls. */
  class Lifecycle {
    const policy: Policy
    const timings: Timings
    var state: State
    var nextBackoff: int
    var handshakeDeadline: Option<int>
    var restartAt: Option<int>
    var runningSince: Option<int>
    var pendingCause: Option<Cause>
    var pendingSignal: Option<Signal>
    var signalAt: Option<int>
    var failures: seq<int>

    constructor (policy: Policy, timings: Timings)
      ensures Value() == Fresh(policy, timings)
    {
      this.policy, this.timings := policy, timings;
      state, nextBackoff := Stopped, timings.initialBackoff;
      handshakeDeadline, restartAt, runningSince := None, None, None;
      pendingCause, pendingSignal, signalAt, failures := None, None, None, [];
    }

    function Value(): Life
      reads this
    {
      Life(policy, timings, state, nextBackoff, handshakeDeadline, restartAt, runningSince, pendingCause, pendingSignal,
        signalAt, failures)
    }

    method TransitionTo(next: State, cause: Cause, now: int) returns (transition: Transition)
      modifies this`state
      ensures state == next && transition == Transition(old(state), next, cause, now)
    {
      transition := Transition(state, next, cause, now);
      state := next;
    }

    method Begin(now: int) returns (r: Option<Transition>)
      modifies this
      ensures Value() == Start(old(Value()), now).life && r == Start(old(Value()), now).transition
    {
      if !state.Stopped? && !state.Failed? { return None; }
      if state.Failed? { failures := []; }
      nextBackoff, restartAt, pendingCause, pendingSignal, signalAt := timings.initialBackoff, None, None, None, None;
      handshakeDeadline := Some(now + timings.handshake);
      var t := TransitionTo(Starting, Requested, now);
      r := Some(t);
    }

    method BecomeReady(now: int) returns (r: Option<Transition>)
      modifies this
      ensures Value() == Ready(old(Value()), now).life && r == Ready(old(Value()), now).transition
    {
      if !state.Starting? { return None; }
      handshakeDeadline, runningSince := None, Some(now);
      var t := TransitionTo(Running, Requested, now);
      r := Some(t);
    }

    method BeginToStop(cause: Cause, at: int)
      modifies this
      ensures Value() == BeginStopping(old(Value()), cause, at)
    {
      pendingCause, pendingSignal, signalAt := Some(cause), Some(Terminate), Some(at);
    }

    method Advance(now: int) returns (r: Option<Transition>)
      modifies this
      ensures Value() == Tick(old(Value()), now).life && r == Tick(old(Value()), now).transition
    {
      if state.Starting? && Due(handshakeDeadline, now) {
        handshakeDeadline := None;
        var t := TransitionTo(Stopping, HandshakeTimeout, now);
        BeginToStop(HandshakeTimeout, now);
        return Some(t);
      }
      if state.Backoff? && Due(restartAt, now) {
        restartAt, handshakeDeadline := None, Some(now + timings.handshake);
        var t := TransitionTo(Starting, Requested, now);
        return Some(t);
      }
      if Healthy(Value(), now) { nextBackoff := timings.initialBackoff; }
      r := None;
    }

    /** Failures older than the window leave at the front; the new one joins at the back. */
    method RecordFailure(now: int) returns (locked: bool)
      modifies this`failures
      ensures failures == Recorded(old(failures), now)
      ensures locked == (|failures| >= FAILURE_LIMIT)
    {
      var cutoff := now - FAILURE_WINDOW;
      while failures != [] && failures[0] < cutoff
        invariant Dropped(failures, cutoff) == Dropped(old(failures), cutoff)
        decreases |failures|
      {
        failures := failures[1..];
      }
      failures := failures + [now];
      locked := |failures| >= FAILURE_LIMIT;
    }

    method ClearProcessState()
      modifies this
      ensures Value() == ClearProcess(old(Value()))
    {
      handshakeDeadline, runningSince, pendingCause, pendingSignal, signalAt := None, None, None, None, None;
    }

    method LeaveProcess(effective: Cause, now: int) returns (r: Option<Transition>)
      modifies this
      ensures Value() == Leave(old(Value()), effective, now).life && r == Leave(old(Value()), effective, now).transition
    {
      if IsFailure(effective) {
        var locked := RecordFailure(now);
        if locked {
          var t := TransitionTo(Failed, effective, now);
          return Some(t);
        }
      }
      if !ShouldRestart(policy, effective) {
        var t := TransitionTo(Stopped, effective, now);
        return Some(t);
      }
      restartAt := Some(now + (if IsFailure(effective) then nextBackoff else timings.initialBackoff));
      nextBackoff := if IsFailure(effective) then GrownBackoff(nextBackoff, timings) else timings.initialBackoff;
      var t := TransitionTo(Backoff, effective, now);
      r := Some(t);
    }

    method ProcessExited(cause: Cause, now: int) returns (r: Option<Transition>)
      modifies this
      ensures Value() == Exited(old(Value()), cause, now).life && r == Exited(old(Value()), cause, now).transition
    {
      if !HasProcess(state) { return None; }
      if Healthy(Value(), now) { nextBackoff := timings.initialBackoff; }
      var effective := EffectiveCause(Value(), cause);
      ClearProcessState();
      r := LeaveProcess(effective, now);
    }

    method RequestStop(now: int) returns (r: Option<Transition>)
      modifies this
      ensures Value() == Stop(old(Value()), now).life && r == Stop(old(Value()), now).transition
    {
      if state.Starting? || state.Running? {
        var t := TransitionTo(Stopping, Requested, now);
        BeginToStop(Requested, now + timings.gracefulShutdown);
        return Some(t);
      }
      if state.Backoff? || state.Failed? {
        restartAt, failures, nextBackoff := None, [], timings.initialBackoff;
        var t := TransitionTo(Stopped, Requested, now);
        return Some(t);
      }
      r := None;
    }

    method RequestFailure(cause: Cause, now: int) returns (r: Option<Transition>)
      modifies this
      ensures Value() == Fail(old(Value()), cause, now).life && r == Fail(old(Value()), cause, now).transition
    {
      if (!state.Starting? && !state.Running?) || !IsFailure(cause) { return None; }
      var t := TransitionTo(Stopping, cause, now);
      BeginToStop(cause, now);
      r := Some(t);
    }

    method Forgive()
      modifies this
      ensures Value() == ResetForRestart(old(Value())).life
    {
      failures, nextBackoff := [], timings.initialBackoff;
    }

    method AcceptSignal(signal: Signal, now: int) returns (accepted: bool)
      modifies this
      ensures Value() == SignalSent(old(Value()), signal, now).life &&
        accepted == SignalSent(old(Value()), signal, now).accepted
    {
      if !state.Stopping? || pendingSignal != Some(signal) || !Due(signalAt, now) { return false; }
      if signal.Terminate? {
        pendingSignal, signalAt := Some(Kill), Some(now + timings.terminateGrace);
      } else {
        pendingSignal, signalAt := None, None;
      }
      accepted := true;
    }
  }
}
