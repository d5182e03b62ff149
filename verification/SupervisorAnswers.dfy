/** Action results on every run of the supervisor: the delivery event of an action stands before every message that
    answers it. */
module SupervisorAnswers {
  import opened Optional
  import opened SupervisedInstance
  import opened ModuleSupervisor
  import opened SupervisorInvariant
  import opened SupervisorRuns
  import opened SupervisorGrowth

  /** Only reading standard output brings answers. */
  lemma OthersGrow(s: Supervisor, w: World, step: Step, now: int)
    requires !step.StdoutStep?
    ensures Grows(s, Take(s, w, step, now))
  {
    match step
    case StartCommand(request) => HandleStartGrows(s, w, request, now);
    case StopCommand(id) => HandleStopGrows(s, w, id, now, false);
    case RestartCommand(id, token) => HandleRestartGrows(s, w, id, token, now);
    case SendCommand(id, queued) => SendGrows(s, id, queued, now);
    case SendActionCommand(id, generation, invocation, push) =>
      SendActionGrows(s, id, generation, invocation, push, now);
    case ReconfigureStopCommand(id) => ReconfigureStopGrows(s, w, id, now);
    case ReconfigureStartCommand(request) => ReconfigureStartGrows(s, w, request, now);
    case ShutdownCommand(ids) => StopAllGrows(s.(shutdown := true, pending := []), w, ids, now);
    case AdvanceStep(id) => if id in s.instances { AdvanceGrows(s, w, id, now); }
    case StderrStep(_, _, _) =>
    case PipeStep(id, reported) => PipeGrows(s, id, reported, now);
    case ReapStep(id, wait) => ReapInstanceGrows(s, w, id, wait, now);
    case ReplacementStep(id) => StartReplacementGrows(s, w, id, now);
    case PendingStep => StartPendingGrows(s, w, now);
  }

  // ---- Runs ----

  /** The supervisor queues the action for that process and says so in a delivery event. */
  predicate Sends(s: Supervisor, step: Step, id: string, g: nat, n: nat) {
    && step == SendActionCommand(id, g, n, Queued) && id in s.instances
    && s.instances[id].generation == g && s.instances[id].life.state.Running? && s.instances[id].process.Some?
  }

  ghost predicate SentBefore(w: World, steps: seq<(Step, int)>, k: nat, id: string, g: nat, n: nat)
    requires k <= |steps|
  {
    exists j :: 0 <= j < k && Sends(Run(w, steps[..j]), steps[j].0, id, g, n)
  }

  /** Whatever invocations the lines that are read next answer have been sent to that process. */
  ghost predicate CausalAt(w: World, steps: seq<(Step, int)>, k: nat)
    requires k < |steps|
  {
    var s, step := Run(w, steps[..k]), steps[k].0;
    step.StdoutStep? && step.id in s.instances ==>
      forall l :: 0 <= l < |LinesOf(step.read)| ==>
        var line := LinesOf(step.read)[l];
        line.OtherLine? && line.answer.Some? && line.answer.value.invocation.Some? ==>
          SentBefore(w, steps, k, step.id, s.instances[step.id].generation, line.answer.value.invocation.value)
  }

  /** No module answers an invocation before it is sent. This is all that is asked of the modules. */
  ghost predicate Causal(w: World, steps: seq<(Step, int)>) {
    forall k :: 0 <= k < |steps| ==> CausalAt(w, steps, k)
  }

  /** The accepted delivery of the action that the message answers. */
  predicate Delivers(delivery: Event, message: Event)
    requires Answering(message)
  {
    && delivery.ActionDelivery? && delivery.accepted && delivery.instanceId == message.instanceId
    && delivery.target == message.generation && Some(delivery.invocation) == message.answer.value.invocation
  }

  predicate Heralded(trace: seq<Event>, p: nat)
    requires p < |trace|
  {
    Answering(trace[p]) ==> exists q :: 0 <= q < p && Delivers(trace[q], trace[p])
  }

  lemma TakeExtends(s: Supervisor, w: World, step: Step, now: int)
    requires Sane(s)
    ensures Extends(s, Take(s, w, step, now))
  {
    if !step.StdoutStep? {
      OthersGrow(s, w, step, now);
    } else if step.id in s.instances {
      StdoutSays(s, step.id, step.read, now);
    }
  }

  lemma {:induction false} RunExtends(w: World, steps: seq<(Step, int)>, j: nat)
    requires j <= |steps|
    ensures Extends(Run(w, steps[..j]), Run(w, steps))
    decreases |steps| - j
  {
    if j == |steps| {
      assert steps[..j] == steps;
    } else {
      RunIsSane(w, steps[..j]);
      TakeExtends(Run(w, steps[..j]), w, steps[j].0, steps[j].1);
      RunStep(w, steps[..j], steps[j].0, steps[j].1);
      assert steps[..j + 1] == steps[..j] + [(steps[j].0, steps[j].1)];
      RunExtends(w, steps, j + 1);
    }
  }

  lemma SendTells(s: Supervisor, w: World, step: Step, now: int, id: string, g: nat, n: nat)
    requires Sends(s, step, id, g, n)
    ensures Take(s, w, step, now).trace == s.trace + [ActionDelivery(id, g, n, true, None, now)]
  {
  }

  /** A sent action has its delivery event in the trace from then on. */
  lemma SentIsTold(w: World, steps: seq<(Step, int)>, j: nat, id: string, g: nat, n: nat)
    requires j < |steps| && Sends(Run(w, steps[..j]), steps[j].0, id, g, n)
    ensures ActionDelivery(id, g, n, true, None, steps[j].1) in Run(w, steps).trace
  {
    var s, now := Run(w, steps[..j]), steps[j].1;
    SendTells(s, w, steps[j].0, now, id, g, n);
    RunStep(w, steps[..j], steps[j].0, now);
    assert steps[..j + 1] == steps[..j] + [(steps[j].0, now)];
    RunExtends(w, steps, j + 1);
    assert Run(w, steps).trace[|s.trace|] == ActionDelivery(id, g, n, true, None, now);
  }

  lemma CausalPrefix(w: World, steps: seq<(Step, int)>, n: nat)
    requires Causal(w, steps) && n <= |steps|
    ensures Causal(w, steps[..n])
  {
    forall k | 0 <= k < n ensures CausalAt(w, steps[..n], k) {
      assert CausalAt(w, steps, k) && steps[..n][..k] == steps[..k];
      SentInPrefix(w, steps, n, k);
    }
  }

  lemma SentInPrefix(w: World, steps: seq<(Step, int)>, n: nat, k: nat)
    requires k <= n <= |steps|
    ensures forall id, g, i :: SentBefore(w, steps, k, id, g, i) ==> SentBefore(w, steps[..n], k, id, g, i)
  {
    forall id, g, i | SentBefore(w, steps, k, id, g, i) ensures SentBefore(w, steps[..n], k, id, g, i) {
      var j :| 0 <= j < k && Sends(Run(w, steps[..j]), steps[j].0, id, g, i);
      assert steps[..n][..j] == steps[..j];
    }
  }

  /** What one step adds is heralded: an answer by a delivery that the trace already holds. */
  lemma StepIsHeralded(w: World, steps: seq<(Step, int)>, k: nat, p: nat)
    requires k < |steps| && CausalAt(w, steps, k)
    requires var s := Run(w, steps[..k]); |s.trace| <= p < |Take(s, w, steps[k].0, steps[k].1).trace|
    ensures Heralded(Take(Run(w, steps[..k]), w, steps[k].0, steps[k].1).trace, p)
  {
    var s, step := Run(w, steps[..k]), steps[k].0;
    var next := Take(s, w, step, steps[k].1);
    RunIsSane(w, steps[..k]);
    TakeExtends(s, w, step, steps[k].1);
    if !step.StdoutStep? {
      OthersGrow(s, w, step, steps[k].1);
    } else if step.id in s.instances && Answering(next.trace[p]) {
      StdoutSays(s, step.id, step.read, steps[k].1);
      assert Says(next.trace[p], step.id, s.instances[step.id].generation, LinesOf(step.read));
      var l :| 0 <= l < |LinesOf(step.read)| && LinesOf(step.read)[l].OtherLine? &&
        LinesOf(step.read)[l].answer == next.trace[p].answer;
      SentIsHeralded(w, steps, k, step.id, s.instances[step.id].generation, next.trace[p]);
    }
  }

  lemma SentIsHeralded(w: World, steps: seq<(Step, int)>, k: nat, id: string, g: nat, message: Event)
    requires k <= |steps| && Answering(message) && message.instanceId == id && message.generation == g
    requires SentBefore(w, steps, k, id, g, message.answer.value.invocation.value)
    ensures exists q :: 0 <= q < |Run(w, steps[..k]).trace| && Delivers(Run(w, steps[..k]).trace[q], message)
  {
    var n := message.answer.value.invocation.value;
    var j :| 0 <= j < k && Sends(Run(w, steps[..j]), steps[j].0, id, g, n);
    assert steps[..k][..j] == steps[..j];
    SentIsTold(w, steps[..k], j, id, g, n);
  }

  /** The order theorem: on every run in which modules answer only what they were sent, each message that answers an
      action stands behind that action's accepted delivery, for the same instance and generation. */
  lemma {:induction false} DeliveryPrecedesAnswer(w: World, steps: seq<(Step, int)>)
    requires Causal(w, steps)
    ensures forall p :: 0 <= p < |Run(w, steps).trace| ==> Heralded(Run(w, steps).trace, p)
  {
    if steps != [] {
      var last := |steps| - 1;
      var before, after := Run(w, steps[..last]), Run(w, steps);
      CausalPrefix(w, steps, last);
      DeliveryPrecedesAnswer(w, steps[..last]);
      RunIsSane(w, steps[..last]);
      TakeExtends(before, w, steps[last].0, steps[last].1);
      assert CausalAt(w, steps, last);
      forall p | 0 <= p < |after.trace| ensures Heralded(after.trace, p) {
        if p < |before.trace| {
          assert Heralded(before.trace, p);
        } else {
          StepIsHeralded(w, steps, last, p);
        }
      }
    }
  }
}
