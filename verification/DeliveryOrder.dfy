/** From the supervisor through the event queue to the dispatcher: an action's delivery reaches the dispatcher before
    the result it caused, so no result is thrown away for want of a deadline. */
module DeliveryOrder {
  import opened Optional
  import opened SupervisedInstance
  import opened SupervisorGrowth
  import opened SupervisorAnswers
  import SupervisorRuns
  import EventQueue
  import D = ControlDispatcher

  // ---- From the trace into the queue ----

  /** How the supervisor hands an event to its queue: standard error as a log that may be merged, the rest as it is. */
  predicate Queues(e: Event, entry: EventQueue.Entry<Event>) {
    if e.StderrLog? then
      && entry.Log? && entry.instanceId == e.instanceId && entry.line == e.line && entry.truncated == e.truncated
      && entry.repeated == 1
    else entry == EventQueue.Control(e)
  }

  /** The entries emitted are the events told, one for one. */
  predicate Relays(trace: seq<Event>, entries: seq<EventQueue.Entry<Event>>) {
    |trace| == |entries| && forall k :: 0 <= k < |trace| ==> Queues(trace[k], entries[k])
  }

  // ---- From the queue into the dispatcher ----

  /** What the dispatcher is given of an event; messages other than action results leave it as it is. */
  function InboundOf(e: Event): Option<D.Inbound> {
    match e
    case ProcessStarted(id, _, g) => Some(D.Started(id, g))
    case ModuleMessage(id, _, _, g, Some(answer)) =>
      Some(D.ActionResult(id, g, answer.invocation, answer.actionId, answer.accepted))
    case ContextsRemoved(id, g) => Some(D.Removed(id, g))
    case ProcessExited(id, _, _, g) => Some(D.Exited(id, g))
    case RestartCompleted(id, token, _, _) => Some(D.RestartDone(id, token))
    case ActionDelivery(id, g, n, accepted, _, at) => Some(D.Delivery(id, g, n, accepted, at))
    case _ => None
  }

  function Inbounds(events: seq<Event>): seq<D.Inbound> {
    if events == [] then []
    else
      var last := |events| - 1;
      Inbounds(events[..last]) + (if InboundOf(events[last]).Some? then [InboundOf(events[last]).value] else [])
  }

  /** The events the dispatcher has consumed, among all that happens to it. */
  function Consumed(ops: seq<D.Operation>): seq<D.Inbound> {
    if ops == [] then []
    else
      var last := |ops| - 1;
      Consumed(ops[..last]) + (if ops[last].ConsumeEvent? then [ops[last].event] else [])
  }

  lemma InboundsMore(events: seq<Event>, e: Event)
    ensures Inbounds(events + [e]) == Inbounds(events) + (if InboundOf(e).Some? then [InboundOf(e).value] else [])
  {
    assert (events + [e])[..|events|] == events;
  }

  lemma {:induction false} InboundsJoin(a: seq<Event>, b: seq<Event>)
    ensures Inbounds(a + b) == Inbounds(a) + Inbounds(b)
    decreases |b|
  {
    if b == [] {
      assert a + b == a;
    } else {
      var last := |b| - 1;
      var e := b[last];
      InboundsJoin(a, b[..last]);
      InboundsMore(a + b[..last], e);
      assert a + b == (a + b[..last]) + [e];
    }
  }

  lemma PrefixOfInbounds(a: seq<Event>, b: seq<Event>)
    requires a <= b
    ensures Inbounds(a) <= Inbounds(b)
  {
    assert b == a + b[|a|..];
    InboundsJoin(a, b[|a|..]);
  }

  /** Logs are no business of the dispatcher's: what it gets of the queue's control events is what it would get of the
      whole trace. */
  lemma {:induction false} RelayedInbounds(trace: seq<Event>, entries: seq<EventQueue.Entry<Event>>)
    requires Relays(trace, entries)
    ensures Inbounds(EventQueue.Controls(entries)) == Inbounds(trace)
    decreases |trace|
  {
    if trace != [] {
      var last := |trace| - 1;
      assert Queues(trace[last], entries[last]);
      RelayedInbounds(trace[..last], entries[..last]);
      assert entries == entries[..last] + [entries[last]] && trace == trace[..last] + [trace[last]];
      EventQueue.ControlsJoin(entries[..last], [entries[last]]);
      EventQueue.ControlsOfOne(entries[last]);
      InboundsMore(trace[..last], trace[last]);
      if entries[last].Control? {
        InboundsMore(EventQueue.Controls(entries[..last]), trace[last]);
      } else {
        assert EventQueue.Controls(entries[..last]) + [] == EventQueue.Controls(entries[..last]);
        assert Inbounds(trace[..last]) + [] == Inbounds(trace[..last]);
      }
    }
  }

  // ---- Order ----

  predicate DeliversTo(delivery: D.Inbound, result: D.Inbound)
    requires result.ActionResult? && result.correlation.Some?
  {
    && delivery.Delivery? && delivery.succeeded && delivery.instanceId == result.instanceId
    && delivery.generation == result.generation && delivery.invocation == result.correlation.value
  }

  /** Every correlated result stands behind its delivery. */
  predicate InOrder(inbounds: seq<D.Inbound>) {
    forall p :: 0 <= p < |inbounds| && inbounds[p].ActionResult? && inbounds[p].correlation.Some? ==>
      exists q :: 0 <= q < p && DeliversTo(inbounds[q], inbounds[p])
  }

  lemma {:induction false} InboundIsIn(events: seq<Event>, q: nat)
    requires q < |events| && InboundOf(events[q]).Some?
    ensures InboundOf(events[q]).value in Inbounds(events)
    decreases |events|
  {
    var last := |events| - 1;
    if q < last {
      InboundIsIn(events[..last], q);
    } else {
      assert Inbounds(events)[|Inbounds(events[..last])|] == InboundOf(events[q]).value;
    }
  }

  lemma {:induction false} TraceInOrder(trace: seq<Event>)
    requires forall p :: 0 <= p < |trace| ==> Heralded(trace, p)
    ensures InOrder(Inbounds(trace))
    decreases |trace|
  {
    if trace != [] {
      var last := |trace| - 1;
      var before, e := trace[..last], trace[last];
      forall p | 0 <= p < last ensures Heralded(before, p) { HeraldedInPrefix(trace, last, p); }
      TraceInOrder(before);
      if Answering(e) {
        assert Heralded(trace, last);
        var q :| 0 <= q < last && Delivers(trace[q], e);
        assert before[q] == trace[q];
        InboundIsIn(before, q);
        OneMoreInOrder(Inbounds(before), InboundOf(e).value, InboundOf(trace[q]).value);
      } else if InboundOf(e).Some? {
        OthersInOrder(Inbounds(before), InboundOf(e).value);
      } else {
        assert Inbounds(before) + [] == Inbounds(before);
      }
    }
  }

  lemma HeraldedInPrefix(trace: seq<Event>, n: nat, p: nat)
    requires p < n <= |trace| && Heralded(trace, p)
    ensures Heralded(trace[..n], p)
  {
    if Answering(trace[p]) {
      var q :| 0 <= q < p && Delivers(trace[q], trace[p]);
      assert trace[..n][q] == trace[q];
    }
  }

  lemma OneMoreInOrder(inbounds: seq<D.Inbound>, result: D.Inbound, delivery: D.Inbound)
    requires InOrder(inbounds) && result.ActionResult? && result.correlation.Some?
    requires delivery in inbounds && DeliversTo(delivery, result)
    ensures InOrder(inbounds + [result])
  {
    var all := inbounds + [result];
    forall p | 0 <= p < |all| && all[p].ActionResult? && all[p].correlation.Some?
      ensures exists q :: 0 <= q < p && DeliversTo(all[q], all[p])
    {
      if p < |inbounds| {
        var q :| 0 <= q < p && DeliversTo(inbounds[q], inbounds[p]);
        assert DeliversTo(all[q], all[p]);
      } else {
        var q :| 0 <= q < |inbounds| && inbounds[q] == delivery;
        assert DeliversTo(all[q], all[p]);
      }
    }
  }

  lemma OthersInOrder(inbounds: seq<D.Inbound>, other: D.Inbound)
    requires InOrder(inbounds) && !(other.ActionResult? && other.correlation.Some?)
    ensures InOrder(inbounds + [other])
  {
    var all := inbounds + [other];
    forall p | 0 <= p < |all| && all[p].ActionResult? && all[p].correlation.Some?
      ensures exists q :: 0 <= q < p && DeliversTo(all[q], all[p])
    {
      var q :| 0 <= q < p && DeliversTo(inbounds[q], inbounds[p]);
      assert DeliversTo(all[q], all[p]);
    }
  }

  lemma PrefixInOrder(a: seq<D.Inbound>, b: seq<D.Inbound>)
    requires a <= b && InOrder(b)
    ensures InOrder(a)
  {
    forall p | 0 <= p < |a| && a[p].ActionResult? && a[p].correlation.Some?
      ensures exists q :: 0 <= q < p && DeliversTo(a[q], a[p])
    {
      var q :| 0 <= q < p && DeliversTo(b[q], b[p]);
      assert DeliversTo(a[q], a[p]);
    }
  }

  /** Whatever the supervisor does, however the queue is filled, merged and drained: the dispatcher is given the
      deliveries before the results they caused. */
  lemma DeliveriesComeFirst(w: World, steps: seq<(SupervisorRuns.Step, int)>, acts: seq<EventQueue.Act<Event>>)
    requires Causal(w, steps) && EventQueue.NewLogs(acts)
    requires Relays(SupervisorRuns.Run(w, steps).trace, EventQueue.Run(acts).emitted)
    ensures InOrder(Inbounds(EventQueue.Controls(EventQueue.Run(acts).drained)))
  {
    var c := EventQueue.Run(acts);
    DeliveryPrecedesAnswer(w, steps);
    TraceInOrder(SupervisorRuns.Run(w, steps).trace);
    RelayedInbounds(SupervisorRuns.Run(w, steps).trace, c.emitted);
    EventQueue.DrainedIsPrefix(acts);
    PrefixOfInbounds(EventQueue.Controls(c.drained), EventQueue.Controls(c.emitted));
    PrefixInOrder(Inbounds(EventQueue.Controls(c.drained)), Inbounds(EventQueue.Controls(c.emitted)));
  }

  // ---- The dispatcher ----

  /** The dispatcher after its first `k` operations. */
  function After(firstId: nat, ops: seq<D.Operation>, k: nat): D.Dispatcher
    requires k <= |ops|
  {
    D.RunLedger(firstId, ops[..k]).0
  }

  lemma AfterOneMore(firstId: nat, ops: seq<D.Operation>, k: nat)
    requires k < |ops|
    ensures After(firstId, ops, k + 1) == D.Perform(After(firstId, ops, k), ops[k])
  {
    assert ops[..k + 1][..k] == ops[..k];
  }

  /** If the identifier is pending for that process, its deadline runs. */
  predicate Running(d: D.Dispatcher, n: nat, id: string, g: nat) {
    n in d.pending && d.pending[n].instanceId == id && d.pending[n].generation == g ==> d.pending[n].deadline.Some?
  }

  /** After the accepted delivery of the identifier has been consumed, it is not handed out anew. */
  ghost predicate NotReissued(firstId: nat, ops: seq<D.Operation>, k: nat, id: string, g: nat, n: nat)
    requires k <= |ops|
  {
    forall i, j :: 0 <= i < j < k && Accepts(ops[i], id, g, n) ==> !D.Reissues(After(firstId, ops, j), ops[j], n)
  }

  predicate Accepts(op: D.Operation, id: string, g: nat, n: nat) {
    op.ConsumeEvent? && op.event.Delivery? && op.event.succeeded
    && op.event.instanceId == id && op.event.generation == g && op.event.invocation == n
  }

  lemma {:induction false} RunsOn(firstId: nat, ops: seq<D.Operation>, i: nat, k: nat, id: string, g: nat, n: nat)
    requires i < k <= |ops| && Accepts(ops[i], id, g, n) && NotReissued(firstId, ops, k, id, g, n)
    ensures Running(After(firstId, ops, k), n, id, g)
    decreases k
  {
    AfterOneMore(firstId, ops, k - 1);
    if k == i + 1 {
      D.ConsumeKeepsPending(After(firstId, ops, i), ops[i].event, n);
    } else {
      RunsOn(firstId, ops, i, k - 1, id, g, n);
      D.PerformKeepsPending(After(firstId, ops, k - 1), ops[k - 1], n);
    }
  }

  lemma {:induction false} ConsumedGrows(ops: seq<D.Operation>, k: nat)
    requires k <= |ops|
    ensures Consumed(ops[..k]) <= Consumed(ops)
    decreases |ops|
  {
    if k == |ops| {
      assert ops[..k] == ops;
    } else {
      var last := |ops| - 1;
      ConsumedGrows(ops[..last], k);
      assert ops[..last][..k] == ops[..k];
    }
  }

  /** What has been consumed was consumed by some operation. */
  lemma {:induction false} ConsumedBy(ops: seq<D.Operation>, p: nat) returns (i: nat)
    requires p < |Consumed(ops)|
    ensures i < |ops| && ops[i] == D.ConsumeEvent(Consumed(ops)[p])
    decreases |ops|
  {
    var last := |ops| - 1;
    if p < |Consumed(ops[..last])| {
      i := ConsumedBy(ops[..last], p);
    } else {
      i := last;
    }
  }

  /** A result that is consumed finds its delivery consumed before it. */
  lemma ResultFindsDelivery(ops: seq<D.Operation>, k: nat) returns (i: nat)
    requires k < |ops| && ops[k].ConsumeEvent? && ops[k].event.ActionResult? && ops[k].event.correlation.Some?
    requires InOrder(Consumed(ops))
    ensures i < k && Accepts(ops[i], ops[k].event.instanceId, ops[k].event.generation, ops[k].event.correlation.value)
  {
    var before, upTo := Consumed(ops[..k]), Consumed(ops[..k + 1]);
    assert ops[..k + 1][..k] == ops[..k];
    assert upTo == before + [ops[k].event];
    ConsumedGrows(ops, k + 1);
    PrefixInOrder(upTo, Consumed(ops));
    var p := |before|;
    assert upTo[p] == ops[k].event;
    assert exists q :: 0 <= q < p && DeliversTo(upTo[q], upTo[p]);
    var q :| 0 <= q < p && DeliversTo(upTo[q], upTo[p]);
    i := ConsumedBy(ops[..k], q);
    assert ops[..k][i] == ops[i];
  }

  /** The composed theorem, over every run of the supervisor in which modules answer only what they were sent, every
      filling and draining of the queue, and every sequence of operations of the dispatcher, which consumes drained
      events in order: when it consumes a result, the action is no longer pending, or it is not the one the result
      names, or the result completes it. Never is the result stale because the delivery has not come. */
  lemma NoResultComesEarly(w: World, steps: seq<(SupervisorRuns.Step, int)>, acts: seq<EventQueue.Act<Event>>,
      firstId: nat, ops: seq<D.Operation>, k: nat)
    requires Causal(w, steps) && EventQueue.NewLogs(acts)
    requires Relays(SupervisorRuns.Run(w, steps).trace, EventQueue.Run(acts).emitted)
    requires Consumed(ops) <= Inbounds(EventQueue.Controls(EventQueue.Run(acts).drained))
    requires k < |ops| && ops[k].ConsumeEvent? && ops[k].event.ActionResult? && ops[k].event.correlation.Some?
    requires var r := ops[k].event;
      NotReissued(firstId, ops, k, r.instanceId, r.generation, r.correlation.value)
    ensures var r, d := ops[k].event, After(firstId, ops, k);
      var n := r.correlation.value;
      || n !in d.pending
      || !D.Matches(d.pending[n], r.instanceId, r.generation, r.actionId)
      || D.ConsumeResult(d, r.instanceId, r.generation, Some(n), r.actionId, r.accepted) ==
           (D.Complete(d, n, if r.accepted then D.ActionAccepted else D.ActionRejected), D.Consumed)
  {
    var r := ops[k].event;
    DeliveriesComeFirst(w, steps, acts);
    PrefixInOrder(Consumed(ops), Inbounds(EventQueue.Controls(EventQueue.Run(acts).drained)));
    var i := ResultFindsDelivery(ops, k);
    RunsOn(firstId, ops, i, k, r.instanceId, r.generation, r.correlation.value);
  }
}
