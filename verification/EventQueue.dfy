/** The queue between the supervisor thread and its reader: logs may be merged or dropped, nothing else may. */
module EventQueue {

  const EVENT_CAPACITY := 4096

  datatype Entry<E> =
    | Log(instanceId: string, line: string, truncated: bool, repeated: nat, at: int)
    | Control(event: E)

  predicate SameLog<E>(a: Entry<E>, b: Entry<E>) {
    a.Log? && b.Log? && a.instanceId == b.instanceId && a.line == b.line && a.truncated == b.truncated
  }

  function Merged<E>(log: Entry<E>, incoming: Entry<E>): Entry<E>
    requires log.Log? && incoming.Log?
  {
    log.(repeated := log.repeated + 1, at := incoming.at)
  }

  /** Merges the incoming log into the first equal one, if there is one. */
  function MergeInto<E>(queue: seq<Entry<E>>, incoming: Entry<E>): seq<Entry<E>>
    requires incoming.Log?
  {
    if queue == [] then []
    else if SameLog(queue[0], incoming) then [Merged(queue[0], incoming)] + queue[1..]
    else [queue[0]] + MergeInto(queue[1..], incoming)
  }

  /** Drops the first log, if there is one. */
  function WithoutLog<E>(queue: seq<Entry<E>>): seq<Entry<E>> {
    if queue == [] then [] else if queue[0].Log? then queue[1..] else [queue[0]] + WithoutLog(queue[1..])
  }

  function Emitted<E>(queue: seq<Entry<E>>, incoming: Entry<E>): seq<Entry<E>> {
    var last := |queue| - 1;
    if incoming.Log? then
      if queue != [] && SameLog(queue[last], incoming) then queue[..last] + [Merged(queue[last], incoming)]
      else if |queue| >= EVENT_CAPACITY then MergeInto(queue, incoming)
      else queue + [incoming]
    else if |queue| >= EVENT_CAPACITY then WithoutLog(queue) + [incoming]
    else queue + [incoming]
  }

  /** The events of a queue or a history that are not logs, in order. */
  function Controls<E>(entries: seq<Entry<E>>): seq<E> {
    if entries == [] then []
    else (if entries[0].Control? then [entries[0].event] else []) + Controls(entries[1..])
  }

  /** What makes two log lines the same. */
  datatype LogText = LogText(instanceId: string, line: string, truncated: bool)

  predicate IsLogOf<E>(entry: Entry<E>, text: LogText) {
    entry.Log? && LogText(entry.instanceId, entry.line, entry.truncated) == text
  }

  /** How many lines of that text the entries stand for. */
  function LogLines<E>(entries: seq<Entry<E>>, text: LogText): nat {
    if entries == [] then 0
    else (if IsLogOf(entries[0], text) then entries[0].repeated else 0) + LogLines(entries[1..], text)
  }

  predicate NoLogs<E>(entries: seq<Entry<E>>) {
    forall k :: 0 <= k < |entries| ==> entries[k].Control?
  }

  lemma {:induction false} ControlsJoin<E>(a: seq<Entry<E>>, b: seq<Entry<E>>)
    ensures Controls(a + b) == Controls(a) + Controls(b)
  {
    if a == [] {
      assert a + b == b;
    } else {
      assert (a + b)[1..] == a[1..] + b;
      ControlsJoin(a[1..], b);
      var head := if a[0].Control? then [a[0].event] else [];
      assert head + (Controls(a[1..]) + Controls(b)) == (head + Controls(a[1..])) + Controls(b);
    }
  }

  lemma {:induction false} LinesJoin<E>(a: seq<Entry<E>>, b: seq<Entry<E>>, text: LogText)
    ensures LogLines(a + b, text) == LogLines(a, text) + LogLines(b, text)
  {
    if a == [] {
      assert a + b == b;
    } else {
      assert (a + b)[1..] == a[1..] + b;
      LinesJoin(a[1..], b, text);
    }
  }

  lemma ControlsOfOne<E>(e: Entry<E>)
    ensures Controls([e]) == if e.Control? then [e.event] else []
  {
    assert [e][1..] == [];
  }

  lemma LinesOfOne<E>(e: Entry<E>, text: LogText)
    ensures LogLines([e], text) == if IsLogOf(e, text) then e.repeated else 0
  {
    assert [e][1..] == [];
  }

  lemma {:induction false} MergeKeepsControls<E>(queue: seq<Entry<E>>, incoming: Entry<E>, text: LogText)
    requires incoming.Log?
    ensures Controls(MergeInto(queue, incoming)) == Controls(queue) && |MergeInto(queue, incoming)| == |queue|
    ensures NoLogs(queue) ==> MergeInto(queue, incoming) == queue
    ensures LogLines(queue, text) <= LogLines(MergeInto(queue, incoming), text)
    ensures LogLines(MergeInto(queue, incoming), text) <= LogLines(queue, text) + if IsLogOf(incoming, text) then 1
      else 0
  {
    if queue != [] && !SameLog(queue[0], incoming) {
      MergeKeepsControls(queue[1..], incoming, text);
      assert MergeInto(queue, incoming)[1..] == MergeInto(queue[1..], incoming);
    }
  }

  lemma {:induction false} DropKeepsControls<E>(queue: seq<Entry<E>>, text: LogText)
    ensures Controls(WithoutLog(queue)) == Controls(queue)
    ensures LogLines(WithoutLog(queue), text) <= LogLines(queue, text)
    ensures if NoLogs(queue) then WithoutLog(queue) == queue else |WithoutLog(queue)| == |queue| - 1
  {
    if queue != [] && !queue[0].Log? {
      DropKeepsControls(queue[1..], text);
      assert WithoutLog(queue)[1..] == WithoutLog(queue[1..]);
      assert NoLogs(queue) <==> NoLogs(queue[1..]) by {
        if NoLogs(queue[1..]) {
          forall k | 0 <= k < |queue| ensures queue[k].Control? { if k > 0 { assert queue[k] == queue[1..][k - 1]; } }
        }
      }
    } else if queue != [] {
      assert [] + Controls(queue[1..]) == Controls(queue[1..]);
    }
  }

  /** The queue outgrows its capacity only when it holds nothing that may be dropped. */
  predicate Bounded<E>(queue: seq<Entry<E>>) {
    |queue| <= EVENT_CAPACITY || NoLogs(queue)
  }

  lemma MergeLastKeepsControls<E>(queue: seq<Entry<E>>, incoming: Entry<E>, text: LogText)
    requires incoming.Log? && queue != [] && SameLog(queue[|queue| - 1], incoming)
    ensures var merged := queue[..|queue| - 1] + [Merged(queue[|queue| - 1], incoming)];
      && Controls(merged) == Controls(queue) && |merged| == |queue|
      && LogLines(merged, text) == LogLines(queue, text) + if IsLogOf(incoming, text) then 1 else 0
  {
    var last := |queue| - 1;
    assert queue == queue[..last] + [queue[last]];
    ControlsJoin(queue[..last], [queue[last]]);
    LinesJoin(queue[..last], [queue[last]], text);
    ControlsJoin(queue[..last], [Merged(queue[last], incoming)]);
    LinesJoin(queue[..last], [Merged(queue[last], incoming)], text);
    ControlsOfOne(queue[last]);
    LinesOfOne(queue[last], text);
    ControlsOfOne(Merged(queue[last], incoming));
    LinesOfOne(Merged(queue[last], incoming), text);
  }

  lemma LogKeepsControls<E>(queue: seq<Entry<E>>, incoming: Entry<E>, text: LogText)
    requires Bounded(queue) && incoming.Log? && incoming.repeated == 1
    ensures Controls(Emitted(queue, incoming)) == Controls(queue) && Bounded(Emitted(queue, incoming))
    ensures LogLines(Emitted(queue, incoming), text) <= LogLines(queue, text) + if IsLogOf(incoming, text) then 1 else 0
  {
    if queue != [] && SameLog(queue[|queue| - 1], incoming) {
      MergeLastKeepsControls(queue, incoming, text);
      assert !NoLogs(queue);
    } else if |queue| >= EVENT_CAPACITY {
      MergeKeepsControls(queue, incoming, text);
    } else {
      ControlsJoin(queue, [incoming]);
      LinesJoin(queue, [incoming], text);
      ControlsOfOne(incoming);
      LinesOfOne(incoming, text);
    }
  }

  lemma ControlIsQueued<E>(queue: seq<Entry<E>>, incoming: Entry<E>, text: LogText)
    requires Bounded(queue) && incoming.Control?
    ensures Controls(Emitted(queue, incoming)) == Controls(queue) + [incoming.event] &&
      Bounded(Emitted(queue, incoming))
    ensures LogLines(Emitted(queue, incoming), text) <= LogLines(queue, text)
  {
    ControlsOfOne(incoming);
    LinesOfOne(incoming, text);
    if |queue| >= EVENT_CAPACITY {
      DropKeepsControls(queue, text);
      ControlsJoin(WithoutLog(queue), [incoming]);
      LinesJoin(WithoutLog(queue), [incoming], text);
    } else {
      ControlsJoin(queue, [incoming]);
      LinesJoin(queue, [incoming], text);
    }
  }

  /** One emit: control events go to the back, exactly once, and none is lost or overtaken. */
  lemma EmitKeepsControls<E>(queue: seq<Entry<E>>, incoming: Entry<E>, text: LogText)
    requires Bounded(queue) && (incoming.Log? ==> incoming.repeated == 1)
    ensures Controls(Emitted(queue, incoming)) == Controls(queue) + Controls([incoming])
    ensures Bounded(Emitted(queue, incoming))
    ensures LogLines(Emitted(queue, incoming), text) <= LogLines(queue, text) + LogLines([incoming], text)
  {
    ControlsOfOne(incoming);
    LinesOfOne(incoming, text);
    if incoming.Log? { LogKeepsControls(queue, incoming, text); } else { ControlIsQueued(queue, incoming, text); }
  }

  /** The first log of that text stands at index k; at the end if there is none. */
  predicate FirstOf<E>(queue: seq<Entry<E>>, text: LogText, k: nat) {
    k <= |queue| && (forall j :: 0 <= j < k ==> !IsLogOf(queue[j], text)) && (k < |queue| ==> IsLogOf(queue[k], text))
  }

  /** The entry at index k has been said once more. */
  function Repeated<E>(queue: seq<Entry<E>>, k: nat, at: int): seq<Entry<E>>
    requires k < |queue| && queue[k].Log?
  {
    queue[k := Log(queue[k].instanceId, queue[k].line, queue[k].truncated, queue[k].repeated + 1, at)]
  }

  /** A log line that repeats the last entry counts there. Otherwise it is queued while there is room, and in a full
      queue it counts with the first of its text, or is lost if there is none. */
  lemma LogAnswers<E>(queue: seq<Entry<E>>, incoming: Entry<E>, k: nat)
    requires incoming.Log?
    requires FirstOf(queue, LogText(incoming.instanceId, incoming.line, incoming.truncated), k)
    ensures var text, last := LogText(incoming.instanceId, incoming.line, incoming.truncated), |queue| - 1;
      Emitted(queue, incoming) ==
        if queue != [] && IsLogOf(queue[last], text) then Repeated(queue, last, incoming.at)
        else if |queue| < 4096 then queue + [incoming]
        else if k < |queue| then Repeated(queue, k, incoming.at)
        else queue
  {
    MergeAt(queue, incoming, k);
  }

  /** A control event is always queued; in a full queue the first log makes room for it. */
  lemma ControlAnswers<E>(queue: seq<Entry<E>>, incoming: Entry<E>, k: nat)
    requires incoming.Control? && k <= |queue|
    requires (forall j :: 0 <= j < k ==> queue[j].Control?) && (k < |queue| ==> queue[k].Log?)
    ensures Emitted(queue, incoming) ==
      (if |queue| >= 4096 && k < |queue| then queue[..k] + queue[k + 1..] else queue) + [incoming]
  {
    DropAt(queue, k);
  }

  // ---- Runs ----

  datatype Act<E> = Emit(entry: Entry<E>) | Drain

  /** The queue, everything emitted and everything drained. */
  datatype Channel<E> = Channel(queue: seq<Entry<E>>, emitted: seq<Entry<E>>, drained: seq<Entry<E>>)

  function Do<E>(c: Channel<E>, act: Act<E>): Channel<E> {
    match act
    case Emit(entry) => Channel(Emitted(c.queue, entry), c.emitted + [entry], c.drained)
    case Drain => Channel([], c.emitted, c.drained + c.queue)
  }

  function Run<E>(acts: seq<Act<E>>): Channel<E> {
    if acts == [] then Channel([], [], []) else Do(Run(acts[..|acts| - 1]), acts[|acts| - 1])
  }

  predicate NewLogs<E>(acts: seq<Act<E>>) {
    forall k :: 0 <= k < |acts| && acts[k].Emit? && acts[k].entry.Log? ==> acts[k].entry.repeated == 1
  }

  /** For every interleaving of emits and drains, what was drained and what is still queued hold, together and in
      order, exactly the control events emitted; each log line stands there at most as often as it was emitted. */
  lemma {:induction false} NothingLostOrReordered<E>(acts: seq<Act<E>>, text: LogText)
    requires NewLogs(acts)
    ensures var c := Run(acts);
      && Controls(c.drained) + Controls(c.queue) == Controls(c.emitted)
      && LogLines(c.drained, text) + LogLines(c.queue, text) <= LogLines(c.emitted, text)
      && Bounded(c.queue)
  {
    if acts != [] {
      var last := |acts| - 1;
      var before := Run(acts[..last]);
      NothingLostOrReordered(acts[..last], text);
      match acts[last]
      case Emit(entry) =>
        EmitKeepsControls(before.queue, entry, text);
        ControlsJoin(before.emitted, [entry]);
        LinesJoin(before.emitted, [entry], text);
        ControlsOfOne(entry);
        LinesOfOne(entry, text);
        assert Controls(before.drained) + (Controls(before.queue) + Controls([entry]))
          == (Controls(before.drained) + Controls(before.queue)) + Controls([entry]);
      case Drain =>
        ControlsJoin(before.drained, before.queue);
        LinesJoin(before.drained, before.queue, text);
        assert (Controls(before.drained) + Controls(before.queue)) + [] ==
          Controls(before.drained) + Controls(before.queue);
    }
  }

  /** What the reader has seen of the control events is always a prefix of what was emitted: nothing arrives before
      what was emitted ahead of it. */
  lemma DrainedIsPrefix<E>(acts: seq<Act<E>>)
    requires NewLogs(acts)
    ensures Controls(Run(acts).drained) <= Controls(Run(acts).emitted)
  {
    NothingLostOrReordered(acts, LogText("", "", false));
  }

  // ---- The object ----

  class Queue<E(==)> {
    var events: seq<Entry<E>>

    constructor ()
      ensures events == []
    {
      events := [];
    }

    /** Searches for the first log equal to the incoming one. */
    method FindSame(incoming: Entry<E>) returns (k: nat)
      requires incoming.Log?
      ensures k <= |events| && (forall j :: 0 <= j < k ==> !SameLog(events[j], incoming))
      ensures k < |events| ==> SameLog(events[k], incoming)
    {
      k := 0;
      while k < |events| && !SameLog(events[k], incoming)
        invariant k <= |events| && forall j :: 0 <= j < k ==> !SameLog(events[j], incoming)
      {
        k := k + 1;
      }
    }

    method FindLog() returns (k: nat)
      ensures k <= |events| && (forall j :: 0 <= j < k ==> events[j].Control?)
      ensures k < |events| ==> events[k].Log?
    {
      k := 0;
      while k < |events| && !events[k].Log?
        invariant k <= |events| && forall j :: 0 <= j < k ==> events[j].Control?
      {
        k := k + 1;
      }
    }

    method Emit(incoming: Entry<E>)
      modifies this
      ensures events == Emitted(old(events), incoming)
    {
      if incoming.Log? {
        var last := |events| - 1;
        if events != [] && SameLog(events[last], incoming) {
          events := events[last := Merged(events[last], incoming)];
          return;
        }
        if |events| >= EVENT_CAPACITY {
          var k := FindSame(incoming);
          MergeAt(events, incoming, k);
          if k < |events| { events := events[k := Merged(events[k], incoming)]; }
          return;
        }
      } else if |events| >= EVENT_CAPACITY {
        var k := FindLog();
        DropAt(events, k);
        if k < |events| { events := events[..k] + events[k + 1..]; }
      }
      events := events + [incoming];
    }

    method TakeAll() returns (taken: seq<Entry<E>>)
      modifies this
      ensures taken == old(events) && events == []
    {
      taken := [];
      while events != []
        invariant taken + events == old(events)
        decreases |events|
      {
        taken, events := taken + [events[0]], events[1..];
      }
    }
  }

  lemma {:induction false} MergeAt<E>(queue: seq<Entry<E>>, incoming: Entry<E>, k: nat)
    requires incoming.Log? && k <= |queue| && (forall j :: 0 <= j < k ==> !SameLog(queue[j], incoming))
    requires k < |queue| ==> SameLog(queue[k], incoming)
    ensures MergeInto(queue, incoming) == if k < |queue| then queue[k := Merged(queue[k], incoming)] else queue
  {
    if k > 0 { MergeAt(queue[1..], incoming, k - 1); }
  }

  lemma {:induction false} DropAt<E>(queue: seq<Entry<E>>, k: nat)
    requires k <= |queue| && (forall j :: 0 <= j < k ==> queue[j].Control?) && (k < |queue| ==> queue[k].Log?)
    ensures WithoutLog(queue) == if k < |queue| then queue[..k] + queue[k + 1..] else queue
  {
    if k > 0 { DropAt(queue[1..], k - 1); }
  }
}
