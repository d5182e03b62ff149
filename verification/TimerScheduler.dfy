/** Timers of a scripted module: which callbacks a dispatch runs, in which order, and which never run twice. */
module TimerScheduler {
  import opened Optional

  const MAXIMUM_TIMERS := 256

  datatype Timer = Timer(deadline: int, sequence: nat, reference: int)

  predicate Before(a: Timer, b: Timer) {
    a.deadline < b.deadline || (a.deadline == b.deadline && a.sequence < b.sequence)
  }

  /** What a callback does with the host: emit a record, which may be refused, or ask for a timer. */
  datatype Act = Emit(accepted: bool) | Schedule(duration: nat, reference: int)

  datatype Behaviour = Behaviour(acts: seq<Act>, fails: bool)

  datatype Host = Host(
    timers: seq<Timer>,
    nextSequence: nat,
    time: int,
    emitted: bool,
    stopped: bool,
    every: Option<nat>,
    periodic: Option<int>)

  /** One request; a request beyond the limit is refused and leaves no trace. */
  function Perform(h: Host, act: Act): Host {
    match act
    case Emit(accepted) => h.(emitted := h.emitted || accepted)
    case Schedule(duration, reference) =>
      if |h.timers| >= MAXIMUM_TIMERS then h
      else h.(timers := h.timers + [Timer(h.time + duration, h.nextSequence, reference)],
        nextSequence := h.nextSequence + 1)
  }

  function PerformAll(h: Host, acts: seq<Act>): Host
    decreases |acts|
  {
    if acts == [] then h else PerformAll(Perform(h, acts[0]), acts[1..])
  }

  // ---- The agenda: the due timers, sorted once ----

  predicate Eligible(t: Timer, now: int, bound: nat) {
    t.deadline <= now && t.sequence < bound
  }

  function Insert(sorted: seq<Timer>, t: Timer): seq<Timer> {
    if sorted == [] || Before(t, sorted[0]) then [t] + sorted else [sorted[0]] + Insert(sorted[1..], t)
  }

  function Agenda(timers: seq<Timer>, now: int, bound: nat): seq<Timer>
    decreases |timers|
  {
    if timers == [] then []
    else
      var rest, last := Agenda(timers[..|timers| - 1], now, bound), timers[|timers| - 1];
      if Eligible(last, now, bound) then Insert(rest, last) else rest
  }

  /** Every two timers carry different sequence numbers, all of them already handed out. */
  predicate Numbered(timers: seq<Timer>, next: nat) {
    && (forall i :: 0 <= i < |timers| ==> timers[i].sequence < next)
    && (forall i, j :: 0 <= i < j < |timers| ==> timers[i].sequence != timers[j].sequence)
  }

  predicate Ascending(timers: seq<Timer>) {
    forall i, j :: 0 <= i < j < |timers| ==> Before(timers[i], timers[j])
  }

  lemma {:induction false} InsertKeepsOrder(sorted: seq<Timer>, t: Timer)
    requires Ascending(sorted) && forall k :: 0 <= k < |sorted| ==> sorted[k].sequence != t.sequence
    ensures Ascending(Insert(sorted, t))
    ensures forall u :: u in Insert(sorted, t) <==> u == t || u in sorted
  {
    if sorted != [] && !Before(t, sorted[0]) {
      var rest := sorted[1..];
      assert forall k :: 0 <= k < |rest| ==> rest[k] == sorted[k + 1];
      InsertKeepsOrder(rest, t);
      assert sorted == [sorted[0]] + rest;
      forall u | u in Insert(rest, t) ensures Before(sorted[0], u) {
        if u != t {
          var k :| 0 <= k < |rest| && rest[k] == u;
        }
      }
    }
  }

  /** The agenda lists exactly the eligible timers, each once, by deadline and then by sequence number. */
  lemma {:induction false} AgendaIsExact(timers: seq<Timer>, next: nat, now: int, bound: nat)
    requires Numbered(timers, next)
    ensures Ascending(Agenda(timers, now, bound))
    ensures forall t :: t in Agenda(timers, now, bound) <==> t in timers && Eligible(t, now, bound)
    decreases |timers|
  {
    if timers != [] {
      var rest, last := timers[..|timers| - 1], timers[|timers| - 1];
      AgendaIsExact(rest, next, now, bound);
      assert timers == rest + [last];
      var agenda := Agenda(rest, now, bound);
      forall k | 0 <= k < |agenda| ensures agenda[k].sequence != last.sequence {
        assert agenda[k] in rest;
      }
      if Eligible(last, now, bound) { InsertKeepsOrder(agenda, last); }
    }
  }

  function Without(timers: seq<Timer>, i: nat): seq<Timer>
    requires i < |timers|
  {
    timers[..i] + timers[i + 1..]
  }

  lemma {:induction false} InsertedFirst(sorted: seq<Timer>, t: Timer)
    requires forall k :: 0 <= k < |sorted| ==> sorted[k] != t
    requires Insert(sorted, t)[0] == t
    ensures Insert(sorted, t)[1..] == sorted
  {}

  lemma InsertedBehind(sorted: seq<Timer>, t: Timer)
    requires sorted != [] && Insert(sorted, t)[0] != t
    ensures Insert(sorted, t)[0] == sorted[0] && Insert(sorted, t)[1..] == Insert(sorted[1..], t)
  {}

  lemma LastRemoved(timers: seq<Timer>, next: nat, now: int, bound: nat)
    requires Numbered(timers, next) && timers != []
    requires Agenda(timers, now, bound) != [] && Agenda(timers, now, bound)[0] == timers[|timers| - 1]
    ensures Agenda(timers[..|timers| - 1], now, bound) == Agenda(timers, now, bound)[1..]
  {
    var last := |timers| - 1;
    var agenda := Agenda(timers[..last], now, bound);
    AgendaIsExact(timers, next, now, bound);
    AgendaIsExact(timers[..last], next, now, bound);
    assert timers[last] in Agenda(timers, now, bound);
    forall k | 0 <= k < |agenda| ensures agenda[k] != timers[last] {
      assert agenda[k] in timers[..last];
    }
    InsertedFirst(agenda, timers[last]);
  }

  /** Removing the first timer of the agenda leaves the rest of the agenda. */
  lemma {:induction false} FirstRemoved(timers: seq<Timer>, next: nat, now: int, bound: nat, i: nat)
    requires Numbered(timers, next) && i < |timers|
    requires Agenda(timers, now, bound) != [] && Agenda(timers, now, bound)[0] == timers[i]
    ensures Agenda(Without(timers, i), now, bound) == Agenda(timers, now, bound)[1..]
    decreases |timers|
  {
    var last := |timers| - 1;
    var rest, t := timers[..last], timers[last];
    if i == last {
      assert Without(timers, i) == rest;
      LastRemoved(timers, next, now, bound);
    } else {
      FirstIsAmongThem(timers, next, now, bound, i);
      assert Without(timers, i) == Without(rest, i) + [t];
      assert Without(timers, i)[..|timers| - 2] == Without(rest, i);
      if Eligible(t, now, bound) { InsertedBehind(Agenda(rest, now, bound), t); }
      FirstRemoved(rest, next, now, bound, i);
    }
  }

  lemma FirstIsAmongThem(timers: seq<Timer>, next: nat, now: int, bound: nat, i: nat)
    requires Numbered(timers, next) && i < |timers| - 1
    requires Agenda(timers, now, bound) != [] && Agenda(timers, now, bound)[0] == timers[i]
    ensures timers[i] != timers[|timers| - 1] && Agenda(timers[..|timers| - 1], now, bound) != []
  {
    var rest := timers[..|timers| - 1];
    AgendaIsExact(timers, next, now, bound);
    AgendaIsExact(rest, next, now, bound);
    assert timers[i] in Agenda(timers, now, bound);
    assert rest[i] == timers[i] && timers[i] in Agenda(rest, now, bound);
    assert timers[i].sequence != timers[|timers| - 1].sequence;
  }

  // ---- The dispatch ----

  function IndexOf(timers: seq<Timer>, t: Timer): (i: nat)
    requires t in timers
    ensures i < |timers| && timers[i] == t
  {
    if timers[0] == t then 0 else 1 + IndexOf(timers[1..], t)
  }

  function Drop(timers: seq<Timer>, t: Timer): seq<Timer> {
    if t in timers then Without(timers, IndexOf(timers, t)) else timers
  }

  datatype Outcome = Outcome(host: Host, fired: seq<Timer>, failed: bool)

  /** Calls back the timers of the agenda until one fails or emits. Call k behaves as the oracle says. */
  function Walk(h: Host, agenda: seq<Timer>, oracle: nat -> Behaviour, k: nat): Outcome
    decreases |agenda|
  {
    if agenda == [] then Outcome(h, [], false)
    else
      var next := PerformAll(h.(timers := Drop(h.timers, agenda[0])), oracle(k).acts);
      if oracle(k).fails || next.emitted then Outcome(next, [agenda[0]], oracle(k).fails)
      else
        var rest := Walk(next, agenda[1..], oracle, k + 1);
        Outcome(rest.host, [agenda[0]] + rest.fired, rest.failed)
  }

  function Updated(h: Host, now: int, update: Behaviour): Outcome {
    var next := PerformAll(h, update.acts);
    if update.fails || next.every.None? then Outcome(next, [], update.fails)
    else Outcome(next.(periodic := Some(now + next.every.value)), [], false)
  }

  predicate UpdateIsDue(h: Host, now: int) {
    !h.emitted && h.periodic.Some? && h.periodic.value <= now
  }

  function AfterTimers(walk: Outcome, now: int, update: Behaviour): Outcome {
    if walk.failed || !UpdateIsDue(walk.host, now) then walk
    else
      var updated := Updated(walk.host, now, update);
      Outcome(updated.host, walk.fired, updated.failed)
  }

  function RunDue(h: Host, now: int, oracle: nat -> Behaviour, update: Behaviour): Outcome {
    if h.stopped then Outcome(h, [], false)
    else AfterTimers(Walk(h.(time := now, emitted := false), Agenda(h.timers, now, h.nextSequence), oracle, 0), now,
      update)
  }

  // ---- What one dispatch promises ----

  predicate Speaks(behaviour: Behaviour) {
    exists i :: 0 <= i < |behaviour.acts| && behaviour.acts[i] == Emit(true)
  }

  lemma {:induction false} PerformAllEmits(h: Host, acts: seq<Act>)
    ensures PerformAll(h, acts).emitted <==> h.emitted || Speaks(Behaviour(acts, false))
    decreases |acts|
  {
    if acts != [] {
      var rest := acts[1..];
      PerformAllEmits(Perform(h, acts[0]), rest);
      if i :| 0 <= i < |rest| && rest[i] == Emit(true) { assert acts[i + 1] == Emit(true); }
      if i :| 0 <= i < |acts| && acts[i] == Emit(true) {
        if i > 0 { assert rest[i - 1] == Emit(true); }
      }
    }
  }

  /** Call k of a dispatch neither fails nor emits. */
  predicate Quiet(oracle: nat -> Behaviour, k: nat) {
    !oracle(k).fails && !Speaks(oracle(k))
  }

  ghost predicate AllQuiet(oracle: nat -> Behaviour, from: nat, to: int) {
    forall k: nat :: from <= k < to ==> Quiet(oracle, k)
  }

  lemma {:induction false} WalkIsPrefix(h: Host, agenda: seq<Timer>, oracle: nat -> Behaviour, k: nat)
    requires !h.emitted
    ensures var r := Walk(h, agenda, oracle, k);
            && r.fired <= agenda
            && AllQuiet(oracle, k, k + |r.fired| - 1)
            && (|r.fired| < |agenda| ==> r.failed || r.host.emitted)
            && (r.failed || r.host.emitted <==> r.fired != [] && !Quiet(oracle, k + |r.fired| - 1))
    decreases |agenda|
  {
    if agenda != [] {
      var dropped := h.(timers := Drop(h.timers, agenda[0]));
      var next := PerformAll(dropped, oracle(k).acts);
      PerformAllEmits(dropped, oracle(k).acts);
      assert Speaks(Behaviour(oracle(k).acts, false)) <==> Speaks(oracle(k));
      if !oracle(k).fails && !next.emitted {
        WalkIsPrefix(next, agenda[1..], oracle, k + 1);
      }
    }
  }

  lemma DueIsEligible(h: Host, now: int, t: Timer)
    requires Numbered(h.timers, h.nextSequence)
    ensures t in Agenda(h.timers, now, h.nextSequence) <==> t in h.timers && t.deadline <= now
  {
    AgendaIsExact(h.timers, h.nextSequence, now, h.nextSequence);
    if t in h.timers { var i :| 0 <= i < |h.timers| && h.timers[i] == t; }
  }

  lemma RunDueWalks(h: Host, now: int, oracle: nat -> Behaviour, update: Behaviour)
    requires !h.stopped
    ensures var walk := Walk(h.(time := now, emitted := false), Agenda(h.timers, now, h.nextSequence), oracle, 0);
            && RunDue(h, now, oracle, update).fired == walk.fired
            && (walk.failed ==> RunDue(h, now, oracle, update) == walk)
  {}

  /**
   * A dispatch fires the due timers in ascending order, each at most once and none created meanwhile, up to and
   * including the first whose callback fails or emits.
   */
  lemma DispatchIsExact(h: Host, now: int, oracle: nat -> Behaviour, update: Behaviour)
    requires Numbered(h.timers, h.nextSequence) && !h.stopped
    ensures var fired, agenda := RunDue(h, now, oracle, update).fired, Agenda(h.timers, now, h.nextSequence);
            && fired <= agenda && Ascending(fired)
            && (forall t :: t in agenda <==> t in h.timers && t.deadline <= now)
            && AllQuiet(oracle, 0, |fired| - 1)
            && (|fired| < |agenda| ==> fired != [] && !Quiet(oracle, |fired| - 1))
  {
    RunDueWalks(h, now, oracle, update);
    WalkIsPrefix(h.(time := now, emitted := false), Agenda(h.timers, now, h.nextSequence), oracle, 0);
    AgendaIsExact(h.timers, h.nextSequence, now, h.nextSequence);
    forall t ensures t in Agenda(h.timers, now, h.nextSequence) <==> t in h.timers && t.deadline <= now {
      DueIsEligible(h, now, t);
    }
  }

  /** The periodic update moves on exactly if it is due, succeeds, and every due timer fired quietly before it. */
  lemma UpdateComesLast(h: Host, now: int, oracle: nat -> Behaviour, update: Behaviour)
    requires !h.stopped && h.every.Some? && h.periodic.Some? && h.periodic.value <= now
    ensures var agenda := Agenda(h.timers, now, h.nextSequence);
            var r := RunDue(h, now, oracle, update);
            if AllQuiet(oracle, 0, |agenda|) && !update.fails then
              r.fired == agenda && r.host.periodic == Some(now + h.every.value) && !r.failed
            else r.host.periodic == h.periodic
  {
    var agenda := Agenda(h.timers, now, h.nextSequence);
    var begun := h.(time := now, emitted := false);
    var walk := Walk(begun, agenda, oracle, 0);
    WalkIsPrefix(begun, agenda, oracle, 0);
    WalkKeepsClock(begun, agenda, oracle, 0);
    PerformAllKeepsClock(walk.host, update.acts);
    if AllQuiet(oracle, 0, |agenda|) {
      assert !walk.failed && !walk.host.emitted;
    } else if !walk.failed && !walk.host.emitted {
      assert |walk.fired| == |agenda|;
      assert AllQuiet(oracle, 0, |agenda|);
    }
  }

  /** A dispatch fails exactly if the last callback it made failed: a timer's, or the update's once every due timer
      has fired quietly. */
  lemma FailureIsReported(h: Host, now: int, oracle: nat -> Behaviour, update: Behaviour)
    requires !h.stopped
    ensures var r, agenda := RunDue(h, now, oracle, update), Agenda(h.timers, now, h.nextSequence);
            r.failed <==>
              || (r.fired != [] && oracle(|r.fired| - 1).fails)
              || (AllQuiet(oracle, 0, |agenda|) && h.periodic.Some? && h.periodic.value <= now && update.fails)
  {
    var agenda := Agenda(h.timers, now, h.nextSequence);
    var begun := h.(time := now, emitted := false);
    var walk := Walk(begun, agenda, oracle, 0);
    WalkIsPrefix(begun, agenda, oracle, 0);
    WalkKeepsClock(begun, agenda, oracle, 0);
    WalkFails(begun, agenda, oracle, 0);
    if AllQuiet(oracle, 0, |agenda|) {
      if walk.fired != [] { assert Quiet(oracle, |walk.fired| - 1); }
      assert !walk.failed && !walk.host.emitted;
    } else if !walk.failed && !walk.host.emitted {
      assert |walk.fired| == |agenda|;
      assert AllQuiet(oracle, 0, |agenda|);
    }
  }

  lemma {:induction false} WalkFails(h: Host, agenda: seq<Timer>, oracle: nat -> Behaviour, k: nat)
    ensures var r := Walk(h, agenda, oracle, k);
            r.failed <==> r.fired != [] && oracle(k + |r.fired| - 1).fails
    decreases |agenda|
  {
    if agenda != [] {
      var next := PerformAll(h.(timers := Drop(h.timers, agenda[0])), oracle(k).acts);
      WalkFails(next, agenda[1..], oracle, k + 1);
    }
  }

  /** The update plays no part in a dispatch before it is due, after a callback that fails or emits, or once the host
      has stopped; a stopped host does nothing at all. */
  lemma UpdateWaits(h: Host, now: int, oracle: nat -> Behaviour, update: Behaviour, other: Behaviour)
    requires h.stopped || h.periodic.None? || h.periodic.value > now
             || !AllQuiet(oracle, 0, |Agenda(h.timers, now, h.nextSequence)|)
    ensures RunDue(h, now, oracle, update) == RunDue(h, now, oracle, other)
    ensures h.stopped ==> RunDue(h, now, oracle, update) == Outcome(h, [], false)
  {
    if !h.stopped {
      var agenda := Agenda(h.timers, now, h.nextSequence);
      var begun := h.(time := now, emitted := false);
      WalkIsPrefix(begun, agenda, oracle, 0);
      WalkKeepsClock(begun, agenda, oracle, 0);
      var walk := Walk(begun, agenda, oracle, 0);
      if !walk.failed && !walk.host.emitted {
        assert |walk.fired| == |agenda|;
        assert AllQuiet(oracle, 0, |agenda|);
      }
    }
  }

  /** Nothing happens before its time: a dispatch calls back or updates exactly if the next deadline has come. */
  lemma DueIffDeadlinePassed(h: Host, now: int)
    requires Numbered(h.timers, h.nextSequence) && !h.stopped
    ensures Agenda(h.timers, now, h.nextSequence) != [] || (h.periodic.Some? && h.periodic.value <= now) <==>
              NextDeadline(h).Some? && NextDeadline(h).value <= now
  {
    var agenda := Agenda(h.timers, now, h.nextSequence);
    EarliestIsLeast(h.periodic, h.timers);
    if agenda != [] {
      DueIsEligible(h, now, agenda[0]);
    }
    if exists t :: t in h.timers && t.deadline <= now {
      var t :| t in h.timers && t.deadline <= now;
      DueIsEligible(h, now, t);
    }
  }

  // ---- The next deadline ----

  function Earliest(first: Option<int>, timers: seq<Timer>): Option<int>
    decreases |timers|
  {
    if timers == [] then first
    else Earliest(if first.None? || timers[0].deadline < first.value then Some(timers[0].deadline)
      else first, timers[1..])
  }

  function NextDeadline(h: Host): Option<int> {
    if h.stopped then None else Earliest(h.periodic, h.timers)
  }

  lemma {:induction false} EarliestIsLeast(first: Option<int>, timers: seq<Timer>)
    ensures var r := Earliest(first, timers);
            && (r.None? <==> first.None? && timers == [])
            && (r.Some? ==> first == r || exists t :: t in timers && t.deadline == r.value)
            && (r.Some? && first.Some? ==> r.value <= first.value)
            && (r.Some? ==> forall t :: t in timers ==> r.value <= t.deadline)
    decreases |timers|
  {
    if timers != [] {
      var nearer := if first.None? || timers[0].deadline < first.value then Some(timers[0].deadline) else first;
      EarliestIsLeast(nearer, timers[1..]);
      var r := Earliest(first, timers);
      assert timers == [timers[0]] + timers[1..];
      assert r.Some? && (first == r || exists t :: t in timers && t.deadline == r.value) by {
        if r == nearer && nearer != first { assert timers[0] in timers; }
      }
    }
  }

  lemma {:induction false} PerformAllKeepsClock(h: Host, acts: seq<Act>)
    ensures var r := PerformAll(h, acts);
            r.time == h.time && r.periodic == h.periodic && r.every == h.every && r.stopped == h.stopped
    decreases |acts|
  {
    if acts != [] { PerformAllKeepsClock(Perform(h, acts[0]), acts[1..]); }
  }

  lemma {:induction false} WalkKeepsClock(h: Host, agenda: seq<Timer>, oracle: nat -> Behaviour, k: nat)
    ensures var r := Walk(h, agenda, oracle, k).host;
            r.time == h.time && r.periodic == h.periodic && r.every == h.every && r.stopped == h.stopped
    decreases |agenda|
  {
    if agenda != [] {
      var dropped := h.(timers := Drop(h.timers, agenda[0]));
      PerformAllKeepsClock(dropped, oracle(k).acts);
      WalkKeepsClock(PerformAll(dropped, oracle(k).acts), agenda[1..], oracle, k + 1);
    }
  }

  // ---- The lifetime of a host ----

  predicate Counted(h: Host) {
    Numbered(h.timers, h.nextSequence) && |h.timers| <= MAXIMUM_TIMERS
  }

  /** The second host is the first after some requests: timers were only appended, numbered onwards, never in the
      past. */
  predicate Grown(a: Host, b: Host) {
    && |a.timers| <= |b.timers| && b.timers[..|a.timers|] == a.timers
    && a.nextSequence <= b.nextSequence && b.time == a.time
    && forall i :: |a.timers| <= i < |b.timers| ==>
         a.nextSequence <= b.timers[i].sequence < b.nextSequence && a.time <= b.timers[i].deadline
  }

  lemma GrownTwice(a: Host, b: Host, c: Host)
    requires Grown(a, b) && Grown(b, c)
    ensures Grown(a, c)
  {
    assert c.timers[..|a.timers|] == c.timers[..|b.timers|][..|a.timers|];
    forall i | |a.timers| <= i < |c.timers|
      ensures a.nextSequence <= c.timers[i].sequence < c.nextSequence && a.time <= c.timers[i].deadline
    {
      if i < |b.timers| { assert c.timers[..|b.timers|][i] == b.timers[i]; }
    }
  }

  lemma PerformGrows(h: Host, act: Act)
    requires Counted(h)
    ensures Grown(h, Perform(h, act)) && Counted(Perform(h, act))
  {
    var next := Perform(h, act);
    assert next.timers[..|h.timers|] == h.timers;
  }

  lemma {:induction false} PerformAllGrows(h: Host, acts: seq<Act>)
    requires Counted(h)
    ensures Grown(h, PerformAll(h, acts)) && Counted(PerformAll(h, acts))
    decreases |acts|
  {
    if acts == [] {
      assert h.timers[..|h.timers|] == h.timers;
    } else {
      var next := Perform(h, acts[0]);
      PerformGrows(h, acts[0]);
      PerformAllGrows(next, acts[1..]);
      GrownTwice(h, next, PerformAll(next, acts[1..]));
    }
  }

  /** The requests for timers among what a callback does, in order. */
  function Requests(acts: seq<Act>): seq<Act>
    decreases |acts|
  {
    if acts == [] then []
    else (if acts[0].Schedule? then [acts[0]] else []) + Requests(acts[1..])
  }

  lemma {:induction false} RequestsAreSchedules(acts: seq<Act>)
    ensures forall i :: 0 <= i < |Requests(acts)| ==> Requests(acts)[i].Schedule?
    decreases |acts|
  {
    if acts != [] { RequestsAreSchedules(acts[1..]); }
  }

  /** The timers that `n` of the requests make. */
  predicate Makes(h: Host, asked: seq<Act>, n: nat, after: Host) {
    && n <= |asked| && |after.timers| == |h.timers| + n && after.timers[..|h.timers|] == h.timers
    && after.nextSequence == h.nextSequence + n
    && forall i :: 0 <= i < n ==>
         && asked[i].Schedule?
         && after.timers[|h.timers| + i]
              == Timer(h.time + asked[i].duration, h.nextSequence + i, asked[i].reference)
  }

  lemma MakesOneMore(h: Host, ask: Act, next: Host, asked: seq<Act>, n: nat, after: Host)
    requires ask.Schedule? && Makes(next, asked, n, after)
    requires next.timers == h.timers + [Timer(h.time + ask.duration, h.nextSequence, ask.reference)]
    requires next.nextSequence == h.nextSequence + 1 && next.time == h.time
    ensures Makes(h, [ask] + asked, n + 1, after)
  {
    assert after.timers[..|h.timers|] == after.timers[..|next.timers|][..|h.timers|];
    assert after.timers[|h.timers|] == after.timers[..|next.timers|][|h.timers|];
    forall i | 0 <= i < n + 1
      ensures ([ask] + asked)[i].Schedule?
      ensures after.timers[|h.timers| + i]
        == Timer(h.time + ([ask] + asked)[i].duration, h.nextSequence + i, ([ask] + asked)[i].reference)
    {
      if i > 0 { assert after.timers[|next.timers| + (i - 1)] == after.timers[|h.timers| + i]; }
    }
  }

  lemma OneRequest(h: Host, act: Act, next: Host, asked: seq<Act>, all: seq<Act>, after: Host)
    requires |h.timers| <= MAXIMUM_TIMERS && next == Perform(h, act)
    requires all == (if act.Schedule? then [act] else []) + asked
    requires Makes(next, asked, Least(|asked|, MAXIMUM_TIMERS - |next.timers|), after)
    ensures Makes(h, all, Least(|all|, MAXIMUM_TIMERS - |h.timers|), after)
  {
    if act.Schedule? && |h.timers| < MAXIMUM_TIMERS {
      MakesOneMore(h, act, next, asked, Least(|asked|, MAXIMUM_TIMERS - |next.timers|), after);
    } else if act.Schedule? {
      assert next == h;
    } else {
      MakesSame(h, next, asked, Least(|asked|, MAXIMUM_TIMERS - |h.timers|), after);
    }
  }

  /** The first requests of a callback, as many as there is room for, each become a timer that is due the asked time
      from now, numbered on; the others leave no trace, and the timers that wait stay. */
  lemma {:induction false} RequestsAreKept(h: Host, acts: seq<Act>, after: Host)
    requires |h.timers| <= MAXIMUM_TIMERS && after == PerformAll(h, acts)
    ensures Makes(h, Requests(acts), Least(|Requests(acts)|, MAXIMUM_TIMERS - |h.timers|), after)
    decreases |acts|
  {
    if acts == [] {
      assert h.timers[..|h.timers|] == h.timers;
    } else {
      var next := Perform(h, acts[0]);
      RequestsAreKept(next, acts[1..], after);
      OneRequest(h, acts[0], next, Requests(acts[1..]), Requests(acts), after);
    }
  }

  lemma MakesSame(h: Host, next: Host, asked: seq<Act>, n: nat, after: Host)
    requires Makes(next, asked, n, after)
    requires next.timers == h.timers && next.nextSequence == h.nextSequence && next.time == h.time
    ensures Makes(h, [] + asked, n, after)
  {
    assert [] + asked == asked;
  }

  function Least(a: nat, b: nat): nat {
    if a <= b then a else b
  }

  lemma {:induction false} IneligibleIgnored(timers: seq<Timer>, more: seq<Timer>, now: int, bound: nat)
    requires forall i :: 0 <= i < |more| ==> !Eligible(more[i], now, bound)
    ensures Agenda(timers + more, now, bound) == Agenda(timers, now, bound)
    decreases |more|
  {
    if more == [] {
      assert timers + more == timers;
    } else {
      var fewer := more[..|more| - 1];
      IneligibleIgnored(timers, fewer, now, bound);
      assert (timers + more)[..|timers + more| - 1] == timers + fewer;
    }
  }

  lemma DropRemoves(timers: seq<Timer>, next: nat, t: Timer)
    requires Numbered(timers, next) && t in timers
    ensures Numbered(Drop(timers, t), next) && |Drop(timers, t)| == |timers| - 1
    ensures forall u :: u in Drop(timers, t) <==> u in timers && u != t
  {
    var i := IndexOf(timers, t);
    forall u | u in timers && u != t ensures u in Without(timers, i) {
      var k :| 0 <= k < |timers| && timers[k] == u;
      assert Without(timers, i)[if k < i then k else k - 1] == u;
    }
  }

  /** Between two callbacks of a dispatch the remaining agenda is what a fresh scan would find. */
  lemma AgendaStep(h: Host, now: int, bound: nat, acts: seq<Act>)
    requires Counted(h) && bound <= h.nextSequence
    requires Agenda(h.timers, now, bound) != []
    ensures var agenda := Agenda(h.timers, now, bound);
            agenda[0] in h.timers
            && Agenda(PerformAll(h.(timers := Drop(h.timers, agenda[0])), acts).timers, now, bound) == agenda[1..]
  {
    var agenda := Agenda(h.timers, now, bound);
    AgendaIsExact(h.timers, h.nextSequence, now, bound);
    assert agenda[0] in h.timers;
    DropRemoves(h.timers, h.nextSequence, agenda[0]);
    FirstRemoved(h.timers, h.nextSequence, now, bound, IndexOf(h.timers, agenda[0]));
    var dropped := h.(timers := Drop(h.timers, agenda[0]));
    PerformAllGrows(dropped, acts);
    var next := PerformAll(dropped, acts);
    var more := next.timers[|dropped.timers|..];
    assert next.timers == dropped.timers + more;
    IneligibleIgnored(dropped.timers, more, now, bound);
  }

  /** The callbacks run so far, in order, and the timers that wait behind them. */
  predicate Orderly(h: Host, fired: seq<Timer>) {
    && Counted(h)
    && Ascending(fired)
    && (fired != [] ==>
          var last := fired[|fired| - 1];
          last.deadline <= h.time && last.sequence < h.nextSequence
          && forall i :: 0 <= i < |h.timers| ==> Before(last, h.timers[i]))
  }

  lemma GrownIsOrderly(a: Host, b: Host, fired: seq<Timer>)
    requires Orderly(a, fired) && Grown(a, b) && Counted(b)
    ensures Orderly(b, fired)
  {
    if fired != [] {
      var last := fired[|fired| - 1];
      forall i | 0 <= i < |b.timers| ensures Before(last, b.timers[i]) {
        if i < |a.timers| { assert b.timers[..|a.timers|][i] == a.timers[i]; }
      }
    }
  }

  lemma AscendingExtends(fired: seq<Timer>, t: Timer)
    requires Ascending(fired) && (fired != [] ==> Before(fired[|fired| - 1], t))
    ensures Ascending(fired + [t])
  {
    forall i, j | 0 <= i < j < |fired + [t]| ensures Before((fired + [t])[i], (fired + [t])[j]) {
      if j == |fired| && i < |fired| - 1 { assert Before(fired[i], fired[|fired| - 1]); }
    }
  }

  /** Timers made during the dispatch are not due before it. */
  predicate Recent(timers: seq<Timer>, now: int, bound: nat) {
    forall i :: 0 <= i < |timers| && timers[i].sequence >= bound ==> now <= timers[i].deadline
  }

  lemma FiringIsOrderly(h: Host, fired: seq<Timer>, now: int, bound: nat)
    requires Orderly(h, fired) && h.time == now && bound <= h.nextSequence && Recent(h.timers, now, bound)
    requires Agenda(h.timers, now, bound) != []
    ensures var t := Agenda(h.timers, now, bound)[0];
            t in h.timers && Orderly(h.(timers := Drop(h.timers, t)), fired + [t])
            && Recent(Drop(h.timers, t), now, bound)
  {
    var agenda := Agenda(h.timers, now, bound);
    var t := agenda[0];
    AgendaIsExact(h.timers, h.nextSequence, now, bound);
    assert t in agenda;
    DropRemoves(h.timers, h.nextSequence, t);
    AscendingExtends(fired, t);
    var rest := Drop(h.timers, t);
    forall i | 0 <= i < |rest| ensures Before(t, rest[i]) && (rest[i].sequence >= bound ==> now <= rest[i].deadline) {
      assert rest[i] in rest;
      assert rest[i] in h.timers && rest[i] != t;
      if Eligible(rest[i], now, bound) {
        assert rest[i] in agenda;
        var k :| 0 <= k < |agenda| && agenda[k] == rest[i];
      }
    }
  }

  lemma GrownIsRecent(a: Host, b: Host, now: int, bound: nat)
    requires Grown(a, b) && a.time == now && Recent(a.timers, now, bound)
    ensures Recent(b.timers, now, bound)
  {
    forall i | 0 <= i < |b.timers| && b.timers[i].sequence >= bound ensures now <= b.timers[i].deadline {
      if i < |a.timers| { assert b.timers[..|a.timers|][i] == a.timers[i]; }
    }
  }

  lemma {:induction false} WalkIsOrderly(h: Host, fired: seq<Timer>, now: int, bound: nat, oracle: nat -> Behaviour,
      k: nat)
    requires Orderly(h, fired) && h.time == now && bound <= h.nextSequence && Recent(h.timers, now, bound)
    ensures var r := Walk(h, Agenda(h.timers, now, bound), oracle, k);
            Orderly(r.host, fired + r.fired) && r.host.time == now
    decreases |Agenda(h.timers, now, bound)|
  {
    var agenda := Agenda(h.timers, now, bound);
    if agenda == [] {
      assert fired + [] == fired;
    } else {
      var next := FireOne(h, fired, now, bound, oracle(k).acts);
      if !oracle(k).fails && !next.emitted {
        WalkIsOrderly(next, fired + [agenda[0]], now, bound, oracle, k + 1);
        FiredTogether(fired, agenda[0], Walk(next, agenda[1..], oracle, k + 1).fired);
      }
    }
  }

  lemma FiredTogether(fired: seq<Timer>, t: Timer, rest: seq<Timer>)
    ensures (fired + [t]) + rest == fired + ([t] + rest)
  {
  }

  lemma FireOne(h: Host, fired: seq<Timer>, now: int, bound: nat, acts: seq<Act>) returns (next: Host)
    requires Orderly(h, fired) && h.time == now && bound <= h.nextSequence && Recent(h.timers, now, bound)
    requires Agenda(h.timers, now, bound) != []
    ensures var agenda := Agenda(h.timers, now, bound);
            && next == PerformAll(h.(timers := Drop(h.timers, agenda[0])), acts)
            && Orderly(next, fired + [agenda[0]]) && next.time == now && bound <= next.nextSequence
            && Recent(next.timers, now, bound) && Agenda(next.timers, now, bound) == agenda[1..]
  {
    var t := Agenda(h.timers, now, bound)[0];
    var dropped := h.(timers := Drop(h.timers, t));
    next := PerformAll(dropped, acts);
    FiringIsOrderly(h, fired, now, bound);
    AgendaStep(h, now, bound, acts);
    PerformAllGrows(dropped, acts);
    GrownIsOrderly(dropped, next, fired + [t]);
    GrownIsRecent(dropped, next, now, bound);
  }

  /** Calling back a timer takes it from those that wait and adds what the callback asks for, as room allows. */
  predicate CalledBack(before: Host, t: Timer, acts: seq<Act>, after: Host) {
    && t in before.timers && |before.timers| <= MAXIMUM_TIMERS
    && Makes(before.(timers := Drop(before.timers, t)), Requests(acts),
             Least(|Requests(acts)|, MAXIMUM_TIMERS + 1 - |before.timers|), after)
  }

  /** The host between the callbacks of a dispatch. */
  predicate Stages(stages: seq<Host>, fired: seq<Timer>, oracle: nat -> Behaviour, k: nat, time: int) {
    && |stages| == |fired| + 1
    && (forall j :: 0 <= j < |stages| ==> stages[j].time == time)
    && forall j :: 0 <= j < |fired| ==> CalledBack(stages[j], fired[j], oracle(k + j).acts, stages[j + 1])
  }

  /** Over a dispatch every callback's requests are kept: from stage to stage the timer called back goes and those it
      asks for come, due the asked time from the moment of the dispatch. */
  lemma {:induction false} WalkCarriesRequests(h: Host, now: int, bound: nat, oracle: nat -> Behaviour, k: nat,
    r: Outcome) returns (stages: seq<Host>)
    requires Counted(h) && bound <= h.nextSequence && r == Walk(h, Agenda(h.timers, now, bound), oracle, k)
    ensures Stages(stages, r.fired, oracle, k, h.time) && stages[0] == h && stages[|r.fired|] == r.host
    decreases |Agenda(h.timers, now, bound)|
  {
    var agenda := Agenda(h.timers, now, bound);
    if agenda == [] {
      stages := [h];
    } else {
      var acts := oracle(k).acts;
      AgendaStep(h, now, bound, acts);
      DropRemoves(h.timers, h.nextSequence, agenda[0]);
      var dropped := h.(timers := Drop(h.timers, agenda[0]));
      var next := PerformAll(dropped, acts);
      PerformAllGrows(dropped, acts);
      RequestsAreKept(dropped, acts, next);
      if oracle(k).fails || next.emitted {
        stages := [h, next];
      } else {
        var rest := Walk(next, agenda[1..], oracle, k + 1);
        var later := WalkCarriesRequests(next, now, bound, oracle, k + 1, rest);
        stages := [h] + later;
        StagesExtend(h, agenda[0], oracle, k, later, rest.fired);
      }
    }
  }

  lemma StagesExtend(h: Host, t: Timer, oracle: nat -> Behaviour, k: nat, later: seq<Host>, fired: seq<Timer>)
    requires Stages(later, fired, oracle, k + 1, h.time) && CalledBack(h, t, oracle(k).acts, later[0])
    ensures Stages([h] + later, [t] + fired, oracle, k, h.time)
  {
    forall j | 0 <= j < |fired| + 1
      ensures CalledBack(([h] + later)[j], ([t] + fired)[j], oracle(k + j).acts, ([h] + later)[j + 1])
    {
      if j > 0 {
        assert CalledBack(later[j - 1], fired[j - 1], oracle(k + 1 + (j - 1)).acts, later[j]);
      }
    }
  }

  /** The update's own requests are kept as well, whether or not it fails. */
  lemma UpdateCarriesRequests(walk: Outcome, now: int, update: Behaviour, after: Host)
    requires !walk.failed && UpdateIsDue(walk.host, now) && |walk.host.timers| <= MAXIMUM_TIMERS
    requires after == AfterTimers(walk, now, update).host
    ensures Makes(walk.host, Requests(update.acts),
      Least(|Requests(update.acts)|, MAXIMUM_TIMERS - |walk.host.timers|), after)
  {
    RequestsAreKept(walk.host, update.acts, PerformAll(walk.host, update.acts));
  }

  /** A timer that waits and does not fire stays, and a timer that fires is gone. */
  lemma {:induction false} WalkKeepsTheRest(h: Host, now: int, bound: nat, oracle: nat -> Behaviour, k: nat, t: Timer)
    requires Counted(h) && bound <= h.nextSequence
    requires t.sequence < bound
    ensures var r := Walk(h, Agenda(h.timers, now, bound), oracle, k);
            t in r.host.timers <==> t in h.timers && t !in r.fired
    decreases |Agenda(h.timers, now, bound)|
  {
    var agenda := Agenda(h.timers, now, bound);
    if agenda != [] {
      AgendaStep(h, now, bound, oracle(k).acts);
      DropRemoves(h.timers, h.nextSequence, agenda[0]);
      var dropped := h.(timers := Drop(h.timers, agenda[0]));
      var next := PerformAll(dropped, oracle(k).acts);
      PerformAllGrows(dropped, oracle(k).acts);
      OldStays(dropped, next, t);
      WalkKeepsTheRest(next, now, bound, oracle, k + 1, t);
    }
  }

  lemma OldStays(a: Host, b: Host, t: Timer)
    requires Grown(a, b) && t.sequence < a.nextSequence
    ensures t in b.timers <==> t in a.timers
  {
    if t in b.timers {
      var i :| 0 <= i < |b.timers| && b.timers[i] == t;
      if i < |a.timers| { assert b.timers[..|a.timers|][i] == t; }
    }
    if t in a.timers {
      assert t in b.timers[..|a.timers|];
    }
  }

  // ---- Whole lifetimes ----

  datatype Event =
    | Dispatch(now: int, acts: seq<Act>)
    | Due(now: int, oracle: nat -> Behaviour, update: Behaviour)
    | Shutdown(now: int, acts: seq<Act>)

  datatype Life = Life(host: Host, fired: seq<Timer>)

  function Stopped(h: Host, now: int, acts: seq<Act>): Host {
    PerformAll(h.(time := now, stopped := true), acts).(timers := [], periodic := None)
  }

  function Step(life: Life, event: Event): Life {
    match event
    case Dispatch(now, acts) => life.(host := PerformAll(life.host.(time := now), acts))
    case Due(now, oracle, update) =>
      var r := RunDue(life.host, now, oracle, update);
      Life(r.host, life.fired + r.fired)
    case Shutdown(now, acts) => life.(host := Stopped(life.host, now, acts))
  }

  function Live(life: Life, events: seq<Event>): Life
    decreases |events|
  {
    if events == [] then life else Live(Step(life, events[0]), events[1..])
  }

  /** The clock never runs backwards. */
  predicate Steady(time: int, events: seq<Event>)
    decreases |events|
  {
    events != [] ==> time <= events[0].now && Steady(events[0].now, events[1..])
  }

  lemma LaterIsOrderly(h: Host, fired: seq<Timer>, now: int)
    requires Orderly(h, fired) && h.time <= now
    ensures Orderly(h.(time := now, emitted := false), fired) && Orderly(h.(time := now), fired)
  {}

  lemma PerformAllIsOrderly(h: Host, fired: seq<Timer>, acts: seq<Act>)
    requires Orderly(h, fired)
    ensures Orderly(PerformAll(h, acts), fired) && PerformAll(h, acts).time == h.time
  {
    PerformAllGrows(h, acts);
    GrownIsOrderly(h, PerformAll(h, acts), fired);
  }

  lemma RunDueIsOrderly(h: Host, fired: seq<Timer>, now: int, oracle: nat -> Behaviour, update: Behaviour)
    requires Orderly(h, fired) && h.time <= now
    ensures var r := RunDue(h, now, oracle, update);
            Orderly(r.host, fired + r.fired) && r.host.time <= now
  {
    var r := RunDue(h, now, oracle, update);
    if h.stopped {
      assert fired + r.fired == fired;
    } else {
      var begun := h.(time := now, emitted := false);
      LaterIsOrderly(h, fired, now);
      assert Recent(begun.timers, now, h.nextSequence);
      WalkIsOrderly(begun, fired, now, h.nextSequence, oracle, 0);
      var walk := Walk(begun, Agenda(h.timers, now, h.nextSequence), oracle, 0);
      PerformAllIsOrderly(walk.host, fired + walk.fired, update.acts);
    }
  }

  lemma StepIsOrderly(life: Life, event: Event)
    requires Orderly(life.host, life.fired) && life.host.time <= event.now
    ensures Orderly(Step(life, event).host, Step(life, event).fired) && Step(life, event).host.time <= event.now
  {
    LaterIsOrderly(life.host, life.fired, event.now);
    match event
    case Dispatch(now, acts) => PerformAllIsOrderly(life.host.(time := now), life.fired, acts);
    case Due(now, oracle, update) => RunDueIsOrderly(life.host, life.fired, now, oracle, update);
    case Shutdown(now, acts) => PerformAllIsOrderly(life.host.(time := now, stopped := true), life.fired, acts);
  }

  /**
   * Over the whole life of a host, whatever its callbacks do, timers fire in strictly ascending order of deadline and
   * sequence number; so none fires twice, and every waiting timer comes after all that have fired.
   */
  lemma {:induction false} LifetimeIsOrderly(life: Life, events: seq<Event>)
    requires Orderly(life.host, life.fired) && Steady(life.host.time, events)
    ensures var end := Live(life, events); Orderly(end.host, end.fired) && life.fired <= end.fired
    decreases |events|
  {
    if events != [] {
      StepIsOrderly(life, events[0]);
      SteadyFromEarlier(Step(life, events[0]).host.time, events[0].now, events[1..]);
      LifetimeIsOrderly(Step(life, events[0]), events[1..]);
    }
  }

  lemma SteadyFromEarlier(earlier: int, time: int, events: seq<Event>)
    requires earlier <= time && Steady(time, events)
    ensures Steady(earlier, events)
  {}

  /** The sequence number belongs to this timer alone, among those that wait. */
  predicate Owns(h: Host, t: Timer) {
    t.sequence < h.nextSequence &&
      forall i :: 0 <= i < |h.timers| && h.timers[i].sequence == t.sequence ==> h.timers[i] == t
  }

  lemma GrownOwns(a: Host, b: Host, t: Timer)
    requires Owns(a, t) && Grown(a, b)
    ensures Owns(b, t)
  {
    forall i | 0 <= i < |b.timers| && b.timers[i].sequence == t.sequence ensures b.timers[i] == t {
      if i < |a.timers| { assert b.timers[..|a.timers|][i] == a.timers[i]; }
    }
  }

  lemma PerformAllOwns(h: Host, acts: seq<Act>, t: Timer)
    requires Counted(h) && Owns(h, t)
    ensures Counted(PerformAll(h, acts)) && Owns(PerformAll(h, acts), t)
  {
    PerformAllGrows(h, acts);
    GrownOwns(h, PerformAll(h, acts), t);
  }

  lemma {:induction false} WalkOwns(h: Host, now: int, bound: nat, oracle: nat -> Behaviour, k: nat, t: Timer)
    requires Counted(h) && Owns(h, t) && bound <= h.nextSequence
    ensures var r := Walk(h, Agenda(h.timers, now, bound), oracle, k);
            && Counted(r.host) && Owns(r.host, t)
            && forall u :: u in r.fired && u.sequence == t.sequence ==> u == t && t.deadline <= now
    decreases |Agenda(h.timers, now, bound)|
  {
    var agenda := Agenda(h.timers, now, bound);
    if agenda != [] {
      AgendaIsExact(h.timers, h.nextSequence, now, bound);
      AgendaStep(h, now, bound, oracle(k).acts);
      DropRemoves(h.timers, h.nextSequence, agenda[0]);
      var dropped := h.(timers := Drop(h.timers, agenda[0]));
      forall i | 0 <= i < |dropped.timers| && dropped.timers[i].sequence == t.sequence ensures dropped.timers[i] == t {
        assert dropped.timers[i] in dropped.timers;
      }
      PerformAllOwns(dropped, oracle(k).acts, t);
      PerformAllGrows(dropped, oracle(k).acts);
      assert agenda[0] in agenda;
      WalkOwns(PerformAll(dropped, oracle(k).acts), now, bound, oracle, k + 1, t);
    }
  }

  /** A timer fires as itself and not before its deadline. */
  lemma StepOwns(life: Life, event: Event, t: Timer)
    requires Counted(life.host) && Owns(life.host, t)
    ensures var after := Step(life, event);
            && Counted(after.host) && Owns(after.host, t) && life.fired <= after.fired
            && forall k :: |life.fired| <= k < |after.fired| && after.fired[k].sequence == t.sequence ==>
                 after.fired[k] == t && t.deadline <= event.now
  {
    var h := life.host;
    match event
    case Dispatch(now, acts) => PerformAllOwns(h.(time := now), acts, t);
    case Due(now, oracle, update) =>
      if !h.stopped {
        var begun := h.(time := now, emitted := false);
        WalkOwns(begun, now, h.nextSequence, oracle, 0, t);
        PerformAllOwns(Walk(begun, Agenda(h.timers, now, h.nextSequence), oracle, 0).host, update.acts, t);
      }
    case Shutdown(now, acts) => PerformAllOwns(h.(time := now, stopped := true), acts, t);
  }

  lemma {:induction false} LiveOwns(life: Life, events: seq<Event>, t: Timer)
    requires Counted(life.host) && Owns(life.host, t)
    ensures Counted(Live(life, events).host) && Owns(Live(life, events).host, t)
    decreases |events|
  {
    if events != [] {
      StepOwns(life, events[0], t);
      LiveOwns(Step(life, events[0]), events[1..], t);
    }
  }

  lemma KeptTimerOwns(h: Host, i: nat)
    requires Counted(h) && i < |h.timers|
    ensures Owns(h, h.timers[i])
  {
    forall j | 0 <= j < |h.timers| && j != i ensures h.timers[j].sequence != h.timers[i].sequence {
      var first, second := if j < i then j else i, if j < i then i else j;
      assert h.timers[first].sequence != h.timers[second].sequence;
    }
  }

  /** A request made at some time for a timer after some duration: if it was accepted, then whatever happens later, the
      timer under its number fires in no dispatch before that duration has passed, and with its own callback. */
  lemma NoTimerIsEarly(life: Life, at: int, acts: seq<Act>, i: nat, later: seq<Event>, now: int,
      oracle: nat -> Behaviour, update: Behaviour)
    requires Counted(life.host) && i < |Requests(acts)| && |life.host.timers| + i < MAXIMUM_TIMERS
    ensures Requests(acts)[i].Schedule?
    ensures var ask, number := Requests(acts)[i], life.host.nextSequence + i;
            var before := Live(Step(life, Dispatch(at, acts)), later);
            var after := Step(before, Due(now, oracle, update));
            forall k :: |before.fired| <= k < |after.fired| && after.fired[k].sequence == number ==>
              at + ask.duration <= now && after.fired[k].reference == ask.reference
  {
    var h := life.host.(time := at);
    var asked := Step(life, Dispatch(at, acts));
    RequestsAreKept(h, acts, asked.host);
    PerformAllGrows(h, acts);
    RequestsAreSchedules(acts);
    var t := asked.host.timers[|h.timers| + i];
    KeptTimerOwns(asked.host, |h.timers| + i);
    LiveOwns(asked, later, t);
    StepOwns(Live(asked, later), Due(now, oracle, update), t);
  }

  /** Shutting down drops every timer and the update: there is no next deadline. */
  lemma ShutdownDropsAll(life: Life, now: int, acts: seq<Act>)
    ensures var after := Step(life, Shutdown(now, acts));
            && after.fired == life.fired && after.host.timers == [] && after.host.periodic.None? && after.host.stopped
            && NextDeadline(after.host).None?
  {
    PerformAllKeepsClock(life.host.(time := now, stopped := true), acts);
  }

  /** After shutdown nothing fires any more. */
  lemma {:induction false} NothingFiresAfterShutdown(life: Life, events: seq<Event>)
    requires life.host.stopped
    ensures Live(life, events).fired == life.fired
    decreases |events|
  {
    if events != [] {
      match events[0] {
        case Dispatch(now, acts) => PerformAllKeepsClock(life.host.(time := now), acts);
        case Due(_, _, _) => assert life.fired + [] == life.fired;
        case Shutdown(now, acts) => PerformAllKeepsClock(life.host.(time := now, stopped := true), acts);
      }
      NothingFiresAfterShutdown(Step(life, events[0]), events[1..]);
    }
  }

  // ---- The object ----

  class Scheduler {
    var timers: seq<Timer>
    var nextSequence: nat
    var currentTime: int
    var emittedThisDispatch: bool
    var stopped: bool
    var every: Option<nat>
    var periodicDeadline: Option<int>

    function Value(): Host
      reads this
    {
      Host(timers, nextSequence, currentTime, emittedThisDispatch, stopped, every, periodicDeadline)
    }

    constructor ()
      ensures Counted(Value()) && !stopped
    {
      timers, nextSequence, currentTime, emittedThisDispatch, stopped := [], 0, 0, false, false;
      every, periodicDeadline := None, None;
    }

    method ScheduleTimer(duration: nat, reference: int) returns (accepted: bool)
      modifies this
      ensures Value() == Perform(old(Value()), Schedule(duration, reference))
      ensures accepted <==> old(|timers|) < MAXIMUM_TIMERS
      ensures accepted ==>
        && timers == old(timers) + [Timer(old(currentTime) + duration, old(nextSequence), reference)]
        && nextSequence == old(nextSequence) + 1
      ensures !accepted ==> timers == old(timers) && nextSequence == old(nextSequence)
    {
      if |timers| >= MAXIMUM_TIMERS { return false; }
      timers := timers + [Timer(currentTime + duration, nextSequence, reference)];
      nextSequence := nextSequence + 1;
      accepted := true;
    }

    method Call(acts: seq<Act>)
      modifies this
      ensures Value() == PerformAll(old(Value()), acts)
    {
      var i := 0;
      while i < |acts|
        invariant 0 <= i <= |acts|
        invariant PerformAll(Value(), acts[i..]) == PerformAll(old(Value()), acts)
      {
        assert acts[i..][1..] == acts[i + 1..];
        match acts[i] {
          case Emit(accepted) => emittedThisDispatch := emittedThisDispatch || accepted;
          case Schedule(duration, reference) => var _ := ScheduleTimer(duration, reference);
        }
        i := i + 1;
      }
    }

    /** The scan for the timer to run next. */
    method FindDue(now: int, bound: nat) returns (found: Option<nat>)
      requires Numbered(timers, nextSequence)
      ensures found.None? <==> Agenda(timers, now, bound) == []
      ensures found.Some? ==> found.value < |timers| && Agenda(timers, now, bound)[0] == timers[found.value]
    {
      found := None;
      var i := 0;
      while i < |timers|
        invariant 0 <= i <= |timers|
        invariant found.None? ==> forall k :: 0 <= k < i ==> !Eligible(timers[k], now, bound)
        invariant found.Some? ==> found.value < i && Eligible(timers[found.value], now, bound)
        invariant found.Some? ==> forall k :: 0 <= k < i && Eligible(timers[k], now, bound) && k != found.value ==>
                                    Before(timers[found.value], timers[k])
      {
        if Eligible(timers[i], now, bound) && (found.None? || Before(timers[i], timers[found.value])) {
          found := Some(i);
        }
        i := i + 1;
      }
      FoundIsFirst(timers, nextSequence, now, bound, found);
    }

    /** A timer is taken off the list before it is called back. */
    method CallBack(i: nat, acts: seq<Act>) returns (t: Timer)
      requires i < |timers|
      modifies this
      ensures t == old(timers[i])
      ensures Value() == PerformAll(old(Value()).(timers := Without(old(timers), i)), acts)
    {
      t := timers[i];
      timers := Without(timers, i);
      Call(acts);
    }

    /** The loop that scans anew before every call. */
    method RunTimers(now: int, oracle: nat -> Behaviour) returns (fired: seq<Timer>, failed: bool)
      requires Counted(Value()) && !emittedThisDispatch
      modifies this
      ensures Outcome(Value(), fired, failed)
              == Walk(old(Value()), Agenda(old(timers), now, old(nextSequence)), oracle, 0)
    {
      ghost var bound, begun := nextSequence, Value();
      ghost var agenda := Agenda(timers, now, bound);
      var maximumSequence := nextSequence;
      fired, failed := [], false;
      while true
        invariant Counted(Value()) && bound <= nextSequence && !emittedThisDispatch && !failed
        invariant Walk(begun, agenda, oracle, 0) ==
          After(fired, Walk(Value(), Agenda(timers, now, bound), oracle, |fired|))
        decreases |Agenda(timers, now, bound)|
      {
        var found := FindDue(now, maximumSequence);
        if found.None? { return; }
        ghost var before := Value();
        var behaviour := oracle(|fired|);
        var t := CallBack(found.value, behaviour.acts);
        OneAtATime(before, now, bound, oracle, fired, found.value, Value());
        fired := fired + [t];
        if behaviour.fails { failed := true; return; }
        if emittedThisDispatch { return; }
      }
    }

    method RunDueTimers(now: int, oracle: nat -> Behaviour, update: Behaviour) returns (fired: seq<Timer>, failed: bool)
      requires Counted(Value())
      modifies this
      ensures Outcome(Value(), fired, failed) == RunDue(old(Value()), now, oracle, update)
    {
      if stopped { return [], false; }
      currentTime, emittedThisDispatch := now, false;
      fired, failed := RunTimers(now, oracle);
      if !failed { failed := UpdateIfDue(fired, now, update); }
    }

    method UpdateIfDue(ghost fired: seq<Timer>, now: int, update: Behaviour) returns (failed: bool)
      modifies this
      ensures Outcome(Value(), fired, failed) == AfterTimers(Outcome(old(Value()), fired, false), now, update)
    {
      if emittedThisDispatch || periodicDeadline.None? || periodicDeadline.value > now { return false; }
      Call(update.acts);
      if update.fails { return true; }
      if every.Some? { periodicDeadline := Some(now + every.value); }
      failed := false;
    }

    method Next() returns (deadline: Option<int>)
      ensures deadline == NextDeadline(Value())
    {
      if stopped { return None; }
      deadline := periodicDeadline;
      var i := 0;
      while i < |timers|
        invariant 0 <= i <= |timers|
        invariant Earliest(deadline, timers[i..]) == Earliest(periodicDeadline, timers)
      {
        assert timers[i..][1..] == timers[i + 1..];
        if deadline.None? || timers[i].deadline < deadline.value { deadline := Some(timers[i].deadline); }
        i := i + 1;
      }
    }
  }

  function After(fired: seq<Timer>, rest: Outcome): Outcome {
    Outcome(rest.host, fired + rest.fired, rest.failed)
  }

  lemma FoundIsFirst(timers: seq<Timer>, next: nat, now: int, bound: nat, found: Option<nat>)
    requires Numbered(timers, next)
    requires found.None? ==> forall k :: 0 <= k < |timers| ==> !Eligible(timers[k], now, bound)
    requires found.Some? ==> found.value < |timers| && Eligible(timers[found.value], now, bound)
    requires found.Some? ==> forall k :: 0 <= k < |timers| && Eligible(timers[k], now, bound) && k != found.value ==>
                               Before(timers[found.value], timers[k])
    ensures found.None? <==> Agenda(timers, now, bound) == []
    ensures found.Some? ==> Agenda(timers, now, bound)[0] == timers[found.value]
  {
    var agenda := Agenda(timers, now, bound);
    AgendaIsExact(timers, next, now, bound);
    if found.Some? { assert timers[found.value] in agenda; }
    if agenda != [] {
      assert agenda[0] in agenda;
      var k :| 0 <= k < |timers| && timers[k] == agenda[0];
      if found.Some? {
        var j :| 0 <= j < |agenda| && agenda[j] == timers[found.value];
      }
    }
  }

  /** One turn of the loop takes the first timer off the agenda and leaves the rest. */
  lemma OneAtATime(h: Host, now: int, bound: nat, oracle: nat -> Behaviour, fired: seq<Timer>, i: nat, next: Host)
    requires Counted(h) && bound <= h.nextSequence && i < |h.timers|
    requires Agenda(h.timers, now, bound) != [] && Agenda(h.timers, now, bound)[0] == h.timers[i]
    requires next == PerformAll(h.(timers := Without(h.timers, i)), oracle(|fired|).acts)
    ensures var k, t := |fired|, h.timers[i];
            && Counted(next) && bound <= next.nextSequence
            && Agenda(next.timers, now, bound) == Agenda(h.timers, now, bound)[1..]
            && After(fired, Walk(h, Agenda(h.timers, now, bound), oracle, k))
               == if oracle(k).fails || next.emitted then Outcome(next, fired + [t], oracle(k).fails)
                  else After(fired + [t], Walk(next, Agenda(next.timers, now, bound), oracle, k + 1))
  {
    var agenda, k, t := Agenda(h.timers, now, bound), |fired|, h.timers[i];
    AgendaStep(h, now, bound, oracle(k).acts);
    DropRemoves(h.timers, h.nextSequence, t);
    assert IndexOf(h.timers, t) == i;
    var dropped := h.(timers := Drop(h.timers, t));
    PerformAllGrows(dropped, oracle(k).acts);
    assert next == PerformAll(dropped, oracle(k).acts);
    var rest := Walk(next, agenda[1..], oracle, k + 1);
    assert fired + ([t] + rest.fired) == (fired + [t]) + rest.fired;
  }
}
