/** Which published context each slot of the island shows. */
module ContextArbiter {
  import opened Optional

  datatype ViewSlot = Compact | Expanded

  datatype ContextKey = ContextKey(instanceId: string, contextId: string)

  datatype Context<S> = Context(
    key: ContextKey,
    priority: int,
    expiresAt: Option<int>,
    compact: Option<S>,
    expanded: Option<S>,
    fallbackOnly: bool)

  datatype Entry<S> = Entry(context: Context<S>, sequence: nat)

  datatype Activation = Activation(key: ContextKey, deadline: Option<int>)

  datatype State<S> = State(
    entries: map<ContextKey, Entry<S>>,
    activation: Option<Activation>,
    held: bool,
    sequence: nat,
    compactDefault: string,
    expandedDefault: string)

  // ---- What the arbiter knows, and what it keeps true ----

  predicate Reached(instant: Option<int>, now: int) {
    instant.Some? && instant.value <= now
  }

  predicate Contributes<S>(context: Context<S>, slot: ViewSlot) {
    if slot.Compact? then context.compact.Some? else context.expanded.Some?
  }

  function Fallback<S>(s: State<S>, slot: ViewSlot): string {
    if slot.Compact? then s.compactDefault else s.expandedDefault
  }

  /** Entries are filed under their own key and no two were published at once. */
  predicate Filed<S>(entries: map<ContextKey, Entry<S>>, sequence: nat) {
    && (forall k <- entries :: entries[k].context.key == k && entries[k].sequence <= sequence)
    && (forall j <- entries, k <- entries :: j != k ==> entries[j].sequence != entries[k].sequence)
  }

  /** The activation always names a stored context, so looking it up cannot fail. */
  predicate Sound<S>(s: State<S>) {
    && Filed(s.entries, s.sequence)
    && (s.activation.Some? ==> s.activation.value.key in s.entries)
  }

  // ---- Selection ----

  predicate Outranks<S>(a: Entry<S>, b: Entry<S>) {
    a.context.priority > b.context.priority || (a.context.priority == b.context.priority && a.sequence > b.sequence)
  }

  predicate IsBest<S>(entries: map<ContextKey, Entry<S>>, among: set<ContextKey>, k: ContextKey)
    requires among <= entries.Keys
  {
    k in among && forall j <- among :: j != k ==> Outranks(entries[k], entries[j])
  }

  lemma {:induction false} BestExists<S>(entries: map<ContextKey, Entry<S>>, among: set<ContextKey>, sequence: nat)
    returns (best: ContextKey)
    requires Filed(entries, sequence) && among <= entries.Keys && among != {}
    ensures IsBest(entries, among, best)
    decreases |among|
  {
    var k :| k in among;
    if among == {k} {
      best := k;
    } else {
      assert among - {k} != {};
      var other := BestExists(entries, among - {k}, sequence);
      best := if Outranks(entries[k], entries[other]) then k else other;
    }
  }

  /** The unique entry of greatest priority, the latest published one on a tie. */
  ghost function Best<S>(entries: map<ContextKey, Entry<S>>, among: set<ContextKey>,
      sequence: nat): (r: Option<ContextKey>)
    requires Filed(entries, sequence) && among <= entries.Keys
    ensures r.None? <==> among == {}
    ensures forall k :: IsBest(entries, among, k) <==> r == Some(k)
  {
    if among == {} then None
    else
      assert exists k :: IsBest(entries, among, k) by {
        var k := BestExists(entries, among, sequence);
      }
      var best :| IsBest(entries, among, best);
      Some(best)
  }

  function OfInstance<S>(entries: map<ContextKey, Entry<S>>, instanceId: string): set<ContextKey> {
    set k | k in entries && k.instanceId == instanceId
  }

  function Visitors<S>(s: State<S>, slot: ViewSlot): set<ContextKey> {
    set k | k in s.entries && Contributes(s.entries[k].context, slot) && k.instanceId != Fallback(s, slot)
      && !s.entries[k].context.fallbackOnly
  }

  function Residents<S>(s: State<S>, slot: ViewSlot): set<ContextKey> {
    set k | k in s.entries && Contributes(s.entries[k].context, slot) && k.instanceId == Fallback(s, slot)
  }

  /** The activated context occupies the slot. */
  predicate ActivationShows<S>(s: State<S>, slot: ViewSlot)
    requires Sound(s)
  {
    s.activation.Some? && Contributes(s.entries[s.activation.value.key].context, slot)
  }

  ghost function Answer<S>(s: State<S>, slot: ViewSlot): (r: Option<ContextKey>)
    requires Sound(s)
    ensures r.Some? ==> r.value in s.entries && Contributes(s.entries[r.value].context, slot)
  {
    if ActivationShows(s, slot) then Some(s.activation.value.key)
    else if Visitors(s, slot) != {} then Best(s.entries, Visitors(s, slot), s.sequence)
    else Best(s.entries, Residents(s, slot), s.sequence)
  }

  // ---- Events ----

  datatype Event<S> =
    | Publish(context: Context<S>, now: int)
    | Dismiss(key: ContextKey)
    | DismissInstance(instanceId: string)
    | SetDefaults(compactDefault: string, expandedDefault: string)
    | Sweep(now: int)
    | Activate(instanceId: string, deadline: Option<int>, now: int)
    | ClearActivation(expected: Option<ContextKey>)
    | Hold(held: bool)

  function Unexpired<S>(entries: map<ContextKey, Entry<S>>, now: int): map<ContextKey, Entry<S>> {
    map k | k in entries && !Reached(entries[k].context.expiresAt, now) :: entries[k]
  }

  function Without<S>(s: State<S>, gone: set<ContextKey>): State<S> {
    s.(entries := s.entries - gone,
       activation := if s.activation.Some? && s.activation.value.key in gone then None else s.activation)
  }

  function Swept<S>(s: State<S>, now: int): (r: State<S>)
    requires Sound(s)
    ensures Sound(r)
  {
    var kept := Unexpired(s.entries, now);
    var lapsed := s.activation.Some?
      && ((!s.held && Reached(s.activation.value.deadline, now)) || s.activation.value.key !in kept);
    s.(entries := kept, activation := if lapsed then None else s.activation)
  }

  function Published<S>(s: State<S>, context: Context<S>, now: int): (r: State<S>)
    requires Sound(s)
    ensures Sound(r)
  {
    if Reached(context.expiresAt, now) then Without(s, {context.key})
    else s.(entries := s.entries[context.key := Entry(context, s.sequence + 1)], sequence := s.sequence + 1)
  }

  ghost function Activated<S>(s: State<S>, instanceId: string, deadline: Option<int>): (r: State<S>)
    requires Sound(s)
    ensures Sound(r)
  {
    var best := Best(s.entries, OfInstance(s.entries, instanceId), s.sequence);
    if best.None? then s else s.(activation := Some(Activation(best.value, deadline)))
  }

  function Cleared<S>(s: State<S>, expected: Option<ContextKey>): State<S> {
    var mismatch := s.activation.Some? && expected.Some? && s.activation.value.key != expected.value;
    s.(held := false, activation := if mismatch then s.activation else None)
  }

  ghost function Step<S>(s: State<S>, event: Event<S>): (r: State<S>)
    requires Sound(s)
    ensures Sound(r)
  {
    match event
    case Publish(context, now) => Published(s, context, now)
    case Dismiss(key) => Without(s, {key})
    case DismissInstance(instanceId) => Without(s, OfInstance(s.entries, instanceId))
    case SetDefaults(compact, expanded) => s.(compactDefault := compact, expandedDefault := expanded)
    case Sweep(now) => Swept(s, now)
    case Activate(instanceId, deadline, now) => Activated(Swept(s, now), instanceId, deadline)
    case ClearActivation(expected) => Cleared(s, expected)
    case Hold(held) => s.(held := held)
  }

  function Fresh<S>(compactDefault: string, expandedDefault: string): (r: State<S>)
    ensures Sound(r)
  {
    State(map[], None, false, 0, compactDefault, expandedDefault)
  }

  /** The state after a history that began with the given defaults. */
  ghost function After<S>(compactDefault: string, expandedDefault: string, history: seq<Event<S>>): (r: State<S>)
    ensures Sound(r)
    decreases |history|
  {
    if history == [] then Fresh(compactDefault, expandedDefault)
    else Step(After(compactDefault, expandedDefault, history[..|history| - 1]), history[|history| - 1])
  }

  // ---- The same, told by the history alone ----

  /** An event after which the published context is no longer stored. */
  predicate Removes<S>(event: Event<S>, context: Context<S>) {
    match event
    case Publish(other, _) => other.key == context.key
    case Dismiss(key) => key == context.key
    case DismissInstance(instanceId) => instanceId == context.key.instanceId
    case Sweep(now) => context.expiresAt.Some? && context.expiresAt.value <= now
    case Activate(_, _, now) => context.expiresAt.Some? && context.expiresAt.value <= now
    case _ => false
  }

  predicate Accepts<S>(event: Event<S>) {
    event.Publish? && (event.context.expiresAt.None? || event.now < event.context.expiresAt.value)
  }

  /** The publication at index i was accepted and nothing since has removed it. */
  predicate Stands<S>(history: seq<Event<S>>, i: int) {
    && 0 <= i < |history| && Accepts(history[i])
    && forall j :: i < j < |history| ==> !Removes(history[j], history[i].context)
  }

  function Count<S>(history: seq<Event<S>>): nat {
    if history == [] then 0
    else Count(history[..|history| - 1]) + (if Accepts(history[|history| - 1]) then 1 else 0)
  }

  ghost predicate Holds<S>(s: State<S>, history: seq<Event<S>>, i: nat)
    requires i < |history| && Accepts(history[i])
  {
    var key := history[i].context.key;
    key in s.entries && s.entries[key] == Entry(history[i].context, Count(history[..i + 1]))
  }

  /** What is stored is exactly what stands. */
  ghost predicate Told<S>(s: State<S>, history: seq<Event<S>>) {
    && s.sequence == Count(history)
    && (forall i :: Stands(history, i) ==> Holds(s, history, i))
    && (forall k <- s.entries :: exists i :: Stands(history, i) && history[i].context.key == k)
  }

  lemma StandsEarlier<S>(history: seq<Event<S>>, event: Event<S>, i: int)
    ensures 0 <= i < |history| ==>
              (Stands(history + [event], i) <==> Stands(history, i) && !Removes(event, history[i].context))
    ensures Stands(history + [event], |history|) <==> Accepts(event)
  {
    var longer := history + [event];
    if 0 <= i < |history| {
      assert longer[i] == history[i];
      if Stands(longer, i) {
        assert longer[|history|] == event;
        forall j | i < j < |history| ensures !Removes(history[j], history[i].context) {
          assert longer[j] == history[j];
        }
      }
    }
  }

  lemma StepKeeps<S>(s: State<S>, event: Event<S>, k: ContextKey)
    requires Sound(s)
    ensures k in s.entries && !Removes(event, s.entries[k].context) ==>
              k in Step(s, event).entries && Step(s, event).entries[k] == s.entries[k]
    ensures k in Step(s, event).entries && !(Accepts(event) && event.context.key == k) ==>
              k in s.entries && !Removes(event, s.entries[k].context)
    ensures Accepts(event) ==>
              event.context.key in Step(s, event).entries
              && Step(s, event).entries[event.context.key] == Entry(event.context, s.sequence + 1)
    ensures Step(s, event).sequence == s.sequence + if Accepts(event) then 1 else 0
  {
    if k in s.entries { assert s.entries[k].context.key == k; }
  }

  /** What stands after the event is stored after it. */
  lemma StandingIsHeld<S>(s: State<S>, history: seq<Event<S>>, event: Event<S>, i: int)
    requires Sound(s) && Told(s, history) && Stands(history + [event], i)
    ensures Holds(Step(s, event), history + [event], i)
  {
    var longer := history + [event];
    StandsEarlier(history, event, i);
    if i < |history| {
      assert longer[..i + 1] == history[..i + 1];
      assert Holds(s, history, i);
      StepKeeps(s, event, history[i].context.key);
    } else {
      assert longer[..i + 1] == longer && longer[..|longer| - 1] == history;
      StepKeeps(s, event, event.context.key);
    }
  }

  /** What is stored after the event stands after it. */
  lemma HeldStands<S>(s: State<S>, history: seq<Event<S>>, event: Event<S>, k: ContextKey)
    requires Sound(s) && Told(s, history) && k in Step(s, event).entries
    ensures exists i :: Stands(history + [event], i) && (history + [event])[i].context.key == k
  {
    var longer := history + [event];
    StepKeeps(s, event, k);
    if Accepts(event) && event.context.key == k {
      StandsEarlier(history, event, 0);
      assert Stands(longer, |history|) && longer[|history|].context.key == k;
    } else {
      var i :| Stands(history, i) && history[i].context.key == k;
      assert Holds(s, history, i);
      StandsEarlier(history, event, i);
      assert longer[i].context.key == k;
    }
  }

  lemma StepIsTold<S>(s: State<S>, history: seq<Event<S>>, event: Event<S>)
    requires Sound(s) && Told(s, history)
    ensures Told(Step(s, event), history + [event])
  {
    var next, longer := Step(s, event), history + [event];
    assert longer[..|longer| - 1] == history;
    StepKeeps(s, event, ContextKey("", ""));
    forall i | Stands(longer, i) ensures Holds(next, longer, i) { StandingIsHeld(s, history, event, i); }
    forall k | k in next.entries ensures exists i :: Stands(longer, i) && longer[i].context.key == k {
      HeldStands(s, history, event, k);
    }
  }

  /** After every history the store holds exactly the publications that stand, in the order they were made. */
  lemma {:induction false} StoredIffStanding<S>(compactDefault: string, expandedDefault: string, history: seq<Event<S>>)
    ensures Told(After(compactDefault, expandedDefault, history), history)
    decreases |history|
  {
    if history != [] {
      var last := |history| - 1;
      StoredIffStanding(compactDefault, expandedDefault, history[..last]);
      StepIsTold(After(compactDefault, expandedDefault, history[..last]), history[..last], history[last]);
      assert history[..last] + [history[last]] == history;
    }
  }

  lemma {:induction false} CountGrows<S>(history: seq<Event<S>>, i: nat, j: nat)
    requires i < j < |history| && Accepts(history[j])
    ensures Count(history[..i + 1]) < Count(history[..j + 1])
    decreases j
  {
    CountNeverFalls(history, i + 1, j);
    assert history[..j + 1][..j] == history[..j];
  }

  lemma {:induction false} CountNeverFalls<S>(history: seq<Event<S>>, i: nat, j: nat)
    requires i <= j <= |history|
    ensures Count(history[..i]) <= Count(history[..j])
    decreases j
  {
    if i < j {
      CountNeverFalls(history, i, j - 1);
      assert history[..j][..j - 1] == history[..j - 1];
    }
  }

  // ---- The choice, told by the history ----

  predicate Candidate<S>(history: seq<Event<S>>, slot: ViewSlot, i: int) {
    && Stands(history, i)
    && (slot.Compact? ==> history[i].context.compact.Some?) && (slot.Expanded? ==> history[i].context.expanded.Some?)
  }

  predicate Visits<S>(history: seq<Event<S>>, slot: ViewSlot, fallback: string, i: int) {
    Candidate(history, slot, i) && history[i].context.key.instanceId != fallback && !history[i].context.fallbackOnly
  }

  predicate Resides<S>(history: seq<Event<S>>, slot: ViewSlot, fallback: string, i: int) {
    Candidate(history, slot, i) && history[i].context.key.instanceId == fallback
  }

  /** Publication i has the greater priority, or the same one and came later. */
  predicate Ahead<S>(history: seq<Event<S>>, i: nat, j: nat)
    requires i < |history| && j < |history| && history[i].Publish? && history[j].Publish?
  {
    var mine, theirs := history[i].context.priority, history[j].context.priority;
    mine > theirs || (mine == theirs && i > j)
  }

  ghost predicate AnyVisits<S>(history: seq<Event<S>>, slot: ViewSlot, fallback: string) {
    exists j :: Visits(history, slot, fallback, j)
  }

  ghost predicate LeadsVisitors<S>(history: seq<Event<S>>, slot: ViewSlot, fallback: string, i: int) {
    Visits(history, slot, fallback, i) &&
      forall j :: Visits(history, slot, fallback, j) && j != i ==> Ahead(history, i, j)
  }

  ghost predicate LeadsResidents<S>(history: seq<Event<S>>, slot: ViewSlot, fallback: string, i: int) {
    Resides(history, slot, fallback, i) &&
      forall j :: Resides(history, slot, fallback, j) && j != i ==> Ahead(history, i, j)
  }

  /** The activated context stands and fills the slot. */
  ghost predicate ActiveFills<S>(history: seq<Event<S>>, active: Option<ContextKey>, slot: ViewSlot) {
    active.Some? && exists i :: Candidate(history, slot, i) && history[i].context.key == active.value
  }

  ghost predicate Chosen<S>(history: seq<Event<S>>, active: Option<ContextKey>, fallback: string, slot: ViewSlot,
      i: int)
  {
    && Candidate(history, slot, i)
    && if ActiveFills(history, active, slot) then history[i].context.key == active.value
       else if AnyVisits(history, slot, fallback) then LeadsVisitors(history, slot, fallback, i)
       else LeadsResidents(history, slot, fallback, i)
  }

  /** The key of the activation. */
  function ActiveKey<S>(s: State<S>): Option<ContextKey> {
    if s.activation.Some? then Some(s.activation.value.key) else None
  }

  lemma ActiveFillsIff<S>(s: State<S>, history: seq<Event<S>>, slot: ViewSlot)
    requires Told(s, history) && Sound(s)
    ensures ActiveFills(history, ActiveKey(s), slot) <==> ActivationShows(s, slot)
  {
    if ActiveFills(history, ActiveKey(s), slot) {
      var i :| Candidate(history, slot, i) && history[i].context.key == s.activation.value.key;
      assert Holds(s, history, i);
    }
    if ActivationShows(s, slot) {
      var i := KeyStands(s, history, s.activation.value.key);
      assert Candidate(history, slot, i);
    }
  }

  lemma OneKeyOneStanding<S>(history: seq<Event<S>>, i: int, j: int)
    requires Stands(history, i) && Stands(history, j) && history[i].context.key == history[j].context.key
    ensures i == j
  {
    if i < j {
      assert Removes(history[j], history[i].context);
    } else if j < i {
      assert Removes(history[i], history[j].context);
    }
  }

  lemma AheadIffOutranks<S>(s: State<S>, history: seq<Event<S>>, i: nat, j: nat)
    requires Told(s, history) && Stands(history, i) && Stands(history, j) && i != j
    ensures history[i].context.key in s.entries && history[j].context.key in s.entries
    ensures history[i].context.key != history[j].context.key
    ensures Ahead(history, i, j) <==> Outranks(s.entries[history[i].context.key], s.entries[history[j].context.key])
  {
    assert Holds(s, history, i) && Holds(s, history, j);
    if history[i].context.key == history[j].context.key { OneKeyOneStanding(history, i, j); }
    if i < j { CountGrows(history, i, j); } else { CountGrows(history, j, i); }
  }

  /** The keys of the standing publications that satisfy a condition. */
  ghost predicate Mirrors<S>(s: State<S>, history: seq<Event<S>>, keys: set<ContextKey>, member: int -> bool)
    requires keys <= s.entries.Keys
  {
    && (forall i :: member(i) ==> Stands(history, i) && history[i].context.key in keys)
    && (forall k <- keys :: exists i :: member(i) && Stands(history, i) && history[i].context.key == k)
  }

  lemma BestIsAhead<S>(s: State<S>, history: seq<Event<S>>, keys: set<ContextKey>, member: int -> bool, i: int)
    requires Told(s, history) && Sound(s) && keys <= s.entries.Keys && Mirrors(s, history, keys, member)
    requires member(i)
    ensures Stands(history, i)
    ensures IsBest(s.entries, keys, history[i].context.key) <==>
              forall j :: member(j) && j != i ==> Stands(history, j) && Ahead(history, i, j)
  {
    var key := history[i].context.key;
    if IsBest(s.entries, keys, key) {
      forall j | member(j) && j != i ensures Stands(history, j) && Ahead(history, i, j) {
        AheadIffOutranks(s, history, i, j);
      }
    }
    if forall j :: member(j) && j != i ==> Stands(history, j) && Ahead(history, i, j) {
      forall k | k in keys && k != key ensures Outranks(s.entries[key], s.entries[k]) {
        var j :| member(j) && Stands(history, j) && history[j].context.key == k;
        AheadIffOutranks(s, history, i, j);
      }
    }
  }

  lemma KeyStands<S>(s: State<S>, history: seq<Event<S>>, k: ContextKey) returns (i: int)
    requires Told(s, history) && Sound(s) && k in s.entries
    ensures Stands(history, i) && history[i].context.key == k && s.entries[k].context == history[i].context
  {
    i :| Stands(history, i) && history[i].context.key == k;
    assert Holds(s, history, i);
  }

  lemma VisitorsMirror<S>(s: State<S>, history: seq<Event<S>>, slot: ViewSlot)
    requires Told(s, history) && Sound(s)
    ensures Mirrors(s, history, Visitors(s, slot), i => Visits(history, slot, Fallback(s, slot), i))
  {
    forall i | Visits(history, slot, Fallback(s, slot), i)
      ensures Stands(history, i) && history[i].context.key in Visitors(s, slot)
    {
      assert Holds(s, history, i);
    }
    forall k | k in Visitors(s, slot)
      ensures exists i :: Visits(history, slot,
        Fallback(s, slot), i) && Stands(history, i) && history[i].context.key == k
    {
      var i := KeyStands(s, history, k);
      assert Visits(history, slot, Fallback(s, slot), i);
    }
  }

  lemma ResidentsMirror<S>(s: State<S>, history: seq<Event<S>>, slot: ViewSlot)
    requires Told(s, history) && Sound(s)
    ensures Mirrors(s, history, Residents(s, slot), i => Resides(history, slot, Fallback(s, slot), i))
  {
    forall i | Resides(history, slot, Fallback(s, slot), i)
      ensures Stands(history, i) && history[i].context.key in Residents(s, slot)
    {
      assert Holds(s, history, i);
    }
    forall k | k in Residents(s, slot)
      ensures exists i :: Resides(history, slot,
        Fallback(s, slot), i) && Stands(history, i) && history[i].context.key == k
    {
      var i := KeyStands(s, history, k);
      assert Resides(history, slot, Fallback(s, slot), i);
    }
  }

  lemma MemberIff<S>(s: State<S>, history: seq<Event<S>>, slot: ViewSlot, i: int)
    requires Told(s, history) && Sound(s) && Stands(history, i)
    ensures Visits(history, slot, Fallback(s, slot), i) <==> history[i].context.key in Visitors(s, slot)
    ensures Resides(history, slot, Fallback(s, slot), i) <==> history[i].context.key in Residents(s, slot)
  {
    assert Holds(s, history, i);
  }

  lemma ForemostVisitor<S>(s: State<S>, history: seq<Event<S>>, slot: ViewSlot, i: int)
    requires Told(s, history) && Sound(s) && Stands(history, i)
    ensures history[i].context.key in s.entries
    ensures IsBest(s.entries, Visitors(s, slot), history[i].context.key) <==>
              LeadsVisitors(history, slot, Fallback(s, slot), i)
  {
    assert Holds(s, history, i);
    MemberIff(s, history, slot, i);
    if Visits(history, slot, Fallback(s, slot), i) {
      VisitorsMirror(s, history, slot);
      BestIsAhead(s, history, Visitors(s, slot), j => Visits(history, slot, Fallback(s, slot), j), i);
    }
  }

  lemma ForemostResident<S>(s: State<S>, history: seq<Event<S>>, slot: ViewSlot, i: int)
    requires Told(s, history) && Sound(s) && Stands(history, i)
    ensures history[i].context.key in s.entries
    ensures IsBest(s.entries, Residents(s, slot), history[i].context.key) <==>
              LeadsResidents(history, slot, Fallback(s, slot), i)
  {
    assert Holds(s, history, i);
    MemberIff(s, history, slot, i);
    if Resides(history, slot, Fallback(s, slot), i) {
      ResidentsMirror(s, history, slot);
      BestIsAhead(s, history, Residents(s, slot), j => Resides(history, slot, Fallback(s, slot), j), i);
    }
  }

  lemma VisitorsIff<S>(s: State<S>, history: seq<Event<S>>, slot: ViewSlot)
    requires Told(s, history) && Sound(s)
    ensures Visitors(s, slot) != {} <==> AnyVisits(history, slot, Fallback(s, slot))
  {
    VisitorsMirror(s, history, slot);
    if Visitors(s, slot) != {} {
      var k :| k in Visitors(s, slot);
    }
  }

  lemma AnswerIff<S>(s: State<S>, slot: ViewSlot, key: ContextKey)
    requires Sound(s) && key in s.entries
    ensures Answer(s, slot) == Some(key) <==>
              if ActivationShows(s, slot) then key == s.activation.value.key
              else if Visitors(s, slot) != {} then IsBest(s.entries, Visitors(s, slot), key)
              else IsBest(s.entries, Residents(s, slot), key)
  {
    assert Best(s.entries, Visitors(s, slot), s.sequence) == Some(key) <==> IsBest(s.entries, Visitors(s, slot), key);
    assert Best(s.entries, Residents(s, slot), s.sequence) == Some(key) <==> IsBest(s.entries, Residents(s, slot), key);
  }

  lemma ChosenIffAnswered<S>(s: State<S>, history: seq<Event<S>>, slot: ViewSlot, i: int)
    requires Told(s, history) && Sound(s) && Stands(history, i)
    ensures Chosen(history, ActiveKey(s), Fallback(s, slot), slot, i) <==>
              Answer(s, slot) == Some(history[i].context.key)
  {
    ActiveFillsIff(s, history, slot);
    ForemostVisitor(s, history, slot, i);
    ForemostResident(s, history, slot, i);
    AnswerIff(s, slot, history[i].context.key);
    VisitorsIff(s, history, slot);
    assert Holds(s, history, i);
  }

  /**
   * After every history each slot shows the one publication its history singles out: the activated context if it fills
   * the slot, else the foremost visitor, else the foremost context of the fallback instance, and nothing only if there
   * is no such publication.
   */
  lemma AnswerIsSpecified<S>(compactDefault: string, expandedDefault: string, history: seq<Event<S>>, slot: ViewSlot)
    ensures var s := After(compactDefault, expandedDefault, history);
            var fallback := if slot.Compact? then s.compactDefault else s.expandedDefault;
            && (forall i :: Stands(history, i) ==>
                  (Chosen(history, ActiveKey(s), fallback, slot, i) <==>
                     Answer(s, slot) == Some(history[i].context.key)))
            && (Answer(s, slot).Some? <==> exists i :: Chosen(history, ActiveKey(s), fallback, slot, i))
  {
    var s := After(compactDefault, expandedDefault, history);
    StoredIffStanding(compactDefault, expandedDefault, history);
    forall i | Stands(history, i)
      ensures Chosen(history, ActiveKey(s), Fallback(s, slot), slot, i) <==>
                Answer(s, slot) == Some(history[i].context.key)
    {
      ChosenIffAnswered(s, history, slot, i);
    }
    if Answer(s, slot).Some? {
      var i := KeyStands(s, history, Answer(s, slot).value);
      assert Chosen(history, ActiveKey(s), Fallback(s, slot), slot, i);
    }
  }

  // ---- The defaults and the hold, told by the history ----

  /** The event at index i is the last one that chose the defaults. */
  predicate LastChoice<S>(history: seq<Event<S>>, i: int) {
    && 0 <= i < |history| && history[i].SetDefaults?
    && forall j :: i < j < |history| ==> !history[j].SetDefaults?
  }

  /** The defaults are those last chosen, or those the history began with. */
  ghost predicate DefaultsTold<S>(compactDefault: string, expandedDefault: string, history: seq<Event<S>>,
      s: State<S>) {
    && (forall i :: LastChoice(history, i) ==>
          s.compactDefault == history[i].compactDefault && s.expandedDefault == history[i].expandedDefault)
    && ((forall i :: 0 <= i < |history| ==> !history[i].SetDefaults?) ==>
          s.compactDefault == compactDefault && s.expandedDefault == expandedDefault)
  }

  lemma StepSettings<S>(s: State<S>, event: Event<S>)
    requires Sound(s)
    ensures Step(s, event).compactDefault == if event.SetDefaults? then event.compactDefault else s.compactDefault
    ensures Step(s, event).expandedDefault == if event.SetDefaults? then event.expandedDefault else s.expandedDefault
    ensures Step(s, event).held == if event.Hold? then event.held else s.held && !event.ClearActivation?
  {
  }

  lemma LastChoiceEarlier<S>(past: seq<Event<S>>, event: Event<S>, i: int)
    ensures LastChoice(past + [event], i) <==>
              if i == |past| then event.SetDefaults? else LastChoice(past, i) && !event.SetDefaults?
  {
    var history := past + [event];
    if LastChoice(history, i) && i < |past| {
      assert history[|past|] == event;
      forall j | i < j < |past| ensures !past[j].SetDefaults? { assert past[j] == history[j]; }
    }
  }

  lemma DefaultsOneMore<S>(compactDefault: string, expandedDefault: string, past: seq<Event<S>>, event: Event<S>,
      s: State<S>, next: State<S>)
    requires DefaultsTold(compactDefault, expandedDefault, past, s)
    requires next.compactDefault == if event.SetDefaults? then event.compactDefault else s.compactDefault
    requires next.expandedDefault == if event.SetDefaults? then event.expandedDefault else s.expandedDefault
    ensures DefaultsTold(compactDefault, expandedDefault, past + [event], next)
  {
    var history := past + [event];
    forall i | LastChoice(history, i)
      ensures next.compactDefault == history[i].compactDefault && next.expandedDefault == history[i].expandedDefault
    {
      LastChoiceEarlier(past, event, i);
    }
    if forall i :: 0 <= i < |history| ==> !history[i].SetDefaults? {
      assert history[|past|] == event;
      assert forall i :: 0 <= i < |past| ==> past[i] == history[i];
    }
  }

  /** After every history the defaults are those last chosen, or those it began with. */
  lemma {:induction false} DefaultsAreLastChosen<S>(compactDefault: string, expandedDefault: string,
      history: seq<Event<S>>)
    ensures DefaultsTold(compactDefault, expandedDefault, history, After(compactDefault, expandedDefault, history))
    decreases |history|
  {
    if history != [] {
      var past, event := history[..|history| - 1], history[|history| - 1];
      DefaultsAreLastChosen(compactDefault, expandedDefault, past);
      StepSettings(After(compactDefault, expandedDefault, past), event);
      assert history == past + [event];
      DefaultsOneMore(compactDefault, expandedDefault, past, event, After(compactDefault, expandedDefault, past),
        After(compactDefault, expandedDefault, history));
    }
  }

  /** The event at index i is the last one that held or let go; clearing the activation lets go. */
  predicate LastHold<S>(history: seq<Event<S>>, i: int) {
    && 0 <= i < |history| && (history[i].Hold? || history[i].ClearActivation?)
    && forall j :: i < j < |history| ==> !history[j].Hold? && !history[j].ClearActivation?
  }

  lemma LastHoldEarlier<S>(past: seq<Event<S>>, event: Event<S>, i: int)
    ensures LastHold(past + [event], i) <==>
              if i == |past| then event.Hold? || event.ClearActivation?
              else LastHold(past, i) && !event.Hold? && !event.ClearActivation?
  {
    var history := past + [event];
    if LastHold(history, i) && i < |past| {
      assert history[|past|] == event;
      forall j | i < j < |past| ensures !past[j].Hold? && !past[j].ClearActivation? { assert past[j] == history[j]; }
    }
  }

  ghost predicate HeldLast<S>(history: seq<Event<S>>) {
    exists i :: LastHold(history, i) && history[i] == Hold(true)
  }

  lemma HeldOneMore<S>(past: seq<Event<S>>, event: Event<S>)
    ensures HeldLast(past + [event]) <==>
              if event.Hold? then event.held else HeldLast(past) && !event.ClearActivation?
  {
    var history := past + [event];
    if HeldLast(history) {
      var i :| LastHold(history, i) && history[i] == Hold(true);
      LastHoldEarlier(past, event, i);
      if i < |past| { assert past[i] == history[i]; }
    }
    if event.Hold? && event.held {
      LastHoldEarlier(past, event, |past|);
      assert history[|past|] == Hold(true);
    } else if HeldLast(past) && !event.Hold? && !event.ClearActivation? {
      var i :| LastHold(past, i) && past[i] == Hold(true);
      LastHoldEarlier(past, event, i);
      assert history[i] == past[i];
    }
  }

  /** After every history the activation is held exactly if it was held last and not let go since. */
  lemma {:induction false} HeldIffHeldLast<S>(compactDefault: string, expandedDefault: string, history: seq<Event<S>>)
    ensures After(compactDefault, expandedDefault, history).held <==> HeldLast(history)
    decreases |history|
  {
    if history != [] {
      var past, event := history[..|history| - 1], history[|history| - 1];
      HeldIffHeldLast(compactDefault, expandedDefault, past);
      StepSettings(After(compactDefault, expandedDefault, past), event);
      assert history == past + [event];
      HeldOneMore(past, event);
    }
  }

  // ---- The activation, told by the history ----

  /** The event at index j releases or replaces an activation of key k with this deadline. */
  ghost predicate Releases<S>(before: State<S>, event: Event<S>, k: ContextKey, deadline: Option<int>)
    requires Sound(before)
  {
    || k !in Step(before, event).entries
    || ((event.Sweep? || event.Activate?) && !before.held && deadline.Some? && deadline.value <= event.now)
    || (event.Activate? && OfInstance(Swept(before, event.now).entries, event.instanceId) != {})
    || (event.ClearActivation? && (event.expected == None || event.expected == Some(k)))
  }

  /** The event activates key k. */
  ghost predicate Engages<S>(before: State<S>, event: Event<S>, k: ContextKey, deadline: Option<int>)
    requires Sound(before)
  {
    && event.Activate? && event.deadline == deadline
    && var kept := Swept(before, event.now).entries;
       IsBest(kept, OfInstance(kept, event.instanceId), k)
  }

  /** The event at index i activated k and no event since has released it. */
  ghost predicate Engaged<S>(compactDefault: string, expandedDefault: string, history: seq<Event<S>>, i: int,
      k: ContextKey,
      deadline: Option<int>)
  {
    && 0 <= i < |history|
    && Engages(After(compactDefault, expandedDefault, history[..i]), history[i], k, deadline)
    && forall j :: i < j < |history| ==>
         !Releases(After(compactDefault, expandedDefault, history[..j]), history[j], k, deadline)
  }

  lemma SweptActivation<S>(s: State<S>, now: int, k: ContextKey, deadline: Option<int>)
    requires Sound(s)
    ensures Swept(s, now).activation == Some(Activation(k, deadline)) <==>
              s.activation == Some(Activation(k, deadline)) && k in Swept(s, now).entries
              && (s.held || deadline.None? || now < deadline.value)
  {
  }

  lemma ActivatedActivation<S>(s: State<S>, instanceId: string, d: Option<int>, k: ContextKey, deadline: Option<int>)
    requires Sound(s)
    ensures Activated(s, instanceId, d).activation == Some(Activation(k, deadline)) <==>
              (d == deadline && IsBest(s.entries, OfInstance(s.entries, instanceId), k))
              || (s.activation == Some(Activation(k, deadline)) && OfInstance(s.entries, instanceId) == {})
  {
    assert IsBest(s.entries, OfInstance(s.entries, instanceId), k) <==>
             Best(s.entries, OfInstance(s.entries, instanceId), s.sequence) == Some(k);
  }

  lemma ReadActivation<S>(s: State<S>, event: Event<S>, k: ContextKey, deadline: Option<int>)
    requires Sound(s) && (event.Sweep? || event.Activate?)
    ensures Step(s, event).activation == Some(Activation(k, deadline)) <==>
              Engages(s, event, k, deadline)
              || (s.activation == Some(Activation(k, deadline)) && !Releases(s, event, k, deadline))
  {
    SweptActivation(s, event.now, k, deadline);
    if event.Activate? { ActivatedActivation(Swept(s, event.now), event.instanceId, event.deadline, k, deadline); }
  }

  lemma StepActivation<S>(s: State<S>, event: Event<S>, k: ContextKey, deadline: Option<int>)
    requires Sound(s)
    ensures Step(s, event).activation == Some(Activation(k, deadline)) <==>
              Engages(s, event, k, deadline)
              || (s.activation == Some(Activation(k, deadline)) && !Releases(s, event, k, deadline))
  {
    if event.Sweep? || event.Activate? {
      ReadActivation(s, event, k, deadline);
    } else if event.DismissInstance? && s.activation.Some? {
      assert s.activation.value.key in OfInstance(s.entries, event.instanceId) <==>
        s.activation.value.key.instanceId == event.instanceId;
    }
  }

  lemma EngagedEarlier<S>(compactDefault: string, expandedDefault: string, history: seq<Event<S>>, event: Event<S>,
      i: nat,
      k: ContextKey, deadline: Option<int>)
    requires i < |history|
    ensures Engaged(compactDefault, expandedDefault, history + [event], i, k, deadline) <==>
              Engaged(compactDefault, expandedDefault, history, i, k, deadline)
              && !Releases(After(compactDefault, expandedDefault, history), event, k, deadline)
  {
    var longer := history + [event];
    assert longer[..i] == history[..i] && longer[..|history|] == history;
    forall j | i < j < |history| ensures longer[..j] == history[..j] && longer[j] == history[j] {}
    if Engaged(compactDefault, expandedDefault, longer, i, k, deadline) {
      assert longer[|history|] == event;
      forall j | i < j < |history|
        ensures !Releases(After(compactDefault, expandedDefault, history[..j]), history[j], k, deadline)
      {
        assert !Releases(After(compactDefault, expandedDefault, longer[..j]), longer[j], k, deadline);
      }
    }
  }

  lemma EngagedNow<S>(compactDefault: string, expandedDefault: string, history: seq<Event<S>>, event: Event<S>,
      k: ContextKey,
      deadline: Option<int>)
    ensures Engaged(compactDefault, expandedDefault, history + [event], |history|, k, deadline) <==>
              Engages(After(compactDefault, expandedDefault, history), event, k, deadline)
  {
    assert (history + [event])[..|history|] == history;
  }

  lemma AfterOneMore<S>(compactDefault: string, expandedDefault: string, history: seq<Event<S>>, event: Event<S>)
    ensures After(compactDefault, expandedDefault, history + [event])
            == Step(After(compactDefault, expandedDefault, history), event)
  {
    assert (history + [event])[..|history|] == history;
  }

  ghost predicate EverEngaged<S>(compactDefault: string, expandedDefault: string, history: seq<Event<S>>, k: ContextKey,
      deadline: Option<int>)
  {
    exists i :: Engaged(compactDefault, expandedDefault, history, i, k, deadline)
  }

  lemma EngagedOneMore<S>(compactDefault: string, expandedDefault: string, history: seq<Event<S>>, event: Event<S>,
      k: ContextKey, deadline: Option<int>)
    ensures var s := After(compactDefault, expandedDefault, history);
            EverEngaged(compactDefault, expandedDefault, history + [event], k, deadline) <==>
              Engages(s, event, k, deadline)
              ||
                (EverEngaged(compactDefault, expandedDefault, history, k, deadline) && !Releases(s, event, k, deadline))
  {
    EngagedNow(compactDefault, expandedDefault, history, event, k, deadline);
    if EverEngaged(compactDefault, expandedDefault, history + [event], k, deadline) {
      var i :| Engaged(compactDefault, expandedDefault, history + [event], i, k, deadline);
      if i < |history| { EngagedEarlier(compactDefault, expandedDefault, history, event, i, k, deadline); }
    }
    if EverEngaged(compactDefault, expandedDefault, history, k, deadline) {
      var i :| Engaged(compactDefault, expandedDefault, history, i, k, deadline);
      EngagedEarlier(compactDefault, expandedDefault, history, event, i, k, deadline);
    }
  }

  /** After every history the activation is the last one made, provided nothing has released it since. */
  lemma {:induction false} ActivationIffEngaged<S>(compactDefault: string, expandedDefault: string,
      history: seq<Event<S>>,
      k: ContextKey, deadline: Option<int>)
    ensures After(compactDefault, expandedDefault, history).activation == Some(Activation(k, deadline)) <==>
              EverEngaged(compactDefault, expandedDefault, history, k, deadline)
    decreases |history|
  {
    if history != [] {
      var past, event := history[..|history| - 1], history[|history| - 1];
      assert history == past + [event];
      ActivationIffEngaged(compactDefault, expandedDefault, past, k, deadline);
      AfterOneMore(compactDefault, expandedDefault, past, event);
      StepActivation(After(compactDefault, expandedDefault, past), event, k, deadline);
      EngagedOneMore(compactDefault, expandedDefault, past, event, k, deadline);
    }
  }

  // ---- Reading is a sweep, and sweeps may be merged ----

  /** Two sweeps without a change in between amount to the later one. */
  lemma SweepsMerge<S>(s: State<S>, earlier: int, later: int)
    requires Sound(s) && earlier <= later
    ensures Swept(Swept(s, earlier), later) == Swept(s, later)
  {
    assert Unexpired(Unexpired(s.entries, earlier), later) == Unexpired(s.entries, later);
  }

  /** Reading first and holding then differs from holding first exactly if the read sees the deadline pass. */
  lemma ReadBeforeHoldMatters<S>(s: State<S>, now: int)
    requires Sound(s) && !s.held
    ensures Step(Swept(s, now), Hold(true)) == Swept(Step(s, Hold(true)), now) <==>
              !(s.activation.Some? && Reached(s.activation.value.deadline, now)
                && s.activation.value.key in Unexpired(s.entries, now))
  {
    assert Step(Swept(s, now), Hold(true)).entries == Swept(Step(s, Hold(true)), now).entries;
  }

  // ---- The object ----

  lemma EraseOne<S>(before: map<ContextKey, Entry<S>>, doomed: set<ContextKey>, keys: set<ContextKey>, k: ContextKey)
    requires k in keys
    ensures before - (doomed - (keys - {k})) == if k in doomed then before - (doomed - keys) - {k}
      else before - (doomed - keys)
  {}

  /** Erases the entries the doomed set names, one at a time in whatever order they are visited. */
  method Erase<S>(entries: map<ContextKey, Entry<S>>, doomed: set<ContextKey>) returns (kept: map<ContextKey, Entry<S>>)
    ensures kept == entries - doomed
  {
    var keys := entries.Keys;
    kept := entries;
    while keys != {}
      invariant keys <= entries.Keys && kept == entries - (doomed - keys)
      decreases |keys|
    {
      var k :| k in keys;
      EraseOne(entries, doomed, keys, k);
      if k in doomed { kept := kept - {k}; }
      keys := keys - {k};
    }
  }

  lemma ScanOne<S>(entries: map<ContextKey, Entry<S>>, sequence: nat, among: set<ContextKey>, keys: set<ContextKey>,
      k: ContextKey, best: Option<ContextKey>)
    requires Filed(entries, sequence) && among <= entries.Keys && keys <= among && k in keys
    requires best.None? <==> keys == among
    requires best.Some? ==> IsBest(entries, among - keys, best.value)
    ensures keys - {k} != among
    ensures IsBest(entries, among - (keys - {k}),
                   if best.None? || Outranks(entries[k], entries[best.value]) then k else best.value)
  {
    assert among - (keys - {k}) == (among - keys) + {k};
  }

  class Arbiter<S> {
    var contexts: map<ContextKey, Entry<S>>
    var activation: Option<Activation>
    var activationHeld: bool
    var sequence: nat
    var compactDefault: string
    var expandedDefault: string

    function Value(): State<S>
      reads this
    {
      State(contexts, activation, activationHeld, sequence, compactDefault, expandedDefault)
    }

    constructor (compactDefault: string, expandedDefault: string)
      ensures Value() == Fresh(compactDefault, expandedDefault)
    {
      contexts, activation, activationHeld, sequence := map[], None, false, 0;
      this.compactDefault, this.expandedDefault := compactDefault, expandedDefault;
    }

    method PublishContext(context: Context<S>, now: int)
      requires Sound(Value())
      modifies this
      ensures Value() == Step(old(Value()), Publish(context, now))
    {
      if Reached(context.expiresAt, now) {
        DismissContext(context.key);
        return;
      }
      sequence := sequence + 1;
      contexts := contexts[context.key := Entry(context, sequence)];
    }

    method DismissContext(key: ContextKey)
      requires Sound(Value())
      modifies this
      ensures Value() == Step(old(Value()), Dismiss(key))
    {
      contexts := contexts - {key};
      if activation.Some? && activation.value.key == key { activation := None; }
    }

    method DismissAllOf(instanceId: string)
      requires Sound(Value())
      modifies this
      ensures Value() == Step(old(Value()), DismissInstance(instanceId))
    {
      contexts := Erase(contexts, OfInstance(contexts, instanceId));
      if activation.Some? && activation.value.key.instanceId == instanceId { activation := None; }
    }

    method ChooseDefaults(compact: string, expanded: string)
      requires Sound(Value())
      modifies this
      ensures Value() == Step(old(Value()), SetDefaults(compact, expanded))
    {
      compactDefault, expandedDefault := compact, expanded;
    }

    method Expire(now: int)
      requires Sound(Value())
      modifies this
      ensures Value() == Step(old(Value()), Sweep(now))
    {
      contexts := Erase(contexts, set k | k in contexts && Reached(contexts[k].context.expiresAt, now));
      assert contexts == Unexpired(old(contexts), now);
      if activation.Some?
        && ((!activationHeld && Reached(activation.value.deadline, now)) || activation.value.key !in contexts)
      {
        activation := None;
      }
    }

    /** The scan that keeps the best entry seen so far, in whatever order the keys are visited. */
    method Scan(among: set<ContextKey>) returns (best: Option<ContextKey>)
      requires Sound(Value()) && among <= contexts.Keys
      ensures best == Best(contexts, among, sequence)
    {
      var keys := among;
      best := None;
      while keys != {}
        invariant keys <= among
        invariant best.None? <==> keys == among
        invariant best.Some? ==> IsBest(contexts, among - keys, best.value)
        decreases |keys|
      {
        var k :| k in keys;
        ScanOne(contexts, sequence, among, keys, k, best);
        if best.None? || Outranks(contexts[k], contexts[best.value]) { best := Some(k); }
        keys := keys - {k};
      }
      assert among - keys == among;
    }

    method ActivateInstance(instanceId: string, deadline: Option<int>, now: int) returns (chosen: Option<ContextKey>)
      requires Sound(Value())
      modifies this
      ensures Value() == Activated(Swept(old(Value()), now), instanceId, deadline)
      ensures chosen.None? <==> OfInstance(contexts, instanceId) == {}
      ensures chosen.Some? ==> activation == Some(Activation(chosen.value, deadline))
    {
      Expire(now);
      chosen := Scan(OfInstance(contexts, instanceId));
      if chosen.Some? { activation := Some(Activation(chosen.value, deadline)); }
    }

    method Clear(expected: Option<ContextKey>) returns (cleared: bool)
      requires Sound(Value())
      modifies this
      ensures Value() == Step(old(Value()), ClearActivation(expected))
      ensures cleared <==> old(activation).Some? && activation.None?
    {
      activationHeld := false;
      if activation.None? || (expected.Some? && activation.value.key != expected.value) { return false; }
      activation := None;
      cleared := true;
    }

    method SetHeld(held: bool)
      requires Sound(Value())
      modifies this
      ensures Value() == Step(old(Value()), Hold(held))
    {
      activationHeld := held;
    }

    method Active(slot: ViewSlot, now: int) returns (shown: Option<ContextKey>)
      requires Sound(Value())
      modifies this
      ensures Value() == Step(old(Value()), Sweep(now))
      ensures shown == Answer(Value(), slot)
    {
      Expire(now);
      if activation.Some? && Contributes(contexts[activation.value.key].context, slot) {
        return Some(activation.value.key);
      }
      shown := Scan(Visitors(Value(), slot));
      if shown.None? { shown := Scan(Residents(Value(), slot)); }
    }

    /** Dismisses the context the compact slot shows, provided it has this name. */
    method DismissActive(contextId: string, now: int) returns (dismissed: bool)
      requires Sound(Value())
      modifies this
      ensures var swept := Step(old(Value()), Sweep(now));
              var shown := Answer(swept, Compact);
              && (dismissed <==> shown.Some? && shown.value.contextId == contextId)
              && Value() == if dismissed then Step(swept, Dismiss(shown.value)) else swept
    {
      var shown := Active(Compact, now);
      if shown.None? || shown.value.contextId != contextId { return false; }
      DismissContext(shown.value);
      dismissed := true;
    }
  }
}
