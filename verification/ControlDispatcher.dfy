/** Deferred replies: each action token handed to a client is retired once, by one completion or one cancel. */
module ControlDispatcher {
  import opened Optional

  /** The greatest invocation identifier; zero is not one. */
  const MAXIMUM_ID := 0xFFFF_FFFF_FFFF_FFFF
  const ACTION_DEADLINE := 2000

  datatype Pending = Pending(instanceId: string, generation: nat, actionId: string, deadline: Option<int>)
  datatype Outcome = ActionAccepted | ActionRejected | DeliveryFailed | ActionCancelled | ActionTimeout
  datatype Completed = Completed(token: nat, outcome: Outcome)

  datatype Dispatcher = Dispatcher(
    pending: map<nat, Pending>, completed: seq<Completed>, nextId: nat, restarts: map<string, nat>, nextRestart: nat)

  /** What a client is told: a token to wait for, or an answer right away. */
  datatype Reply = Token(token: nat) | Answer(ok: bool)

  datatype Inbound =
    | Delivery(instanceId: string, generation: nat, invocation: nat, succeeded: bool, at: int)
    | ActionResult(instanceId: string, generation: nat, correlation: Option<nat>, actionId: string, accepted: bool)
    | Exited(instanceId: string, generation: nat)
    | Removed(instanceId: string, generation: nat)
    | Started(instanceId: string, generation: nat)
    | RestartDone(instanceId: string, token: nat)

  datatype Verdict = Consumed | Stale | ProtocolError

  // ---- Identifiers ----

  function Following(id: nat): nat {
    if id == MAXIMUM_ID then 1 else id + 1
  }

  /** The k-th identifier from `first`, wrapping past the greatest to one. */
  function Candidate(first: nat, k: nat): nat {
    1 + (first - 1 + k) % MAXIMUM_ID
  }

  function FirstFree(pending: map<nat, Pending>, first: nat, k: nat): Option<nat>
    requires k <= MAXIMUM_ID
    decreases MAXIMUM_ID - k
  {
    if k == MAXIMUM_ID then None
    else if Candidate(first, k) !in pending then Some(Candidate(first, k))
    else FirstFree(pending, first, k + 1)
  }

  function FirstId(d: Dispatcher): nat {
    if d.nextId == 0 then 1 else d.nextId
  }

  function Allocate(d: Dispatcher): Option<nat> {
    FirstFree(d.pending, FirstId(d), 0)
  }

  lemma CandidateSteps(first: nat, k: nat)
    requires 1 <= first <= MAXIMUM_ID && k < MAXIMUM_ID
    ensures 1 <= Candidate(first, k) <= MAXIMUM_ID
    ensures Candidate(first, k + 1) == Following(Candidate(first, k))
    ensures Candidate(first, 0) == first
    ensures Candidate(first, k) == if first + k <= MAXIMUM_ID then first + k else first + k - MAXIMUM_ID
    ensures k > 0 ==> Candidate(first, k) != first
  {
  }

  lemma {:induction false} FirstFreeIsFree(pending: map<nat, Pending>, first: nat, k: nat)
    requires 1 <= first <= MAXIMUM_ID && k <= MAXIMUM_ID
    ensures var r := FirstFree(pending, first, k);
      && (r.Some? ==> r.value !in pending && 1 <= r.value <= MAXIMUM_ID)
      && (r.None? ==> forall j :: k <= j < MAXIMUM_ID ==> Candidate(first, j) in pending)
    decreases MAXIMUM_ID - k
  {
    if k < MAXIMUM_ID {
      CandidateSteps(first, k);
      if Candidate(first, k) in pending { FirstFreeIsFree(pending, first, k + 1); }
    }
  }

  /** An identifier is refused only when every one of them is pending. */
  lemma AllocateFailsIff(d: Dispatcher)
    requires FirstId(d) <= MAXIMUM_ID
    ensures Allocate(d).None? <==> forall id :: 1 <= id <= MAXIMUM_ID ==> id in d.pending
    ensures Allocate(d).Some? ==> Allocate(d).value !in d.pending && 1 <= Allocate(d).value <= MAXIMUM_ID
  {
    var first := FirstId(d);
    FirstFreeIsFree(d.pending, first, 0);
    if Allocate(d).None? {
      forall id | 1 <= id <= MAXIMUM_ID ensures id in d.pending {
        var k := if id >= first then id - first else id - first + MAXIMUM_ID;
        CandidateSteps(first, k);
        assert Candidate(first, k) == id;
      }
    }
  }

  // ---- Completing ----

  function Complete(d: Dispatcher, id: nat, outcome: Outcome): Dispatcher {
    if id !in d.pending then d
    else d.(completed := d.completed + [Completed(id, outcome)], pending := d.pending - {id})
  }

  function CompleteAll(d: Dispatcher, ids: seq<nat>, outcome: Outcome): Dispatcher
    decreases ids
  {
    if ids == [] then d else CompleteAll(Complete(d, ids[0], outcome), ids[1..], outcome)
  }

  predicate Least(s: set<nat>, m: nat) {
    m in s && forall x :: x in s ==> m <= x
  }

  lemma {:induction false} HasLeast(s: set<nat>) returns (m: nat)
    requires s != {}
    ensures Least(s, m)
  {
    m :| m in s;
    var rest := s - {m};
    if rest != {} {
      var other := HasLeast(rest);
      assert s == rest + {m};
      if other < m { m := other; }
    } else {
      assert s == {m};
    }
  }

  lemma LeastExists(s: set<nat>)
    requires s != {}
    ensures exists m :: Least(s, m)
  {
    var m := HasLeast(s);
  }

  /** The elements of a set in increasing order, which is the order of the map of pending actions. */
  function Ordered(s: set<nat>): (r: seq<nat>)
    ensures forall x :: x in r <==> x in s
  {
    if s == {} then []
    else
      LeastExists(s);
      var m :| Least(s, m);
      [m] + Ordered(s - {m})
  }

  predicate Ascending(ids: seq<nat>) {
    forall i, j :: 0 <= i < j < |ids| ==> ids[i] < ids[j]
  }

  lemma AscendsAfter(m: nat, rest: seq<nat>)
    requires Ascending(rest) && forall x :: x in rest ==> m < x
    ensures Ascending([m] + rest)
  {
    forall i, j | 0 <= i < j < |[m] + rest| ensures ([m] + rest)[i] < ([m] + rest)[j] {
      assert ([m] + rest)[j] == rest[j - 1];
      if i == 0 { assert rest[j - 1] in rest; } else { assert ([m] + rest)[i] == rest[i - 1]; }
    }
  }

  lemma {:induction false} OrderedAscends(s: set<nat>)
    ensures Ascending(Ordered(s))
  {
    if s != {} {
      LeastExists(s);
      var m :| Least(s, m) && Ordered(s) == [m] + Ordered(s - {m});
      OrderedAscends(s - {m});
      AscendsAfter(m, Ordered(s - {m}));
    }
  }

  datatype Selection =
    | OfGeneration(instanceId: string, generation: nat)
    | OfOtherGenerations(instanceId: string, generation: nat)
    | OfInstance(instanceId: string)
    | Overdue(now: int)
    | Everything

  predicate Selects(selection: Selection, pending: Pending) {
    match selection
    case OfGeneration(id, g) => pending.instanceId == id && pending.generation == g
    case OfOtherGenerations(id, g) => pending.instanceId == id && pending.generation != g
    case OfInstance(id) => pending.instanceId == id
    case Overdue(now) => pending.deadline.Some? && pending.deadline.value <= now
    case Everything => true
  }

  function Selected(pending: map<nat, Pending>, selection: Selection): set<nat> {
    set id | id in pending && Selects(selection, pending[id])
  }

  function CompleteSelected(d: Dispatcher, selection: Selection, outcome: Outcome): Dispatcher {
    CompleteAll(d, Ordered(Selected(d.pending, selection)), outcome)
  }

  // ---- Operations ----

  /** What the runtime says about the target of an action. */
  datatype Target = NoTarget | TooOld | NoChannel | Running(generation: nat)

  /** `submitted` tells whether the supervisor accepted the request. */
  function Act(d: Dispatcher, instanceId: string, actionId: string, target: Target, submitted: bool): (Dispatcher,
      Reply) {
    if !target.Running? then (d, Answer(false))
    else
      var id := Allocate(d);
      if id.None? then (d, Answer(false))
      else
        var next := d.(nextId := Following(id.value));
        if submitted then
          (next.(pending := d.pending[id.value := Pending(instanceId, target.generation, actionId, None)]),
            Token(id.value))
        else (next.(pending := d.pending - {id.value}), Answer(false))
  }

  function ConsumeDelivery(d: Dispatcher, instanceId: string, generation: nat, invocation: nat, succeeded: bool,
      at: int): Dispatcher {
    if invocation !in d.pending then d
    else
      var p := d.pending[invocation];
      if p.instanceId != instanceId || p.generation != generation || p.deadline.Some? then d
      else if !succeeded then Complete(d, invocation, DeliveryFailed)
      else d.(pending := d.pending[invocation := p.(deadline := Some(at + ACTION_DEADLINE))])
  }

  predicate Matches(p: Pending, instanceId: string, generation: nat, actionId: string) {
    p.instanceId == instanceId && p.generation == generation && p.actionId == actionId
  }

  function ConsumeResult(d: Dispatcher, instanceId: string, generation: nat, invocation: Option<nat>,
      actionId: string, accepted: bool): (Dispatcher, Verdict) {
    if invocation.None? then
      (d, if exists id :: id in d.pending && Matches(d.pending[id], instanceId, generation, actionId) then ProtocolError
        else Stale)
    else if invocation.value !in d.pending then (d, Stale)
    else
      var p := d.pending[invocation.value];
      if !Matches(p, instanceId, generation, actionId) || p.deadline.None? then (d, Stale)
      else (Complete(d, invocation.value, if accepted then ActionAccepted else ActionRejected), Consumed)
  }

  function Consume(d: Dispatcher, e: Inbound): Dispatcher {
    match e
    case Delivery(id, g, invocation, succeeded, at) => ConsumeDelivery(d, id, g, invocation, succeeded, at)
    case ActionResult(id, g, invocation, actionId, accepted) =>
      ConsumeResult(d, id, g, invocation, actionId, accepted).0
    case Exited(id, g) => CompleteSelected(d, OfGeneration(id, g), ActionCancelled)
    case Removed(id, g) => CompleteSelected(d, OfGeneration(id, g), ActionCancelled)
    case Started(id, g) => CompleteSelected(d, OfOtherGenerations(id, g), ActionCancelled)
    case RestartDone(id, token) =>
      if id in d.restarts && d.restarts[id] == token then d.(restarts := d.restarts - {id}) else d
  }

  function Expire(d: Dispatcher, now: int): Dispatcher {
    CompleteSelected(d, Overdue(now), ActionTimeout)
  }

  function Cancel(d: Dispatcher, token: nat): Dispatcher {
    d.(pending := d.pending - {token})
  }

  function CancelAll(d: Dispatcher): Dispatcher {
    CompleteSelected(d, Everything, ActionCancelled)
  }

  /** A restart of an enabled instance cancels its actions, unless one is already under way. */
  function Restart(d: Dispatcher, instanceId: string, known: bool, requested: bool): (Dispatcher, Reply) {
    if !known || instanceId in d.restarts || d.nextRestart == MAXIMUM_ID then (d, Answer(false))
    else
      var numbered := d.(nextRestart := d.nextRestart + 1);
      if !requested then (numbered, Answer(false))
      else
        var cancelled := CompleteSelected(numbered, OfInstance(instanceId), ActionCancelled);
        (cancelled.(restarts := cancelled.restarts[instanceId := d.nextRestart]), Answer(true))
  }

  function TakeCompleted(d: Dispatcher): Dispatcher {
    d.(completed := [])
  }

  // ---- Accounting ----

  datatype Operation =
    | ActOn(instanceId: string, actionId: string, target: Target, submitted: bool)
    | ConsumeEvent(event: Inbound)
    | ExpireAt(now: int)
    | CancelToken(token: nat)
    | CancelEverything
    | RestartInstance(instanceId: string, known: bool, requested: bool)
    | TakeAll

  function Perform(d: Dispatcher, op: Operation): Dispatcher {
    match op
    case ActOn(id, actionId, target, submitted) => Act(d, id, actionId, target, submitted).0
    case ConsumeEvent(event) => Consume(d, event)
    case ExpireAt(now) => Expire(d, now)
    case CancelToken(token) => Cancel(d, token)
    case CancelEverything => CancelAll(d)
    case RestartInstance(id, known, requested) => Restart(d, id, known, requested).0
    case TakeAll => TakeCompleted(d)
  }

  /** Tokens handed to clients, tokens completed and tokens cancelled, as seen from outside: a token is handed out in
      a reply, completed when it first shows up among the completed actions, cancelled when cancel succeeds. */
  datatype Ledger = Ledger(issued: multiset<nat>, completed: multiset<nat>, cancelled: multiset<nat>)

  function Tokens(completed: seq<Completed>): seq<nat> {
    if completed == [] then [] else [completed[0].token] + Tokens(completed[1..])
  }

  function Record(l: Ledger, d: Dispatcher, op: Operation): Ledger {
    match op
    case ActOn(id, actionId, target, submitted) =>
      var reply := Act(d, id, actionId, target, submitted).1;
      if reply.Token? then l.(issued := l.issued + multiset{reply.token}) else l
    case CancelToken(token) => if token in d.pending then l.(cancelled := l.cancelled + multiset{token}) else l
    case TakeAll => l
    case _ =>
      var after := Perform(d, op).completed;
      if |d.completed| <= |after| then l.(completed := l.completed + multiset(Tokens(after[|d.completed|..]))) else l
  }

  predicate Sane(d: Dispatcher) {
    d.nextId <= MAXIMUM_ID && forall id :: id in d.pending ==> 1 <= id <= MAXIMUM_ID
  }

  /** Every token issued is pending, completed or cancelled, counted with multiplicity. */
  predicate Balanced(l: Ledger, d: Dispatcher) {
    l.issued == multiset(d.pending.Keys) + l.completed + l.cancelled
  }

  lemma {:induction false} TokensJoin(a: seq<Completed>, b: seq<Completed>)
    ensures Tokens(a + b) == Tokens(a) + Tokens(b)
  {
    if a == [] {
      assert a + b == b;
    } else {
      assert (a + b)[1..] == a[1..] + b;
      TokensJoin(a[1..], b);
    }
  }

  /** Completing moves tokens from pending to completed, and touches nothing else. */
  predicate Moves(before: Dispatcher, after: Dispatcher, news: seq<Completed>) {
    && after.completed == before.completed + news
    && multiset(before.pending.Keys) == multiset(after.pending.Keys) + multiset(Tokens(news))
    && after.pending.Keys <= before.pending.Keys
    && after.nextId == before.nextId
  }

  lemma SameMoves(d: Dispatcher)
    ensures Moves(d, d, [])
  {
    assert d.completed + [] == d.completed;
  }

  lemma CompleteMoves(d: Dispatcher, id: nat, outcome: Outcome) returns (news: seq<Completed>)
    ensures Moves(d, Complete(d, id, outcome), news)
    ensures Complete(d, id, outcome).pending == d.pending - {id}
  {
    if id in d.pending {
      news := [Completed(id, outcome)];
      assert news[1..] == [];
      assert Tokens(news) == [id];
      assert d.pending.Keys == (d.pending - {id}).Keys + {id};
    } else {
      news := [];
      SameMoves(d);
      assert d.pending - {id} == d.pending;
    }
  }

  lemma SumsTwice(a: multiset<nat>, b: multiset<nat>, c: multiset<nat>, first: multiset<nat>, second: multiset<nat>)
    requires a == b + first && b == c + second
    ensures a == c + (first + second)
  {
  }

  lemma AppendsTwice(a: seq<Completed>, b: seq<Completed>, c: seq<Completed>, first: seq<Completed>,
      second: seq<Completed>)
    requires b == a + first && c == b + second
    ensures c == a + (first + second)
  {
  }

  lemma TokensSum(first: seq<Completed>, second: seq<Completed>)
    ensures multiset(Tokens(first + second)) == multiset(Tokens(first)) + multiset(Tokens(second))
  {
    TokensJoin(first, second);
  }

  lemma MovesTwice(a: Dispatcher, b: Dispatcher, c: Dispatcher, first: seq<Completed>, second: seq<Completed>)
    requires Moves(a, b, first) && Moves(b, c, second)
    ensures Moves(a, c, first + second)
  {
    SumsTwice(multiset(a.pending.Keys), multiset(b.pending.Keys), multiset(c.pending.Keys), multiset(Tokens(first)),
      multiset(Tokens(second)));
    TokensSum(first, second);
    AppendsTwice(a.completed, b.completed, c.completed, first, second);
  }

  lemma {:induction false} CompleteAllMoves(d: Dispatcher, ids: seq<nat>, outcome: Outcome)
    returns (news: seq<Completed>)
    ensures Moves(d, CompleteAll(d, ids, outcome), news)
    decreases ids
  {
    if ids == [] {
      news := [];
      SameMoves(d);
    } else {
      var next := Complete(d, ids[0], outcome);
      var first := CompleteMoves(d, ids[0], outcome);
      var second := CompleteAllMoves(next, ids[1..], outcome);
      MovesTwice(d, next, CompleteAll(next, ids[1..], outcome), first, second);
      news := first + second;
    }
  }

  lemma {:induction false} CompleteAllRemoves(d: Dispatcher, ids: seq<nat>, outcome: Outcome)
    ensures forall id :: id in CompleteAll(d, ids, outcome).pending <==> id in d.pending && id !in ids
    ensures forall id :: id in CompleteAll(d, ids, outcome).pending ==>
      CompleteAll(d, ids, outcome).pending[id] == d.pending[id]
    decreases ids
  {
    if ids != [] { CompleteAllRemoves(Complete(d, ids[0], outcome), ids[1..], outcome); }
  }

  /** Exactly the selected actions are completed. */
  lemma CompleteSelectedRemoves(d: Dispatcher, selection: Selection, outcome: Outcome)
    ensures forall id :: id in CompleteSelected(d, selection, outcome).pending <==>
      id in d.pending && !Selects(selection, d.pending[id])
    ensures forall id :: id in CompleteSelected(d, selection, outcome).pending ==>
      CompleteSelected(d, selection, outcome).pending[id] == d.pending[id]
  {
    CompleteAllRemoves(d, Ordered(Selected(d.pending, selection)), outcome);
  }

  /** The completions of exactly these actions, each with that outcome, in ascending order. */
  predicate CompletesExactly(news: seq<Completed>, gone: set<nat>, outcome: Outcome) {
    && (forall i, j :: 0 <= i < j < |news| ==> news[i].token < news[j].token)
    && (forall i :: 0 <= i < |news| ==> news[i].token in gone && news[i].outcome == outcome)
    && (forall id :: id in gone ==> exists i :: 0 <= i < |news| && news[i].token == id)
  }

  /** Exactly these actions are taken off and completed; nothing else changes. */
  predicate Retires(before: Dispatcher, after: Dispatcher, gone: set<nat>, outcome: Outcome) {
    && after == before.(pending := before.pending - gone, completed := after.completed)
    && before.completed <= after.completed
    && CompletesExactly(after.completed[|before.completed|..], gone, outcome)
  }

  lemma {:induction false} CompleteAllAppends(d: Dispatcher, ids: seq<nat>, outcome: Outcome)
    requires Ascending(ids) && forall id :: id in ids ==> id in d.pending
    ensures var after := CompleteAll(d, ids, outcome);
      && after == d.(pending := after.pending, completed := after.completed)
      && |after.completed| == |d.completed| + |ids| && d.completed <= after.completed
      && forall i :: 0 <= i < |ids| ==> after.completed[|d.completed| + i] == Completed(ids[i], outcome)
    decreases ids
  {
    if ids != [] {
      var next := Complete(d, ids[0], outcome);
      forall id | id in ids[1..] ensures id in next.pending {
        var k :| 0 <= k < |ids[1..]| && ids[1..][k] == id;
        assert ids[0] < ids[k + 1];
      }
      CompleteAllAppends(next, ids[1..], outcome);
    }
  }

  lemma ListedExactly(news: seq<Completed>, ids: seq<nat>, gone: set<nat>, outcome: Outcome)
    requires Ascending(ids) && (forall x :: x in ids <==> x in gone)
    requires |news| == |ids| && forall i :: 0 <= i < |ids| ==> news[i] == Completed(ids[i], outcome)
    ensures CompletesExactly(news, gone, outcome)
  {
    forall id | id in gone ensures exists i :: 0 <= i < |news| && news[i].token == id {
      var i :| 0 <= i < |ids| && ids[i] == id;
      assert news[i].token == id;
    }
  }

  lemma SelectedRetire(d: Dispatcher, selection: Selection, outcome: Outcome, gone: set<nat>)
    requires gone == Selected(d.pending, selection)
    ensures Retires(d, CompleteSelected(d, selection, outcome), gone, outcome)
  {
    var ids := Ordered(gone);
    OrderedAscends(gone);
    CompleteAllAppends(d, ids, outcome);
    CompleteAllRemoves(d, ids, outcome);
    var after := CompleteAll(d, ids, outcome);
    assert after.pending == d.pending - gone;
    ListedExactly(after.completed[|d.completed|..], ids, gone, outcome);
  }

  /** Expiry: an action times out exactly when its deadline has come. */
  lemma ExpireRetires(d: Dispatcher, now: int)
    ensures var gone := set id | id in d.pending && d.pending[id].deadline.Some? && d.pending[id].deadline.value <= now;
      Retires(d, Expire(d, now), gone, ActionTimeout)
  {
    SelectedRetire(d, Overdue(now), ActionTimeout,
      set id | id in d.pending && d.pending[id].deadline.Some? && d.pending[id].deadline.value <= now);
  }

  /** The end of a process generation, told either way, cancels its actions. */
  lemma EndRetires(d: Dispatcher, instanceId: string, generation: nat)
    ensures var gone :=
        set id | id in d.pending && d.pending[id].instanceId == instanceId && d.pending[id].generation == generation;
      && Retires(d, Consume(d, Exited(instanceId, generation)), gone, ActionCancelled)
      && Retires(d, Consume(d, Removed(instanceId, generation)), gone, ActionCancelled)
  {
    SelectedRetire(d, OfGeneration(instanceId, generation), ActionCancelled,
      set id | id in d.pending && d.pending[id].instanceId == instanceId && d.pending[id].generation == generation);
  }

  /** A new process generation cancels the actions of all others of its instance. */
  lemma ReplacementRetires(d: Dispatcher, instanceId: string, generation: nat)
    ensures var gone :=
        set id | id in d.pending && d.pending[id].instanceId == instanceId && d.pending[id].generation != generation;
      Retires(d, Consume(d, Started(instanceId, generation)), gone, ActionCancelled)
  {
    SelectedRetire(d, OfOtherGenerations(instanceId, generation), ActionCancelled,
      set id | id in d.pending && d.pending[id].instanceId == instanceId && d.pending[id].generation != generation);
  }

  lemma CancelAllRetires(d: Dispatcher)
    ensures Retires(d, CancelAll(d), d.pending.Keys, ActionCancelled)
  {
    SelectedRetire(d, Everything, ActionCancelled, d.pending.Keys);
  }

  /** A restart is requested at most once per instance at a time; then it cancels that instance's actions, and the
      answer says whether it was requested. */
  lemma RestartRetires(d: Dispatcher, instanceId: string, known: bool, requested: bool)
    ensures var (after, reply) := Restart(d, instanceId, known, requested);
      var free := known && instanceId !in d.restarts && d.nextRestart != MAXIMUM_ID;
      && reply == Answer(free && requested)
      && after.nextRestart == d.nextRestart + (if free then 1 else 0)
      && after.restarts == (if free && requested then d.restarts[instanceId := d.nextRestart] else d.restarts)
      && var gone := set id | free && requested && id in d.pending && d.pending[id].instanceId == instanceId;
         Retires(d.(nextRestart := after.nextRestart, restarts := after.restarts), after, gone, ActionCancelled)
  {
    var free := known && instanceId !in d.restarts && d.nextRestart != MAXIMUM_ID;
    var gone := set id | free && requested && id in d.pending && d.pending[id].instanceId == instanceId;
    if free && requested {
      SelectedRetire(d.(nextRestart := d.nextRestart + 1), OfInstance(instanceId), ActionCancelled, gone);
    } else {
      assert gone == {} && d.pending - {} == d.pending;
    }
  }

  lemma OneRetires(d: Dispatcher, id: nat, outcome: Outcome)
    requires id in d.pending
    ensures Retires(d, Complete(d, id, outcome), {id}, outcome)
  {
    var news := Complete(d, id, outcome).completed[|d.completed|..];
    assert news == [Completed(id, outcome)] && news[0].token == id;
  }

  /** Where the search for an identifier ended: everything from where it began up to there, round past the greatest to
      one, is taken. */
  ghost predicate TakenUpTo(pending: map<nat, Pending>, first: nat, id: nat) {
    if first <= id then forall k :: first <= k < id ==> k in pending
    else forall k :: (first <= k <= MAXIMUM_ID || 1 <= k < id) ==> k in pending
  }

  lemma {:induction false} FirstFreeSkips(pending: map<nat, Pending>, first: nat, k: nat)
    requires 1 <= first <= MAXIMUM_ID && k <= MAXIMUM_ID && FirstFree(pending, first, k).Some?
    ensures exists j :: k <= j < MAXIMUM_ID && FirstFree(pending, first, k) == Some(Candidate(first, j))
              && forall i :: k <= i < j ==> Candidate(first, i) in pending
    decreases MAXIMUM_ID - k
  {
    if Candidate(first, k) in pending {
      FirstFreeSkips(pending, first, k + 1);
      var j :| k + 1 <= j < MAXIMUM_ID && FirstFree(pending, first, k + 1) == Some(Candidate(first, j))
        && forall i :: k + 1 <= i < j ==> Candidate(first, i) in pending;
    }
  }

  /** An identifier that is given is the first free one from the counter on. */
  lemma AllocateIsNext(d: Dispatcher)
    requires d.nextId <= MAXIMUM_ID && Allocate(d).Some?
    ensures TakenUpTo(d.pending, if d.nextId == 0 then 1 else d.nextId, Allocate(d).value)
  {
    var first := FirstId(d);
    FirstFreeSkips(d.pending, first, 0);
    var j :| 0 <= j < MAXIMUM_ID && Allocate(d) == Some(Candidate(first, j))
      && forall i :: 0 <= i < j ==> Candidate(first, i) in d.pending;
    CandidateSteps(first, j);
    forall k | if first <= Allocate(d).value then first <= k < Allocate(d).value
               else first <= k <= MAXIMUM_ID || 1 <= k < Allocate(d).value
      ensures k in d.pending
    {
      var i := if first <= k then k - first else k - first + MAXIMUM_ID;
      CandidateSteps(first, i);
      assert Candidate(first, i) == k;
    }
  }

  /** An action is accepted exactly if its module runs, an identifier is free and the supervisor took it; then it is
      pending under the next free identifier, undelivered, for the generation that runs. */
  lemma ActAnswers(d: Dispatcher, instanceId: string, actionId: string, target: Target, submitted: bool)
    requires Sane(d)
    ensures var (after, reply) := Act(d, instanceId, actionId, target, submitted);
      var free := exists id :: 1 <= id <= MAXIMUM_ID && id !in d.pending;
      && (reply.Token? <==> target.Running? && free && submitted)
      && (!reply.Token? ==> reply == Answer(false) && after == d.(nextId := after.nextId))
      && (!target.Running? || !free ==> after == d)
      && (target.Running? && free ==>
            && 1 <= after.nextId <= MAXIMUM_ID
            && var id := if after.nextId == 1 then MAXIMUM_ID else after.nextId - 1;
               && id !in d.pending && TakenUpTo(d.pending, if d.nextId == 0 then 1 else d.nextId, id)
               && (submitted ==>
                     && reply == Token(id)
                     && after == d.(nextId := after.nextId,
                          pending := d.pending[id := Pending(instanceId, target.generation, actionId, None)])))
  {
    AllocateFailsIff(d);
    if target.Running? && Allocate(d).Some? {
      AllocateIsNext(d);
      assert d.pending - {Allocate(d).value} == d.pending;
    }
  }

  /** A delivery concerns the pending action of that process, once: it starts the two seconds for the result, or, having
      failed, retires the action. Any other delivery changes nothing. */
  lemma DeliveryAnswers(d: Dispatcher, instanceId: string, generation: nat, id: nat, succeeded: bool, at: int)
    ensures var after := Consume(d, Delivery(instanceId, generation, id, succeeded, at));
      if id in d.pending && d.pending[id].instanceId == instanceId && d.pending[id].generation == generation
         && d.pending[id].deadline.None? then
        if succeeded then
          after ==
            d.(pending := d.pending[id := Pending(instanceId, generation, d.pending[id].actionId, Some(at + 2000))])
        else Retires(d, after, {id}, DeliveryFailed)
      else after == d
  {
    if id in d.pending && !succeeded { OneRetires(d, id, DeliveryFailed); }
  }

  /** A result retires the delivered action it names. A result that names none is a protocol error exactly if such an
      action of that process waits; every other result is stale. Neither changes anything. */
  lemma ResultAnswers(d: Dispatcher, instanceId: string, generation: nat, correlation: Option<nat>, actionId: string,
      accepted: bool)
    ensures var (after, verdict) := ConsumeResult(d, instanceId, generation, correlation, actionId, accepted);
      var waits := set id | id in d.pending && d.pending[id].instanceId == instanceId
                            && d.pending[id].generation == generation && d.pending[id].actionId == actionId;
      && after == Consume(d, ActionResult(instanceId, generation, correlation, actionId, accepted))
      && (correlation.None? ==> after == d && verdict == if waits == {} then Stale else ProtocolError)
      && (correlation.Some? && correlation.value in waits && d.pending[correlation.value].deadline.Some? ==>
            && verdict == Consumed
            && Retires(d, after, {correlation.value}, if accepted then ActionAccepted else ActionRejected))
      && (correlation.Some? && !(correlation.value in waits && d.pending[correlation.value].deadline.Some?) ==>
            verdict == Stale && after == d)
  {
    var waits := set id | id in d.pending && d.pending[id].instanceId == instanceId
                          && d.pending[id].generation == generation && d.pending[id].actionId == actionId;
    if correlation.None? {
      if id :| id in d.pending && Matches(d.pending[id], instanceId, generation, actionId) { assert id in waits; }
      if waits != {} {
        var id :| id in waits;
        assert Matches(d.pending[id], instanceId, generation, actionId);
      }
    } else if correlation.value in d.pending {
      OneRetires(d, correlation.value, if accepted then ActionAccepted else ActionRejected);
    }
  }

  /** Only the restart that was requested last for an instance ends the wait for it. */
  lemma RestartDoneAnswers(d: Dispatcher, instanceId: string, token: nat)
    ensures var after := Consume(d, RestartDone(instanceId, token));
      && after == d.(restarts := after.restarts)
      && (forall id :: id in after.restarts <==> id in d.restarts && !(id == instanceId && d.restarts[id] == token))
      && (forall id :: id in after.restarts ==> after.restarts[id] == d.restarts[id])
  {
  }

  lemma CompleteSelectedMoves(d: Dispatcher, selection: Selection, outcome: Outcome) returns (news: seq<Completed>)
    ensures Moves(d, CompleteSelected(d, selection, outcome), news)
  {
    news := CompleteAllMoves(d, Ordered(Selected(d.pending, selection)), outcome);
  }

  lemma ConsumeMoves(d: Dispatcher, e: Inbound) returns (news: seq<Completed>)
    ensures Moves(d, Consume(d, e), news)
  {
    SameMoves(d);
    news := [];
    match e
    case Delivery(id, g, invocation, succeeded, at) =>
      if invocation in d.pending {
        if succeeded {
          assert d.pending[invocation := Consume(d, e).pending[invocation]].Keys == d.pending.Keys;
        } else if Consume(d, e) != d {
          news := CompleteMoves(d, invocation, DeliveryFailed);
        }
      }
    case ActionResult(id, g, correlation, actionId, accepted) =>
      if Consume(d, e) != d {
        news := CompleteMoves(d, correlation.value, if accepted then ActionAccepted else ActionRejected);
      }
    case Exited(id, g) => news := CompleteSelectedMoves(d, OfGeneration(id, g), ActionCancelled);
    case Removed(id, g) => news := CompleteSelectedMoves(d, OfGeneration(id, g), ActionCancelled);
    case Started(id, g) => news := CompleteSelectedMoves(d, OfOtherGenerations(id, g), ActionCancelled);
    case RestartDone(_, _) =>
  }

  /** Moving keeps the balance: the new entries are what the ledger counts as completed. */
  lemma MovesBalance(l: Ledger, d: Dispatcher, after: Dispatcher, news: seq<Completed>)
    requires Balanced(l, d) && Sane(d) && Moves(d, after, news)
    ensures |d.completed| <= |after.completed| && after.completed[|d.completed|..] == news && Sane(after)
    ensures Balanced(l.(completed := l.completed + multiset(Tokens(news))), after)
  {
  }

  /** Handing out a fresh identifier adds exactly its token to the pending ones. */
  lemma IssueBalances(l: Ledger, d: Dispatcher, after: Dispatcher, id: nat, action: Pending)
    requires Balanced(l, d) && id !in d.pending
    requires after.pending == d.pending[id := action]
    ensures Balanced(l.(issued := l.issued + multiset{id}), after)
  {
    assert after.pending.Keys == d.pending.Keys + {id};
  }

  lemma ActBalances(l: Ledger, d: Dispatcher, instanceId: string, actionId: string, target: Target, submitted: bool)
    requires Balanced(l, d) && Sane(d)
    ensures var (after, reply) := Act(d, instanceId, actionId, target, submitted);
      && Sane(after) && after.completed == d.completed
      && Balanced(if reply.Token? then l.(issued := l.issued + multiset{reply.token}) else l, after)
      && (reply.Token? ==> reply.token !in d.pending && reply.token in after.pending)
  {
    AllocateFailsIff(d);
    var id := Allocate(d);
    if target.Running? && id.Some? {
      if submitted {
        var action := Pending(instanceId, target.generation, actionId, None);
        IssueBalances(l, d, Act(d, instanceId, actionId, target, submitted).0, id.value, action);
      } else {
        assert d.pending - {id.value} == d.pending;
      }
    }
  }

  lemma CancelBalances(l: Ledger, d: Dispatcher, token: nat)
    requires Balanced(l, d) && Sane(d)
    ensures Sane(Cancel(d, token))
    ensures Balanced(if token in d.pending then l.(cancelled := l.cancelled + multiset{token}) else l, Cancel(d, token))
  {
    if token in d.pending {
      assert d.pending.Keys == (d.pending - {token}).Keys + {token};
    } else {
      assert d.pending - {token} == d.pending;
    }
  }

  lemma RestartMoves(d: Dispatcher, instanceId: string, known: bool, requested: bool) returns (news: seq<Completed>)
    ensures Moves(d, Restart(d, instanceId, known, requested).0, news)
  {
    SameMoves(d);
    news := [];
    if known && instanceId !in d.restarts && d.nextRestart != MAXIMUM_ID && requested {
      news := CompleteSelectedMoves(d.(nextRestart := d.nextRestart + 1), OfInstance(instanceId), ActionCancelled);
    }
  }

  /** What the operations other than acting, cancelling and taking move. */
  lemma OperationMoves(d: Dispatcher, op: Operation) returns (news: seq<Completed>)
    requires !op.ActOn? && !op.CancelToken? && !op.TakeAll?
    ensures Moves(d, Perform(d, op), news)
  {
    match op
    case ConsumeEvent(event) => news := ConsumeMoves(d, event);
    case ExpireAt(now) => news := CompleteSelectedMoves(d, Overdue(now), ActionTimeout);
    case CancelEverything => news := CompleteSelectedMoves(d, Everything, ActionCancelled);
    case RestartInstance(id, known, requested) => news := RestartMoves(d, id, known, requested);
  }

  /** Every operation keeps the balance. */
  lemma PerformBalances(l: Ledger, d: Dispatcher, op: Operation)
    requires Balanced(l, d) && Sane(d)
    ensures Sane(Perform(d, op)) && Balanced(Record(l, d, op), Perform(d, op))
  {
    match op
    case ActOn(id, actionId, target, submitted) => ActBalances(l, d, id, actionId, target, submitted);
    case CancelToken(token) => CancelBalances(l, d, token);
    case TakeAll =>
    case _ =>
      var news := OperationMoves(d, op);
      MovesBalance(l, d, Perform(d, op), news);
  }

  function Initial(firstId: nat): Dispatcher {
    Dispatcher(map[], [], firstId, map[], 1)
  }

  function RunLedger(firstId: nat, ops: seq<Operation>): (Dispatcher, Ledger) {
    if ops == [] then (Initial(firstId), Ledger(multiset{}, multiset{}, multiset{}))
    else
      var (d, l) := RunLedger(firstId, ops[..|ops| - 1]);
      (Perform(d, ops[|ops| - 1]), Record(l, d, ops[|ops| - 1]))
  }

  /** On every run the tokens issued are exactly the pending, the completed and the cancelled ones, each as often. */
  lemma {:induction false} RunBalances(firstId: nat, ops: seq<Operation>)
    requires firstId <= MAXIMUM_ID
    ensures Sane(RunLedger(firstId, ops).0) && Balanced(RunLedger(firstId, ops).1, RunLedger(firstId, ops).0)
  {
    if ops != [] {
      var (d, l) := RunLedger(firstId, ops[..|ops| - 1]);
      RunBalances(firstId, ops[..|ops| - 1]);
      PerformBalances(l, d, ops[|ops| - 1]);
    }
  }

  /** As long as no identifier is issued twice, each token is retired at most once, never both ways, and never while
      it is pending; and whatever is no longer pending has been retired exactly once. */
  lemma RetiredExactlyOnce(firstId: nat, ops: seq<Operation>, token: nat)
    requires firstId <= MAXIMUM_ID
    requires RunLedger(firstId, ops).1.issued[token] == 1
    ensures var (d, l) := RunLedger(firstId, ops);
      (if token in d.pending then 1 else 0) + l.completed[token] + l.cancelled[token] == 1
  {
    RunBalances(firstId, ops);
    var (d, l) := RunLedger(firstId, ops);
    assert multiset(d.pending.Keys)[token] == if token in d.pending then 1 else 0;
  }

  // ---- Deliveries and results ----

  /** The action still waits for the module's answer, if it has not been answered already. */
  predicate Expects(d: Dispatcher, token: nat, instanceId: string, generation: nat, actionId: string) {
    token in d.pending ==> Matches(d.pending[token], instanceId, generation, actionId)
  }

  predicate Delivered(d: Dispatcher, token: nat) {
    token in d.pending ==> d.pending[token].deadline.Some?
  }

  function PerformEach(d: Dispatcher, ops: seq<Operation>): Dispatcher
    decreases ops
  {
    if ops == [] then d else PerformEach(Perform(d, ops[0]), ops[1..])
  }

  predicate Reissues(d: Dispatcher, op: Operation, token: nat) {
    op.ActOn? && Act(d, op.instanceId, op.actionId, op.target, op.submitted).1 == Token(token)
  }

  /** None of the operations hands the same identifier out again. */
  predicate NeverReissued(d: Dispatcher, ops: seq<Operation>, token: nat)
    decreases ops
  {
    ops == [] || (!Reissues(d, ops[0], token) && NeverReissued(Perform(d, ops[0]), ops[1..], token))
  }

  lemma ConsumeKeepsPending(d: Dispatcher, e: Inbound, token: nat)
    ensures token in Consume(d, e).pending ==>
      && token in d.pending
      && Consume(d, e).pending[token] == d.pending[token].(deadline := Consume(d, e).pending[token].deadline)
      && (d.pending[token].deadline.Some? ==> Consume(d, e).pending[token].deadline.Some?)
  {
    match e
    case Exited(id, g) => CompleteSelectedRemoves(d, OfGeneration(id, g), ActionCancelled);
    case Removed(id, g) => CompleteSelectedRemoves(d, OfGeneration(id, g), ActionCancelled);
    case Started(id, g) => CompleteSelectedRemoves(d, OfOtherGenerations(id, g), ActionCancelled);
    case _ =>
  }

  /** No operation changes anything of a pending action but its deadline, and a deadline once set stays set. */
  lemma PerformKeepsPending(d: Dispatcher, op: Operation, token: nat)
    requires !Reissues(d, op, token)
    ensures token in Perform(d, op).pending ==>
      && token in d.pending
      && Perform(d, op).pending[token] == d.pending[token].(deadline := Perform(d, op).pending[token].deadline)
      && (d.pending[token].deadline.Some? ==> Perform(d, op).pending[token].deadline.Some?)
  {
    match op
    case ConsumeEvent(event) => ConsumeKeepsPending(d, event, token);
    case ExpireAt(now) => CompleteSelectedRemoves(d, Overdue(now), ActionTimeout);
    case CancelEverything => CompleteSelectedRemoves(d, Everything, ActionCancelled);
    case RestartInstance(id, known, requested) =>
      CompleteSelectedRemoves(d.(nextRestart := d.nextRestart + 1), OfInstance(id), ActionCancelled);
    case _ =>
  }

  lemma {:induction false} PerformEachKeeps(d: Dispatcher, ops: seq<Operation>, token: nat, instanceId: string,
      generation: nat, actionId: string)
    requires Expects(d, token, instanceId, generation, actionId) && NeverReissued(d, ops, token)
    ensures Expects(PerformEach(d, ops), token, instanceId, generation, actionId)
    ensures Delivered(d, token) ==> Delivered(PerformEach(d, ops), token)
    decreases ops
  {
    if ops != [] {
      PerformKeepsPending(d, ops[0], token);
      PerformEachKeeps(Perform(d, ops[0]), ops[1..], token, instanceId, generation, actionId);
    }
  }

  /** A result consumed after its delivery, whatever else happens in between, is never thrown away for coming too
      early: by then its action has been answered, or the result answers it. */
  lemma ResultAfterDelivery(d: Dispatcher, delivery: Inbound, between: seq<Operation>, result: Inbound, token: nat)
    requires delivery.Delivery? && delivery.invocation == token
    requires result.ActionResult? && result.correlation == Some(token)
    requires delivery.instanceId == result.instanceId && delivery.generation == result.generation
    requires Expects(d, token, result.instanceId, result.generation, result.actionId)
    requires NeverReissued(Consume(d, delivery), between, token)
    ensures var before := PerformEach(Consume(d, delivery), between);
      || token !in before.pending
      || ConsumeResult(before, result.instanceId, result.generation, Some(token), result.actionId, result.accepted) ==
           (Complete(before, token, if result.accepted then ActionAccepted else ActionRejected), Consumed)
  {
    var delivered := Consume(d, delivery);
    ConsumeKeepsPending(d, delivery, token);
    assert Delivered(delivered, token);
    PerformEachKeeps(delivered, between, token, result.instanceId, result.generation, result.actionId);
  }

  lemma MoveLeast(ids: seq<nat>, rest: set<nat>, m: nat)
    requires Least(rest, m)
    ensures ids + Ordered(rest) == (ids + [m]) + Ordered(rest - {m})
  {
    assert Ordered(rest) == [m] + Ordered(rest - {m});
    assert ids + ([m] + Ordered(rest - {m})) == (ids + [m]) + Ordered(rest - {m});
  }

  // ---- The object ----

  class Controller {
    var pending: map<nat, Pending>
    var completed: seq<Completed>
    var nextId: nat
    var restarts: map<string, nat>
    var nextRestart: nat

    constructor (firstId: nat)
      ensures Value() == Initial(firstId)
    {
      pending, completed, nextId, restarts, nextRestart := map[], [], firstId, map[], 1;
    }

    function Value(): Dispatcher
      reads this
    {
      Dispatcher(pending, completed, nextId, restarts, nextRestart)
    }

    /** Tries every identifier once, from the next one on. */
    method AllocateInvocationId() returns (id: Option<nat>)
      requires FirstId(Value()) <= MAXIMUM_ID
      modifies this`nextId
      ensures id == Allocate(old(Value()))
      ensures nextId == if id.Some? then Following(id.value) else old(nextId)
    {
      var first := if nextId == 0 then 1 else nextId;
      var candidate := first;
      ghost var k := 0;
      CandidateSteps(first, 0);
      var again := true;
      while again
        invariant k <= MAXIMUM_ID && (again ==> k < MAXIMUM_ID && candidate == Candidate(first, k))
        invariant !again ==> k == MAXIMUM_ID
        invariant FirstFree(pending, first, k) == Allocate(old(Value())) && nextId == old(nextId)
        decreases MAXIMUM_ID - k, again
      {
        if candidate !in pending {
          nextId := if candidate == MAXIMUM_ID then 1 else candidate + 1;
          return Some(candidate);
        }
        CandidateSteps(first, k);
        candidate := if candidate == MAXIMUM_ID then 1 else candidate + 1;
        k := k + 1;
        again := candidate != first;
        if k < MAXIMUM_ID { CandidateSteps(first, k); }
        assert k == MAXIMUM_ID ==> Candidate(first, k) == first;
      }
      id := None;
    }

    method CompleteOne(id: nat, outcome: Outcome)
      modifies this
      ensures Value() == Complete(old(Value()), id, outcome)
    {
      if id !in pending { return; }
      completed, pending := completed + [Completed(id, outcome)], pending - {id};
    }

    /** The selected identifiers in the order of the map. */
    method Collect(selection: Selection) returns (ids: seq<nat>)
      ensures ids == Ordered(Selected(pending, selection))
    {
      ids := [];
      var rest := Selected(pending, selection);
      while rest != {}
        invariant ids + Ordered(rest) == Ordered(Selected(pending, selection))
        decreases |rest|
      {
        LeastExists(rest);
        var m :| Least(rest, m);
        MoveLeast(ids, rest, m);
        ids, rest := ids + [m], rest - {m};
      }
    }

    method CompleteEach(selection: Selection, outcome: Outcome)
      modifies this
      ensures Value() == CompleteSelected(old(Value()), selection, outcome)
    {
      var ids := Collect(selection);
      var k := 0;
      assert ids[0..] == ids;
      while k < |ids|
        invariant 0 <= k <= |ids|
        invariant CompleteAll(Value(), ids[k..], outcome) == CompleteAll(old(Value()), ids, outcome)
      {
        assert ids[k..][1..] == ids[k + 1..];
        CompleteOne(ids[k], outcome);
        k := k + 1;
      }
    }

    method Action(instanceId: string, actionId: string, target: Target, submitted: bool) returns (reply: Reply)
      requires FirstId(Value()) <= MAXIMUM_ID
      modifies this
      ensures (Value(), reply) == Act(old(Value()), instanceId, actionId, target, submitted)
    {
      if !target.Running? { return Answer(false); }
      var id := AllocateInvocationId();
      if id.None? { return Answer(false); }
      pending := pending[id.value := Pending(instanceId, target.generation, actionId, None)];
      if !submitted {
        pending := pending - {id.value};
        assert old(pending)[id.value := Pending(instanceId, target.generation, actionId, None)] - {id.value} ==
          old(pending) - {id.value};
        return Answer(false);
      }
      reply := Token(id.value);
    }

    method ConsumeEvent(e: Inbound)
      modifies this
      ensures Value() == Consume(old(Value()), e)
    {
      match e
      case Delivery(id, g, invocation, succeeded, at) =>
        if invocation !in pending { return; }
        var p := pending[invocation];
        if p.instanceId != id || p.generation != g || p.deadline.Some? { return; }
        if !succeeded {
          CompleteOne(invocation, DeliveryFailed);
        } else {
          pending := pending[invocation := p.(deadline := Some(at + ACTION_DEADLINE))];
        }
      case ActionResult(id, g, correlation, actionId, accepted) =>
        if correlation.None? || correlation.value !in pending { return; }
        var p := pending[correlation.value];
        if !Matches(p, id, g, actionId) || p.deadline.None? { return; }
        CompleteOne(correlation.value, if accepted then ActionAccepted else ActionRejected);
      case Exited(id, g) => CompleteEach(OfGeneration(id, g), ActionCancelled);
      case Removed(id, g) => CompleteEach(OfGeneration(id, g), ActionCancelled);
      case Started(id, g) => CompleteEach(OfOtherGenerations(id, g), ActionCancelled);
      case RestartDone(id, token) =>
        if id in restarts && restarts[id] == token { restarts := restarts - {id}; }
    }

    method CancelToken(token: nat) returns (erased: bool)
      modifies this
      ensures Value() == Cancel(old(Value()), token) && erased == (token in old(pending))
    {
      erased := token in pending;
      pending := pending - {token};
    }

    method RequestRestart(instanceId: string, known: bool, requested: bool) returns (reply: Reply)
      modifies this
      ensures (Value(), reply) == Restart(old(Value()), instanceId, known, requested)
    {
      if !known || instanceId in restarts || nextRestart == MAXIMUM_ID { return Answer(false); }
      var number := nextRestart;
      nextRestart := nextRestart + 1;
      if !requested { return Answer(false); }
      CompleteEach(OfInstance(instanceId), ActionCancelled);
      restarts := restarts[instanceId := number];
      reply := Answer(true);
    }

    method TakeCompletedActions() returns (taken: seq<Completed>)
      modifies this`completed
      ensures taken == old(completed) && completed == []
    {
      taken, completed := completed, [];
    }
  }
}
