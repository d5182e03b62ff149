/** The control socket's clients and the tokens they wait for, together with the dispatcher that owns the tokens. */
module ControlServer {
  import opened Optional
  import opened ControlDispatcher

  const MAXIMUM_CLIENTS := 16
  const MAXIMUM_PENDING_CLIENTS := 8

  datatype Client = Client(sequence: nat, waiting: Option<nat>, answered: bool, close: bool)

  /** The dispatcher and the server, which share tokens and nothing else. */
  datatype Control = Control(dispatcher: Dispatcher, clients: seq<Client>, nextSequence: nat)

  function Waiting(clients: seq<Client>): nat {
    if clients == [] then 0 else (if clients[0].waiting.Some? then 1 else 0) + Waiting(clients[1..])
  }

  predicate IsOwned(clients: seq<Client>, token: nat) {
    exists k :: 0 <= k < |clients| && clients[k].waiting == Some(token)
  }

  function Accept(c: Control): Control {
    if |c.clients| >= MAXIMUM_CLIENTS then c
    else Control(c.dispatcher, c.clients + [Client(c.nextSequence, None, false, false)], c.nextSequence + 1)
  }

  /** What a complete request asks of the dispatcher. */
  datatype Request = RequestAction(instanceId: string, actionId: string, target: Target, submitted: bool)
                   | RequestRestart(instanceId: string, known: bool, requested: bool)
                   | RequestReload(accepted: bool)
                   | RequestOther

  function Handle(d: Dispatcher, request: Request): (Dispatcher, Reply) {
    match request
    case RequestAction(id, actionId, target, submitted) => Act(d, id, actionId, target, submitted)
    case RequestRestart(id, known, requested) => Restart(d, id, known, requested)
    case RequestReload(accepted) => (if accepted then CancelAll(d) else d, Answer(accepted))
    case RequestOther => (d, Answer(true))
  }

  /** A client that is not closed, waiting or answered has its request handled; a token beyond the limit, or one that
      another client waits for, is cancelled at once. */
  function PrepareRequest(c: Control, k: nat, request: Request): Control
    requires k < |c.clients|
  {
    var client := c.clients[k];
    if client.close || client.answered || client.waiting.Some? then c
    else
      var (d, reply) := Handle(c.dispatcher, request);
      if reply.Answer? then c.(dispatcher := d, clients := c.clients[k := client.(answered := true)])
      else if Waiting(c.clients) >= MAXIMUM_PENDING_CLIENTS || IsOwned(c.clients, reply.token) then
        c.(dispatcher := Cancel(d, reply.token), clients := c.clients[k := client.(answered := true)])
      else c.(dispatcher := d, clients := c.clients[k := client.(waiting := Some(reply.token))])
  }

  /** A malformed request is answered without asking anyone. */
  function Refuse(c: Control, k: nat): Control
    requires k < |c.clients|
  {
    if c.clients[k].close || c.clients[k].answered || c.clients[k].waiting.Some? then c
    else c.(clients := c.clients[k := c.clients[k].(answered := true)])
  }

  /** A timeout, a hang-up or a written response. */
  function Close(c: Control, k: nat): Control
    requires k < |c.clients|
  {
    c.(clients := c.clients[k := c.clients[k].(close := true)])
  }

  function Survivors(clients: seq<Client>): seq<Client> {
    if clients == [] then []
    else if clients[0].close then Survivors(clients[1..])
    else [clients[0]] + Survivors(clients[1..])
  }

  function CancelClosed(d: Dispatcher, clients: seq<Client>): Dispatcher
    decreases clients
  {
    if clients == [] then d
    else CancelClosed(if clients[0].close && clients[0].waiting.Some? then Cancel(d, clients[0].waiting.value)
      else d, clients[1..])
  }

  /** Closed clients leave, and the tokens they waited for are cancelled. */
  function Sweep(c: Control): Control {
    Control(CancelClosed(c.dispatcher, c.clients), Survivors(c.clients), c.nextSequence)
  }

  /** The first client that waits for the token has its answer. */
  function Answered(clients: seq<Client>, token: nat): seq<Client> {
    if clients == [] then []
    else if clients[0].waiting == Some(token) then [clients[0].(waiting := None, answered := true)] + clients[1..]
    else [clients[0]] + Answered(clients[1..], token)
  }

  function AnswerEach(clients: seq<Client>, completed: seq<Completed>): seq<Client>
    decreases completed
  {
    if completed == [] then clients else AnswerEach(Answered(clients, completed[0].token), completed[1..])
  }

  /** Everything the dispatcher has completed is taken and handed to the clients. */
  function DeliverCompleted(c: Control): Control {
    Control(TakeCompleted(c.dispatcher), AnswerEach(c.clients, c.dispatcher.completed), c.nextSequence)
  }

  datatype Step =
    | AcceptClient
    | HandleRequest(k: nat, request: Request)
    | RefuseRequest(k: nat)
    | CloseClient(k: nat)
    | SweepClients
    | ConsumeStep(event: Inbound)
    | ExpireStep(now: int)
    | DeliverStep

  function Take(c: Control, step: Step): Control {
    match step
    case AcceptClient => Accept(c)
    case HandleRequest(k, request) => if k < |c.clients| then PrepareRequest(c, k, request) else c
    case RefuseRequest(k) => if k < |c.clients| then Refuse(c, k) else c
    case CloseClient(k) => if k < |c.clients| then Close(c, k) else c
    case SweepClients => Sweep(c)
    case ConsumeStep(event) => c.(dispatcher := Consume(c.dispatcher, event))
    case ExpireStep(now) => c.(dispatcher := Expire(c.dispatcher, now))
    case DeliverStep => DeliverCompleted(c)
  }

  function Run(firstId: nat, steps: seq<Step>): Control {
    if steps == [] then Control(Initial(firstId), [], 1)
      else Take(Run(firstId, steps[..|steps| - 1]), steps[|steps| - 1])
  }

  // ---- No client waits for a token nobody owns ----

  /** The dispatcher still has the token: it is pending, or completed and about to be delivered. */
  predicate Has(d: Dispatcher, token: nat) {
    token in d.pending || token in Tokens(d.completed)
  }

  predicate AllOwned(d: Dispatcher, clients: seq<Client>) {
    forall k :: 0 <= k < |clients| && clients[k].waiting.Some? ==> Has(d, clients[k].waiting.value)
  }

  predicate Distinct(clients: seq<Client>) {
    forall i, j :: 0 <= i < j < |clients| && clients[i].waiting.Some? ==> clients[i].waiting != clients[j].waiting
  }

  predicate Sound(c: Control) {
    && AllOwned(c.dispatcher, c.clients) && Distinct(c.clients)
    && |c.clients| <= MAXIMUM_CLIENTS && Waiting(c.clients) <= MAXIMUM_PENDING_CLIENTS
  }

  /** The dispatcher forgets no token. */
  ghost predicate Keeps(before: Dispatcher, after: Dispatcher) {
    forall token :: Has(before, token) ==> Has(after, token)
  }

  lemma InMultiset(xs: seq<nat>, x: nat)
    ensures x in xs <==> x in multiset(xs)
  {
  }

  lemma MovesKeeps(d: Dispatcher, after: Dispatcher, news: seq<Completed>)
    requires Moves(d, after, news)
    ensures Keeps(d, after)
  {
    TokensJoin(d.completed, news);
    forall token | Has(d, token) ensures Has(after, token) {
      if token in d.pending {
        assert token in multiset(d.pending.Keys);
        InMultiset(Tokens(news), token);
      }
    }
  }

  lemma HandleKeeps(d: Dispatcher, request: Request)
    requires d.nextId <= MAXIMUM_ID
    ensures Keeps(d, Handle(d, request).0)
    ensures Handle(d, request).1.Token? ==> Handle(d, request).1.token in Handle(d, request).0.pending
    ensures Handle(d, request).0.nextId <= MAXIMUM_ID
    ensures Handle(d, request).1.Token? ==> Handle(d, request).1.token !in d.pending
  {
    match request
    case RequestAction(id, actionId, target, submitted) => AllocateFailsIff(d);
    case RequestRestart(id, known, requested) =>
      var news := RestartMoves(d, id, known, requested);
      MovesKeeps(d, Restart(d, id, known, requested).0, news);
    case RequestReload(accepted) =>
      var news := CompleteSelectedMoves(d, Everything, ActionCancelled);
      MovesKeeps(d, CancelAll(d), news);
    case RequestOther =>
  }

  lemma {:induction false} WaitingAfter(clients: seq<Client>, k: nat, client: Client)
    requires k < |clients|
    ensures Waiting(clients[k := client]) ==
      Waiting(clients) - (if clients[k].waiting.Some? then 1 else 0) + (if client.waiting.Some? then 1 else 0)
  {
    if k == 0 {
      assert clients[0 := client][1..] == clients[1..];
    } else {
      assert clients[k := client][1..] == clients[1..][k - 1 := client];
      WaitingAfter(clients[1..], k - 1, client);
    }
  }

  lemma HandleIsSound(c: Control, k: nat, request: Request)
    requires Sound(c) && c.dispatcher.nextId <= MAXIMUM_ID && k < |c.clients|
    ensures Sound(PrepareRequest(c, k, request)) && PrepareRequest(c, k, request).dispatcher.nextId <= MAXIMUM_ID
  {
    var client := c.clients[k];
    HandleKeeps(c.dispatcher, request);
    var (d, reply) := Handle(c.dispatcher, request);
    WaitingAfter(c.clients, k, client.(answered := true));
    if reply.Token? && client.waiting.None? {
      WaitingAfter(c.clients, k, client.(waiting := Some(reply.token)));
      forall j | 0 <= j < |c.clients| && c.clients[j].waiting.Some?
        ensures Has(Cancel(d, reply.token), c.clients[j].waiting.value)
      {
        CancelledTokenIsNew(c.dispatcher, request, c.clients[j].waiting.value);
      }
    }
  }

  /** Cancelling the token just issued takes nothing from anybody else: if another client waits for the same number,
      its own action is already completed. */
  lemma CancelledTokenIsNew(d: Dispatcher, request: Request, other: nat)
    requires d.nextId <= MAXIMUM_ID && Has(d, other) && Handle(d, request).1.Token?
    ensures Has(Cancel(Handle(d, request).0, Handle(d, request).1.token), other)
  {
    HandleKeeps(d, request);
  }

  lemma {:induction false} SurvivorsRemain(clients: seq<Client>)
    requires Distinct(clients)
    ensures Distinct(Survivors(clients)) && |Survivors(clients)| <= |clients| &&
      Waiting(Survivors(clients)) <= Waiting(clients)
    ensures forall client :: client in Survivors(clients) ==> client in clients && !client.close
  {
    if clients != [] {
      SurvivorsRemain(clients[1..]);
      var rest := Survivors(clients[1..]);
      if !clients[0].close {
        assert ([clients[0]] + rest)[1..] == rest;
        forall j | 0 <= j < |rest| ensures clients[0].waiting.Some? ==> clients[0].waiting != rest[j].waiting {
          assert rest[j] in clients[1..];
        }
      }
    }
  }

  lemma {:induction false} CancelClosedKeeps(d: Dispatcher, clients: seq<Client>, token: nat)
    requires Has(d, token) && forall client :: client in clients && client.close ==> client.waiting != Some(token)
    ensures Has(CancelClosed(d, clients), token) && CancelClosed(d, clients).nextId == d.nextId
    decreases clients
  {
    if clients != [] {
      assert clients[0] in clients;
      CancelClosedKeeps(if clients[0].close && clients[0].waiting.Some? then Cancel(d, clients[0].waiting.value)
        else d, clients[1..], token);
    }
  }

  lemma {:induction false} CancelClosedNextId(d: Dispatcher, clients: seq<Client>)
    ensures CancelClosed(d, clients).nextId == d.nextId
    decreases clients
  {
    if clients != [] {
      CancelClosedNextId(if clients[0].close && clients[0].waiting.Some? then Cancel(d, clients[0].waiting.value)
        else d, clients[1..]);
    }
  }

  lemma SweepIsSound(c: Control)
    requires Sound(c)
    ensures Sound(Sweep(c)) && Sweep(c).dispatcher.nextId == c.dispatcher.nextId
  {
    SurvivorsRemain(c.clients);
    CancelClosedNextId(c.dispatcher, c.clients);
    var rest := Survivors(c.clients);
    forall k | 0 <= k < |rest| && rest[k].waiting.Some?
      ensures Has(CancelClosed(c.dispatcher, c.clients), rest[k].waiting.value) {
      assert rest[k] in c.clients;
      var j :| 0 <= j < |c.clients| && c.clients[j] == rest[k];
      forall client | client in c.clients && client.close ensures client.waiting != rest[k].waiting {
        var i :| 0 <= i < |c.clients| && c.clients[i] == client;
        assert i != j;
      }
      CancelClosedKeeps(c.dispatcher, c.clients, rest[k].waiting.value);
    }
  }

  /** After an answer nobody waits for its token. */
  lemma {:induction false} AnsweredDoesNotWait(clients: seq<Client>, token: nat)
    requires Distinct(clients)
    ensures |Answered(clients, token)| == |clients| && Waiting(Answered(clients, token)) <= Waiting(clients)
    ensures forall k :: 0 <= k < |clients| ==>
      Answered(clients, token)[k] ==
        if clients[k].waiting == Some(token) then clients[k].(waiting := None, answered := true) else clients[k]
  {
    if clients != [] && clients[0].waiting != Some(token) {
      AnsweredDoesNotWait(clients[1..], token);
      assert Answered(clients, token)[1..] == Answered(clients[1..], token);
    } else if clients != [] {
      assert Answered(clients, token)[1..] == clients[1..];
    }
  }

  lemma {:induction false} AnswerEachIsSound(d: Dispatcher, clients: seq<Client>, completed: seq<Completed>)
    requires Distinct(clients)
    requires forall k :: 0 <= k < |clients| && clients[k].waiting.Some? ==>
      clients[k].waiting.value in d.pending || clients[k].waiting.value in Tokens(completed)
    ensures var after := AnswerEach(clients, completed);
      && Distinct(after) && |after| == |clients| && Waiting(after) <= Waiting(clients)
      && forall k :: 0 <= k < |after| && after[k].waiting.Some? ==> after[k].waiting.value in d.pending
    decreases completed
  {
    if completed != [] {
      AnsweredDoesNotWait(clients, completed[0].token);
      AnswerEachIsSound(d, Answered(clients, completed[0].token), completed[1..]);
    }
  }

  lemma DeliverIsSound(c: Control)
    requires Sound(c)
    ensures Sound(DeliverCompleted(c))
    ensures forall k :: 0 <= k < |DeliverCompleted(c).clients| && DeliverCompleted(c).clients[k].waiting.Some? ==>
      DeliverCompleted(c).clients[k].waiting.value in DeliverCompleted(c).dispatcher.pending
  {
    AnswerEachIsSound(c.dispatcher, c.clients, c.dispatcher.completed);
  }

  lemma {:induction false} WaitingAppends(clients: seq<Client>, client: Client)
    ensures Waiting(clients + [client]) == Waiting(clients) + (if client.waiting.Some? then 1 else 0)
  {
    if clients == [] {
      assert [] + [client] == [client] && [client][1..] == [];
    } else {
      assert (clients + [client])[1..] == clients[1..] + [client];
      WaitingAppends(clients[1..], client);
    }
  }

  lemma AcceptIsSound(c: Control)
    requires Sound(c)
    ensures Sound(Accept(c))
  {
    WaitingAppends(c.clients, Client(c.nextSequence, None, false, false));
  }

  lemma RefuseIsSound(c: Control, k: nat)
    requires Sound(c) && k < |c.clients|
    ensures Sound(Refuse(c, k))
  {
    WaitingAfter(c.clients, k, c.clients[k].(answered := true));
  }

  lemma CloseIsSound(c: Control, k: nat)
    requires Sound(c) && k < |c.clients|
    ensures Sound(Close(c, k))
  {
    WaitingAfter(c.clients, k, c.clients[k].(close := true));
  }

  lemma TakeIsSound(c: Control, step: Step)
    requires Sound(c) && c.dispatcher.nextId <= MAXIMUM_ID
    ensures Sound(Take(c, step)) && Take(c, step).dispatcher.nextId <= MAXIMUM_ID
  {
    match step
    case AcceptClient => AcceptIsSound(c);
    case HandleRequest(k, request) => if k < |c.clients| { HandleIsSound(c, k, request); }
    case RefuseRequest(k) => if k < |c.clients| { RefuseIsSound(c, k); }
    case CloseClient(k) => if k < |c.clients| { CloseIsSound(c, k); }
    case SweepClients => SweepIsSound(c);
    case ConsumeStep(event) =>
      var news := ConsumeMoves(c.dispatcher, event);
      MovesKeeps(c.dispatcher, Consume(c.dispatcher, event), news);
    case ExpireStep(now) =>
      var news := CompleteSelectedMoves(c.dispatcher, Overdue(now), ActionTimeout);
      MovesKeeps(c.dispatcher, Expire(c.dispatcher, now), news);
    case DeliverStep => DeliverIsSound(c);
  }

  /** On every run each client that waits holds a token of its own, and the dispatcher has it: nobody waits for a
      token that nobody will retire. */
  lemma {:induction false} NobodyWaitsForNothing(firstId: nat, steps: seq<Step>)
    requires firstId <= MAXIMUM_ID
    ensures Sound(Run(firstId, steps)) && Run(firstId, steps).dispatcher.nextId <= MAXIMUM_ID
  {
    if steps != [] {
      NobodyWaitsForNothing(firstId, steps[..|steps| - 1]);
      TakeIsSound(Run(firstId, steps[..|steps| - 1]), steps[|steps| - 1]);
    }
  }

  /** And once the completed actions have been delivered, every token waited for is still pending. */
  lemma DeliveryLeavesPending(firstId: nat, steps: seq<Step>, k: nat)
    requires firstId <= MAXIMUM_ID
    requires var after := DeliverCompleted(Run(firstId, steps)); k < |after.clients| && after.clients[k].waiting.Some?
    ensures var after := DeliverCompleted(Run(firstId, steps));
      after.clients[k].waiting.value in after.dispatcher.pending
  {
    NobodyWaitsForNothing(firstId, steps);
    DeliverIsSound(Run(firstId, steps));
  }

  // ---- What a request comes to ----

  /** No client waits for that token. */
  predicate Unclaimed(clients: seq<Client>, token: nat) {
    forall k :: 0 <= k < |clients| ==> clients[k].waiting != Some(token)
  }

  /** A request of a client that is open and idle is handled, and only that client is touched. With an answer it is done
      at once. With a token it waits, unless eight clients wait already or the token is another's; then it is answered
      and the token cancelled. */
  lemma RequestAnswers(c: Control, k: nat, request: Request, after: Control)
    requires Sound(c) && k < |c.clients| && after == PrepareRequest(c, k, request)
    ensures after.nextSequence == c.nextSequence && |after.clients| == |c.clients|
    ensures forall j :: 0 <= j < |c.clients| && j != k ==> after.clients[j] == c.clients[j]
    ensures var client, (d, reply) := c.clients[k], Handle(c.dispatcher, request);
      if client.close || client.answered || client.waiting.Some? then after == c
      else if reply.Answer? then after.dispatcher == d && after.clients[k] == client.(answered := true)
      else if Waiting(c.clients) < 8 && Unclaimed(c.clients, reply.token) then
        after.dispatcher == d && after.clients[k] == client.(waiting := Some(reply.token))
      else after.dispatcher == Cancel(d, reply.token) && after.clients[k] == client.(answered := true)
  {
  }

  /** A malformed request of an open idle client, and a client that goes, touch no other client and no token. */
  lemma RefuseAndCloseAnswer(c: Control, k: nat)
    requires k < |c.clients|
    ensures var client := c.clients[k];
      Refuse(c, k) == if !client.close && !client.answered && client.waiting.None? then
                        c.(clients := c.clients[k := Client(client.sequence, None, true, false)])
                      else c
    ensures Close(c, k) == c.(clients := c.clients[k := c.clients[k].(close := true)])
  {
  }

  /** What a request asks of the dispatcher: a reload that is accepted cancels every action; whatever is answered at
      once without it leaves it alone. */
  lemma HandleAnswers(d: Dispatcher, request: Request)
    ensures request.RequestAction? ==>
      Handle(d, request) == Act(d, request.instanceId, request.actionId, request.target, request.submitted)
    ensures request.RequestRestart? ==>
      Handle(d, request) == Restart(d, request.instanceId, request.known, request.requested)
    ensures request.RequestReload? ==>
      && Handle(d, request).1 == Answer(request.accepted)
      && if request.accepted then Retires(d, Handle(d, request).0, d.pending.Keys, ActionCancelled)
         else Handle(d, request).0 == d
    ensures request.RequestOther? ==> Handle(d, request) == (d, Answer(true))
  {
    CancelAllRetires(d);
  }

  lemma {:induction false} CancelClosedAnswers(d: Dispatcher, clients: seq<Client>)
    ensures var after := CancelClosed(d, clients);
      && after == d.(pending := after.pending) && after.pending.Keys <= d.pending.Keys
      && (forall id :: id in after.pending ==> after.pending[id] == d.pending[id])
      && (forall id :: id in d.pending ==>
            (id in after.pending <==>
               forall k :: 0 <= k < |clients| && clients[k].close ==> clients[k].waiting != Some(id)))
    decreases clients
  {
    if clients != [] {
      var next := if clients[0].close && clients[0].waiting.Some? then Cancel(d, clients[0].waiting.value) else d;
      CancelClosedAnswers(next, clients[1..]);
      var after := CancelClosed(d, clients);
      forall id | id in d.pending
        ensures id in after.pending <==>
          forall k :: 0 <= k < |clients| && clients[k].close ==> clients[k].waiting != Some(id)
      {
        FirstOrLater(clients, id);
      }
    }
  }

  lemma FirstOrLater(clients: seq<Client>, id: nat)
    requires clients != []
    ensures (forall k :: 0 <= k < |clients| && clients[k].close ==> clients[k].waiting != Some(id)) <==>
      (clients[0].close ==> clients[0].waiting != Some(id))
      && forall k :: 0 <= k < |clients[1..]| && clients[1..][k].close ==> clients[1..][k].waiting != Some(id)
  {
    if forall k :: 0 <= k < |clients[1..]| && clients[1..][k].close ==> clients[1..][k].waiting != Some(id) {
      forall k | 1 <= k < |clients| && clients[k].close ensures clients[k].waiting != Some(id) {
        assert clients[1..][k - 1] == clients[k];
      }
    }
  }

  /** After a sweep the clients left are the open ones; gone from the dispatcher are exactly the tokens that closed ones
      waited for, and nothing is completed by that. */
  lemma SweepAnswers(c: Control, after: Control)
    requires after == Sweep(c)
    ensures forall client :: client in after.clients <==> client in c.clients && !client.close
    ensures after.dispatcher == c.dispatcher.(pending := after.dispatcher.pending)
    ensures forall id :: id in after.dispatcher.pending <==>
      id in c.dispatcher.pending
      && forall k :: 0 <= k < |c.clients| && c.clients[k].close ==> c.clients[k].waiting != Some(id)
  {
    CancelClosedAnswers(c.dispatcher, c.clients);
    SurvivorsAreOpen(c.clients);
  }

  lemma {:induction false} SurvivorsAreOpen(clients: seq<Client>)
    ensures forall client :: client in Survivors(clients) <==> client in clients && !client.close
  {
    if clients != [] { SurvivorsAreOpen(clients[1..]); }
  }

  /** Delivering hands every completed token to the client that waits for it, touches no other client, and leaves
      nothing completed. */
  lemma DeliverAnswers(c: Control, after: Control)
    requires Distinct(c.clients) && after == DeliverCompleted(c)
    ensures after.dispatcher == c.dispatcher.(completed := []) && |after.clients| == |c.clients|
    ensures forall k :: 0 <= k < |c.clients| ==>
      after.clients[k] ==
        if c.clients[k].waiting.Some? && c.clients[k].waiting.value in Tokens(c.dispatcher.completed) then
          c.clients[k].(waiting := None, answered := true)
        else c.clients[k]
  {
    EachIsAnswered(c.clients, c.dispatcher.completed);
  }

  lemma {:induction false} EachIsAnswered(clients: seq<Client>, completed: seq<Completed>)
    requires Distinct(clients)
    ensures |AnswerEach(clients, completed)| == |clients|
    ensures forall k :: 0 <= k < |clients| ==>
      AnswerEach(clients, completed)[k] ==
        if clients[k].waiting.Some? && clients[k].waiting.value in Tokens(completed) then
          clients[k].(waiting := None, answered := true)
        else clients[k]
    decreases completed
  {
    if completed != [] {
      AnsweredDoesNotWait(clients, completed[0].token);
      EachIsAnswered(Answered(clients, completed[0].token), completed[1..]);
    }
  }

  /** A client is let in while there is room, under the next number. */
  lemma AcceptAnswers(c: Control)
    ensures Accept(c) ==
      if |c.clients| < 16 then
        c.(clients := c.clients + [Client(c.nextSequence, None, false, false)], nextSequence := c.nextSequence + 1)
      else c
  {
  }

  /** Clients stand in the order in which they came, each with a number of its own. */
  predicate InOrderOfArrival(clients: seq<Client>, next: nat) {
    && (forall k :: 0 <= k < |clients| ==> clients[k].sequence < next)
    && (forall i, j :: 0 <= i < j < |clients| ==> clients[i].sequence < clients[j].sequence)
  }

  lemma HeadStaysFirst(head: Client, rest: seq<Client>, next: nat)
    requires InOrderOfArrival(rest, next) && head.sequence < next
    requires forall client :: client in rest ==> head.sequence < client.sequence
    ensures InOrderOfArrival([head] + rest, next)
  {
    forall k | 0 <= k < |rest| ensures head.sequence < rest[k].sequence { assert rest[k] in rest; }
  }

  lemma {:induction false} SurvivorsStayInOrder(clients: seq<Client>, next: nat)
    requires InOrderOfArrival(clients, next)
    ensures InOrderOfArrival(Survivors(clients), next)
    ensures forall client :: client in Survivors(clients) ==> client in clients
  {
    if clients != [] {
      TailStaysInOrder(clients, next);
      SurvivorsStayInOrder(clients[1..], next);
      if !clients[0].close { HeadStaysFirst(clients[0], Survivors(clients[1..]), next); }
    }
  }

  lemma TailStaysInOrder(clients: seq<Client>, next: nat)
    requires InOrderOfArrival(clients, next) && clients != []
    ensures InOrderOfArrival(clients[1..], next)
    ensures forall client :: client in clients[1..] ==> clients[0].sequence < client.sequence
  {
    forall i, j | 0 <= i < j < |clients[1..]| ensures clients[1..][i].sequence < clients[1..][j].sequence {
      assert clients[i + 1].sequence < clients[j + 1].sequence;
    }
    forall client | client in clients[1..] ensures clients[0].sequence < client.sequence {
      var k :| 0 <= k < |clients[1..]| && clients[1..][k] == client;
      assert clients[0].sequence < clients[k + 1].sequence;
    }
  }

  lemma {:induction false} AnsweredKeepsNumbers(clients: seq<Client>, token: nat)
    ensures |Answered(clients, token)| == |clients|
    ensures forall k :: 0 <= k < |clients| ==> Answered(clients, token)[k].sequence == clients[k].sequence
  {
    if clients != [] && clients[0].waiting != Some(token) { AnsweredKeepsNumbers(clients[1..], token); }
  }

  lemma {:induction false} AnswersKeepNumbers(clients: seq<Client>, completed: seq<Completed>)
    ensures |AnswerEach(clients, completed)| == |clients|
    ensures forall k :: 0 <= k < |clients| ==> AnswerEach(clients, completed)[k].sequence == clients[k].sequence
    decreases completed
  {
    if completed != [] {
      AnsweredKeepsNumbers(clients, completed[0].token);
      AnswersKeepNumbers(Answered(clients, completed[0].token), completed[1..]);
    }
  }

  lemma SameNumbersStayInOrder(c: Control, after: Control)
    requires InOrderOfArrival(c.clients, c.nextSequence)
    requires after.nextSequence == c.nextSequence && |after.clients| == |c.clients|
    requires forall k :: 0 <= k < |c.clients| ==> after.clients[k].sequence == c.clients[k].sequence
    ensures InOrderOfArrival(after.clients, after.nextSequence)
  {
  }

  lemma TakeStaysInOrder(c: Control, step: Step, after: Control)
    requires InOrderOfArrival(c.clients, c.nextSequence) && after == Take(c, step)
    ensures InOrderOfArrival(after.clients, after.nextSequence)
  {
    match step
    case AcceptClient =>
    case SweepClients => SurvivorsStayInOrder(c.clients, c.nextSequence);
    case DeliverStep =>
      AnswersKeepNumbers(c.clients, c.dispatcher.completed);
      SameNumbersStayInOrder(c, after);
    case _ => SameNumbersStayInOrder(c, after);
  }

  /** On every run the clients stand in the order in which they came. */
  lemma {:induction false} ClientsStayInOrder(firstId: nat, steps: seq<Step>)
    ensures InOrderOfArrival(Run(firstId, steps).clients, Run(firstId, steps).nextSequence)
  {
    if steps != [] {
      ClientsStayInOrder(firstId, steps[..|steps| - 1]);
      TakeStaysInOrder(Run(firstId, steps[..|steps| - 1]), steps[|steps| - 1], Run(firstId, steps));
    }
  }

  // ---- The object ----

  /** The server keeps its clients in a list it edits in place. */
  class Server {
    var clients: seq<Client>
    var nextSequence: nat

    constructor ()
      ensures clients == [] && nextSequence == 1
    {
      clients, nextSequence := [], 1;
    }

    method AcceptClient()
      modifies this
      ensures forall d :: Control(d, clients, nextSequence) == Accept(Control(d, old(clients), old(nextSequence)))
    {
      if |clients| >= MAXIMUM_CLIENTS { return; }
      clients := clients + [Client(nextSequence, None, false, false)];
      nextSequence := nextSequence + 1;
    }

    method CountWaiting() returns (count: nat)
      ensures count == Waiting(clients)
    {
      var k := |clients|;
      count := 0;
      while k > 0
        invariant 0 <= k <= |clients| && count == Waiting(clients[k..])
      {
        k := k - 1;
        assert clients[k..][1..] == clients[k + 1..];
        if clients[k].waiting.Some? { count := count + 1; }
      }
      assert clients[0..] == clients;
    }

    /** Hands an answer to the first client that waits for the token. */
    method CompleteToken(token: nat) returns (found: bool)
      modifies this`clients
      ensures clients == Answered(old(clients), token) && found == IsOwned(old(clients), token)
    {
      var k := 0;
      while k < |clients| && clients[k].waiting != Some(token)
        invariant k <= |clients| && forall j :: 0 <= j < k ==> clients[j].waiting != Some(token)
      {
        k := k + 1;
      }
      AnsweredAt(clients, token, k);
      found := k < |clients|;
      if found { clients := clients[k := clients[k].(waiting := None, answered := true)]; }
    }

    /** Closed clients leave in order, each cancelling the token it waits for. */
    method SweepClosed(dispatcher: Controller)
      modifies this`clients, dispatcher
      ensures dispatcher.Value() == CancelClosed(old(dispatcher.Value()), old(clients))
      ensures clients == Survivors(old(clients))
    {
      var kept: seq<Client> := [];
      var k := 0;
      assert clients[0..] == clients;
      while k < |clients|
        invariant k <= |clients| && clients == old(clients)
        invariant kept + Survivors(clients[k..]) == Survivors(old(clients))
        invariant CancelClosed(dispatcher.Value(), clients[k..]) == CancelClosed(old(dispatcher.Value()), old(clients))
      {
        SweepOne(dispatcher.Value(), clients, k, kept);
        if clients[k].close {
          if clients[k].waiting.Some? { var _ := dispatcher.CancelToken(clients[k].waiting.value); }
        } else {
          kept := kept + [clients[k]];
        }
        k := k + 1;
      }
      assert kept + [] == kept;
      clients := kept;
    }
  }

  lemma SweepOne(d: Dispatcher, clients: seq<Client>, k: nat, kept: seq<Client>)
    requires k < |clients|
    ensures kept + Survivors(clients[k..])
            == (if clients[k].close then kept else kept + [clients[k]]) + Survivors(clients[k + 1..])
    ensures CancelClosed(d, clients[k..])
            == CancelClosed(if clients[k].close && clients[k].waiting.Some? then Cancel(d, clients[k].waiting.value)
              else d,
                            clients[k + 1..])
  {
    assert clients[k..][1..] == clients[k + 1..];
    assert kept + ([clients[k]] + Survivors(clients[k + 1..])) == (kept + [clients[k]]) + Survivors(clients[k + 1..]);
  }

  lemma {:induction false} AnsweredAt(clients: seq<Client>, token: nat, k: nat)
    requires k <= |clients| && (forall j :: 0 <= j < k ==> clients[j].waiting != Some(token))
    requires k < |clients| ==> clients[k].waiting == Some(token)
    ensures Answered(clients, token) ==
      if k < |clients| then clients[k := clients[k].(waiting := None, answered := true)] else clients
  {
    if k > 0 { AnsweredAt(clients[1..], token, k - 1); }
  }
}
