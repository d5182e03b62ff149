/** The transport of a scripted module: lines wait in a backlog while output is pending, and input is read only when
    the backlog is empty. */
module LuaTransport {
  import opened Optional
  import opened LineBuffer

  const MAXIMUM_RECORDS_PER_TURN := 64

  /** What handling the k-th line does: it may leave output to be written, and it may fail the transport. */
  datatype Handler = Handler(emits: nat -> bool, fails: nat -> bool)

  datatype Transport = Transport(
    input: Buffer, backlog: seq<Bytes>, wantsWrite: bool, handled: seq<Bytes>, received: Bytes, ended: bool)

  datatype Turned = Going(transport: Transport) | Halted(transport: Transport)

  function Texts(lines: seq<Line>): seq<Bytes> {
    if lines == [] then [] else [lines[0].text] + Texts(lines[1..])
  }

  function HandleLine(t: Transport, h: Handler, line: Bytes): Turned {
    var after := t.(handled := t.handled + [line], wantsWrite := t.wantsWrite || h.emits(|t.handled|));
    if h.fails(|t.handled|) then Halted(after) else Going(after)
  }

  /** Lines leave the backlog while there is budget and no output is pending. */
  function Process(t: Transport, h: Handler, budget: nat): (Turned, nat)
    decreases budget
  {
    if budget == 0 || t.backlog == [] || t.wantsWrite then (Going(t), budget)
    else
      var next := HandleLine(t.(backlog := t.backlog[1..]), h, t.backlog[0]);
      if next.Halted? then (next, budget - 1) else Process(next.transport, h, budget - 1)
  }

  /** What the pipes answer in one turn. */
  datatype Read = Nothing | Chunk(bytes: Bytes) | EndOfFile | ReadError

  function ReadInput(t: Transport, h: Handler, budget: nat, read: Read): Turned {
    if budget == 0 then Going(t)
    else match read
      case Nothing => Going(t)
      case ReadError => Halted(t)
      case Chunk(bytes) =>
        var lines := Append(t.input, bytes);
        if lines.Failed? then Halted(t)
        else Process(t.(input := lines.buffer, backlog := t.backlog + Texts(lines.lines),
          received := t.received + bytes), h, budget).0
      case EndOfFile =>
        var (last, buffer) := Finish(t.input);
        var ended := t.(input := buffer, ended := true);
        if last.None? then Halted(ended) else Halted(HandleLine(ended, h, last.value.text).transport)
  }

  function Continued(processed: Turned, h: Handler, budget: nat, read: Read): Turned {
    if processed.Halted? || processed.transport.wantsWrite then processed
    else ReadInput(processed.transport, h, budget, read)
  }

  /** `drained` tells whether the pending output could be written; `poll` what polling the input said. */
  function Advance(t: Transport, h: Handler, drained: bool, readEnabled: bool, read: Read): Turned {
    var written := if drained then t.(wantsWrite := false) else t;
    if !readEnabled || written.wantsWrite then Going(written)
    else
      var (processed, budget) := Process(written, h, MAXIMUM_RECORDS_PER_TURN);
      Continued(processed, h, budget, read)
  }

  datatype Turn = Turn(drained: bool, readEnabled: bool, read: Read)

  function Fresh(limit: nat): Transport {
    Transport(Protocol(limit), [], false, [], [], false)
  }

  function Run(limit: nat, h: Handler, turns: seq<Turn>): Turned {
    if turns == [] then Going(Fresh(limit))
    else
      var last := |turns| - 1;
      var before := Run(limit, h, turns[..last]);
      if before.Halted? then before
      else Advance(before.transport, h, turns[last].drained, turns[last].readEnabled, turns[last].read)
  }

  // ---- Order ----

  /** What was handled and what waits are, in order, the lines of what was received. */
  predicate InOrder(t: Transport, limit: nat) {
    && Feed(Protocol(limit), t.received).Lines? && !t.ended
    && t.input == Feed(Protocol(limit), t.received).buffer
    && t.handled + t.backlog == Texts(Feed(Protocol(limit), t.received).lines)
  }

  lemma {:induction false} TextsJoin(a: seq<Line>, b: seq<Line>)
    ensures Texts(a + b) == Texts(a) + Texts(b)
  {
    if a == [] {
      assert a + b == b;
    } else {
      assert (a + b)[1..] == a[1..] + b;
      TextsJoin(a[1..], b);
    }
  }

  /** Processing moves lines from the front of the backlog to the back of what was handled. If it stops on its own
      with budget left and nothing to write, the backlog is empty. */
  lemma {:induction false} ProcessKeepsOrder(t: Transport, h: Handler, budget: nat)
    ensures var (after, left) := Process(t, h, budget);
      && after.transport.handled + after.transport.backlog == t.handled + t.backlog
      && after.transport.input == t.input && after.transport.received == t.received && after.transport.ended == t.ended
      && left <= budget
      && (after.Going? && left > 0 && !after.transport.wantsWrite ==> after.transport.backlog == [])
    decreases budget
  {
    if budget > 0 && t.backlog != [] && !t.wantsWrite {
      var next := HandleLine(t.(backlog := t.backlog[1..]), h, t.backlog[0]);
      assert next.transport.handled + next.transport.backlog == t.handled + t.backlog;
      if next.Going? { ProcessKeepsOrder(next.transport, h, budget - 1); }
    }
  }

  /** Handling n lines of the backlog: all but the last of them left nothing to write and did not fail. */
  predicate Handles(t: Transport, h: Handler, n: nat, after: Turned)
    requires n <= |t.backlog|
  {
    var first := |t.handled|;
    && after.transport == t.(handled := t.handled + t.backlog[..n], backlog := t.backlog[n..],
                             wantsWrite := t.wantsWrite || (n > 0 && h.emits(first + n - 1)))
    && (forall i :: first <= i < first + n - 1 ==> !h.emits(i) && !h.fails(i))
    && (after.Halted? <==> n > 0 && h.fails(first + n - 1))
  }

  /** Lines are handled until the budget is spent, none waits, one leaves output to be written, or one fails. */
  lemma {:induction false} ProcessAnswers(t: Transport, h: Handler, budget: nat)
    ensures var (after, left) := Process(t, h, budget);
      var n := budget - left;
      && 0 <= n <= |t.backlog| && Handles(t, h, n, after) && (t.wantsWrite ==> n == 0)
      && (after.Halted? || after.transport.wantsWrite || left == 0 || after.transport.backlog == [])
    decreases budget
  {
    if budget == 0 || t.backlog == [] || t.wantsWrite {
      assert t.backlog[..0] == [] && t.backlog[0..] == t.backlog && t.handled + [] == t.handled;
    } else {
      var next := HandleLine(t.(backlog := t.backlog[1..]), h, t.backlog[0]);
      assert t.backlog[..1] == [t.backlog[0]];
      if next.Going? {
        var (after, left) := Process(next.transport, h, budget - 1);
        ProcessAnswers(next.transport, h, budget - 1);
        OneMoreHandled(t, h, next.transport, budget - 1 - left, after);
      }
    }
  }

  lemma OneMoreHandled(t: Transport, h: Handler, next: Transport, n: nat, after: Turned)
    requires t.backlog != [] && !t.wantsWrite && !h.fails(|t.handled|) && n <= |next.backlog|
    requires next == t.(handled := t.handled + [t.backlog[0]], backlog := t.backlog[1..],
                        wantsWrite := h.emits(|t.handled|))
    requires Handles(next, h, n, after) && (next.wantsWrite ==> n == 0)
    ensures n + 1 <= |t.backlog| && Handles(t, h, n + 1, after)
  {
    assert t.backlog[1..][..n] == t.backlog[1..n + 1] && t.backlog[1..][n..] == t.backlog[n + 1..];
    assert t.handled + [t.backlog[0]] + t.backlog[1..n + 1] == t.handled + t.backlog[..n + 1];
  }

  /** A chunk is read only when no line waits. */
  lemma ReadsOnlyWhenEmpty(t: Transport, h: Handler, drained: bool)
    ensures var written := if drained then t.(wantsWrite := false) else t;
      var (processed, budget) := Process(written, h, MAXIMUM_RECORDS_PER_TURN);
      processed.Going? && !processed.transport.wantsWrite && budget > 0 ==> processed.transport.backlog == []
  {
    ProcessKeepsOrder(if drained then t.(wantsWrite := false) else t, h, MAXIMUM_RECORDS_PER_TURN);
  }

  /** Lines are handled until the budget is spent, none waits, one leaves output to be written, or one fails. */
  ghost predicate HandlesUpTo(t: Transport, h: Handler, budget: nat, after: Turned) {
    exists n: nat :: n <= |t.backlog| && n <= budget && Handles(t, h, n, after)
      && (after.Halted? || after.transport.wantsWrite || n == budget || after.transport.backlog == [])
  }

  /** What reading comes to: the lines of a chunk are handled as far as the budget goes, bytes that are not accepted and
      a failing read halt the transport, and so does the end of the input, once the last line has been handled. */
  ghost predicate Reads(t: Transport, h: Handler, budget: nat, read: Read, after: Turned) {
    match read
    case Nothing => after == Going(t)
    case ReadError => after == Halted(t)
    case Chunk(bytes) =>
      var lines := Append(t.input, bytes);
      if lines.Failed? then after == Halted(t)
      else HandlesUpTo(t.(input := lines.buffer, backlog := t.backlog + Texts(lines.lines),
                          received := t.received + bytes), h, budget, after)
    case EndOfFile =>
      var (last, buffer) := Finish(t.input);
      && after.Halted? && after.transport.ended && after.transport.input == buffer
      && after.transport.handled == t.handled + (if last.Some? then [last.value.text] else [])
      && after.transport.backlog == t.backlog && after.transport.received == t.received
  }

  /** A turn. While output waits that could not be written, or reading is off, nothing is handled. Otherwise up to 64
      lines are: first those that wait, and only when none is left, nothing is to be written and the budget is not
      spent, those that are read. */
  lemma TurnAnswers(t: Transport, h: Handler, drained: bool, readEnabled: bool, read: Read, after: Turned)
    requires after == Advance(t, h, drained, readEnabled, read)
    ensures if !readEnabled || (t.wantsWrite && !drained) then
              after == Going(t.(wantsWrite := t.wantsWrite && !drained))
            else
              exists n: nat, step: Turned :: WorksOff(t.(wantsWrite := false), h, n, step, read, after)
  {
    if readEnabled && (!t.wantsWrite || drained) {
      var written := t.(wantsWrite := false);
      assert written == if drained then t.(wantsWrite := false) else t;
      var (step, budget) := Process(written, h, MAXIMUM_RECORDS_PER_TURN);
      WorkAnswers(written, h, read, step, budget, after);
    }
  }

  /** First n lines that wait, and then those that are read. */
  ghost predicate WorksOff(t: Transport, h: Handler, n: nat, step: Turned, read: Read, after: Turned) {
    && n <= |t.backlog| && n <= 64 && Handles(t, h, n, step)
    && ReadsOn(step, h, 64 - n, read, after)
  }

  /** With nothing left over from the lines that waited and budget to spend, the turn ends in what is read. */
  ghost predicate ReadsOn(step: Turned, h: Handler, budget: nat, read: Read, after: Turned) {
    if step.Halted? || step.transport.wantsWrite || budget == 0 then after == step
    else step.transport.backlog == [] && Reads(step.transport, h, budget, read, after)
  }

  lemma WorkAnswers(t: Transport, h: Handler, read: Read, step: Turned, budget: nat, after: Turned)
    requires (step, budget) == Process(t, h, 64) && after == Continued(step, h, budget, read)
    ensures budget <= 64 && WorksOff(t, h, 64 - budget, step, read, after)
  {
    ProcessAnswers(t, h, 64);
    ReadingOnAnswers(step, h, budget, read, after);
  }

  lemma ReadingOnAnswers(step: Turned, h: Handler, budget: nat, read: Read, after: Turned)
    requires after == Continued(step, h, budget, read)
    requires step.Halted? || step.transport.wantsWrite || budget == 0 || step.transport.backlog == []
    ensures ReadsOn(step, h, budget, read, after)
  {
    if step.Going? && !step.transport.wantsWrite && budget > 0 {
      ReadAnswers(step.transport, h, budget, read, after);
    }
  }

  lemma ReadAnswers(t: Transport, h: Handler, budget: nat, read: Read, after: Turned)
    requires budget > 0 && after == ReadInput(t, h, budget, read)
    ensures Reads(t, h, budget, read, after)
  {
    if read.Chunk? && Append(t.input, read.bytes).Lines? {
      var lines := Append(t.input, read.bytes);
      var filled := t.(input := lines.buffer, backlog := t.backlog + Texts(lines.lines),
                       received := t.received + read.bytes);
      ProcessAnswers(filled, h, budget);
      assert Handles(filled, h, budget - Process(filled, h, budget).1, after);
    } else if read.EndOfFile? {
      assert t.handled + [] == t.handled;
    }
  }

  lemma ReceivingKeepsOrder(t: Transport, limit: nat, bytes: Bytes)
    requires InOrder(t, limit) && Append(t.input, bytes).Lines?
    ensures var lines := Append(t.input, bytes);
      InOrder(t.(input := lines.buffer, backlog := t.backlog + Texts(lines.lines), received := t.received + bytes),
        limit)
  {
    var lines := Append(t.input, bytes);
    FeedJoins(Protocol(limit), t.received, bytes);
    TextsJoin(Feed(Protocol(limit), t.received).lines, lines.lines);
    assert t.handled + (t.backlog + Texts(lines.lines)) == (t.handled + t.backlog) + Texts(lines.lines);
  }

  /** What is handled once the stream has ended: every line, and the unterminated rest. */
  predicate AllHandled(t: Transport, limit: nat) {
    && t.ended && t.backlog == []
    && Feed(Protocol(limit), t.received).Lines?
    && var (last, _) := Finish(Feed(Protocol(limit), t.received).buffer);
       t.handled == Texts(Feed(Protocol(limit), t.received).lines) + (if last.Some? then [last.value.text] else [])
  }

  lemma ReadKeepsOrder(t: Transport, limit: nat, h: Handler, budget: nat, read: Read)
    requires InOrder(t, limit) && t.backlog == []
    ensures var after := ReadInput(t, h, budget, read);
      InOrder(after.transport, limit) || (after.Halted? && AllHandled(after.transport, limit))
  {
    match read
    case Chunk(bytes) =>
      if budget > 0 && Append(t.input, bytes).Lines? {
        ReceivingKeepsOrder(t, limit, bytes);
        var lines := Append(t.input, bytes);
        ProcessKeepsOrder(t.(input := lines.buffer, backlog := t.backlog + Texts(lines.lines),
          received := t.received + bytes), h, budget);
      }
    case EndOfFile =>
      FeedJoins(Protocol(limit), t.received, []);
      assert t.handled + [] == t.handled;
    case _ =>
  }

  lemma AdvanceKeepsOrder(t: Transport, limit: nat, h: Handler, turn: Turn)
    requires InOrder(t, limit)
    ensures var after := Advance(t, h, turn.drained, turn.readEnabled, turn.read);
      InOrder(after.transport, limit) || (after.Halted? && AllHandled(after.transport, limit))
  {
    var written := if turn.drained then t.(wantsWrite := false) else t;
    if turn.readEnabled && !written.wantsWrite {
      ProcessKeepsOrder(written, h, MAXIMUM_RECORDS_PER_TURN);
      var (processed, budget) := Process(written, h, MAXIMUM_RECORDS_PER_TURN);
      if processed.Going? && !processed.transport.wantsWrite {
        if budget > 0 { ReadKeepsOrder(processed.transport, limit, h, budget, turn.read); }
      }
    }
  }

  /** On every run, whatever the handler answers and however the pipes behave, the lines handled are a prefix of the
      lines received, the rest waits in the backlog, and nothing is skipped, repeated or reordered; at the end of the
      input all of them have been handled. */
  lemma {:induction false} LinesAreHandledInOrder(limit: nat, h: Handler, turns: seq<Turn>)
    ensures var t := Run(limit, h, turns);
      InOrder(t.transport, limit) || (t.Halted? && AllHandled(t.transport, limit))
  {
    if turns == [] {
      assert Texts([]) == [];
    } else {
      var last := |turns| - 1;
      LinesAreHandledInOrder(limit, h, turns[..last]);
      var before := Run(limit, h, turns[..last]);
      if before.Going? { AdvanceKeepsOrder(before.transport, limit, h, turns[last]); }
    }
  }

  // ---- The object ----

  class Port {
    var input: LineReader
    var backlog: seq<Bytes>
    var wantsWrite: bool
    ghost var handled: seq<Bytes>

    constructor (limit: nat)
      ensures fresh(input) && input.Value() == Protocol(limit) && backlog == [] && !wantsWrite && handled == []
    {
      input := new LineReader(limit, false, true);
      backlog, wantsWrite, handled := [], false, [];
    }

    ghost function Value(received: Bytes): Transport
      reads this, input
    {
      Transport(input.Value(), backlog, wantsWrite, handled, received, false)
    }

    method ProcessBacklog(h: Handler, budget: nat, ghost received: Bytes, count: nat) returns (ok: bool, left: nat,
        now: nat)
      requires count == |handled|
      modifies this`backlog, this`wantsWrite, this`handled
      ensures (if ok then Going(Value(received)) else Halted(Value(received)), left) ==
        Process(old(Value(received)), h, budget)
      ensures now == |handled|
    {
      left, now := budget, count;
      while left > 0 && backlog != [] && !wantsWrite
        invariant now == |handled| && input == old(input)
        invariant Process(Value(received), h, left) == Process(old(Value(received)), h, budget)
        decreases left
      {
        var line := backlog[0];
        backlog := backlog[1..];
        left := left - 1;
        handled := handled + [line];
        if h.emits(now) { wantsWrite := true; }
        if h.fails(now) { return false, left, now + 1; }
        now := now + 1;
      }
      ok := true;
    }
  }
}
