/** Outbound records, sent by partial writes. */
module WriteQueue {
  import opened Optional
  import opened LineBuffer

  datatype Queue = Queue(records: seq<Bytes>, offset: nat, pendingBytes: nat, maximumMessages: nat, maximumBytes: nat)

  datatype QueueError = InvalidRecord | MessageLimit | ByteLimit | InvalidConsume

  function Empty(maximumMessages: nat, maximumBytes: nat): Queue {
    Queue([], 0, 0, maximumMessages, maximumBytes)
  }

  /** One newline, at the very end, and no NUL. */
  predicate IsRecord(record: Bytes) {
    && record != [] && record[|record| - 1] == NEWLINE
    && NEWLINE !in record[..|record| - 1] && NUL !in record
  }

  /** Why a record is refused, checked in this order. */
  function Refusal(q: Queue, record: Bytes): Option<QueueError> {
    if !IsRecord(record) then Some(InvalidRecord)
    else if |q.records| >= q.maximumMessages then Some(MessageLimit)
    else if |record| > q.maximumBytes - q.pendingBytes then Some(ByteLimit)
    else None
  }

  function Push(q: Queue, record: Bytes): Queue {
    if Refusal(q, record).Some? then q
      else q.(records := q.records + [record], pendingBytes := q.pendingBytes + |record|)
  }

  /** The front record is partly written at most. */
  predicate Sound(q: Queue) {
    && q.pendingBytes <= q.maximumBytes && |q.records| <= q.maximumMessages
    && (forall k :: 0 <= k < |q.records| ==> IsRecord(q.records[k]))
    && (if q.records == [] then q.offset == 0 else q.offset < |q.records[0]|)
    && q.pendingBytes == |Concat(q.records)| - q.offset
    && q.offset <= |Concat(q.records)|
  }

  function FrontSpan(q: Queue): Bytes
    requires Sound(q)
  {
    if q.records == [] then [] else q.records[0][q.offset..]
  }

  /** Taking more than the front holds is refused. */
  function Consume(q: Queue, count: nat): Option<Queue>
    requires Sound(q)
  {
    if count > |FrontSpan(q)| then None
    else if q.records == [] then Some(q)
    else if q.offset + count == |q.records[0]| then
      Some(q.(records := q.records[1..], offset := 0, pendingBytes := q.pendingBytes - count))
    else Some(q.(offset := q.offset + count, pendingBytes := q.pendingBytes - count))
  }

  /** What has been accepted and not been sent yet. */
  function Unsent(q: Queue): Bytes
    requires Sound(q)
  {
    Concat(q.records)[q.offset..]
  }

  lemma {:induction false} ConcatJoins(a: seq<Bytes>, b: seq<Bytes>)
    ensures Concat(a + b) == Concat(a) + Concat(b)
  {
    if a == [] {
      assert a + b == b;
    } else {
      assert (a + b)[1..] == a[1..] + b;
      ConcatJoins(a[1..], b);
      assert a[0] + (Concat(a[1..]) + Concat(b)) == (a[0] + Concat(a[1..])) + Concat(b);
    }
  }

  lemma ConcatOne(record: Bytes)
    ensures Concat([record]) == record
  {
    assert [record][1..] == [];
    assert record + [] == record;
  }

  /** An accepted record goes to the back of what is unsent. */
  lemma PushAppends(q: Queue, record: Bytes)
    requires Sound(q)
    ensures Sound(Push(q, record))
    ensures Unsent(Push(q, record)) == Unsent(q) + (if Refusal(q, record).None? then record else [])
  {
    if Refusal(q, record).None? {
      ConcatJoins(q.records, [record]);
      ConcatOne(record);
      var after := Push(q, record);
      assert Concat(after.records)[q.offset..] == Concat(q.records)[q.offset..] + record;
      if q.records == [] { assert after.records[0] == record; }
    } else {
      assert Unsent(q) + [] == Unsent(q);
    }
  }

  /** A record is a body without newline or NUL, and a newline. */
  lemma RecordIff(record: Bytes)
    ensures IsRecord(record) <==> exists body :: NEWLINE !in body && NUL !in body && record == body + [NEWLINE]
  {
    if IsRecord(record) {
      var body := record[..|record| - 1];
      assert record == body + [NEWLINE];
      assert NEWLINE !in body && NUL !in body;
    }
    if body :| NEWLINE !in body && NUL !in body && record == body + [NEWLINE] {
      assert record[..|record| - 1] == body;
    }
  }

  /** What is refused: first what is no record, then one record too many, then more bytes than may wait unsent. */
  lemma RefusalIs(q: Queue, record: Bytes)
    requires Sound(q)
    ensures Refusal(q, record) ==
      if !IsRecord(record) then Some(InvalidRecord)
      else if |q.records| == q.maximumMessages then Some(MessageLimit)
      else if |Unsent(q)| + |record| > q.maximumBytes then Some(ByteLimit)
      else None
  {
  }

  /** A write sends the next bytes of what is unsent, in order. */
  lemma ConsumeSends(q: Queue, count: nat)
    requires Sound(q) && count <= |FrontSpan(q)|
    ensures Sound(Consume(q, count).value)
    ensures Unsent(q) == FrontSpan(q)[..count] + Unsent(Consume(q, count).value)
  {
    if q.records != [] {
      var first, rest := q.records[0], q.records[1..];
      assert Concat(q.records) == first + Concat(rest);
      assert Unsent(q) == first[q.offset..] + Concat(rest);
      if q.offset + count == |first| {
        assert Concat(rest)[0..] == Concat(rest);
      } else {
        assert Concat(q.records)[q.offset + count..] == first[q.offset + count..] + Concat(rest);
        assert first[q.offset..] == first[q.offset..][..count] + first[q.offset + count..];
      }
    }
  }

  // ---- Runs ----

  datatype Operation = PushRecord(record: Bytes) | Write(count: nat)

  /** The queue, the records it accepted and the bytes that were written. */
  datatype Sender = Sender(queue: Queue, accepted: seq<Bytes>, sent: Bytes)

  function Step(s: Sender, op: Operation): Sender
    requires Sound(s.queue)
  {
    match op
    case PushRecord(record) =>
      Sender(Push(s.queue, record), if Refusal(s.queue, record).None? then s.accepted + [record]
        else s.accepted, s.sent)
    case Write(count) =>
      if count > |FrontSpan(s.queue)| then s
      else Sender(Consume(s.queue, count).value, s.accepted, s.sent + FrontSpan(s.queue)[..count])
  }

  /** What was sent and what is unsent are, in order, the accepted records. */
  predicate Faithful(s: Sender) {
    && Sound(s.queue) && s.sent + Unsent(s.queue) == Concat(s.accepted)
    && forall k :: 0 <= k < |s.accepted| ==> IsRecord(s.accepted[k])
  }

  lemma AcceptIsFaithful(s: Sender, record: Bytes)
    requires Faithful(s) && Refusal(s.queue, record).None?
    ensures Faithful(Step(s, PushRecord(record)))
  {
    PushAppends(s.queue, record);
    ConcatJoins(s.accepted, [record]);
    ConcatOne(record);
    assert s.sent + (Unsent(s.queue) + record) == (s.sent + Unsent(s.queue)) + record;
  }

  lemma WriteIsFaithful(s: Sender, count: nat)
    requires Faithful(s) && count <= |FrontSpan(s.queue)|
    ensures Faithful(Step(s, Write(count)))
  {
    ConsumeSends(s.queue, count);
    var span := FrontSpan(s.queue)[..count];
    assert s.sent + (span + Unsent(Consume(s.queue, count).value)) ==
      (s.sent + span) + Unsent(Consume(s.queue, count).value);
  }

  lemma StepIsFaithful(s: Sender, op: Operation)
    requires Faithful(s)
    ensures Faithful(Step(s, op))
  {
    match op
    case PushRecord(record) => if Refusal(s.queue, record).None? { AcceptIsFaithful(s, record); }
    case Write(count) => if count <= |FrontSpan(s.queue)| { WriteIsFaithful(s, count); }
  }

  /** Every run stays faithful. */
  function Run(s: Sender, ops: seq<Operation>): (r: Sender)
    requires Faithful(s)
    ensures Faithful(r)
    decreases ops
  {
    if ops == [] then s
    else
      StepIsFaithful(s, ops[0]);
      Run(Step(s, ops[0]), ops[1..])
  }

  function Start(maximumMessages: nat, maximumBytes: nat): (s: Sender)
    ensures Faithful(s)
  {
    var s := Sender(Empty(maximumMessages, maximumBytes), [], []);
    assert Concat(s.accepted) == [] && s.sent + Unsent(s.queue) == [];
    s
  }

  // ---- The object ----

  class Writer {
    const maximumMessages: nat
    const maximumBytes: nat
    var records: seq<Bytes>
    var offset: nat
    var pendingBytes: nat

    constructor (maximumMessages: nat, maximumBytes: nat)
      ensures Value() == Empty(maximumMessages, maximumBytes)
    {
      this.maximumMessages, this.maximumBytes := maximumMessages, maximumBytes;
      records, offset, pendingBytes := [], 0, 0;
    }

    function Value(): Queue
      reads this
    {
      Queue(records, offset, pendingBytes, maximumMessages, maximumBytes)
    }

    method PushBytes(record: Bytes) returns (refused: Option<QueueError>)
      modifies this
      ensures refused == Refusal(old(Value()), record) && Value() == Push(old(Value()), record)
    {
      if !IsRecord(record) { return Some(InvalidRecord); }
      if |records| >= maximumMessages { return Some(MessageLimit); }
      if |record| > maximumBytes - pendingBytes { return Some(ByteLimit); }
      pendingBytes, records := pendingBytes + |record|, records + [record];
      refused := None;
    }

    method ConsumeBytes(count: nat) returns (ok: bool)
      requires Sound(Value())
      modifies this
      ensures ok == Consume(old(Value()), count).Some?
      ensures Value() == if ok then Consume(old(Value()), count).value else old(Value())
      ensures Sound(Value())
    {
      ConsumeSends(Value(), if count <= |FrontSpan(Value())| then count else 0);
      if count > |FrontSpan(Value())| { return false; }
      if records == [] { return true; }
      offset, pendingBytes := offset + count, pendingBytes - count;
      if offset == |records[0]| { records, offset := records[1..], 0; }
      ok := true;
    }
  }
}
