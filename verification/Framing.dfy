/** End to end: records accepted by a write queue, sent by arbitrary partial writes and received in arbitrary chunks,
    come out of a protocol line buffer as exactly those records, in order. */
module Framing {
  import opened Optional
  import opened LineBuffer
  import opened WriteQueue
  import LuaTransport

  /** A record without its newline. */
  function Body(record: Bytes): Bytes
    requires record != []
  {
    record[..|record| - 1]
  }

  function Bodies(records: seq<Bytes>): seq<Bytes>
    requires forall k :: 0 <= k < |records| ==> IsRecord(records[k])
  {
    if records == [] then []
    else
      assert IsRecord(records[0]);
      [Body(records[0])] + Bodies(records[1..])
  }

  lemma {:induction false} SplitBody(body: Bytes, rest: Bytes)
    requires NEWLINE !in body
    ensures SplitLines(body + [NEWLINE] + rest) == Split([body] + SplitLines(rest).bodies, SplitLines(rest).tail)
    decreases body
  {
    var stream := body + [NEWLINE] + rest;
    if body == [] {
      assert stream[1..] == rest;
      assert SplitLines(stream).bodies == [[]] + SplitLines(rest).bodies;
    } else {
      assert stream[1..] == body[1..] + [NEWLINE] + rest;
      SplitBody(body[1..], rest);
      var split := SplitLines(stream[1..]);
      assert split.bodies[1..] == SplitLines(rest).bodies;
      assert [stream[0]] + split.bodies[0] == body;
    }
  }

  /** The bytes of a list of records split into their bodies, with nothing left over. */
  lemma {:induction false} SplitRecords(records: seq<Bytes>)
    requires forall k :: 0 <= k < |records| ==> IsRecord(records[k])
    ensures SplitLines(Concat(records)) == Split(Bodies(records), [])
    ensures NUL !in Concat(records)
  {
    if records != [] {
      SplitRecords(records[1..]);
      assert records[0] == Body(records[0]) + [NEWLINE];
      SplitBody(Body(records[0]), Concat(records[1..]));
      assert Concat(records) == Body(records[0]) + [NEWLINE] + Concat(records[1..]);
    }
  }

  lemma {:induction false} BodiesAt(records: seq<Bytes>, k: nat)
    requires (forall j :: 0 <= j < |records| ==> IsRecord(records[j])) && k < |records|
    ensures |Bodies(records)| == |records| && Bodies(records)[k] == Body(records[k])
  {
    if k > 0 { BodiesAt(records[1..], k - 1); } else if |records| > 1 { BodiesAt(records[1..], 0); }
  }

  /** A body that does not end in a carriage return comes out as it went in. */
  predicate Plain(record: Bytes) {
    |record| < 2 || record[|record| - 2] != RETURN
  }

  function Texts(bodies: seq<Bytes>): seq<Line> {
    if bodies == [] then [] else [Line(bodies[0], false)] + Texts(bodies[1..])
  }

  lemma StripPlain(record: Bytes)
    requires record != [] && Plain(record)
    ensures Strip(Body(record)) == Body(record)
  {}

  lemma BodiesHead(records: seq<Bytes>)
    requires records != [] && forall k :: 0 <= k < |records| ==> IsRecord(records[k])
    ensures Bodies(records) == [Body(records[0])] + Bodies(records[1..])
    ensures Bodies(records)[0] == Body(records[0]) && Bodies(records)[1..] == Bodies(records[1..])
  {}

  lemma {:induction false} StrippedPlain(records: seq<Bytes>)
    requires forall k :: 0 <= k < |records| ==> IsRecord(records[k]) && Plain(records[k])
    ensures Stripped(Bodies(records)) == Texts(Bodies(records))
  {
    if records != [] {
      StripPlain(records[0]);
      BodiesHead(records);
      StrippedPlain(records[1..]);
    }
  }

  /** The framing theorem. */
  lemma RecordsArriveInOrder(maximumMessages: nat, maximumBytes: nat, ops: seq<Operation>, chunks: seq<Bytes>,
      limit: nat)
    requires var s := Run(Start(maximumMessages, maximumBytes), ops);
      && Unsent(s.queue) == [] && Concat(chunks) == s.sent
      && forall k :: 0 <= k < |s.accepted| && s.accepted[k] != [] ==> |Body(s.accepted[k])| <= limit
    ensures var s := Run(Start(maximumMessages, maximumBytes), ops);
      && (forall k :: 0 <= k < |s.accepted| ==> IsRecord(s.accepted[k]))
      && AppendAll(Protocol(limit), chunks) == Lines(Stripped(Bodies(s.accepted)), Protocol(limit))
      && ((forall k :: 0 <= k < |s.accepted| ==> Plain(s.accepted[k])) ==>
            AppendAll(Protocol(limit), chunks) == Lines(Texts(Bodies(s.accepted)), Protocol(limit)))
  {
    var s := Run(Start(maximumMessages, maximumBytes), ops);
    assert s.sent + [] == s.sent;
    RecordsComeThrough(s.accepted, chunks, limit);
    if forall k :: 0 <= k < |s.accepted| ==> Plain(s.accepted[k]) { StrippedPlain(s.accepted); }
  }

  lemma RecordsComeThrough(records: seq<Bytes>, chunks: seq<Bytes>, limit: nat)
    requires forall k :: 0 <= k < |records| ==> IsRecord(records[k]) && |Body(records[k])| <= limit
    requires Concat(chunks) == Concat(records)
    ensures AppendAll(Protocol(limit), chunks) == Lines(Stripped(Bodies(records)), Protocol(limit))
  {
    ChunksDoNotMatter(Protocol(limit), chunks);
    SplitRecords(records);
    ContinuedNothing(SplitLines(Concat(records)));
    forall k | 0 <= k < |Bodies(records)| ensures |Bodies(records)[k]| <= limit {
      if k < |records| { BodiesAt(records, k); } else if records != [] { BodiesAt(records, 0); }
    }
    ProtocolFeedIff(Protocol(limit), Concat(records));
  }

  /** Before everything is sent, what has arrived is a prefix of the accepted bytes: no chunk can hold anything else. */
  lemma SentIsPrefix(maximumMessages: nat, maximumBytes: nat, ops: seq<Operation>)
    ensures var s := Run(Start(maximumMessages, maximumBytes), ops); s.sent <= Concat(s.accepted)
  {
  }

  // ---- At every moment ----

  /** Reading on only adds lines. */
  lemma {:induction false} SplitGrows(stream: Bytes, more: Bytes)
    ensures SplitLines(stream).bodies <= SplitLines(stream + more).bodies
    decreases stream
  {
    if stream != [] {
      SplitGrows(stream[1..], more);
      assert (stream + more)[1..] == stream[1..] + more;
    }
  }

  lemma {:induction false} TextsOfPrefix(bodies: seq<Bytes>, all: seq<Bytes>)
    requires bodies <= all
    ensures LuaTransport.Texts(Stripped(bodies)) <= LuaTransport.Texts(Stripped(all))
    decreases bodies
  {
    if bodies != [] { TextsOfPrefix(bodies[1..], all[1..]); }
  }

  /** The lines of a beginning of the sent bytes are the first records' bodies, whatever was cut where. */
  lemma LinesOfPrefix(records: seq<Bytes>, received: Bytes, limit: nat)
    requires forall k :: 0 <= k < |records| ==> IsRecord(records[k])
    requires received <= Concat(records) && Feed(Protocol(limit), received).Lines?
    ensures LuaTransport.Texts(Feed(Protocol(limit), received).lines) <= LuaTransport.Texts(Stripped(Bodies(records)))
  {
    ProtocolFeedIff(Protocol(limit), received);
    ContinuedNothing(SplitLines(received));
    assert Concat(records) == received + Concat(records)[|received|..];
    SplitGrows(received, Concat(records)[|received|..]);
    SplitRecords(records);
    TextsOfPrefix(SplitLines(received).bodies, Bodies(records));
  }

  /** Write queue, pipe, line buffer and transport together, at every moment of every run of both ends: what has been
      handled are the bodies of the first accepted records, in order. Only the end of the input may add the beginning
      of a record whose rest never came. */
  lemma HandledArePrefix(maximumMessages: nat, maximumBytes: nat, ops: seq<Operation>, limit: nat,
      h: LuaTransport.Handler, turns: seq<LuaTransport.Turn>)
    requires LuaTransport.Run(limit, h, turns).transport.received <= Run(Start(maximumMessages, maximumBytes), ops).sent
    ensures var s, t := Run(Start(maximumMessages, maximumBytes), ops), LuaTransport.Run(limit, h, turns).transport;
      && (forall k :: 0 <= k < |s.accepted| ==> IsRecord(s.accepted[k]))
      && var bodies := LuaTransport.Texts(Stripped(Bodies(s.accepted)));
         || t.handled <= bodies
         || (t.ended && t.handled != [] && t.handled[..|t.handled| - 1] <= bodies)
  {
    var s, t := Run(Start(maximumMessages, maximumBytes), ops), LuaTransport.Run(limit, h, turns).transport;
    SentIsPrefix(maximumMessages, maximumBytes, ops);
    LuaTransport.LinesAreHandledInOrder(limit, h, turns);
    var lines := Feed(Protocol(limit), t.received).lines;
    LinesOfPrefix(s.accepted, t.received, limit);
    if LuaTransport.InOrder(t, limit) {
      assert t.handled <= LuaTransport.Texts(lines);
    } else if t.handled != LuaTransport.Texts(lines) {
      assert t.handled[..|t.handled| - 1] == LuaTransport.Texts(lines);
    }
  }
}
