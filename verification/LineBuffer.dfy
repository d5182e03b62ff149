/** Splitting a byte stream into lines, whatever the chunks it arrives in. */
module LineBuffer {
  import opened Octets
  import opened Optional

  const NUL: Octet := 0
  const NEWLINE: Octet := 10
  const RETURN: Octet := 13

  type Bytes = seq<Octet>

  datatype Line = Line(text: Bytes, truncated: bool)

  datatype Buffer = Buffer(limit: nat, truncates: bool, rejectsNul: bool, current: Bytes, truncated: bool,
    finished: bool)

  datatype LineError = EmbeddedNul | LineTooLong | Finished

  datatype Appended = Lines(lines: seq<Line>, buffer: Buffer) | Failed(error: LineError)

  function Protocol(limit: nat): Buffer {
    Buffer(limit, false, true, [], false, false)
  }

  /** A carriage return before the newline is not part of the line. */
  function Strip(text: Bytes): Bytes {
    if text != [] && text[|text| - 1] == RETURN then text[..|text| - 1] else text
  }

  function TakeLine(b: Buffer): Line {
    Line(Strip(b.current), b.truncated)
  }

  function Cleared(b: Buffer): Buffer {
    b.(current := [], truncated := false)
  }

  function Feed(b: Buffer, bytes: Bytes): Appended
    decreases bytes
  {
    if bytes == [] then Lines([], b)
    else if bytes[0] == NUL && b.rejectsNul then Failed(EmbeddedNul)
    else if bytes[0] == NEWLINE then Prepend([TakeLine(b)], Feed(Cleared(b), bytes[1..]))
    else if |b.current| < b.limit then Feed(b.(current := b.current + [bytes[0]]), bytes[1..])
    else if !b.truncates then Failed(LineTooLong)
    else Feed(b.(truncated := true), bytes[1..])
  }

  function Prepend(lines: seq<Line>, rest: Appended): Appended {
    if rest.Lines? then Lines(lines + rest.lines, rest.buffer) else rest
  }

  function Append(b: Buffer, bytes: Bytes): Appended {
    if b.finished then Failed(Finished) else Feed(b, bytes)
  }

  /** What is left when the stream ends. */
  function Finish(b: Buffer): (Option<Line>, Buffer) {
    if b.finished then (None, b)
    else if b.current == [] && !b.truncated then (None, b.(finished := true))
    else (Some(TakeLine(b)), Cleared(b).(finished := true))
  }

  // ---- Chunks do not matter ----

  function AppendAll(b: Buffer, chunks: seq<Bytes>): Appended
    decreases chunks
  {
    if chunks == [] then Lines([], b)
    else
      var first := Append(b, chunks[0]);
      if first.Failed? then first else Prepend(first.lines, AppendAll(first.buffer, chunks[1..]))
  }

  function Concat(chunks: seq<Bytes>): Bytes {
    if chunks == [] then [] else chunks[0] + Concat(chunks[1..])
  }

  lemma PrependTwice(a: seq<Line>, b: seq<Line>, rest: Appended)
    ensures Prepend(a, Prepend(b, rest)) == Prepend(a + b, rest)
  {
    if rest.Lines? { assert a + (b + rest.lines) == (a + b) + rest.lines; }
  }

  lemma {:induction false} FeedJoins(b: Buffer, first: Bytes, second: Bytes)
    ensures Feed(b, first + second) ==
      if Feed(b, first).Failed? then Feed(b, first)
        else Prepend(Feed(b, first).lines, Feed(Feed(b, first).buffer, second))
    ensures Feed(b, first).Lines? ==> Feed(b, first).buffer.finished == b.finished
    decreases first
  {
    if first == [] {
      assert first + second == second;
      var rest := Feed(b, second);
      if rest.Lines? { assert [] + rest.lines == rest.lines; }
    } else {
      assert (first + second)[1..] == first[1..] + second;
      if first[0] == NUL && b.rejectsNul {
      } else if first[0] == NEWLINE {
        FeedJoins(Cleared(b), first[1..], second);
        var rest := Feed(Cleared(b), first[1..]);
        if rest.Lines? { PrependTwice([TakeLine(b)], rest.lines, Feed(rest.buffer, second)); }
      } else if |b.current| < b.limit {
        FeedJoins(b.(current := b.current + [first[0]]), first[1..], second);
      } else if b.truncates {
        FeedJoins(b.(truncated := true), first[1..], second);
      }
    }
  }

  /** Any way of cutting a stream into chunks gives the same lines, or the same failure. */
  lemma {:induction false} ChunksDoNotMatter(b: Buffer, chunks: seq<Bytes>)
    requires !b.finished
    ensures AppendAll(b, chunks) == Feed(b, Concat(chunks))
    decreases chunks
  {
    if chunks != [] {
      FeedJoins(b, chunks[0], Concat(chunks[1..]));
      var first := Feed(b, chunks[0]);
      if first.Lines? { ChunksDoNotMatter(first.buffer, chunks[1..]); }
    }
  }

  // ---- What the lines are ----

  /** A stream as complete lines and what follows the last newline. */
  datatype Split = Split(bodies: seq<Bytes>, tail: Bytes)

  function SplitLines(stream: Bytes): Split {
    if stream == [] then Split([], [])
    else
      var rest := SplitLines(stream[1..]);
      if stream[0] == NEWLINE then Split([[]] + rest.bodies, rest.tail)
      else if rest.bodies == [] then Split([], [stream[0]] + rest.tail)
      else Split([[stream[0]] + rest.bodies[0]] + rest.bodies[1..], rest.tail)
  }

  /** The bytes already buffered belong to the first line. */
  function Continued(current: Bytes, split: Split): Split {
    if split.bodies == [] then Split([], current + split.tail)
    else Split([current + split.bodies[0]] + split.bodies[1..], split.tail)
  }

  function Stripped(bodies: seq<Bytes>): seq<Line> {
    if bodies == [] then [] else [Line(Strip(bodies[0]), false)] + Stripped(bodies[1..])
  }

  predicate Fitting(split: Split, limit: nat) {
    |split.tail| <= limit && forall k :: 0 <= k < |split.bodies| ==> |split.bodies[k]| <= limit
  }

  lemma ContinuedStep(current: Bytes, head: Octet, rest: Split)
    requires head != NEWLINE
    ensures Continued(current, if rest.bodies == [] then Split([], [head] + rest.tail)
                               else Split([[head] + rest.bodies[0]] + rest.bodies[1..], rest.tail))
      == Continued(current + [head], rest)
  {
    if rest.bodies == [] {
      assert current + ([head] + rest.tail) == (current + [head]) + rest.tail;
    } else {
      assert current + ([head] + rest.bodies[0]) == (current + [head]) + rest.bodies[0];
    }
  }

  lemma ContinuedNothing(split: Split)
    ensures Continued([], split) == split
  {
    if split.bodies != [] { assert [] + split.bodies[0] == split.bodies[0]; }
  }

  /** The first line is at least as long as what is buffered of it. */
  lemma ContinuedIsLong(current: Bytes, split: Split, limit: nat)
    requires Fitting(Continued(current, split), limit)
    ensures |current| <= limit
  {
    var all := Continued(current, split);
    if split.bodies != [] { assert |all.bodies[0]| <= limit; }
  }

  /** A protocol buffer accepts a stream exactly when it has no NUL and no line longer than the limit; then it yields
      the lines of the stream, and keeps what follows the last newline. */
  lemma {:induction false} ProtocolFeedIff(b: Buffer, stream: Bytes)
    requires !b.truncates && b.rejectsNul && !b.truncated && |b.current| <= b.limit
    ensures var all := Continued(b.current, SplitLines(stream));
      && (Feed(b, stream).Lines? <==> NUL !in stream && Fitting(all, b.limit))
      && (Feed(b, stream).Lines? ==>
            Feed(b, stream).lines == Stripped(all.bodies) && Feed(b, stream).buffer == b.(current := all.tail))
    decreases stream
  {
    if stream == [] {
      assert b.current + [] == b.current;
    } else {
      var rest := SplitLines(stream[1..]);
      assert stream == [stream[0]] + stream[1..];
      if stream[0] == NEWLINE {
        NewlineFeed(b, stream, rest);
      } else {
        ContinuedStep(b.current, stream[0], rest);
        if |b.current| < b.limit {
          ProtocolFeedIff(b.(current := b.current + [stream[0]]), stream[1..]);
        } else if Fitting(Continued(b.current + [stream[0]], rest), b.limit) {
          ContinuedIsLong(b.current + [stream[0]], rest, b.limit);
        }
      }
    }
  }

  lemma {:induction false} NewlineFeed(b: Buffer, stream: Bytes, rest: Split)
    requires !b.truncates && b.rejectsNul && !b.truncated && |b.current| <= b.limit
    requires stream != [] && stream[0] == NEWLINE && rest == SplitLines(stream[1..])
    ensures var all := Continued(b.current, SplitLines(stream));
      && (Feed(b, stream).Lines? <==> NUL !in stream && Fitting(all, b.limit))
      && (Feed(b, stream).Lines? ==>
            Feed(b, stream).lines == Stripped(all.bodies) && Feed(b, stream).buffer == b.(current := all.tail))
    decreases stream, 0
  {
    ProtocolFeedIff(Cleared(b), stream[1..]);
    ContinuedNothing(rest);
    var all := Continued(b.current, SplitLines(stream));
    assert ([[]] + rest.bodies)[1..] == rest.bodies;
    assert b.current + [] == b.current;
    assert all == Split([b.current] + rest.bodies, rest.tail);
    assert all.bodies[1..] == rest.bodies;
    assert NUL in stream <==> NUL in stream[1..] by { assert stream == [stream[0]] + stream[1..]; }
    assert Fitting(all, b.limit) <==> Fitting(rest, b.limit) by {
      if Fitting(all, b.limit) {
        forall k | 0 <= k < |rest.bodies| ensures |rest.bodies[k]| <= b.limit {
          assert all.bodies[k + 1] == rest.bodies[k];
        }
      }
    }
  }

  /** Cut to the limit, a line of a truncating buffer says whether it was longer. */
  function CutLine(body: Bytes, limit: nat): Line {
    Line(Strip(if |body| <= limit then body else body[..limit]), |body| > limit)
  }

  function CutLines(bodies: seq<Bytes>, limit: nat): seq<Line> {
    if bodies == [] then [] else [CutLine(bodies[0], limit)] + CutLines(bodies[1..], limit)
  }

  /** What a truncating buffer keeps of a line in progress. */
  predicate Holds(b: Buffer, body: Bytes) {
    && b.current == (if |body| <= b.limit then body else body[..b.limit])
    && b.truncated == (|body| > b.limit)
  }

  /** A standard-error buffer accepts every stream and yields each line cut to the limit. */
  lemma {:induction false} TruncatingFeed(b: Buffer, body: Bytes, stream: Bytes)
    requires b.truncates && !b.rejectsNul && Holds(b, body)
    ensures var all := Continued(body, SplitLines(stream));
      && Feed(b, stream).Lines? && Feed(b, stream).lines == CutLines(all.bodies, b.limit)
      && Holds(Feed(b, stream).buffer, all.tail) && Feed(b, stream).buffer.limit == b.limit
    decreases stream
  {
    if stream == [] {
      assert body + [] == body;
    } else {
      var rest := SplitLines(stream[1..]);
      if stream[0] == NEWLINE {
        TruncatingFeed(Cleared(b), [], stream[1..]);
        ContinuedNothing(rest);
        assert body + [] == body;
        assert ([[]] + rest.bodies)[1..] == rest.bodies && ([body] + rest.bodies)[1..] == rest.bodies;
      } else {
        ContinuedStep(body, stream[0], rest);
        var more := body + [stream[0]];
        if |b.current| < b.limit {
          TruncatingFeed(b.(current := b.current + [stream[0]]), more, stream[1..]);
        } else {
          assert more[..b.limit] == body[..b.limit];
          TruncatingFeed(b.(truncated := true), more, stream[1..]);
        }
      }
    }
  }

  /** The first byte that is not accepted says why: a NUL, or one too many in a line that is not cut. */
  lemma {:induction false} FailsAtFirst(b: Buffer, stream: Bytes) returns (k: nat)
    requires Feed(b, stream).Failed?
    ensures k < |stream| && Feed(b, stream[..k]).Lines?
    ensures match Feed(b, stream).error
      case EmbeddedNul => b.rejectsNul && stream[k] == NUL
      case LineTooLong =>
        && !b.truncates && stream[k] != NEWLINE && !(b.rejectsNul && stream[k] == NUL)
        && |Feed(b, stream[..k]).buffer.current| >= b.limit
      case Finished => false
    decreases stream
  {
    if (stream[0] == NUL && b.rejectsNul) || (stream[0] != NEWLINE && |b.current| >= b.limit && !b.truncates) {
      k := 0;
      assert stream[..0] == [];
    } else {
      var next := if stream[0] == NEWLINE then Cleared(b)
                  else if |b.current| < b.limit then b.(current := b.current + [stream[0]])
                  else b.(truncated := true);
      var i := FailsAtFirst(next, stream[1..]);
      k := i + 1;
      assert stream[..k][1..] == stream[1..][..i] && stream[..k][0] == stream[0];
    }
  }

  // ---- The end of the stream ----

  /** At most one carriage return is taken off, and only from the end. */
  lemma StripsOneReturn(text: Bytes)
    ensures Strip(text) == text || Strip(text) + [RETURN] == text
    ensures Strip(text) == text <==> text == [] || text[|text| - 1] != RETURN
  {
  }

  /** What the end of a stream yields: its unterminated last line, if it has one. After that every chunk is refused and
      another end yields nothing. */
  predicate Ends(b: Buffer, last: Option<Line>, yielded: Option<Line>, after: Buffer) {
    && yielded == last && after.finished && after.current == [] && !after.truncated
    && Finish(after) == (None, after)
  }

  lemma ProtocolStreamEnds(limit: nat, stream: Bytes)
    requires Feed(Protocol(limit), stream).Lines?
    ensures var (yielded, after) := Finish(Feed(Protocol(limit), stream).buffer);
      var tail := SplitLines(stream).tail;
      && Ends(Protocol(limit), if tail == [] then None else Some(Line(Strip(tail), false)), yielded, after)
      && forall more :: Append(after, more) == Failed(Finished)
  {
    ProtocolFeedIff(Protocol(limit), stream);
    ContinuedNothing(SplitLines(stream));
  }

  lemma TruncatedStreamEnds(limit: nat, stream: Bytes)
    ensures var empty := Buffer(limit, true, false, [], false, false);
      Feed(empty, stream).Lines?
    ensures var empty := Buffer(limit, true, false, [], false, false);
      var (yielded, after) := Finish(Feed(empty, stream).buffer);
      var tail := SplitLines(stream).tail;
      && Ends(empty, if tail == [] then None else Some(CutLine(tail, limit)), yielded, after)
      && forall more :: Append(after, more) == Failed(Finished)
  {
    var empty := Buffer(limit, true, false, [], false, false);
    TruncatingFeed(empty, [], stream);
    ContinuedNothing(SplitLines(stream));
    FeedJoins(empty, stream, []);
  }

  // ---- The object ----

  class LineReader {
    const limit: nat
    const truncates: bool
    const rejectsNul: bool
    var current: Bytes
    var truncated: bool
    var finished: bool

    constructor (limit: nat, truncates: bool, rejectsNul: bool)
      ensures Value() == Buffer(limit, truncates, rejectsNul, [], false, false)
    {
      this.limit, this.truncates, this.rejectsNul := limit, truncates, rejectsNul;
      current, truncated, finished := [], false, false;
    }

    function Value(): Buffer
      reads this
    {
      Buffer(limit, truncates, rejectsNul, current, truncated, finished)
    }

    method Take() returns (line: Line)
      modifies this
      ensures line == TakeLine(old(Value())) && Value() == Cleared(old(Value()))
    {
      if current != [] && current[|current| - 1] == RETURN { current := current[..|current| - 1]; }
      line := Line(current, truncated);
      current, truncated := [], false;
    }

    /** On failure the lines of this chunk are lost and the buffer is left as it was at that byte. */
    method AppendBytes(bytes: Bytes) returns (lines: seq<Line>, failure: Option<LineError>)
      modifies this
      ensures match Append(old(Value()), bytes)
        case Lines(expected, buffer) => failure.None? && lines == expected && Value() == buffer
        case Failed(error) => failure == Some(error)
    {
      lines, failure := [], None;
      if finished { return [], Some(Finished); }
      var k := 0;
      assert bytes[0..] == bytes;
      assert Feed(Value(), bytes).Lines? ==> [] + Feed(Value(), bytes).lines == Feed(Value(), bytes).lines;
      while k < |bytes|
        invariant 0 <= k <= |bytes|
        invariant Feed(old(Value()), bytes) == Prepend(lines, Feed(Value(), bytes[k..]))
      {
        var byte := bytes[k];
        assert bytes[k..][1..] == bytes[k + 1..];
        ghost var before := Value();
        if byte == NUL && rejectsNul { return [], Some(EmbeddedNul); }
        if byte == NEWLINE {
          ghost var earlier := lines;
          var line := Take();
          lines := lines + [line];
          PrependTwice(earlier, [line], Feed(Value(), bytes[k + 1..]));
        } else if |current| < limit {
          current := current + [byte];
        } else if !truncates {
          return [], Some(LineTooLong);
        } else {
          truncated := true;
        }
        k := k + 1;
      }
      assert lines + [] == lines;
    }

    method FinishStream() returns (line: Option<Line>)
      modifies this
      ensures (line, Value()) == Finish(old(Value()))
    {
      if finished { return None; }
      finished := true;
      if current == [] && !truncated { return None; }
      var last := Take();
      line := Some(last);
    }
  }
}
