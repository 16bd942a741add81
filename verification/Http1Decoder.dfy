/** The HTTP/1 decoder with the state it updates in place, proved against `Http1.Push` and `Http1.Finish`. */
module Http1Decoder {
  import opened ByteStrings
  import opened Streaming
  import opened Text
  import opened Http1

  datatype DirectionState = DirectionState(buffer: Bytes, pending: Pending)

  datatype StepResult = StepNeedMore | StepProgress | StepMessage(message: DecodedMessage) | StepDesync(reason: Reason)

  /** The header loop of the head parser. */
  method ParseHeadBytes(bytes: Bytes) returns (result: HeadResult)
    ensures result == ParseHead(bytes)
  {
    hide ValidUtf8, Lines, Trim, ParseStartLine, AddHeaderLine;
    if !ValidUtf8(bytes) {
      return Rejected(HeadNotUtf8);
    }
    var lines := Lines(bytes);
    result := ParseStartLine(Trim(lines[0]));
    if result.Rejected? {
      return;
    }
    var i := 1;
    while i < |lines|
      invariant 1 <= i <= |lines| && result.Parsed?
      invariant AddHeaderLines(result.head, lines[i..]) == ParseHead(bytes)
    {
      result := AddHeaderLine(result.head, lines[i]);
      assert lines[i..][1..] == lines[i + 1..];
      if result.Rejected? {
        return;
      }
      i := i + 1;
    }
  }

  /** What a call leaves of the loop it belongs to: the direction's new state and the step it reports. */
  ghost predicate Leaves(cap: Option<nat>, d: Direction, link: Exchange, whole: Drained<Exchange, DecodedMessage, Reason>,
                         size: nat, left: DirectionState, step: StepResult) {
    var after := WithPending(link, d, left.pending);
    match step
    case StepNeedMore => whole == Drained(after, left.buffer, Quiet(), false)
    case StepProgress => false
    case StepMessage(m) => |left.buffer| < size && whole == Prepend(Batch([m], None), DrainStream(cap, d, Track(after, m), left.buffer))
    case StepDesync(r) => left.buffer == [] && whole == Drained(after, [], Batch([], Some(r)), true)
  }

  /** The chunked body loop: size line, data, CRLF, trailers. */
  method ReadChunks(maxBody: nat, d: Direction, ghost link: Exchange, m: DecodedMessage, start: ChunkPhase, bytes: Bytes)
    returns (left: DirectionState, step: StepResult)
    ensures Leaves(Some(maxBody), d, link, DrainStream(Some(maxBody), d, WithPending(link, d, Chunked(m, start)), bytes), |bytes|, left, step)
  {
    hide Step, DrainStream, ParseChunkLine, Capture, Track, Prepend, Find, WithPending;
    var message, phase, buffer := m, start, bytes;
    while true
      invariant |buffer| <= |bytes|
      invariant DrainStream(Some(maxBody), d, WithPending(link, d, Chunked(message, phase)), buffer)
             == DrainStream(Some(maxBody), d, WithPending(link, d, Chunked(m, start)), bytes)
      decreases |buffer|
    {
      ChunkSteps(Some(maxBody), d, link, message, phase, buffer);
      match phase
      case Size =>
        var end := Find(buffer, CRLF);
        if end.None? {
          if |buffer| > MAX_CHUNK_LINE_BYTES {
            return DirectionState([], Idle), StepDesync(ChunkLineTooLong);
          }
          return DirectionState(buffer, Chunked(message, phase)), StepNeedMore;
        }
        var size := ParseChunkLine(buffer[..end.value]);
        if size.BadChunkLine? {
          return DirectionState([], Idle), StepDesync(size.reason);
        }
        buffer := buffer[end.value + 2..];
        phase := if size.size == 0 then Trailers else Data(size.size);
      case Data(remaining) =>
        var consumed := Min(remaining, |buffer|);
        message := Capture(message, buffer[..consumed], Some(maxBody));
        if remaining - consumed > 0 {
          assert buffer[..consumed] == buffer;
          return DirectionState([], Chunked(message, Data(remaining - consumed))), StepNeedMore;
        }
        buffer := buffer[consumed..];
        phase := DataCrlf;
      case DataCrlf =>
        if |buffer| < 2 {
          return DirectionState(buffer, Chunked(message, phase)), StepNeedMore;
        }
        if buffer[..2] != CRLF {
          return DirectionState([], Idle), StepDesync(MissingChunkCrlf);
        }
        buffer := buffer[2..];
        phase := Size;
      case Trailers =>
        var end := if StartsWith(buffer, CRLF) then Some(2)
                   else match Find(buffer, CRLFCRLF) case Some(k) => Some(k + 4) case None => None;
        if end.Some? {
          return DirectionState(buffer[end.value..], Idle), StepMessage(message);
        }
        if |buffer| > MAX_HEAD_BYTES {
          return DirectionState([], Idle), StepDesync(TrailersTooLong);
        }
        return DirectionState(buffer, Chunked(message, phase)), StepNeedMore;
    }
  }

  /** One chunk step inside the loop. */
  lemma ChunkSteps(cap: Option<nat>, d: Direction, link: Exchange, m: DecodedMessage, phase: ChunkPhase, b: Bytes)
    ensures var whole := DrainStream(cap, d, WithPending(link, d, Chunked(m, phase)), b);
            match StepChunk(cap, link, d, m, phase, b)
            case NeedMore(x, rest) => whole == Drained(x, rest, Quiet(), false)
            case Halt(x, e) => whole == Drained(x, [], e, true)
            case Advance(x, rest, e) => whole == if e == Quiet() then DrainStream(cap, d, x, rest) else Prepend(e, DrainStream(cap, d, x, rest))
  {
    hide Step, StepChunk, DrainStream, Prepend, WithPending;
    var x := WithPending(link, d, Chunked(m, phase));
    StepOnChunked(cap, d, link, m, phase, b);
    DrainUnfolds(cap, d, x, b);
    if Step(cap, d, x, b).Advance? && Step(cap, d, x, b).emitted == Quiet() { QuietAdvance(cap, d, x, b); }
  }

  class StreamDecoder {
    const maxBody: nat
    var client: DirectionState
    var server: DirectionState
    var requestMethods: seq<Bytes>

    constructor (maxBody: nat)
      requires maxBody > 0
      ensures this.maxBody == maxBody && State() == Initial
    {
      this.maxBody := maxBody;
      client := DirectionState([], Idle);
      server := DirectionState([], Idle);
      requestMethods := [];
    }

    function Cap(): Option<nat> {
      Some(maxBody)
    }

    function Link(): Exchange
      reads this
    {
      Exchange(client.pending, server.pending, requestMethods)
    }

    function State(): Decoder
      reads this
    {
      Decoder(Link(), client.buffer, server.buffer)
    }

    function Side(d: Direction): DirectionState
      reads this
    {
      if d == ClientToServer then client else server
    }

    /** The rest of the loop from where the decoder stands. */
    function Remaining(d: Direction): Drained<Exchange, DecodedMessage, Reason>
      reads this
    {
      DrainStream(Cap(), d, Link(), Side(d).buffer)
    }

    method SetSide(d: Direction, side: DirectionState)
      modifies this
      ensures Side(d) == side && requestMethods == old(requestMethods)
      ensures State() == WithBuffer(old(State()), d, side.buffer).(exchange := WithPending(old(Link()), d, side.pending))
    {
      if d == ClientToServer {
        client := side;
      } else {
        server := side;
      }
    }

    method TrackExchange(m: DecodedMessage)
      modifies this`requestMethods
      ensures Link() == Track(old(Link()), m)
    {
      if m.direction == ClientToServer {
        var words := Words(m.startLine);
        if words != [] {
          requestMethods := requestMethods + [words[0]];
        }
      } else if IsFinalStatus(StatusOf(m.startLine)) && requestMethods != [] {
        requestMethods := requestMethods[1..];
      }
    }

    /** What a step leaves of the loop it belongs to. */
    twostate predicate Continues(d: Direction, step: StepResult)
      reads this
    {
      && requestMethods == old(requestMethods)
      && Side(Other(d)) == old(Side(Other(d)))
      && match step
         case StepNeedMore => old(Remaining(d)) == Drained(Link(), Side(d).buffer, Quiet(), false)
         case StepProgress => old(Remaining(d)) == Remaining(d) && |Side(d).buffer| < old(|Side(d).buffer|)
         case StepMessage(m) =>
           && |Side(d).buffer| < old(|Side(d).buffer|)
           && old(Remaining(d)) == Prepend(Batch([m], None), DrainStream(Cap(), d, Track(Link(), m), Side(d).buffer))
         case StepDesync(r) =>
           && Side(d).buffer == []
           && old(Remaining(d)) == Drained(Link(), [], Batch([], Some(r)), true)
    }

    /** A chunked body: what the loop over its pieces leaves is stored back. */
    method ConsumeChunked(d: Direction, m: DecodedMessage, start: ChunkPhase) returns (step: StepResult)
      requires Side(d).pending == Chunked(m, start)
      modifies this
      ensures Continues(d, step)
    {
      hide DrainStream, Track, Prepend;
      var left;
      left, step := ReadChunks(maxBody, d, Link(), m, start, Side(d).buffer);
      SetSide(d, left);
    }

    /** Bytes of a body that was left unfinished. */
    method ConsumePending(d: Direction) returns (step: StepResult)
      requires !Side(d).pending.Idle?
      modifies this
      ensures Continues(d, step)
    {
      hide DrainStream, StepHead, StepChunk;
      var pending, buffer := Side(d).pending, Side(d).buffer;
      DrainUnfolds(Cap(), d, Link(), buffer);
      match pending
      case Fixed(m, remaining) =>
        var consumed := Min(remaining, |buffer|);
        var message := Capture(m, buffer[..consumed], Cap());
        if remaining - consumed == 0 {
          SetSide(d, DirectionState(buffer[consumed..], Idle));
          return StepMessage(message);
        }
        assert buffer[..consumed] == buffer;
        SetSide(d, DirectionState([], Fixed(message, remaining - consumed)));
        return StepNeedMore;
      case UntilEof(m) =>
        SetSide(d, DirectionState([], UntilEof(Capture(m, buffer, Cap()))));
        return StepNeedMore;
      case Chunked(m, phase) =>
        step := ConsumeChunked(d, m, phase);
    }

    /** One step: an unfinished body first, otherwise the next head. */
    method StepOnce(d: Direction, responseToHead: bool) returns (step: StepResult)
      requires responseToHead == RespondsToHead(Link(), d)
      modifies this
      ensures Continues(d, step)
    {
      hide DrainStream, ParseHead, StepChunk;
      if !Side(d).pending.Idle? {
        step := ConsumePending(d);
        return;
      }
      var buffer := Side(d).buffer;
      DrainUnfolds(Cap(), d, Link(), buffer);
      var end := Find(buffer, CRLFCRLF);
      if end.None? {
        if |buffer| > MAX_HEAD_BYTES {
          SetSide(d, DirectionState([], Idle));
          return StepDesync(HeadTooLong);
        }
        return StepNeedMore;
      }
      var parsed := ParseHeadBytes(buffer[..end.value]);
      if parsed.Rejected? {
        SetSide(d, DirectionState([], Idle));
        return StepDesync(parsed.reason);
      }
      var head, rest := parsed.head, buffer[end.value + 4..];
      var m := DecodedMessage(d, head.startLine, head.headers, [], false);
      var body := if responseToHead || head.noBodyStatus then Idle
                  else if head.chunked then Chunked(m, Size)
                  else if head.contentLength.Some? then
                    if head.contentLength.value == 0 then Idle else Fixed(m, head.contentLength.value)
                  else if head.isResponse then UntilEof(m)
                  else Idle;
      SetSide(d, DirectionState(rest, body));
      if body.Idle? {
        return StepMessage(m);
      }
      assert Step(Cap(), d, old(Link()), buffer).emitted == Quiet();
      ghost var remaining := Remaining(d);
      JoinAssociative(remaining.batch, Quiet(), Quiet());
      return StepProgress;
    }

    /** Feeds a fragment into one direction. */
    method Push(d: Direction, bytes: Bytes) returns (batch: Report)
      modifies this
      ensures (State(), batch) == Http1.Push(Cap(), old(State()), d, bytes)
    {
      hide DrainStream;
      SetSide(d, DirectionState(Side(d).buffer + bytes, Side(d).pending));
      ghost var whole := Remaining(d);
      batch := Batch([], None);
      JoinAssociative(whole.batch, Quiet(), Quiet());
      while true
        invariant whole == Prepend(batch, Remaining(d)) && batch.desynchronized.None?
        invariant Side(Other(d)) == old(Side(Other(d)))
        decreases |Side(d).buffer|
      {
        var responseToHead := RespondsToHead(Link(), d);
        ghost var before := Remaining(d);
        var step := StepOnce(d, responseToHead);
        match step
        case StepNeedMore =>
          JoinAssociative(batch, Quiet(), Quiet());
          return;
        case StepProgress =>
        case StepMessage(m) =>
          ghost var after := DrainStream(Cap(), d, Track(Link(), m), Side(d).buffer);
          JoinAssociative(batch, Batch([m], None), after.batch);
          TrackExchange(m);
          batch := Batch(batch.messages + [m], None);
        case StepDesync(reason) =>
          batch := Batch(batch.messages, Some(reason));
          assert batch.messages + [] == batch.messages;
          return;
      }
    }

    /** End of one direction. */
    method Finish(d: Direction) returns (batch: Report)
      modifies this
      ensures (State(), batch) == Http1.Finish(old(State()), d)
    {
      var pending := Side(d).pending;
      if pending.Idle? {
        return Batch([], None);
      }
      var incomplete := !pending.UntilEof?;
      var message := pending.message.(truncated := pending.message.truncated || incomplete);
      SetSide(d, DirectionState([], Idle));
      TrackExchange(message);
      batch := Batch([message], if incomplete then Some(EndedEarly) else None);
    }
  }

  /** Storing an unfinished chunked body does not change what the loop sees. */
  lemma StepOnChunked(cap: Option<nat>, d: Direction, link: Exchange, m: DecodedMessage, phase: ChunkPhase, b: Bytes)
    ensures var x := WithPending(link, d, Chunked(m, phase));
            Step(cap, d, x, b) == StepChunk(cap, link, d, m, phase, b)
  {
    hide StepHead, ParseChunkLine, Capture, Track;
  }

  function Other(d: Direction): Direction {
    if d == ClientToServer then ServerToClient else ClientToServer
  }
}
