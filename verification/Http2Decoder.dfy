/** The HTTP/2 decoder with the state it updates in place, proved against the functions of `Http2`. */
module Http2Decoder {
  import opened ByteStrings
  import opened Streaming
  import opened Text
  import opened Http2
  import Grpc

  datatype FrameResult = FrameOk(messages: seq<DecodedMessage>) | FrameErr(reason: Reason)

  datatype NextFrame = NextIs(frame: Frame) | Skipped(reason: Reason) | NextNeedsMore | NextInvalid(reason: Reason)

  function HandledAs(c: Core, r: FrameResult): Handled {
    match r
    case FrameOk(messages) => Ok(c, messages)
    case FrameErr(reason) => Err(c, reason)
  }

  class StreamDecoder {
    const env: Env
    const maxBody: nat
    var client: Side
    var server: Side
    var clientBuffer: Bytes
    var serverBuffer: Bytes
    var streams: map<nat, Stream>
    var retainedBodyBytes: nat

    constructor (env: Env, maxBody: nat)
      ensures this.env == env && this.maxBody == maxBody && State() == Initial
    {
      this.env, this.maxBody := env, maxBody;
      client, server := Side(true, [], None, 0), Side(false, [], None, 0);
      clientBuffer, serverBuffer := [], [];
      streams, retainedBodyBytes := map[], 0;
    }

    function TheCore(): Core
      reads this
    {
      Core(client, server, streams, retainedBodyBytes)
    }

    function State(): Decoder
      reads this
    {
      Decoder(TheCore(), clientBuffer, serverBuffer)
    }

    function Buffer(d: Direction): Bytes
      reads this
    {
      BufferOf(State(), d)
    }

    method SetSide(d: Direction, side: Side)
      modifies this`client, this`server
      ensures TheCore() == WithSide(old(TheCore()), d, side)
    {
      if d == ClientToServer { client := side; } else { server := side; }
    }

    method SetBuffer(d: Direction, b: Bytes)
      modifies this`clientBuffer, this`serverBuffer
      ensures State() == WithBuffer(old(State()), d, b)
    {
      if d == ClientToServer { clientBuffer := b; } else { serverBuffer := b; }
    }

    method RemoveStream(id: nat)
      modifies this`streams, this`retainedBodyBytes
      ensures TheCore() == Http2.RemoveStream(old(TheCore()), id)
    {
      if id in streams {
        retainedBodyBytes := Monus(retainedBodyBytes, Held(streams[id]));
        streams := streams - {id};
      }
    }

    method ApplyHeaders(d: Direction, id: nat, endStream: bool, headers: seq<Header>) returns (r: FrameResult)
      modifies this`streams, this`retainedBodyBytes
      ensures HandledAs(TheCore(), r) == Http2.ApplyHeaders(old(TheCore()), d, id, endStream, headers)
    {
      hide HeaderValue, IsGrpc, GrpcHeaderMessage, InitialLine, WithMetadata, Held;
      if id !in streams && |streams| >= MAX_TRACKED_STREAMS {
        return FrameErr(TooManyStreams);
      }
      var stream := Marked(TheCore(), id, headers);
      streams := streams[id := stream];
      if stream.grpc {
        if endStream && d == ServerToClient {
          RemoveStream(id);
        }
        return FrameOk([GrpcHeaderMessage(d, id, headers, stream.path)]);
      }
      var line := InitialLine(headers);
      if line.None? {
        var pending := PendingOf(stream, d);
        if pending.None? {
          return FrameErr(TrailersBeforeHeaders);
        }
        var p := pending.value.(headers := pending.value.headers + headers);
        if !endStream {
          streams := streams[id := WithPending(stream, d, Some(p))];
          assert TheCore() == SetStream(old(TheCore()), id, WithPending(stream, d, Some(p)));
          return FrameOk([]);
        }
        streams := streams[id := WithPending(stream, d, None)];
        retainedBodyBytes := Monus(retainedBodyBytes, |p.body|);
        assert TheCore() == SetStream(old(TheCore()), id, WithPending(stream, d, None)).(retained := retainedBodyBytes);
        if d == ServerToClient {
          RemoveStream(id);
        }
        return FrameOk([WithMetadata(p, id, d)]);
      }
      var message := DecodedMessage(d, line.value, headers, [], false);
      if endStream {
        streams := streams[id := WithPending(stream, d, None)];
        assert TheCore() == SetStream(old(TheCore()), id, WithPending(stream, d, None));
        return FrameOk([WithMetadata(message, id, d)]);
      }
      streams := streams[id := WithPending(stream, d, Some(message))];
      assert TheCore() == SetStream(old(TheCore()), id, WithPending(stream, d, Some(message)));
      return FrameOk([]);
    }

    method CompleteHeaderBlock(d: Direction, block: HeaderBlock) returns (r: FrameResult)
      modifies this
      ensures HandledAs(TheCore(), r) == CompleteBlock(env, old(TheCore()), d, block)
      ensures clientBuffer == old(clientBuffer) && serverBuffer == old(serverBuffer)
    {
      hide Http2.ApplyHeaders, DecodedSize, Lossy;
      if block.exceeded {
        return FrameErr(BlockTooLong);
      }
      var side := SideOf(TheCore(), d);
      SetSide(d, side.(history := side.history + [block.bytes]));
      var decoded := env.hpack(side.history + [block.bytes]);
      if decoded.None? {
        return FrameErr(HpackFailed);
      }
      if DecodedSize(decoded.value) > MAX_DECODED_HEADERS {
        return FrameErr(HeadersTooLarge);
      }
      r := ApplyHeaders(d, block.streamId, block.endStream, Lossy(env, decoded.value));
    }

    method HandleHeaders(d: Direction, f: Frame) returns (r: FrameResult)
      modifies this
      ensures HandledAs(TheCore(), r) == Http2.HandleHeaders(env, old(TheCore()), d, f)
      ensures clientBuffer == old(clientBuffer) && serverBuffer == old(serverBuffer)
    {
      hide CompleteBlock, HeaderFragment, HasFlag, Extend;
      if f.streamId == 0 {
        return FrameErr(HeadersOnStreamZero);
      }
      var fragment := HeaderFragment(f);
      if fragment.BadFragment? {
        return FrameErr(fragment.reason);
      }
      var block := Extend(HeaderBlock(f.streamId, HasFlag(f.flags, FLAG_END_STREAM), [], false), fragment.bytes);
      if !HasFlag(f.flags, FLAG_END_HEADERS) {
        SetSide(d, SideOf(TheCore(), d).(continuation := Some(block)));
        return FrameOk([]);
      }
      r := CompleteHeaderBlock(d, block);
    }

    method HandleContinuation(d: Direction, f: Frame) returns (r: FrameResult)
      modifies this
      ensures HandledAs(TheCore(), r) == Http2.HandleContinuation(env, old(TheCore()), d, f)
      ensures clientBuffer == old(clientBuffer) && serverBuffer == old(serverBuffer)
    {
      hide CompleteBlock, HasFlag, Extend;
      var taken := SideOf(TheCore(), d).continuation;
      if taken.None? {
        return FrameErr(UnexpectedContinuation);
      }
      SetSide(d, SideOf(TheCore(), d).(continuation := None));
      if f.streamId != taken.value.streamId {
        return FrameErr(ContinuationChangedStream);
      }
      var block := Extend(taken.value, f.payload);
      if !HasFlag(f.flags, FLAG_END_HEADERS) {
        SetSide(d, SideOf(TheCore(), d).(continuation := Some(block)));
        return FrameOk([]);
      }
      r := CompleteHeaderBlock(d, block);
    }

    method HandleGrpcData(d: Direction, f: Frame, data: Bytes) returns (r: FrameResult)
      requires f.streamId in streams
      modifies this`streams, this`retainedBodyBytes
      ensures HandledAs(TheCore(), r) == GrpcData(maxBody, old(TheCore()), d, f, old(streams)[f.streamId], data)
    {
      hide Grpc.Feed, Grpc.HasIncomplete, Grpc.Retained, MissingTrailers, HasFlag, Held;
      var stream := streams[f.streamId];
      var before := Grpc.Retained(GrpcOf(stream, d));
      var limit := CaptureLimit(maxBody, TheCore(), before);
      var at := Grpc.Source(d, f.streamId, Or(stream.path, Ascii("/unknown")));
      var parser, messages, error := Grpc.Push(at, limit, GrpcOf(stream, d), data);
      streams := streams[f.streamId := WithGrpc(stream, d, parser)];
      if error.Some? {
        return FrameErr(GrpcBadFlag);
      }
      retainedBodyBytes := Monus(retainedBodyBytes, before) + Grpc.Retained(parser);
      if HasFlag(f.flags, FLAG_END_STREAM) {
        if Grpc.HasIncomplete(parser) {
          return FrameErr(GrpcEndedInside);
        }
        if d == ServerToClient {
          RemoveStream(f.streamId);
          messages := messages + [MissingTrailers(f.streamId)];
        }
      }
      return FrameOk(messages);
    }

    method HandleData(d: Direction, f: Frame) returns (r: FrameResult)
      modifies this`streams, this`retainedBodyBytes
      ensures HandledAs(TheCore(), r) == Http2.HandleData(maxBody, old(TheCore()), d, f)
    {
      hide GrpcData, DataFragment, HasFlag, WithMetadata, Held;
      if f.streamId == 0 {
        return FrameErr(DataOnStreamZero);
      }
      var fragment := DataFragment(f);
      if fragment.BadFragment? {
        return FrameErr(fragment.reason);
      }
      var data := fragment.bytes;
      if f.streamId !in streams {
        return FrameErr(DataBeforeHeaders);
      }
      var stream := streams[f.streamId];
      if stream.grpc {
        r := HandleGrpcData(d, f, data);
        return;
      }
      var pending := PendingOf(stream, d);
      if pending.None? {
        return FrameErr(DataWithoutHeaders);
      }
      var p := pending.value;
      var captured := Min(Min(Monus(maxBody, |p.body|), Monus(MAX_INFLIGHT_CAPTURE, retainedBodyBytes)), |data|);
      p := p.(body := p.body + data[..captured], truncated := p.truncated || captured < |data|);
      retainedBodyBytes := retainedBodyBytes + captured;
      if HasFlag(f.flags, FLAG_END_STREAM) {
        streams := streams[f.streamId := WithPending(stream, d, None)];
        retainedBodyBytes := Monus(retainedBodyBytes, |p.body|);
        if d == ServerToClient {
          RemoveStream(f.streamId);
        }
        return FrameOk([WithMetadata(p, f.streamId, d)]);
      }
      streams := streams[f.streamId := WithPending(stream, d, Some(p))];
      return FrameOk([]);
    }

    method HandleFrame(d: Direction, f: Frame) returns (r: FrameResult)
      modifies this
      ensures HandledAs(TheCore(), r) == Http2.HandleFrame(env, maxBody, old(TheCore()), d, f)
      ensures clientBuffer == old(clientBuffer) && serverBuffer == old(serverBuffer)
    {
      hide Http2.HandleHeaders, Http2.HandleContinuation, Http2.HandleData;
      if SideOf(TheCore(), d).continuation.Some? && f.kind != FRAME_CONTINUATION {
        SetSide(d, SideOf(TheCore(), d).(continuation := None));
        return FrameErr(BlockInterrupted);
      }
      if f.kind == FRAME_HEADERS {
        r := HandleHeaders(d, f);
      } else if f.kind == FRAME_CONTINUATION {
        r := HandleContinuation(d, f);
      } else if f.kind == FRAME_DATA {
        r := HandleData(d, f);
      } else if f.kind == FRAME_RST_STREAM {
        streams := streams - {f.streamId};
        r := FrameOk([]);
      } else {
        r := FrameOk([]);
      }
    }

    /** The rest of the loop from where the decoder stands. */
    function Remaining(d: Direction): Drained<Core, DecodedMessage, Reason>
      reads this
    {
      DrainFrames(env, maxBody, d, TheCore(), Buffer(d))
    }

    /** What reading a frame leaves of the loop it belongs to. */
    twostate predicate Reads(d: Direction, next: NextFrame)
      reads this
    {
      && State() == WithBuffer(old(State()), d, Buffer(d)).(core := TheCore())
      && match next
         case NextNeedsMore => old(Remaining(d)) == Drained(TheCore(), Buffer(d), Quiet(), false)
         case NextInvalid(reason) =>
           Buffer(d) == [] && old(Remaining(d)) == Drained(TheCore(), [], Batch([], Some(reason)), true)
         case Skipped(reason) =>
           && |Buffer(d)| < old(|Buffer(d)|)
           && old(Remaining(d)) == Prepend(Batch([], Some(reason)), Remaining(d))
         case NextIs(f) =>
           && |Buffer(d)| < old(|Buffer(d)|)
           && var (c, report) := Settle(Http2.HandleFrame(env, maxBody, TheCore(), d, f), d);
              old(Remaining(d)) == Prepend(report, DrainFrames(env, maxBody, d, c, Buffer(d)))
    }

    /** Drops the preface and a skipped payload, then reads one frame; an oversized frame is skipped at once. */
    method ReadNextFrame(d: Direction) returns (next: NextFrame)
      modifies this
      ensures Reads(d, next)
    {
      hide DrainFrames, Http2.HandleFrame, Settle, PREFACE;
      var side, buffer := SideOf(TheCore(), d), Buffer(d);
      PrefaceLength();
      if side.expectPreface {
        DrainUnfolds(env, maxBody, d, TheCore(), buffer);
        var compared := Min(|buffer|, |PREFACE|);
        if buffer[..compared] != PREFACE[..compared] {
          SetBuffer(d, []);
          return NextInvalid(BadPreface);
        }
        if |buffer| < |PREFACE| {
          return NextNeedsMore;
        }
        SetBuffer(d, buffer[|PREFACE|..]);
        SetSide(d, side.(expectPreface := false));
        JoinAssociative(Remaining(d).batch, Quiet(), Quiet());
      }
      assert old(Remaining(d)) == Remaining(d);
      next := ReadAfterPreface(d);
    }

    method ReadAfterPreface(d: Direction) returns (next: NextFrame)
      requires !SideOf(TheCore(), d).expectPreface
      modifies this
      ensures Reads(d, next)
    {
      hide DrainFrames, Http2.HandleFrame, Settle, PREFACE;
      var side, buffer := SideOf(TheCore(), d), Buffer(d);
      if side.skip > 0 {
        DrainUnfolds(env, maxBody, d, TheCore(), buffer);
        var consumed := Min(side.skip, |buffer|);
        SetBuffer(d, buffer[consumed..]);
        SetSide(d, side.(skip := side.skip - consumed));
        if side.skip - consumed > 0 {
          return NextNeedsMore;
        }
        JoinAssociative(Remaining(d).batch, Quiet(), Quiet());
      }
      assert old(Remaining(d)) == Remaining(d);
      next := ReadPlainFrame(d);
    }

    /** The frame at the front of the buffer, once preface and skipped payload are gone. */
    method ReadPlainFrame(d: Direction) returns (next: NextFrame)
      requires !SideOf(TheCore(), d).expectPreface && SideOf(TheCore(), d).skip == 0
      modifies this
      ensures Reads(d, next)
    {
      hide DrainFrames, Http2.HandleFrame, Settle;
      var side, buffer := SideOf(TheCore(), d), Buffer(d);
      DrainUnfolds(env, maxBody, d, TheCore(), buffer);
      if |buffer| < FRAME_HEADER_BYTES {
        return NextNeedsMore;
      }
      var length := FrameLength(buffer);
      if length > MAX_OBSERVED_FRAME_PAYLOAD {
        var rest := buffer[FRAME_HEADER_BYTES..];
        ghost var skipping := WithSide(TheCore(), d, side.(skip := length));
        SkipAhead(env, maxBody, d, skipping, rest);
        var consumed := Min(length, |rest|);
        SetBuffer(d, rest[consumed..]);
        SetSide(d, side.(skip := length - consumed));
        return Skipped(OversizedFrame(length));
      }
      if |buffer| < FRAME_HEADER_BYTES + length {
        return NextNeedsMore;
      }
      SetBuffer(d, buffer[FRAME_HEADER_BYTES + length..]);
      return NextIs(ReadFrame(buffer));
    }

    method DecodeAvailable(d: Direction) returns (batch: Report)
      modifies this
      ensures var r := old(Remaining(d));
              State() == WithBuffer(old(State()), d, r.rest).(core := r.control) && batch == r.batch
    {
      hide DrainFrames, Http2.HandleFrame;
      ghost var whole := Remaining(d);
      batch := Batch([], None);
      JoinAssociative(whole.batch, Quiet(), Quiet());
      while true
        invariant whole == Prepend(batch, Remaining(d))
        invariant State() == WithBuffer(old(State()), d, Buffer(d)).(core := TheCore())
        decreases |Buffer(d)|
      {
        ghost var before := Remaining(d);
        var next := ReadNextFrame(d);
        match next
        case NextNeedsMore =>
          JoinAssociative(batch, Quiet(), Quiet());
          return;
        case NextInvalid(reason) =>
          assert batch.messages + [] == batch.messages;
          batch := Batch(batch.messages, Some(reason));
          return;
        case Skipped(reason) =>
          JoinAssociative(batch, Batch([], Some(reason)), Remaining(d).batch);
          assert batch.messages + [] == batch.messages;
          batch := Batch(batch.messages, Some(reason));
        case NextIs(frame) =>
          ghost var c := TheCore();
          ghost var (c', report) := Settle(Http2.HandleFrame(env, maxBody, c, d, frame), d);
          ghost var after := DrainFrames(env, maxBody, d, c', Buffer(d));
          JoinAssociative(batch, report, after.batch);
          var result := HandleFrame(d, frame);
          match result {
            case FrameOk(messages) => batch := Batch(batch.messages + messages, batch.desynchronized);
            case FrameErr(reason) =>
              SetSide(d, SideOf(TheCore(), d).(continuation := None));
              assert batch.messages + [] == batch.messages;
              batch := Batch(batch.messages, Some(reason));
          }
      }
    }

    method Push(d: Direction, bytes: Bytes) returns (batch: Report)
      modifies this
      ensures (State(), batch) == Http2.Push(env, maxBody, old(State()), d, bytes)
    {
      hide DrainFrames;
      SetBuffer(d, Buffer(d) + bytes);
      batch := DecodeAvailable(d);
    }

    method Finish(d: Direction) returns (batch: Report)
      modifies this
      ensures (State(), batch) == Http2.Finish(env, maxBody, old(State()), d)
    {
      hide DrainFrames;
      batch := DecodeAvailable(d);
      var side := SideOf(TheCore(), d);
      if Buffer(d) != [] || side.continuation.Some? || side.skip > 0 {
        SetBuffer(d, []);
        SetSide(d, side.(continuation := None, skip := 0));
        batch := batch.(desynchronized := Some(EndedInsideFrame));
      }
    }
  }

  /** Skipping what is already buffered of an oversized payload is what the next decision would do. */
  lemma SkipAhead(env: Env, maxBody: nat, d: Direction, c: Core, rest: Bytes)
    requires !SideOf(c, d).expectPreface && SideOf(c, d).skip > 0
    ensures var skip := SideOf(c, d).skip;
            var consumed := Min(skip, |rest|);
            DrainFrames(env, maxBody, d, c, rest)
            == DrainFrames(env, maxBody, d, WithSide(c, d, SideOf(c, d).(skip := skip - consumed)), rest[consumed..])
  {
    hide DrainFrames, StepFrame, StepPreface;
    var side := SideOf(c, d);
    var consumed := Min(side.skip, |rest|);
    var c' := WithSide(c, d, side.(skip := side.skip - consumed));
    DrainUnfolds(env, maxBody, d, c, rest);
    if |rest| < side.skip {
      DrainUnfolds(env, maxBody, d, c', []);
      assert rest[consumed..] == [];
    } else {
      JoinAssociative(DrainFrames(env, maxBody, d, c', rest[consumed..]).batch, Quiet(), Quiet());
    }
  }
}
