/** The HTTP/2 decoder as functions: frames, header blocks, streams and the shared capture budget. */
module Http2 {
  import opened ByteStrings
  import opened Streaming
  import opened Text
  import Grpc

  const PREFACE: Bytes := Ascii("PRI * HTTP/2.0\r\n\r\nSM\r\n\r\n")
  const FRAME_HEADER_BYTES: nat := 9
  const MAX_OBSERVED_FRAME_PAYLOAD: nat := 1024 * 1024
  const MAX_HEADER_BLOCK: nat := 64 * 1024
  const MAX_DECODED_HEADERS: nat := 128 * 1024
  const MAX_TRACKED_STREAMS: nat := 256
  const MAX_INFLIGHT_CAPTURE: nat := 4 * 1024 * 1024

  const FRAME_DATA: Byte := 0
  const FRAME_HEADERS: Byte := 1
  const FRAME_RST_STREAM: Byte := 3
  const FRAME_CONTINUATION: Byte := 9
  const FLAG_END_STREAM: nat := 1
  const FLAG_END_HEADERS: nat := 4
  const FLAG_PADDED: nat := 8
  const FLAG_PRIORITY: nat := 32

  datatype Reason =
    | BadPreface | OversizedFrame(length: nat)
    | BlockInterrupted | HeadersOnStreamZero | UnexpectedContinuation | ContinuationChangedStream
    | BlockTooLong | HpackFailed | HeadersTooLarge | TooManyStreams | TrailersBeforeHeaders
    | DataOnStreamZero | DataBeforeHeaders | DataWithoutHeaders | GrpcBadFlag | GrpcEndedInside
    | PaddedEmpty | PaddingTooLong | MetadataTooLong
    | EndedInsideFrame

  /** HPACK and lossy text decoding. A stateful HPACK decoder is the function from the blocks it has been
      given to its answer for the last one. */
  datatype Env = Env(hpack: seq<Bytes> -> Option<seq<Header>>, lossy: Bytes -> Bytes)

  // --------------------------------------------------------------------- state

  datatype HeaderBlock = HeaderBlock(streamId: nat, endStream: bool, bytes: Bytes, exceeded: bool)

  /** One direction, without its buffer; `history` lists the blocks given to HPACK. */
  datatype Side = Side(expectPreface: bool, history: seq<Bytes>, continuation: Option<HeaderBlock>, skip: nat)

  datatype Stream = Stream(
    request: Option<DecodedMessage>,
    response: Option<DecodedMessage>,
    grpc: bool,
    path: Option<Bytes>,
    grpcRequest: Grpc.Parser,
    grpcResponse: Grpc.Parser)

  const NewStream: Stream := Stream(None, None, false, None, Grpc.Ready, Grpc.Ready)

  datatype Core = Core(client: Side, server: Side, streams: map<nat, Stream>, retained: nat)

  const InitialCore: Core := Core(Side(true, [], None, 0), Side(false, [], None, 0), map[], 0)

  function SideOf(c: Core, d: Direction): Side {
    if d == ClientToServer then c.client else c.server
  }

  function WithSide(c: Core, d: Direction, s: Side): Core {
    if d == ClientToServer then c.(client := s) else c.(server := s)
  }

  function PendingOf(s: Stream, d: Direction): Option<DecodedMessage> {
    if d == ClientToServer then s.request else s.response
  }

  function WithPending(s: Stream, d: Direction, p: Option<DecodedMessage>): Stream {
    if d == ClientToServer then s.(request := p) else s.(response := p)
  }

  function GrpcOf(s: Stream, d: Direction): Grpc.Parser {
    if d == ClientToServer then s.grpcRequest else s.grpcResponse
  }

  function WithGrpc(s: Stream, d: Direction, p: Grpc.Parser): Stream {
    if d == ClientToServer then s.(grpcRequest := p) else s.(grpcResponse := p)
  }

  function WithContinuation(c: Core, d: Direction, block: Option<HeaderBlock>): Core {
    WithSide(c, d, SideOf(c, d).(continuation := block))
  }

  function BodyLength(p: Option<DecodedMessage>): nat {
    if p.Some? then |p.value.body| else 0
  }

  /** Bytes a stream holds. */
  function Held(s: Stream): nat {
    BodyLength(s.request) + BodyLength(s.response) + Grpc.Retained(s.grpcRequest) + Grpc.Retained(s.grpcResponse)
  }

  function RemoveStream(c: Core, id: nat): Core {
    if id in c.streams then c.(streams := c.streams - {id}, retained := Monus(c.retained, Held(c.streams[id]))) else c
  }

  // --------------------------------------------------------------------- frames

  datatype Frame = Frame(kind: Byte, flags: Byte, streamId: nat, payload: Bytes)

  predicate HasFlag(flags: Byte, flag: nat)
    requires flag > 0
  {
    flags / flag % 2 == 1
  }

  datatype Fragment = Fragment(bytes: Bytes) | BadFragment(reason: Reason)

  /** The header block fragment of a HEADERS payload, without padding and priority fields. */
  function HeaderFragment(f: Frame): Fragment {
    var padded := HasFlag(f.flags, FLAG_PADDED);
    if padded && f.payload == [] then BadFragment(PaddedEmpty)
    else if padded && f.payload[0] > |f.payload| then BadFragment(PaddingTooLong)
    else
      var start := (if padded then 1 else 0) + if HasFlag(f.flags, FLAG_PRIORITY) then 5 else 0;
      var end := |f.payload| - if padded then f.payload[0] else 0;
      if start > end then BadFragment(MetadataTooLong) else Fragment(f.payload[start..end])
  }

  function DataFragment(f: Frame): Fragment {
    if !HasFlag(f.flags, FLAG_PADDED) then Fragment(f.payload)
    else if f.payload == [] then BadFragment(PaddedEmpty)
    else if f.payload[0] > |f.payload| then BadFragment(PaddingTooLong)
    else if |f.payload| - f.payload[0] < 1 then BadFragment(MetadataTooLong)
    else Fragment(f.payload[1..|f.payload| - f.payload[0]])
  }

  function Extend(block: HeaderBlock, fragment: Bytes): HeaderBlock {
    var captured := Min(Monus(MAX_HEADER_BLOCK, |block.bytes|), |fragment|);
    block.(bytes := block.bytes + fragment[..captured], exceeded := block.exceeded || captured < |fragment|)
  }

  datatype Handled = Ok(core: Core, messages: seq<DecodedMessage>) | Err(core: Core, reason: Reason)

  // -------------------------------------------------------------------- headers

  function Or(value: Option<Bytes>, default: Bytes): Bytes {
    if value.Some? then value.value else default
  }

  function Boundary(d: Direction): Header {
    (Ascii("lens-boundary"), if d == ClientToServer then Ascii("request") else Ascii("response"))
  }

  function WithMetadata(m: DecodedMessage, id: nat, d: Direction): DecodedMessage {
    m.(headers := m.headers + [(Ascii("lens-protocol"), Ascii("http2")), (Ascii("lens-stream-id"), Decimal(id)), Boundary(d)])
  }

  function IsGrpc(headers: seq<Header>): bool {
    StartsWith(LowerAll(Or(HeaderValue(headers, Ascii("content-type")), [])), Ascii("application/grpc"))
  }

  /** The message a header block of a gRPC stream is reported as. */
  function GrpcHeaderMessage(d: Direction, id: nat, headers: seq<Header>, path: Option<Bytes>): DecodedMessage {
    var verb := HeaderValue(headers, Ascii(":method"));
    var status := HeaderValue(headers, Ascii(":status"));
    var tagged := headers + [(Ascii("lens-protocol"), Ascii("grpc")), (Ascii("lens-stream-id"), Decimal(id))];
    if verb.Some? then
      DecodedMessage(d, Ascii("gRPC ") + verb.value + Ascii(" ") + Or(path, Ascii("/unknown")), tagged + [Boundary(ClientToServer)], [], false)
    else if status.Some? then
      DecodedMessage(d, Ascii("gRPC response HTTP ") + status.value, tagged, [], false)
    else
      var closed := if d == ServerToClient then tagged + [Boundary(ServerToClient)] else tagged;
      DecodedMessage(d, Ascii("gRPC trailers status=") + Or(HeaderValue(closed, Ascii("grpc-status")), Ascii("unknown")), closed, [], false)
  }

  /** Start line of an initial header block; none for trailers. */
  function InitialLine(headers: seq<Header>): Option<Bytes> {
    var verb := HeaderValue(headers, Ascii(":method"));
    var status := HeaderValue(headers, Ascii(":status"));
    if verb.Some? then Some(verb.value + Ascii(" ") + Or(HeaderValue(headers, Ascii(":path")), Ascii("/")) + Ascii(" HTTP/2"))
    else if status.Some? then Some(Ascii("HTTP/2 ") + status.value)
    else None
  }

  /** The stream a header block belongs to, with its path and gRPC mark updated. */
  function Marked(c: Core, id: nat, headers: seq<Header>): Stream {
    var s := if id in c.streams then c.streams[id] else NewStream;
    var path := HeaderValue(headers, Ascii(":path"));
    s.(path := if path.Some? then path else s.path, grpc := s.grpc || IsGrpc(headers))
  }

  function SetStream(c: Core, id: nat, s: Stream): Core {
    c.(streams := c.streams[id := s])
  }

  /** A completed message leaves its stream and the budget; the server's end also closes the stream. */
  function Complete(c: Core, d: Direction, id: nat, s: Stream, m: DecodedMessage): Handled {
    var c1 := SetStream(c, id, WithPending(s, d, None)).(retained := Monus(c.retained, |m.body|));
    Ok(if d == ServerToClient then RemoveStream(c1, id) else c1, [WithMetadata(m, id, d)])
  }

  function ApplyTrailers(c: Core, d: Direction, id: nat, s: Stream, endStream: bool, headers: seq<Header>): Handled {
    match PendingOf(s, d)
    case None => Err(SetStream(c, id, s), TrailersBeforeHeaders)
    case Some(p) =>
      var p' := p.(headers := p.headers + headers);
      if endStream then Complete(c, d, id, s, p')
      else Ok(SetStream(c, id, WithPending(s, d, Some(p'))), [])
  }

  function ApplyHeaders(c: Core, d: Direction, id: nat, endStream: bool, headers: seq<Header>): Handled {
    if id !in c.streams && |c.streams| >= MAX_TRACKED_STREAMS then Err(c, TooManyStreams)
    else
      var s := Marked(c, id, headers);
      if s.grpc then
        var c1 := SetStream(c, id, s);
        Ok(if endStream && d == ServerToClient then RemoveStream(c1, id) else c1, [GrpcHeaderMessage(d, id, headers, s.path)])
      else match InitialLine(headers)
           case None => ApplyTrailers(c, d, id, s, endStream, headers)
           case Some(line) =>
             var m := DecodedMessage(d, line, headers, [], false);
             if endStream then Ok(SetStream(c, id, WithPending(s, d, None)), [WithMetadata(m, id, d)])
             else Ok(SetStream(c, id, WithPending(s, d, Some(m))), [])
  }

  function DecodedSize(headers: seq<Header>): nat {
    if headers == [] then 0 else |headers[0].0| + |headers[0].1| + DecodedSize(headers[1..])
  }

  function Lossy(env: Env, headers: seq<Header>): seq<Header> {
    seq(|headers|, i requires 0 <= i < |headers| => (env.lossy(headers[i].0), env.lossy(headers[i].1)))
  }

  function GiveToHpack(c: Core, d: Direction, bytes: Bytes): Core {
    WithSide(c, d, SideOf(c, d).(history := SideOf(c, d).history + [bytes]))
  }

  function CompleteBlock(env: Env, c: Core, d: Direction, block: HeaderBlock): Handled {
    if block.exceeded then Err(c, BlockTooLong)
    else
      var c1 := GiveToHpack(c, d, block.bytes);
      match env.hpack(SideOf(c1, d).history)
      case None => Err(c1, HpackFailed)
      case Some(raw) =>
        if DecodedSize(raw) > MAX_DECODED_HEADERS then Err(c1, HeadersTooLarge)
        else ApplyHeaders(c1, d, block.streamId, block.endStream, Lossy(env, raw))
  }

  /** A block is kept until END_HEADERS completes it. */
  function BlockSoFar(env: Env, c: Core, d: Direction, f: Frame, block: HeaderBlock): Handled {
    if HasFlag(f.flags, FLAG_END_HEADERS) then CompleteBlock(env, c, d, block)
    else Ok(WithContinuation(c, d, Some(block)), [])
  }

  function HandleHeaders(env: Env, c: Core, d: Direction, f: Frame): Handled {
    if f.streamId == 0 then Err(c, HeadersOnStreamZero)
    else match HeaderFragment(f)
         case BadFragment(reason) => Err(c, reason)
         case Fragment(bytes) =>
           BlockSoFar(env, c, d, f, Extend(HeaderBlock(f.streamId, HasFlag(f.flags, FLAG_END_STREAM), [], false), bytes))
  }

  function HandleContinuation(env: Env, c: Core, d: Direction, f: Frame): Handled {
    match SideOf(c, d).continuation
    case None => Err(c, UnexpectedContinuation)
    case Some(block) =>
      var c1 := WithContinuation(c, d, None);
      if f.streamId != block.streamId then Err(c1, ContinuationChangedStream)
      else BlockSoFar(env, c1, d, f, Extend(block, f.payload))
  }

  // ----------------------------------------------------------------------- data

  function CaptureLimit(maxBody: nat, c: Core, before: nat): nat {
    Min(maxBody, before + Monus(MAX_INFLIGHT_CAPTURE, c.retained))
  }

  function MissingTrailers(id: nat): DecodedMessage {
    DecodedMessage(ServerToClient, Ascii("gRPC stream ended without trailers"),
                   [(Ascii("lens-protocol"), Ascii("grpc")), (Ascii("lens-stream-id"), Decimal(id)),
                    Boundary(ServerToClient), (Ascii("grpc-status"), Ascii("missing"))],
                   [], true)
  }

  function GrpcData(maxBody: nat, c: Core, d: Direction, f: Frame, s: Stream, data: Bytes): Handled {
    var before := Grpc.Retained(GrpcOf(s, d));
    var at := Grpc.Source(d, f.streamId, Or(s.path, Ascii("/unknown")));
    var r := Grpc.Feed(at, CaptureLimit(maxBody, c, before), GrpcOf(s, d), data);
    var c1 := SetStream(c, f.streamId, WithGrpc(s, d, r.control));
    if r.halted then Err(c1, GrpcBadFlag)
    else
      var c2 := c1.(retained := Monus(c.retained, before) + Grpc.Retained(r.control));
      if !HasFlag(f.flags, FLAG_END_STREAM) then Ok(c2, r.batch.messages)
      else if Grpc.HasIncomplete(r.control) then Err(c2, GrpcEndedInside)
      else if d == ServerToClient then Ok(RemoveStream(c2, f.streamId), r.batch.messages + [MissingTrailers(f.streamId)])
      else Ok(c2, r.batch.messages)
  }

  function PlainData(maxBody: nat, c: Core, d: Direction, f: Frame, s: Stream, data: Bytes): Handled {
    match PendingOf(s, d)
    case None => Err(c, DataWithoutHeaders)
    case Some(p) =>
      var room := Min(Monus(maxBody, |p.body|), Monus(MAX_INFLIGHT_CAPTURE, c.retained));
      var captured := Min(room, |data|);
      var p' := p.(body := p.body + data[..captured], truncated := p.truncated || captured < |data|);
      var c1 := c.(retained := c.retained + captured);
      if HasFlag(f.flags, FLAG_END_STREAM) then Complete(c1, d, f.streamId, s, p')
      else Ok(SetStream(c1, f.streamId, WithPending(s, d, Some(p'))), [])
  }

  function HandleData(maxBody: nat, c: Core, d: Direction, f: Frame): Handled {
    if f.streamId == 0 then Err(c, DataOnStreamZero)
    else match DataFragment(f)
         case BadFragment(reason) => Err(c, reason)
         case Fragment(data) =>
           if f.streamId !in c.streams then Err(c, DataBeforeHeaders)
           else
             var s := c.streams[f.streamId];
             if s.grpc then GrpcData(maxBody, c, d, f, s, data) else PlainData(maxBody, c, d, f, s, data)
  }

  /** One frame in direction `d`. */
  function HandleFrame(env: Env, maxBody: nat, c: Core, d: Direction, f: Frame): Handled {
    if SideOf(c, d).continuation.Some? && f.kind != FRAME_CONTINUATION then
      Err(WithContinuation(c, d, None), BlockInterrupted)
    else if f.kind == FRAME_HEADERS then HandleHeaders(env, c, d, f)
    else if f.kind == FRAME_CONTINUATION then HandleContinuation(env, c, d, f)
    else if f.kind == FRAME_DATA then HandleData(maxBody, c, d, f)
    else if f.kind == FRAME_RST_STREAM then Ok(c.(streams := c.streams - {f.streamId}), [])
    else Ok(c, [])
  }

  // ------------------------------------------------------------------- the loop

  type Report = Batch<DecodedMessage, Reason>
  type StepOutcome = Outcome<Core, DecodedMessage, Reason>

  /** A frame in error is reported and drops an unfinished header block. */
  function Settle(h: Handled, d: Direction): (Core, Report) {
    match h
    case Ok(c, messages) => (c, Batch(messages, None))
    case Err(c, reason) => (WithContinuation(c, d, None), Batch([], Some(reason)))
  }

  function FrameLength(b: Bytes): nat
    requires |b| >= 3
  {
    b[0] as int * 65536 + b[1] as int * 256 + b[2]
  }

  function ReadFrame(b: Bytes): Frame
    requires |b| >= FRAME_HEADER_BYTES && |b| >= FRAME_HEADER_BYTES + FrameLength(b)
  {
    Frame(b[3], b[4], Be32([b[5] % 128, b[6], b[7], b[8]]), b[FRAME_HEADER_BYTES..FRAME_HEADER_BYTES + FrameLength(b)])
  }

  function StepPreface(c: Core, d: Direction, buffer: Bytes): StepOutcome {
    var compared := Min(|buffer|, |PREFACE|);
    if buffer[..compared] != PREFACE[..compared] then Halt(c, Batch([], Some(BadPreface)))
    else if |buffer| < |PREFACE| then NeedMore(c, buffer)
    else Advance(WithSide(c, d, SideOf(c, d).(expectPreface := false)), buffer[|PREFACE|..], Quiet())
  }

  function StepSkip(c: Core, d: Direction, buffer: Bytes): StepOutcome {
    var skip := SideOf(c, d).skip;
    if |buffer| < skip then NeedMore(WithSide(c, d, SideOf(c, d).(skip := skip - |buffer|)), [])
    else Advance(WithSide(c, d, SideOf(c, d).(skip := 0)), buffer[skip..], Quiet())
  }

  function StepFrame(env: Env, maxBody: nat, c: Core, d: Direction, buffer: Bytes): StepOutcome {
    if |buffer| < FRAME_HEADER_BYTES then NeedMore(c, buffer)
    else
      var length := FrameLength(buffer);
      if length > MAX_OBSERVED_FRAME_PAYLOAD then
        Advance(WithSide(c, d, SideOf(c, d).(skip := length)), buffer[FRAME_HEADER_BYTES..], Batch([], Some(OversizedFrame(length))))
      else if |buffer| < FRAME_HEADER_BYTES + length then NeedMore(c, buffer)
      else
        var (c', report) := Settle(HandleFrame(env, maxBody, c, d, ReadFrame(buffer)), d);
        Advance(c', buffer[FRAME_HEADER_BYTES + length..], report)
  }

  /** One decision: preface, bytes of a skipped frame, or a frame. */
  function Step(env: Env, maxBody: nat, d: Direction, c: Core, buffer: Bytes): (r: StepOutcome)
    ensures r.Advance? ==> |r.rest| < |buffer|
  {
    PrefaceLength();
    if SideOf(c, d).expectPreface then StepPreface(c, d, buffer)
    else if SideOf(c, d).skip > 0 then StepSkip(c, d, buffer)
    else StepFrame(env, maxBody, c, d, buffer)
  }

  lemma PrefaceLength()
    ensures |PREFACE| == 24
  {
  }

  function Stepper(env: Env, maxBody: nat, d: Direction): (Core, Bytes) -> StepOutcome {
    (c, buffer) => Step(env, maxBody, d, c, buffer)
  }

  lemma StepperProductive(env: Env, maxBody: nat, d: Direction)
    ensures Productive(Stepper(env, maxBody, d))
  {
    hide Step;
    forall c, b ensures ProductiveAt(Stepper(env, maxBody, d), c, b) {
    }
  }

  function DrainFrames(env: Env, maxBody: nat, d: Direction, c: Core, buffer: Bytes): Drained<Core, DecodedMessage, Reason> {
    StepperProductive(env, maxBody, d);
    Drain(Stepper(env, maxBody, d), c, buffer)
  }

  lemma DrainUnfolds(env: Env, maxBody: nat, d: Direction, c: Core, b: Bytes)
    ensures DrainFrames(env, maxBody, d, c, b) ==
            match Step(env, maxBody, d, c, b)
            case NeedMore(c', rest) => Drained(c', rest, Quiet(), false)
            case Halt(c', e) => Drained(c', [], e, true)
            case Advance(c', rest, e) => Prepend(e, DrainFrames(env, maxBody, d, c', rest))
  {
    hide Step;
    StepperProductive(env, maxBody, d);
  }

  datatype Decoder = Decoder(core: Core, client: Bytes, server: Bytes)

  const Initial: Decoder := Decoder(InitialCore, [], [])

  function BufferOf(s: Decoder, d: Direction): Bytes {
    if d == ClientToServer then s.client else s.server
  }

  function WithBuffer(s: Decoder, d: Direction, b: Bytes): Decoder {
    if d == ClientToServer then s.(client := b) else s.(server := b)
  }

  function Push(env: Env, maxBody: nat, s: Decoder, d: Direction, bytes: Bytes): (Decoder, Report) {
    var r := DrainFrames(env, maxBody, d, s.core, BufferOf(s, d) + bytes);
    (WithBuffer(s, d, r.rest).(core := r.control), r.batch)
  }

  function Finish(env: Env, maxBody: nat, s: Decoder, d: Direction): (Decoder, Report) {
    var r := DrainFrames(env, maxBody, d, s.core, BufferOf(s, d));
    var side := SideOf(r.control, d);
    if r.rest != [] || side.continuation.Some? || side.skip > 0 then
      (WithBuffer(s, d, []).(core := WithSide(r.control, d, side.(continuation := None, skip := 0))),
       r.batch.(desynchronized := Some(EndedInsideFrame)))
    else (WithBuffer(s, d, []).(core := r.control), r.batch)
  }
}
