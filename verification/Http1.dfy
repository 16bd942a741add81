/** The HTTP/1 decoder as functions: head parsing, body framing and the request-method queue. */
module Http1 {
  import opened ByteStrings
  import opened Streaming
  import opened Text

  const MAX_HEAD_BYTES: nat := 65536
  const MAX_CHUNK_LINE_BYTES: nat := 1024
  const USIZE_MAX: nat := 0xFFFF_FFFF_FFFF_FFFF

  datatype Reason =
    | HeadTooLong | HeadNotUtf8 | EmptyStartLine | BadRequestLine | BadStatusLine
    | BadHeaderLine | BadContentLength | ConflictingContentLength
    | ChunkLineTooLong | ChunkLineNotUtf8 | BadChunkSize | MissingChunkCrlf | TrailersTooLong
    | EndedEarly

  // ------------------------------------------------------------------- heads

  datatype ParsedHead = ParsedHead(
    startLine: Bytes,
    headers: seq<Header>,
    isResponse: bool,
    noBodyStatus: bool,
    contentLength: Option<nat>,
    chunked: bool)

  datatype HeadResult = Parsed(head: ParsedHead) | Rejected(reason: Reason)

  predicate IsVersion(word: Bytes) {
    StartsWith(word, Ascii("HTTP/1."))
  }

  /** Second word of a status line as a 16-bit number. */
  function StatusOf(startLine: Bytes): Option<nat> {
    var words := Words(startLine);
    if |words| < 2 then None else ParseUnsigned(words[1], 10, 65535)
  }

  predicate IsRequestLine(startLine: Bytes) {
    var words := Words(startLine);
    |words| == 3 && IsVersion(words[2])
  }

  predicate MentionsChunked(value: Bytes) {
    exists coding :: coding in SplitOn(value, ',' as int) && EqIgnoreCase(Trim(coding), Ascii("chunked"))
  }

  /** Takes one header line into the head read so far. */
  function AddHeaderLine(head: ParsedHead, line: Bytes): HeadResult {
    match SplitOnce(line, ':' as int)
    case None => Rejected(BadHeaderLine)
    case Some((rawName, rawValue)) =>
      var name, value := Trim(rawName), Trim(rawValue);
      var lengthHeader := EqIgnoreCase(name, Ascii("content-length"));
      var length := ParseUnsigned(value, 10, USIZE_MAX);
      if lengthHeader && length.None? then Rejected(BadContentLength)
      else if lengthHeader && head.contentLength.Some? && head.contentLength != length
      then Rejected(ConflictingContentLength)
      else Parsed(head.(
                  headers := head.headers + [(name, value)],
                  contentLength := if lengthHeader then length else head.contentLength,
                  chunked := head.chunked || (EqIgnoreCase(name, Ascii("transfer-encoding")) && MentionsChunked(value))))
  }

  function AddHeaderLines(head: ParsedHead, lines: seq<Bytes>): HeadResult
    decreases lines
  {
    if lines == [] then Parsed(head)
    else match AddHeaderLine(head, lines[0])
         case Rejected(reason) => Rejected(reason)
         case Parsed(next) => AddHeaderLines(next, lines[1..])
  }

  function ParseStartLine(startLine: Bytes): HeadResult {
    if startLine == [] then Rejected(EmptyStartLine)
    else
      var isResponse := IsVersion(startLine);
      var status := StatusOf(startLine);
      if !isResponse && !IsRequestLine(startLine) then Rejected(BadRequestLine)
      else if isResponse && status.None? then Rejected(BadStatusLine)
      else
        var noBody := isResponse && (100 <= status.value < 200 || status.value == 204 || status.value == 304);
        Parsed(ParsedHead(startLine, [], isResponse, noBody, None, false))
  }

  function ParseHead(bytes: Bytes): HeadResult {
    if !ValidUtf8(bytes) then Rejected(HeadNotUtf8)
    else
      var lines := Lines(bytes);
      match ParseStartLine(Trim(lines[0]))
      case Rejected(reason) => Rejected(reason)
      case Parsed(head) => AddHeaderLines(head, lines[1..])
  }

  // ------------------------------------------------------------------ bodies

  /** Keeps at most `cap` body bytes; `None` stands for a decoder without a cap. */
  function Capture(m: DecodedMessage, bytes: Bytes, cap: Option<nat>): DecodedMessage {
    if cap.None? then m.(body := m.body + bytes)
    else
      var captured := Min(Monus(cap.value, |m.body|), |bytes|);
      m.(body := m.body + bytes[..captured], truncated := m.truncated || captured < |bytes|)
  }

  /** Bytes still owed; a body with nothing owed is complete and is never kept. */
  type Owed = n: int | n > 0 witness 1

  datatype ChunkPhase = Size | Data(remaining: Owed) | DataCrlf | Trailers

  datatype Pending =
    | Idle
    | Fixed(message: DecodedMessage, remaining: Owed)
    | Chunked(message: DecodedMessage, phase: ChunkPhase)
    | UntilEof(message: DecodedMessage)

  /** Both directions' unfinished bodies and the methods of the requests not answered yet. */
  datatype Exchange = Exchange(client: Pending, server: Pending, methods: seq<Bytes>)

  function PendingOf(x: Exchange, d: Direction): Pending {
    if d == ClientToServer then x.client else x.server
  }

  function WithPending(x: Exchange, d: Direction, p: Pending): Exchange {
    if d == ClientToServer then x.(client := p) else x.(server := p)
  }

  predicate IsFinalStatus(status: Option<nat>) {
    status.Some? && (status.value >= 200 || status.value == 101)
  }

  function Track(x: Exchange, m: DecodedMessage): Exchange {
    if m.direction == ClientToServer then
      if Words(m.startLine) == [] then x else x.(methods := x.methods + [Words(m.startLine)[0]])
    else if IsFinalStatus(StatusOf(m.startLine)) && x.methods != [] then x.(methods := x.methods[1..])
    else x
  }

  predicate RespondsToHead(x: Exchange, d: Direction) {
    d == ServerToClient && x.methods != [] && EqIgnoreCase(x.methods[0], Ascii("HEAD"))
  }

  type StepOutcome = Outcome<Exchange, DecodedMessage, Reason>

  function Desync(x: Exchange, d: Direction, reason: Reason): StepOutcome {
    Halt(WithPending(x, d, Idle), Batch([], Some(reason)))
  }

  function Emit(x: Exchange, d: Direction, m: DecodedMessage, rest: Bytes): StepOutcome {
    Advance(Track(WithPending(x, d, Idle), m), rest, Batch([m], None))
  }

  function Keep(x: Exchange, d: Direction, p: Pending, rest: Bytes): StepOutcome {
    Advance(WithPending(x, d, p), rest, Quiet())
  }

  function Await(x: Exchange, d: Direction, p: Pending, rest: Bytes): StepOutcome {
    NeedMore(WithPending(x, d, p), rest)
  }

  function Headed(d: Direction, head: ParsedHead): DecodedMessage {
    DecodedMessage(d, head.startLine, head.headers, [], false)
  }

  /** How the message after a parsed head is framed. */
  function Frame(x: Exchange, d: Direction, head: ParsedHead, rest: Bytes): (r: StepOutcome)
    ensures r.Advance? && r.rest == rest && r.emitted.desynchronized.None?
  {
    var m := Headed(d, head);
    if RespondsToHead(x, d) || head.noBodyStatus then Emit(x, d, m, rest)
    else if head.chunked then Keep(x, d, Chunked(m, Size), rest)
    else if head.contentLength.Some? then
      if head.contentLength.value == 0 then Emit(x, d, m, rest)
      else Keep(x, d, Fixed(m, head.contentLength.value), rest)
    else if head.isResponse then Keep(x, d, UntilEof(m), rest)
    else Emit(x, d, m, rest)
  }

  function StepHead(x: Exchange, d: Direction, buffer: Bytes): (r: StepOutcome)
    ensures r.Advance? ==> |r.rest| < |buffer| && r.emitted.desynchronized.None?
    ensures r.Halt? ==> r.emitted.desynchronized.Some?
  {
    match Find(buffer, CRLFCRLF)
    case None =>
      if |buffer| > MAX_HEAD_BYTES then Desync(x, d, HeadTooLong) else Await(x, d, Idle, buffer)
    case Some(end) =>
      match ParseHead(buffer[..end])
      case Rejected(reason) => Desync(x, d, reason)
      case Parsed(head) => Frame(x, d, head, buffer[end + 4..])
  }

  datatype ChunkSize = ChunkSize(size: nat) | BadChunkLine(reason: Reason)

  /** A chunk-size line: hexadecimal before the first ';', surrounding whitespace ignored. */
  function ParseChunkLine(line: Bytes): ChunkSize {
    if !ValidUtf8(line) then BadChunkLine(ChunkLineNotUtf8)
    else match ParseUnsigned(Trim(SplitOn(line, ';' as int)[0]), 16, USIZE_MAX)
         case None => BadChunkLine(BadChunkSize)
         case Some(size) => ChunkSize(size)
  }

  function StepChunk(cap: Option<nat>, x: Exchange, d: Direction, m: DecodedMessage, phase: ChunkPhase, buffer: Bytes): (r: StepOutcome)
    ensures r.Advance? ==> |r.rest| < |buffer| && r.emitted.desynchronized.None?
    ensures r.Halt? ==> r.emitted.desynchronized.Some?
  {
    match phase
    case Size =>
      (match Find(buffer, CRLF)
       case None =>
         if |buffer| > MAX_CHUNK_LINE_BYTES then Desync(x, d, ChunkLineTooLong)
         else Await(x, d, Chunked(m, Size), buffer)
       case Some(end) =>
         match ParseChunkLine(buffer[..end])
         case BadChunkLine(reason) => Desync(x, d, reason)
         case ChunkSize(size) =>
           Keep(x, d, Chunked(m, if size == 0 then Trailers else Data(size)), buffer[end + 2..]))
    case Data(remaining) =>
      if |buffer| < remaining
      then Await(x, d, Chunked(Capture(m, buffer, cap), Data(remaining - |buffer|)), [])
      else Keep(x, d, Chunked(Capture(m, buffer[..remaining], cap), DataCrlf), buffer[remaining..])
    case DataCrlf =>
      if |buffer| < 2 then Await(x, d, Chunked(m, DataCrlf), buffer)
      else if buffer[..2] != CRLF then Desync(x, d, MissingChunkCrlf)
      else Keep(x, d, Chunked(m, Size), buffer[2..])
    case Trailers =>
      if StartsWith(buffer, CRLF) then Emit(x, d, m, buffer[2..])
      else
        match Find(buffer, CRLFCRLF)
        case Some(end) => Emit(x, d, m, buffer[end + 4..])
        case None =>
          if |buffer| > MAX_HEAD_BYTES then Desync(x, d, TrailersTooLong)
          else Await(x, d, Chunked(m, Trailers), buffer)
  }

  /** One decision of the decoder in direction `d`; every decision that consumes shrinks the buffer. */
  function Step(cap: Option<nat>, d: Direction, x: Exchange, buffer: Bytes): (r: StepOutcome)
    ensures r.Advance? ==> |r.rest| < |buffer| && r.emitted.desynchronized.None?
    ensures r.Halt? ==> r.emitted.desynchronized.Some?
  {
    match PendingOf(x, d)
    case Idle => StepHead(x, d, buffer)
    case Fixed(m, remaining) =>
      if |buffer| < remaining
      then Await(x, d, Fixed(Capture(m, buffer, cap), remaining - |buffer|), [])
      else Emit(x, d, Capture(m, buffer[..remaining], cap), buffer[remaining..])
    case UntilEof(m) => Await(x, d, UntilEof(Capture(m, buffer, cap)), [])
    case Chunked(m, phase) => StepChunk(cap, x, d, m, phase, buffer)
  }

  function Stepper(cap: Option<nat>, d: Direction): (Exchange, Bytes) -> StepOutcome {
    (x, buffer) => Step(cap, d, x, buffer)
  }

  lemma StepperProductive(cap: Option<nat>, d: Direction)
    ensures Productive(Stepper(cap, d))
  {
    forall x, b ensures ProductiveAt(Stepper(cap, d), x, b) {
    }
  }

  // ------------------------------------------------------------- the decoder

  datatype Decoder = Decoder(exchange: Exchange, client: Bytes, server: Bytes)

  const Initial: Decoder := Decoder(Exchange(Idle, Idle, []), [], [])

  type Report = Batch<DecodedMessage, Reason>

  function BufferOf(s: Decoder, d: Direction): Bytes {
    if d == ClientToServer then s.client else s.server
  }

  function WithBuffer(s: Decoder, d: Direction, b: Bytes): Decoder {
    if d == ClientToServer then s.(client := b) else s.(server := b)
  }

  function DrainStream(cap: Option<nat>, d: Direction, x: Exchange, buffer: Bytes): Drained<Exchange, DecodedMessage, Reason> {
    StepperProductive(cap, d);
    Drain(Stepper(cap, d), x, buffer)
  }

  /** One unfolding of the loop. */
  lemma DrainUnfolds(cap: Option<nat>, d: Direction, x: Exchange, b: Bytes)
    ensures DrainStream(cap, d, x, b) ==
            match Step(cap, d, x, b)
            case NeedMore(x', rest) => Drained(x', rest, Quiet(), false)
            case Halt(x', e) => Drained(x', [], e, true)
            case Advance(x', rest, e) => Prepend(e, DrainStream(cap, d, x', rest))
  {
    hide Step;
    StepperProductive(cap, d);
  }

  lemma QuietAdvance(cap: Option<nat>, d: Direction, x: Exchange, b: Bytes)
    requires Step(cap, d, x, b).Advance? && Step(cap, d, x, b).emitted == Quiet()
    ensures DrainStream(cap, d, x, b) == DrainStream(cap, d, Step(cap, d, x, b).control, Step(cap, d, x, b).rest)
  {
    hide Step;
    DrainUnfolds(cap, d, x, b);
    var r := Step(cap, d, x, b);
    JoinAssociative(DrainStream(cap, d, r.control, r.rest).batch, Quiet(), Quiet());
  }

  /** `push`: the new decoder and what the call reports. */
  function Push(cap: Option<nat>, s: Decoder, d: Direction, bytes: Bytes): (Decoder, Report) {
    var r := DrainStream(cap, d, s.exchange, BufferOf(s, d) + bytes);
    (WithBuffer(s, d, r.rest).(exchange := r.control), r.batch)
  }

  function MessageOf(p: Pending): DecodedMessage
    requires !p.Idle?
  {
    p.message
  }

  /** `finish`: a close-delimited body is complete, any other unfinished body is not. */
  function Finish(s: Decoder, d: Direction): (Decoder, Report) {
    var p := PendingOf(s.exchange, d);
    if p.Idle? then (s, Quiet())
    else
      var incomplete := !p.UntilEof?;
      var m := MessageOf(p).(truncated := MessageOf(p).truncated || incomplete);
      (WithBuffer(s, d, []).(exchange := Track(WithPending(s.exchange, d, Idle), m)),
       Batch([m], if incomplete then Some(EndedEarly) else None))
  }
}
