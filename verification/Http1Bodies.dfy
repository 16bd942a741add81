/** Bodies follow their heads: what a message declares is what it gets, unless it answers HEAD
    (section 6.3 of RFC 9112). */
module Http1Bodies {
  import opened ByteStrings
  import opened Streaming
  import opened Text
  import opened Http1
  import opened Http1Cap
  import opened Http1Pairing

  // ------------------------------------------------------- what a message declares

  datatype Declared = NoBody | Length(n: nat) | Chunks | ToEnd

  predicate HasNoBodyStatus(startLine: Bytes) {
    var status := StatusOf(startLine);
    IsVersion(startLine) && status.Some? && (100 <= status.value < 200 || status.value == 204 || status.value == 304)
  }

  /** The value of the last Content-Length header. */
  function LengthOf(headers: seq<Header>): Option<nat> {
    if headers == [] then None
    else
      var (name, value) := headers[|headers| - 1];
      if EqIgnoreCase(name, Ascii("content-length")) then ParseUnsigned(value, 10, USIZE_MAX)
      else LengthOf(headers[..|headers| - 1])
  }

  predicate SaysChunked(headers: seq<Header>) {
    exists i :: 0 <= i < |headers| && EqIgnoreCase(headers[i].0, Ascii("transfer-encoding")) && MentionsChunked(headers[i].1)
  }

  /** The body a start line and headers declare. */
  function DeclaredBody(startLine: Bytes, headers: seq<Header>): Declared {
    if HasNoBodyStatus(startLine) then NoBody
    else if SaysChunked(headers) then Chunks
    else if LengthOf(headers).Some? then Length(LengthOf(headers).value)
    else if IsVersion(startLine) then ToEnd
    else NoBody
  }

  /** A whole message has the body it declares, and none when it was framed as an answer to HEAD. */
  predicate TrueToHead(m: DecodedMessage, asHead: bool) {
    m.truncated ||
    if asHead then m.body == []
    else match DeclaredBody(m.startLine, m.headers)
      case NoBody => m.body == []
      case Length(n) => |m.body| == n
      case Chunks => true
      case ToEnd => true
  }

  // --------------------------------------------------------------- heads are read so

  /** A parsed head says what its start line and headers declare. */
  predicate ReadsAsDeclared(head: ParsedHead) {
    && head.isResponse == IsVersion(head.startLine)
    && head.noBodyStatus == HasNoBodyStatus(head.startLine)
    && head.contentLength == LengthOf(head.headers)
    && head.chunked == SaysChunked(head.headers)
  }

  lemma AddOneHeader(headers: seq<Header>, name: Bytes, value: Bytes)
    ensures var more := headers + [(name, value)];
            && LengthOf(more) == (if EqIgnoreCase(name, Ascii("content-length")) then ParseUnsigned(value, 10, USIZE_MAX) else LengthOf(headers))
            && (SaysChunked(more) <==> SaysChunked(headers) || (EqIgnoreCase(name, Ascii("transfer-encoding")) && MentionsChunked(value)))
  {
    hide EqIgnoreCase, MentionsChunked, ParseUnsigned;
    var more := headers + [(name, value)];
    assert more[..|more| - 1] == headers;
    assert forall i :: 0 <= i < |headers| ==> more[i] == headers[i];
    assert more[|headers|] == (name, value);
  }

  lemma LineReadsAsDeclared(head: ParsedHead, line: Bytes)
    requires ReadsAsDeclared(head)
    ensures var r := AddHeaderLine(head, line); r.Parsed? ==> ReadsAsDeclared(r.head)
  {
    hide EqIgnoreCase, MentionsChunked, ParseUnsigned, SplitOnce, Trim, LengthOf, SaysChunked, HasNoBodyStatus;
    match SplitOnce(line, ':' as int)
    case None =>
    case Some((name, value)) => AddOneHeader(head.headers, Trim(name), Trim(value));
  }

  lemma {:induction false} LinesReadAsDeclared(head: ParsedHead, lines: seq<Bytes>)
    requires ReadsAsDeclared(head)
    ensures var r := AddHeaderLines(head, lines); r.Parsed? ==> ReadsAsDeclared(r.head)
    decreases lines
  {
    hide AddHeaderLine, ReadsAsDeclared;
    if lines != [] {
      LineReadsAsDeclared(head, lines[0]);
      var r := AddHeaderLine(head, lines[0]);
      if r.Parsed? { LinesReadAsDeclared(r.head, lines[1..]); }
    }
  }

  lemma HeadReadsAsDeclared(bytes: Bytes)
    ensures ParseHead(bytes).Parsed? ==> ReadsAsDeclared(ParseHead(bytes).head)
  {
    hide Lines, Trim, ValidUtf8, AddHeaderLines, IsVersion, IsRequestLine, StatusOf;
    if ValidUtf8(bytes) {
      var lines := Lines(bytes);
      var first := ParseStartLine(Trim(lines[0]));
      if first.Parsed? { LinesReadAsDeclared(first.head, lines[1..]); }
    }
  }

  // ------------------------------------------------------------- bodies in progress

  predicate HonestPending(p: Pending) {
    match p
    case Idle => true
    case Fixed(m, owed) => DeclaredBody(m.startLine, m.headers) == Length(|m.body| + owed)
    case Chunked(m, _) => DeclaredBody(m.startLine, m.headers) == Chunks
    case UntilEof(m) => DeclaredBody(m.startLine, m.headers) == ToEnd
  }

  /** What is kept of an unfinished body, plus what is owed, is what its head declares. */
  predicate Honest(x: Exchange) {
    HonestPending(x.client) && HonestPending(x.server)
  }

  predicate AllTrue(ms: seq<DecodedMessage>, framings: seq<bool>) {
    |ms| == |framings| && forall i :: 0 <= i < |ms| ==> TrueToHead(ms[i], framings[i])
  }

  ghost predicate StepIsHonest(r: StepOutcome, asHead: bool) {
    Honest(r.control) && forall i :: 0 <= i < |Emitted(r)| ==> TrueToHead(Emitted(r)[i], asHead)
  }

  lemma FrameIsHonest(x: Exchange, d: Direction, head: ParsedHead, rest: Bytes)
    requires Honest(x) && ReadsAsDeclared(head)
    ensures StepIsHonest(Frame(x, d, head, rest), RespondsToHead(x, d))
  {
    hide IsVersion, HasNoBodyStatus, LengthOf, SaysChunked, Words, StatusOf, EqIgnoreCase;
  }

  lemma HeadIsHonest(x: Exchange, d: Direction, b: Bytes)
    requires Honest(x)
    ensures StepIsHonest(StepHead(x, d, b), RespondsToHead(x, d))
  {
    hide Find, ParseHead, Frame, TrueToHead, DeclaredBody, RespondsToHead, ReadsAsDeclared;
    match Find(b, CRLFCRLF)
    case None =>
    case Some(end) =>
      HeadReadsAsDeclared(b[..end]);
      match ParseHead(b[..end])
      case Rejected(_) =>
      case Parsed(head) => FrameIsHonest(x, d, head, b[end + 4..]);
  }

  lemma HonestWith(x: Exchange, d: Direction, p: Pending, m: DecodedMessage)
    requires Honest(x)
    ensures HonestPending(PendingOf(x, d))
    ensures HonestPending(p) ==> Honest(WithPending(x, d, p))
    ensures Honest(Track(WithPending(x, d, Idle), m))
  {
    hide DeclaredBody, Words, StatusOf;
  }

  lemma CaptureIsWhole(m: DecodedMessage, bytes: Bytes)
    ensures var c := Capture(m, bytes, None);
            c.startLine == m.startLine && c.headers == m.headers && |c.body| == |m.body| + |bytes|
  {
  }

  lemma ChunkIsHonest(x: Exchange, d: Direction, m: DecodedMessage, phase: ChunkPhase, b: Bytes)
    requires Honest(x) && PendingOf(x, d) == Chunked(m, phase)
    ensures StepIsHonest(StepChunk(None, x, d, m, phase, b), false)
  {
    hide Find, ParseChunkLine, DeclaredBody, Honest, WithPending, PendingOf, Track, Capture;
    var r := StepChunk(None, x, d, m, phase, b);
    HonestWith(x, d, Idle, m);
    HonestWith(x, d, Chunked(m, Size), m);
    HonestWith(x, d, Chunked(m, phase), m);
    if phase.Size? {
      var size := if Find(b, CRLF).Some? then ParseChunkLine(b[..Find(b, CRLF).value]) else BadChunkLine(BadChunkSize);
      if size.ChunkSize? { HonestWith(x, d, Chunked(m, if size.size == 0 then Trailers else Data(size.size)), m); }
    } else if phase.Data? {
      if |b| < phase.remaining {
        CaptureIsWhole(m, b);
        HonestWith(x, d, Chunked(Capture(m, b, None), Data(phase.remaining - |b|)), m);
      } else {
        CaptureIsWhole(m, b[..phase.remaining]);
        HonestWith(x, d, Chunked(Capture(m, b[..phase.remaining], None), DataCrlf), m);
      }
    }
  }

  lemma FixedIsHonest(x: Exchange, d: Direction, m: DecodedMessage, owed: Owed, b: Bytes)
    requires Honest(x) && PendingOf(x, d) == Fixed(m, owed)
    ensures StepIsHonest(Step(None, d, x, b), false)
  {
    hide DeclaredBody, Honest, WithPending, PendingOf, Track, Capture;
    HonestWith(x, d, Idle, m);
    if |b| < owed {
      CaptureIsWhole(m, b);
      HonestWith(x, d, Fixed(Capture(m, b, None), owed - |b|), m);
    } else {
      CaptureIsWhole(m, b[..owed]);
      HonestWith(x, d, Idle, Capture(m, b[..owed], None));
    }
  }

  lemma StepKeepsHonest(d: Direction, x: Exchange, b: Bytes)
    requires Honest(x)
    ensures StepIsHonest(Step(None, d, x, b), FramesAsHead(x, d))
  {
    hide StepHead, StepChunk, DeclaredBody, Honest, WithPending, RespondsToHead, Capture;
    match PendingOf(x, d)
    case Idle => HeadIsHonest(x, d, b);
    case Chunked(m, phase) => ChunkIsHonest(x, d, m, phase, b);
    case Fixed(m, owed) => FixedIsHonest(x, d, m, owed, b);
    case UntilEof(m) =>
      CaptureIsWhole(m, b);
      HonestWith(x, d, UntilEof(Capture(m, b, None)), m);
  }

  lemma AllTrueJoins(ms: seq<DecodedMessage>, more: seq<DecodedMessage>, f: seq<bool>, g: seq<bool>)
    requires AllTrue(ms, f) && AllTrue(more, g)
    ensures AllTrue(ms + more, f + g)
  {
    hide TrueToHead;
  }

  lemma {:induction false} DrainKeepsHonest(d: Direction, x: Exchange, b: Bytes)
    requires Honest(x)
    ensures var r := DrainStream(None, d, x, b); Honest(r.control) && AllTrue(r.batch.messages, Framings(None, d, x, b))
    decreases |b|
  {
    hide Step, Honest, TrueToHead, DrainStream, FramesAsHead;
    StepKeepsHonest(d, x, b);
    DrainUnfolds(None, d, x, b);
    HaltIsSilent(None, d, x, b);
    var r := Step(None, d, x, b);
    if r.Advance? {
      DrainKeepsHonest(d, r.control, r.rest);
      var ms, f := r.emitted.messages, seq(|r.emitted.messages|, _ => FramesAsHead(x, d));
      assert forall i :: 0 <= i < |ms| ==> TrueToHead(Emitted(r)[i], FramesAsHead(x, d)) && f[i] == FramesAsHead(x, d);
      AllTrueJoins(ms, DrainStream(None, d, r.control, r.rest).batch.messages, f, Framings(None, d, r.control, r.rest));
    }
  }

  lemma ApplyKeepsHonest(s: Decoder, e: Event)
    requires Honest(s.exchange)
    ensures var (s', r) := Apply(None, s, e); Honest(s'.exchange) && AllTrue(r.messages, EventFramings(None, s, e))
  {
    hide DrainStream, Framings, DeclaredBody, Words, StatusOf;
    match e
    case Received(d, bytes) => DrainKeepsHonest(d, s.exchange, BufferOf(s, d) + bytes);
    case Ended(d) =>
  }

  lemma {:induction false} SessionKeepsHonest(s: Decoder, events: seq<Event>)
    requires Honest(s.exchange)
    ensures AllTrue(AllMessages(Session(None, s, events).1), SessionFramings(None, s, events))
    decreases events
  {
    hide Apply, Honest, TrueToHead, EventFramings;
    if events != [] {
      var (s1, r1) := Apply(None, s, events[0]);
      ApplyKeepsHonest(s, events[0]);
      SessionKeepsHonest(s1, events[1..]);
      var rs := Session(None, s1, events[1..]).1;
      assert ([r1] + rs)[1..] == rs;
      AllTrueJoins(r1.messages, AllMessages(rs), EventFramings(None, s, events[0]), SessionFramings(None, s1, events[1..]));
    }
  }

  /** In a timely session without a cap, every whole response has no body when the request it answers
      is HEAD, and otherwise exactly the body its own head declares. */
  lemma ResponsesAreFramedByTheirRequest(events: seq<Event>, i: nat)
    requires TimelySession(None, Initial, events)
    requires var log := AllMessages(Session(None, Initial, events).1); i < |log| && log[i].direction == ServerToClient
    ensures var log := AllMessages(Session(None, Initial, events).1);
            var n := Finals(log[..i]);
            n < |Requests(log)| && TrueToHead(log[i], IsHead(Requests(log)[n]))
  {
    hide Session, SessionFramings, TimelySession, TrueToHead, Finals, Requests, IsHead;
    NthResponseAnswersNthRequest(None, events, i);
    SessionKeepsHonest(Initial, events);
  }
}
