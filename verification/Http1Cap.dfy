/** The body cap only shortens bodies: framing, heads, consumed bytes and errors do not depend on it. */
module Http1Cap {
  import opened ByteStrings
  import opened Streaming
  import opened Http1

  // What a cap of `n` keeps of an uncapped decoder's state and reports.

  function CapMessage(n: nat, m: DecodedMessage): DecodedMessage {
    m.(body := m.body[..Min(n, |m.body|)], truncated := m.truncated || |m.body| > n)
  }

  function CapMessages(n: nat, ms: seq<DecodedMessage>): seq<DecodedMessage> {
    seq(|ms|, i requires 0 <= i < |ms| => CapMessage(n, ms[i]))
  }

  function CapReport(n: nat, r: Report): Report {
    Batch(CapMessages(n, r.messages), r.desynchronized)
  }

  function CapReports(n: nat, rs: seq<Report>): seq<Report> {
    seq(|rs|, i requires 0 <= i < |rs| => CapReport(n, rs[i]))
  }

  function CapPending(n: nat, p: Pending): Pending {
    if p.Idle? then Idle else p.(message := CapMessage(n, p.message))
  }

  function CapExchange(n: nat, x: Exchange): Exchange {
    Exchange(CapPending(n, x.client), CapPending(n, x.server), x.methods)
  }

  function CapDecoder(n: nat, s: Decoder): Decoder {
    s.(exchange := CapExchange(n, s.exchange))
  }

  function CapOutcome(n: nat, o: StepOutcome): StepOutcome {
    match o
    case NeedMore(x, rest) => NeedMore(CapExchange(n, x), rest)
    case Advance(x, rest, e) => Advance(CapExchange(n, x), rest, CapReport(n, e))
    case Halt(x, e) => Halt(CapExchange(n, x), CapReport(n, e))
  }

  function CapDrained(n: nat, r: Drained<Exchange, DecodedMessage, Reason>): Drained<Exchange, DecodedMessage, Reason> {
    Drained(CapExchange(n, r.control), r.rest, CapReport(n, r.batch), r.halted)
  }

  lemma CaptureCapped(n: nat, m: DecodedMessage, bytes: Bytes)
    ensures Capture(CapMessage(n, m), bytes, Some(n)) == CapMessage(n, Capture(m, bytes, None))
  {
    var full := m.body + bytes;
    var k := Min(Monus(n, |CapMessage(n, m).body|), |bytes|);
    assert m.body[..Min(n, |m.body|)] + bytes[..k] == full[..Min(n, |full|)];
  }

  lemma PendingCapped(n: nat, x: Exchange, d: Direction, p: Pending)
    ensures PendingOf(CapExchange(n, x), d) == CapPending(n, PendingOf(x, d))
    ensures WithPending(CapExchange(n, x), d, CapPending(n, p)) == CapExchange(n, WithPending(x, d, p))
    ensures RespondsToHead(CapExchange(n, x), d) == RespondsToHead(x, d)
  {
  }

  lemma EmitCapped(n: nat, x: Exchange, d: Direction, m: DecodedMessage, rest: Bytes)
    ensures Emit(CapExchange(n, x), d, CapMessage(n, m), rest) == CapOutcome(n, Emit(x, d, m, rest))
  {
    PendingCapped(n, x, d, Idle);
    assert CapMessages(n, [m]) == [CapMessage(n, m)];
  }

  lemma FreshCapped(n: nat, d: Direction, head: ParsedHead)
    ensures CapMessage(n, Headed(d, head)) == Headed(d, head)
  {
  }

  lemma QuietCapped(n: nat)
    ensures CapReport(n, Quiet()) == Quiet() && forall r :: CapReport(n, Batch([], Some(r))) == Batch([], Some(r))
  {
  }

  lemma FrameCapped(n: nat, x: Exchange, d: Direction, head: ParsedHead, rest: Bytes)
    ensures Frame(CapExchange(n, x), d, head, rest) == CapOutcome(n, Frame(x, d, head, rest))
  {
    var m := Headed(d, head);
    FreshCapped(n, d, head);
    QuietCapped(n);
    EmitCapped(n, x, d, m, rest);
    PendingCapped(n, x, d, Chunked(m, Size));
    PendingCapped(n, x, d, UntilEof(m));
    if head.contentLength.Some? && head.contentLength.value > 0 {
      PendingCapped(n, x, d, Fixed(m, head.contentLength.value));
    }
  }

  lemma StepHeadCapped(n: nat, x: Exchange, d: Direction, b: Bytes)
    ensures StepHead(CapExchange(n, x), d, b) == CapOutcome(n, StepHead(x, d, b))
  {
    hide ParseHead;
    PendingCapped(n, x, d, Idle);
    QuietCapped(n);
    match Find(b, CRLFCRLF)
    case None =>
    case Some(end) =>
      match ParseHead(b[..end])
      case Rejected(_) =>
      case Parsed(head) => FrameCapped(n, x, d, head, b[end + 4..]);
  }

  lemma StepChunkCapped(n: nat, x: Exchange, d: Direction, m: DecodedMessage, phase: ChunkPhase, b: Bytes)
    ensures StepChunk(Some(n), CapExchange(n, x), d, CapMessage(n, m), phase, b)
            == CapOutcome(n, StepChunk(None, x, d, m, phase, b))
  {
    hide ParseChunkLine, Capture, CapMessage, Emit, CapReport;
    QuietCapped(n);
    PendingCapped(n, x, d, Idle);
    PendingCapped(n, x, d, Chunked(m, phase));
    match phase
    case Size =>
      if Find(b, CRLF).Some? {
        var size := ParseChunkLine(b[..Find(b, CRLF).value]);
        if size.ChunkSize? {
          PendingCapped(n, x, d, Chunked(m, if size.size == 0 then Trailers else Data(size.size)));
        }
      }
    case Data(remaining) =>
      if |b| < remaining {
        CaptureCapped(n, m, b);
        PendingCapped(n, x, d, Chunked(Capture(m, b, None), Data(remaining - |b|)));
      } else {
        CaptureCapped(n, m, b[..remaining]);
        PendingCapped(n, x, d, Chunked(Capture(m, b[..remaining], None), DataCrlf));
      }
    case DataCrlf =>
      PendingCapped(n, x, d, Chunked(m, Size));
    case Trailers =>
      if StartsWith(b, CRLF) {
        EmitCapped(n, x, d, m, b[2..]);
      } else if Find(b, CRLFCRLF).Some? {
        EmitCapped(n, x, d, m, b[Find(b, CRLFCRLF).value + 4..]);
      }
  }

  lemma StepCapped(n: nat, d: Direction, x: Exchange, b: Bytes)
    ensures Step(Some(n), d, CapExchange(n, x), b) == CapOutcome(n, Step(None, d, x, b))
  {
    hide StepHead, StepChunk, Capture, CapMessage, Emit;
    PendingCapped(n, x, d, Idle);
    match PendingOf(x, d)
    case Idle => StepHeadCapped(n, x, d, b);
    case Chunked(m, phase) => StepChunkCapped(n, x, d, m, phase, b);
    case UntilEof(m) =>
      CaptureCapped(n, m, b);
      PendingCapped(n, x, d, UntilEof(Capture(m, b, None)));
    case Fixed(m, remaining) =>
      if |b| < remaining {
        CaptureCapped(n, m, b);
        PendingCapped(n, x, d, Fixed(Capture(m, b, None), remaining - |b|));
      } else {
        CaptureCapped(n, m, b[..remaining]);
        EmitCapped(n, x, d, Capture(m, b[..remaining], None), b[remaining..]);
      }
  }

  lemma JoinCapped(n: nat, a: Report, b: Report)
    ensures CapReport(n, Join(a, b)) == Join(CapReport(n, a), CapReport(n, b))
  {
  }

  lemma {:induction false} DrainCapped(n: nat, d: Direction, x: Exchange, b: Bytes)
    ensures DrainStream(Some(n), d, CapExchange(n, x), b) == CapDrained(n, DrainStream(None, d, x, b))
    decreases |b|
  {
    hide Step, CapReport, CapExchange;
    StepperProductive(Some(n), d);
    StepperProductive(None, d);
    StepCapped(n, d, x, b);
    QuietCapped(n);
    match Step(None, d, x, b)
    case NeedMore(_, _) =>
    case Halt(_, _) =>
    case Advance(x', rest, e) =>
      DrainCapped(n, d, x', rest);
      JoinCapped(n, e, DrainStream(None, d, x', rest).batch);
  }

  // ------------------------------------------------------------ whole sessions

  datatype Event = Received(d: Direction, bytes: Bytes) | Ended(d: Direction)

  function Apply(cap: Option<nat>, s: Decoder, e: Event): (Decoder, Report) {
    if e.Received? then Push(cap, s, e.d, e.bytes) else Finish(s, e.d)
  }

  /** Both directions' pushes and ends in any order, with one report per call. */
  function Session(cap: Option<nat>, s: Decoder, events: seq<Event>): (Decoder, seq<Report>)
    decreases events
  {
    if events == [] then (s, [])
    else
      var (s1, r1) := Apply(cap, s, events[0]);
      var (s2, rs) := Session(cap, s1, events[1..]);
      (s2, [r1] + rs)
  }

  lemma ApplyCapped(n: nat, s: Decoder, e: Event)
    ensures var (s', r) := Apply(None, s, e);
            Apply(Some(n), CapDecoder(n, s), e) == (CapDecoder(n, s'), CapReport(n, r))
  {
    hide DrainStream;
    match e
    case Received(d, bytes) => DrainCapped(n, d, s.exchange, BufferOf(s, d) + bytes);
    case Ended(d) =>
      var p := PendingOf(s.exchange, d);
      PendingCapped(n, s.exchange, d, Idle);
      QuietCapped(n);
      if !p.Idle? {
        var m := p.message.(truncated := p.message.truncated || !p.UntilEof?);
        EmitCapped(n, s.exchange, d, m, []);
      }
  }

  /** For every cap, the capped session is the uncapped one with every body shortened: same messages,
      start lines, headers, errors, leftover bytes and request queue. */
  lemma {:induction false} SessionCapped(n: nat, s: Decoder, events: seq<Event>)
    ensures var (s', rs) := Session(None, s, events);
            Session(Some(n), CapDecoder(n, s), events) == (CapDecoder(n, s'), CapReports(n, rs))
    decreases events
  {
    hide Apply, CapDecoder, CapReport;
    if events == [] {
      assert CapReports(n, []) == [];
    } else {
      ApplyCapped(n, s, events[0]);
      var (s1, r1) := Apply(None, s, events[0]);
      SessionCapped(n, s1, events[1..]);
      var rs := Session(None, s1, events[1..]).1;
      assert CapReports(n, [r1] + rs) == [CapReport(n, r1)] + CapReports(n, rs);
    }
  }

  predicate ShorterBody(a: DecodedMessage, b: DecodedMessage) {
    && a.direction == b.direction && a.startLine == b.startLine && a.headers == b.headers
    && a.body <= b.body && (b.truncated ==> a.truncated) && (a.truncated && !b.truncated ==> |a.body| < |b.body|)
  }

  /** Two caps: the same calls report the same errors and the same messages up to body length, the
      smaller body being a prefix of the larger one. */
  lemma CapsAgree(small: nat, large: nat, events: seq<Event>)
    requires small <= large
    ensures var rs, rl := Session(Some(small), Initial, events).1, Session(Some(large), Initial, events).1;
            && |rs| == |rl|
            && forall i :: 0 <= i < |rs| ==>
                 && rs[i].desynchronized == rl[i].desynchronized
                 && |rs[i].messages| == |rl[i].messages|
                 && forall j :: 0 <= j < |rs[i].messages| ==> ShorterBody(rs[i].messages[j], rl[i].messages[j])
    ensures var ss, sl := Session(Some(small), Initial, events).0, Session(Some(large), Initial, events).0;
            ss.client == sl.client && ss.server == sl.server && ss.exchange.methods == sl.exchange.methods
  {
    hide Session;
    SessionCapped(small, Initial, events);
    SessionCapped(large, Initial, events);
    assert CapDecoder(small, Initial) == Initial == CapDecoder(large, Initial);
    var full := Session(None, Initial, events).1;
    forall i, j | 0 <= i < |full| && 0 <= j < |full[i].messages|
      ensures ShorterBody(CapMessage(small, full[i].messages[j]), CapMessage(large, full[i].messages[j]))
    {
      var body := full[i].messages[j].body;
      assert body[..Min(small, |body|)] <= body[..Min(large, |body|)];
    }
  }
}
