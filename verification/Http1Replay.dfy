/** Every message the HTTP/1 decoder reports survives rendering and replay, if it has a header. */
module Http1Replay {
  import opened ByteStrings
  import opened Streaming
  import opened Text
  import opened TextLemmas
  import opened LineText
  import opened Replay
  import opened Http1
  import opened Http1Cap

  // ------------------------------------------------------------- parsed headers

  lemma SliceHasNoCrlf(s: Bytes, i: nat, j: nat)
    requires i <= j <= |s| && NoCrlf(s)
    ensures NoCrlf(s[i..j])
  {
    hide At;
    forall k: nat ensures !At(s[i..j], CRLF, k) {
      CrlfAt(s[i..j], k);
      CrlfAt(s, i + k);
    }
  }

  lemma FirstLine(s: Bytes, k: nat)
    requires ValidUtf8(s) && Find(s, CRLF) == Some(k)
    ensures NoCrlf(s[..k]) && ValidUtf8(s[..k]) && ValidUtf8(s[k + 2..])
  {
    hide ValidUtf8, Find;
    CrlfAt(s, k);
    forall j: nat ensures !At(s[..k], CRLF, j) {
      CrlfAt(s[..k], j);
      CrlfAt(s, j);
      assert j < k ==> !At(s, CRLF, j);
    }
    Utf8Cut(s, k);
    DropAscii(s[k..]);
    DropAscii(s[k..][1..]);
    assert s[k..][1..][1..] == s[k + 2..];
  }

  lemma {:induction false} LinesAreText(s: Bytes)
    requires ValidUtf8(s)
    ensures forall i :: 0 <= i < |Lines(s)| ==> NoCrlf(Lines(s)[i]) && ValidUtf8(Lines(s)[i])
    decreases |s|
  {
    hide ValidUtf8, Find, NoCrlf;
    match Find(s, CRLF)
    case None => NotFoundMeansNone(s);
    case Some(k) =>
      FirstLine(s, k);
      LinesAreText(s[k + 2..]);
  }

  lemma NotFoundMeansNone(s: Bytes)
    requires Find(s, CRLF).None?
    ensures NoCrlf(s)
  {
  }

  lemma TrimmedPiece(s: Bytes)
    requires ValidUtf8(s) && NoCrlf(s)
    ensures IsTrimmed(Trim(s)) && ValidUtf8(Trim(s)) && NoCrlf(Trim(s))
    ensures COLON !in s ==> COLON !in Trim(s)
  {
    hide ValidUtf8, NoCrlf, Trim, IsTrimmed;
    TrimIsTrimmed(s);
    var i: nat := |s| - |TrimStart(s)|;
    SliceHasNoCrlf(s, i, i + |Trim(s)|);
  }

  lemma SplitIsText(line: Bytes)
    requires ValidUtf8(line) && NoCrlf(line) && SplitOnce(line, COLON).Some?
    ensures var (name, value) := SplitOnce(line, COLON).value;
            ValidUtf8(name) && NoCrlf(name) && ValidUtf8(value) && NoCrlf(value) && COLON !in name
  {
    hide ValidUtf8, NoCrlf, SplitOnce;
    var (name, value) := SplitOnce(line, COLON).value;
    var k := |name|;
    assert line[k] == COLON && name == line[0..k] && value == line[k + 1..|line|];
    assert line[..k] == name && line[k..][1..] == value;
    SliceHasNoCrlf(line, 0, k);
    SliceHasNoCrlf(line, k + 1, |line|);
    Utf8Cut(line, k);
    DropAscii(line[k..]);
  }

  lemma LineGivesGoodHeader(head: ParsedHead, line: Bytes)
    requires GoodHeaders(head.headers) && ValidUtf8(line) && NoCrlf(line)
    ensures AddHeaderLine(head, line).Parsed? ==> GoodHeaders(AddHeaderLine(head, line).head.headers)
  {
    hide ValidUtf8, NoCrlf, SplitOnce, Trim, IsTrimmed, EqIgnoreCase, MentionsChunked, ParseUnsigned;
    match SplitOnce(line, COLON)
    case None =>
    case Some((name, value)) =>
      SplitIsText(line);
      TrimmedPiece(name);
      TrimmedPiece(value);
      assert GoodHeader((Trim(name), Trim(value)));
  }

  lemma {:induction false} LinesGiveGoodHeaders(head: ParsedHead, lines: seq<Bytes>)
    requires GoodHeaders(head.headers)
    requires forall i :: 0 <= i < |lines| ==> NoCrlf(lines[i]) && ValidUtf8(lines[i])
    ensures AddHeaderLines(head, lines).Parsed? ==> GoodHeaders(AddHeaderLines(head, lines).head.headers)
    decreases lines
  {
    hide ValidUtf8, NoCrlf, AddHeaderLine, GoodHeaders;
    if lines != [] {
      LineGivesGoodHeader(head, lines[0]);
      match AddHeaderLine(head, lines[0])
      case Rejected(_) =>
      case Parsed(next) => LinesGiveGoodHeaders(next, lines[1..]);
    }
  }

  lemma ParsedHeadersAreGood(bytes: Bytes)
    ensures ParseHead(bytes).Parsed? ==> GoodHeaders(ParseHead(bytes).head.headers)
  {
    hide ValidUtf8, NoCrlf, AddHeaderLines, Lines, Trim, GoodHeader, StatusOf, IsRequestLine, IsVersion;
    if ValidUtf8(bytes) {
      LinesAreText(bytes);
      var lines := Lines(bytes);
      var start := ParseStartLine(Trim(lines[0]));
      if start.Parsed? {
        LinesGiveGoodHeaders(start.head, lines[1..]);
      }
    }
  }

  // ------------------------------------------------------- invariant of the decoder

  ghost predicate GoodMessages(ms: seq<DecodedMessage>) {
    forall i :: 0 <= i < |ms| ==> GoodHeaders(ms[i].headers)
  }

  ghost predicate GoodPending(p: Pending) {
    p.Idle? || GoodHeaders(p.message.headers)
  }

  ghost predicate GoodExchange(x: Exchange) {
    GoodPending(x.client) && GoodPending(x.server)
  }

  lemma HeadKeepsGood(x: Exchange, d: Direction, b: Bytes)
    requires GoodExchange(x)
    ensures var r := StepHead(x, d, b);
            GoodExchange(r.control) && (r.Advance? ==> GoodMessages(r.emitted.messages))
  {
    hide ParseHead, GoodHeaders, Find, Words, StatusOf, EqIgnoreCase;
    match Find(b, CRLFCRLF)
    case None =>
    case Some(end) => ParsedHeadersAreGood(b[..end]);
  }

  lemma ChunkKeepsGood(cap: Option<nat>, x: Exchange, d: Direction, m: DecodedMessage, phase: ChunkPhase, b: Bytes)
    requires GoodExchange(x) && GoodHeaders(m.headers)
    ensures var r := StepChunk(cap, x, d, m, phase, b);
            GoodExchange(r.control) && (r.Advance? ==> GoodMessages(r.emitted.messages))
  {
    hide ParseChunkLine, GoodHeaders, Find, Words, StatusOf;
  }

  lemma StepKeepsGood(cap: Option<nat>, d: Direction, x: Exchange, b: Bytes)
    requires GoodExchange(x)
    ensures var r := Step(cap, d, x, b);
            && GoodExchange(r.control)
            && (r.Advance? ==> GoodMessages(r.emitted.messages))
            && (r.Halt? ==> r.emitted.messages == [])
  {
    hide StepHead, StepChunk, GoodHeaders, Words, StatusOf;
    match PendingOf(x, d)
    case Idle => HeadKeepsGood(x, d, b); HaltsSilently(cap, d, x, b);
    case Chunked(m, phase) => ChunkKeepsGood(cap, x, d, m, phase, b); HaltsSilently(cap, d, x, b);
    case _ =>
  }

  lemma HaltsSilently(cap: Option<nat>, d: Direction, x: Exchange, b: Bytes)
    ensures Step(cap, d, x, b).Halt? ==> Step(cap, d, x, b).emitted.messages == []
  {
    hide ParseHead, ParseChunkLine, Find, Capture, Track, RespondsToHead;
  }

  lemma {:induction false} DrainKeepsGood(cap: Option<nat>, d: Direction, x: Exchange, b: Bytes)
    requires GoodExchange(x)
    ensures var r := DrainStream(cap, d, x, b);
            GoodExchange(r.control) && GoodMessages(r.batch.messages)
    decreases |b|
  {
    hide Step, GoodExchange, GoodHeaders, DrainStream;
    StepKeepsGood(cap, d, x, b);
    DrainUnfolds(cap, d, x, b);
    match Step(cap, d, x, b)
    case Advance(x', rest, _) => DrainKeepsGood(cap, d, x', rest);
    case _ =>
  }

  lemma ApplyKeepsGood(cap: Option<nat>, s: Decoder, e: Event)
    requires GoodExchange(s.exchange)
    ensures var (s', r) := Apply(cap, s, e);
            GoodExchange(s'.exchange) && GoodMessages(r.messages)
  {
    hide DrainStream, GoodHeaders, Words, StatusOf;
    match e
    case Received(d, bytes) => DrainKeepsGood(cap, d, s.exchange, BufferOf(s, d) + bytes);
    case Ended(_) =>
  }

  lemma {:induction false} SessionKeepsGood(cap: Option<nat>, s: Decoder, events: seq<Event>)
    requires GoodExchange(s.exchange)
    ensures var rs := Session(cap, s, events).1;
            forall i :: 0 <= i < |rs| ==> GoodMessages(rs[i].messages)
    decreases events
  {
    hide Apply, GoodExchange, GoodMessages;
    if events != [] {
      ApplyKeepsGood(cap, s, events[0]);
      var (s1, r1) := Apply(cap, s, events[0]);
      SessionKeepsGood(cap, s1, events[1..]);
      assert Session(cap, s, events).1 == [r1] + Session(cap, s1, events[1..]).1;
    }
  }

  /** For every session and every message it reports, rendering and reading back returns exactly the
      message's headers and body, if and only if it has a header. */
  lemma DecodedMessagesReplay(cap: Option<nat>, events: seq<Event>, i: nat, j: nat)
    requires var rs := Session(cap, Initial, events).1; i < |rs| && j < |rs[i].messages|
    ensures var m := Session(cap, Initial, events).1[i].messages[j];
            ReadWire(Rendered(m)) == Wire(m.headers, m.body) <==> m.headers != []
  {
    hide Session, GoodHeaders, ReadWire, Rendered;
    SessionKeepsGood(cap, Initial, events);
    RoundTrip(Session(cap, Initial, events).1[i].messages[j]);
  }
}
