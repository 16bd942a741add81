/** HTTP/1 messages as written on the wire decode to what was written (sections 2 to 6 of RFC 9112). */
module Http1Messages {
  import opened ByteStrings
  import opened Streaming
  import opened Text
  import opened TextLemmas
  import opened LineText
  import opened Replay
  import opened Http1
  import opened Http1Bodies
  import opened Http1Chunked
  import Http1Fragmentation

  // ------------------------------------------------------------------- writing heads

  /** The lines of a head: the start line and one line per header. */
  function HeadLines(start: Bytes, headers: seq<Header>): seq<Bytes> {
    [start] + HeaderLines(headers)
  }

  /** A head on the wire, up to and including its empty line. */
  function WrittenHead(start: Bytes, headers: seq<Header>): Bytes {
    JoinLines(HeadLines(start, headers)) + CRLF
  }

  predicate IsLength(h: Header) {
    EqIgnoreCase(h.0, Ascii("content-length"))
  }

  function LengthValue(h: Header): Option<nat> {
    ParseUnsigned(h.1, 10, USIZE_MAX)
  }

  /** Every Content-Length is a number, and all of them are the same number. */
  predicate LengthsAgree(headers: seq<Header>) {
    && (forall i :: 0 <= i < |headers| && IsLength(headers[i]) ==> LengthValue(headers[i]).Some?)
    && (forall i, j :: 0 <= i < j < |headers| && IsLength(headers[i]) && IsLength(headers[j]) ==>
          LengthValue(headers[i]) == LengthValue(headers[j]))
  }

  ghost predicate GoodStart(start: Bytes) {
    start != [] && NoCrlf(start) && ValidUtf8(start) && ParseStartLine(Trim(start)).Parsed?
  }

  // ---------------------------------------------------------------------- start lines

  /** A word of visible ASCII characters. */
  predicate IsVisible(w: Bytes) {
    w != [] && forall i :: 0 <= i < |w| ==> 33 <= w[i] <= 126
  }

  lemma {:induction false} WordEnds(w: Bytes, rest: Bytes)
    requires IsVisible(w) && (rest == [] || rest[0] == 32)
    ensures WordLength(w + rest) == |w| && LeadingSpace(w + rest) == 0
    decreases |w|
  {
    hide WordLength;
    var s := w + rest;
    assert s[..1] == [w[0]];
    assert LeadingSpace(s) == 0;
    assert s[1..] == w[1..] + rest;
    if |w| == 1 {
      assert s[1..] == rest;
      OneWord(s, rest);
    } else {
      WordEnds(w[1..], rest);
      OneMore(s);
    }
  }

  lemma OneMore(s: Bytes)
    requires s != [] && LeadingSpace(s) == 0
    ensures WordLength(s) == 1 + WordLength(s[1..])
  {
  }

  lemma OneWord(s: Bytes, rest: Bytes)
    requires s != [] && LeadingSpace(s) == 0 && s[1..] == rest && (rest == [] || rest[0] == 32)
    ensures WordLength(s) == 1
  {
    if rest != [] { assert rest[..1] == [32]; }
  }

  lemma FirstWord(w: Bytes, rest: Bytes)
    requires IsVisible(w)
    ensures Words(w + [32] + rest) == [w] + Words(rest)
  {
    hide WordLength;
    var s := w + ([32] + rest);
    assert w + [32] + rest == s;
    WordEnds(w, [32] + rest);
    assert s[..|w|] == w && s[|w|..] == [32] + rest;
    SkipSpace(rest);
  }

  lemma SkipSpace(rest: Bytes)
    ensures Words([32] + rest) == Words(rest)
  {
    var s := [32] + rest;
    assert s[..1] == [32] && s[1..] == rest;
  }

  lemma LastWord(w: Bytes)
    requires IsVisible(w)
    ensures Words(w) == [w]
  {
    assert w + [] == w;
    WordEnds(w, []);
    assert w[..|w|] == w && w[|w|..] == [];
  }

  lemma StaysTrimmed(s: Bytes)
    requires s != [] && 33 <= s[0] <= 126 && 33 <= s[|s| - 1] <= 126
    ensures Trim(s) == s
  {
    assert s[..1] == [s[0]];
    LastByteDecides(s);
    TrimmedStays(s);
  }

  /** Method, target and version make a start line, whose first word is the method. */
  lemma RequestLineIsAccepted(verb: Bytes, target: Bytes, version: Bytes)
    requires IsVisible(verb) && IsVisible(target) && IsVisible(version)
    requires IsVersion(version) && !IsVersion(verb + [32] + target + [32] + version)
    ensures var line := verb + [32] + target + [32] + version;
            && Trim(line) == line && Words(line) == [verb, target, version]
            && ParseStartLine(line) == Parsed(ParsedHead(line, [], false, false, None, false))
  {
    hide Words, IsVersion, Trim;
    var line := verb + [32] + target + [32] + version;
    assert line == verb + [32] + (target + [32] + version);
    FirstWord(verb, target + [32] + version);
    FirstWord(target, version);
    LastWord(version);
    StaysTrimmed(line);
  }

  /** Version, status and reason make a status line; 1xx, 204 and 304 announce no body. */
  lemma StatusLineIsAccepted(version: Bytes, code: Bytes, reason: Bytes, status: nat)
    requires IsVisible(version) && IsVisible(code) && IsVisible(reason) && IsVersion(version)
    requires ParseUnsigned(code, 10, 65535) == Some(status)
    ensures var line := version + [32] + code + [32] + reason;
            && Trim(line) == line && StatusOf(line) == Some(status)
            && ParseStartLine(line) == Parsed(ParsedHead(line, [], true, 100 <= status < 200 || status in {204, 304}, None, false))
  {
    hide Words, Trim, ParseUnsigned;
    var line := version + [32] + code + [32] + reason;
    assert line == version + [32] + (code + [32] + reason);
    FirstWord(version, code + [32] + reason);
    FirstWord(code, reason);
    StaysTrimmed(line);
    StillVersion(version, [32] + code + [32] + reason);
    assert line == version + ([32] + code + [32] + reason);
  }

  lemma StillVersion(version: Bytes, rest: Bytes)
    requires IsVersion(version)
    ensures IsVersion(version + rest)
  {
    var n := |Ascii("HTTP/1.")|;
    assert (version + rest)[..n] == version[..n];
  }

  // ------------------------------------------------------------------- header lines

  lemma {:induction false} LengthIsShared(headers: seq<Header>)
    requires LengthsAgree(headers)
    ensures forall i :: 0 <= i < |headers| && IsLength(headers[i]) ==> LengthOf(headers) == LengthValue(headers[i])
    ensures LengthOf(headers).Some? ==> exists i :: 0 <= i < |headers| && IsLength(headers[i])
    decreases |headers|
  {
    hide EqIgnoreCase, ParseUnsigned;
    if headers != [] {
      var n := |headers| - 1;
      var before := headers[..n];
      assert forall i :: 0 <= i < n ==> before[i] == headers[i];
      LengthIsShared(before);
      if !IsLength(headers[n]) && LengthOf(before).Some? {
        var i :| 0 <= i < |before| && IsLength(before[i]);
        assert IsLength(headers[i]);
      }
    }
  }

  lemma OneMoreLength(headers: seq<Header>, h: Header)
    requires LengthsAgree(headers)
    ensures LengthsAgree(headers + [h]) <==>
              !IsLength(h) || (LengthValue(h).Some? && (LengthOf(headers).None? || LengthOf(headers) == LengthValue(h)))
  {
    hide EqIgnoreCase, ParseUnsigned, LengthOf;
    LengthIsShared(headers);
    var more := headers + [h];
    assert more[|headers|] == h && forall i :: 0 <= i < |headers| ==> more[i] == headers[i];
    if LengthOf(headers).Some? {
      var i :| 0 <= i < |headers| && IsLength(headers[i]);
      assert IsLength(more[i]);
    }
  }

  lemma FewerAgree(headers: seq<Header>, more: seq<Header>)
    requires LengthsAgree(headers + more)
    ensures LengthsAgree(headers)
  {
    hide EqIgnoreCase, ParseUnsigned;
    var all := headers + more;
    assert forall i :: 0 <= i < |headers| ==> all[i] == headers[i];
  }

  lemma HeaderIsAdded(head: ParsedHead, h: Header)
    requires GoodHeader(h) && ReadsAsDeclared(head) && LengthsAgree(head.headers)
    ensures var r := AddHeaderLine(head, HeaderLine(h));
            && (r.Parsed? <==> LengthsAgree(head.headers + [h]))
            && (r.Parsed? ==> r.head.headers == head.headers + [h] && r.head.startLine == head.startLine)
  {
    hide EqIgnoreCase, ParseUnsigned, MentionsChunked, SplitOnce, Trim, GoodHeader, LengthOf, SaysChunked, LengthsAgree, HeaderLine, HasNoBodyStatus;
    HeaderLineIsGood(h);
    OneMoreLength(head.headers, h);
  }

  /** Header lines are taken over one by one, in order, unless lengths are bad or disagree. */
  lemma {:induction false} HeadersAreAdded(head: ParsedHead, more: seq<Header>)
    requires GoodHeaders(more) && ReadsAsDeclared(head) && LengthsAgree(head.headers)
    ensures var r := AddHeaderLines(head, HeaderLines(more));
            && (r.Parsed? <==> LengthsAgree(head.headers + more))
            && (r.Parsed? ==> r.head.headers == head.headers + more && r.head.startLine == head.startLine)
    decreases |more|
  {
    hide AddHeaderLine, GoodHeader, LengthsAgree, ReadsAsDeclared, HeaderLine;
    if more == [] {
      assert head.headers + more == head.headers && HeaderLines(more) == [];
    } else {
      var lines := HeaderLines(more);
      assert lines[0] == HeaderLine(more[0]) && lines[1..] == HeaderLines(more[1..]);
      HeaderIsAdded(head, more[0]);
      LineReadsAsDeclared(head, lines[0]);
      assert head.headers + [more[0]] + more[1..] == head.headers + more;
      if LengthsAgree(head.headers + more) { FewerAgree(head.headers + [more[0]], more[1..]); }
      var r := AddHeaderLine(head, lines[0]);
      if r.Parsed? { HeadersAreAdded(r.head, more[1..]); }
    }
  }

  // --------------------------------------------------------------------------- heads

  lemma HeadLinesAreGood(start: Bytes, headers: seq<Header>)
    requires GoodStart(start) && GoodHeaders(headers)
    ensures GoodLines(HeadLines(start, headers)) && ValidUtf8(JoinLines(HeadLines(start, headers)))
  {
    hide GoodHeader, HeaderLine, ValidUtf8, ParseStartLine, NoCrlf, GoodHeaders;
    HeaderLinesAreGood(headers);
    JoinIsUtf8(headers);
    var lines := HeadLines(start, headers);
    assert lines[1..] == HeaderLines(headers);
    AsciiIsUtf8(CRLF);
    Utf8Append(start, CRLF);
    Utf8Append(start + CRLF, JoinLines(HeaderLines(headers)));
  }

  /** The lines that were written are the lines that are read. */
  lemma HeadIsRead(start: Bytes, headers: seq<Header>)
    requires GoodStart(start) && GoodHeaders(headers)
    ensures var text := JoinLines(HeadLines(start, headers));
            |text| >= 2 && ParseHead(text[..|text| - 2]) == AddHeaderLines(ParseStartLine(Trim(start)).head, HeaderLines(headers))
  {
    hide GoodHeader, HeaderLine, ValidUtf8, Lines, Trim, AddHeaderLines, NoCrlf, GoodHeaders, JoinLines, ParseStartLine;
    var lines := HeadLines(start, headers);
    var text := JoinLines(lines);
    HeadLinesAreGood(start, headers);
    LinesOfJoin(lines);
    EndsWithLine(lines);
    Utf8Cut(text, |text| - 2);
    assert lines[1..] == HeaderLines(headers) && lines[0] == start;
  }

  /** A head that was written parses to its trimmed start line and exactly its headers, in order, if and only
      if its lengths agree. */
  lemma WrittenHeadParses(start: Bytes, headers: seq<Header>)
    requires GoodStart(start) && GoodHeaders(headers)
    ensures var text := JoinLines(HeadLines(start, headers));
            |text| >= 2 &&
            var r := ParseHead(text[..|text| - 2]);
            && (r.Parsed? <==> LengthsAgree(headers))
            && (r.Parsed? ==> r.head.startLine == Trim(start) && r.head.headers == headers && ReadsAsDeclared(r.head))
  {
    hide ParseHead, HeaderLines, ValidUtf8, Trim, AddHeaderLines, LengthsAgree, ReadsAsDeclared, NoCrlf, GoodHeaders, JoinLines, ParseStartLine;
    var text := JoinLines(HeadLines(start, headers));
    HeadIsRead(start, headers);
    FreshHead(Trim(start));
    HeadersAreAdded(ParseStartLine(Trim(start)).head, headers);
    assert [] + headers == headers;
    HeadReadsAsDeclared(text[..|text| - 2]);
  }

  lemma FreshHead(line: Bytes)
    requires ParseStartLine(line).Parsed?
    ensures var head := ParseStartLine(line).head;
            head.startLine == line && head.headers == [] && ReadsAsDeclared(head) && LengthsAgree([])
  {
    hide StatusOf, IsVersion, IsRequestLine;
  }

  lemma {:induction false} EndsWithLine(lines: seq<Bytes>)
    requires lines != []
    ensures var text := JoinLines(lines); |text| >= 2 && text[|text| - 2..] == CRLF
    decreases |lines|
  {
    if |lines| == 1 {
      assert JoinLines(lines) == lines[0] + CRLF;
    } else {
      EndsWithLine(lines[1..]);
    }
  }

  // ------------------------------------------------------------------ whole messages

  /** A body as sent. */
  datatype Sent = Nothing | Plain(bytes: Bytes) | InChunks(body: Body)

  function PayloadOf(b: Sent): Bytes {
    match b
    case Nothing => []
    case Plain(bytes) => bytes
    case InChunks(body) => Payload(body.chunks)
  }

  function Written(b: Sent): Bytes {
    match b
    case Nothing => []
    case Plain(bytes) => bytes
    case InChunks(body) => EncodeBody(body)
  }

  /** The body goes with the head, or is absent because it answers HEAD. */
  ghost predicate Belongs(start: Bytes, headers: seq<Header>, b: Sent, asHead: bool) {
    if asHead then b == Nothing
    else match DeclaredBody(Trim(start), headers)
      case NoBody => b == Nothing
      case Length(n) => b.Plain? && |b.bytes| == n
      case Chunks => b.InChunks? && ValidBody(b.body)
      case ToEnd => false
  }

  /** The message a head and payload are reported as under a cap. */
  function Read(cap: nat, d: Direction, start: Bytes, headers: seq<Header>, payload: Bytes): DecodedMessage {
    DecodedMessage(d, Trim(start), headers, payload[..Min(cap, |payload|)], |payload| > cap)
  }

  lemma HeadSteps(cap: Option<nat>, d: Direction, x: Exchange, start: Bytes, headers: seq<Header>, rest: Bytes)
    requires PendingOf(x, d).Idle? && GoodStart(start) && GoodHeaders(headers) && LengthsAgree(headers)
    ensures exists head: ParsedHead ::
              && head.startLine == Trim(start) && head.headers == headers && ReadsAsDeclared(head)
              && Step(cap, d, x, WrittenHead(start, headers) + rest) == Frame(x, d, head, rest)
  {
    hide GoodHeaders, ParseHead, Trim, Frame, LengthsAgree, ReadsAsDeclared, Find, GoodStart, JoinLines, NoCrlf;
    var lines := HeadLines(start, headers);
    var text := JoinLines(lines);
    HeadLinesAreGood(start, headers);
    WrittenHeadParses(start, headers);
    FindBlankLine(lines, rest);
    var b := text + CRLF + rest;
    var k := |text| - 2;
    assert b[..k] == text[..k] && b[k + 4..] == rest;
    var head := ParseHead(text[..k]).head;
    assert Step(cap, d, x, b) == Frame(x, d, head, rest);
  }

  lemma BodyFollows(cap: nat, d: Direction, x: Exchange, head: ParsedHead, start: Bytes, b: Sent, rest: Bytes)
    requires PendingOf(x, d).Idle? && ReadsAsDeclared(head) && head.startLine == Trim(start)
    requires Belongs(start, head.headers, b, RespondsToHead(x, d))
    ensures var m := Read(cap, d, start, head.headers, PayloadOf(b));
            var r := Frame(x, d, head, Written(b) + rest);
            && r.Advance?
            && Prepend(r.emitted, DrainStream(Some(cap), d, r.control, r.rest))
               == Prepend(Batch([m], None), DrainStream(Some(cap), d, Track(x, m), rest))
  {
    hide DrainStream, Track, EncodeBody, ValidBody, RespondsToHead, IsVersion, HasNoBodyStatus, SaysChunked, LengthOf, Trim;
    Http1Fragmentation.SameDirection(x, d, Idle, Idle);
    var m0 := Headed(d, head);
    match b
    case Nothing =>
      assert [] + rest == rest;
      assert PayloadOf(b)[..0] == [];
    case Plain(bytes) =>
      FixedBody(cap, d, x, head, start, bytes, rest);
    case InChunks(body) =>
      ChunkedBodyDecodes(cap, x, d, head, body, rest);
      QuietPrefix(DrainStream(Some(cap), d, WithPending(x, d, Chunked(m0, Size)), EncodeBody(body) + rest));
  }

  lemma QuietPrefix(r: Drained<Exchange, DecodedMessage, Reason>)
    ensures Prepend(Quiet(), r) == r
  {
    JoinAssociative(r.batch, Quiet(), Quiet());
  }

  lemma FixedBody(cap: nat, d: Direction, x: Exchange, head: ParsedHead, start: Bytes, bytes: Bytes, rest: Bytes)
    requires PendingOf(x, d).Idle? && ReadsAsDeclared(head) && head.startLine == Trim(start) && !RespondsToHead(x, d)
    requires DeclaredBody(Trim(start), head.headers) == Length(|bytes|)
    ensures var m := Read(cap, d, start, head.headers, bytes);
            var r := Frame(x, d, head, bytes + rest);
            && r.Advance?
            && Prepend(r.emitted, DrainStream(Some(cap), d, r.control, r.rest))
               == Prepend(Batch([m], None), DrainStream(Some(cap), d, Track(x, m), rest))
  {
    hide DrainStream, Track, RespondsToHead, IsVersion, HasNoBodyStatus, SaysChunked, LengthOf, Trim;
    Http1Fragmentation.SameDirection(x, d, Idle, Idle);
    var m0 := Headed(d, head);
    if bytes == [] {
      assert [] + rest == rest;
      assert bytes[..0] == [];
    } else {
      var x' := WithPending(x, d, Fixed(m0, |bytes|));
      var m := Read(cap, d, start, head.headers, bytes);
      Http1Fragmentation.SameDirection(x, d, Fixed(m0, |bytes|), Idle);
      assert (bytes + rest)[..|bytes|] == bytes && (bytes + rest)[|bytes|..] == rest;
      assert [] + bytes[..Min(cap, |bytes|)] == bytes[..Min(cap, |bytes|)];
      assert Capture(m0, bytes, Some(cap)) == m;
      DrainUnfolds(Some(cap), d, x', bytes + rest);
      QuietPrefix(DrainStream(Some(cap), d, x', bytes + rest));
    }
  }

  /** A message written in full is reported with its start line, exactly its headers and the first `cap` bytes
      of its payload, flagged exactly when there are more, and decoding goes on right after it. */
  lemma WrittenMessageDecodes(cap: nat, d: Direction, x: Exchange, start: Bytes, headers: seq<Header>, b: Sent, rest: Bytes)
    requires PendingOf(x, d).Idle? && GoodStart(start) && GoodHeaders(headers) && LengthsAgree(headers)
    requires Belongs(start, headers, b, RespondsToHead(x, d))
    ensures var m := Read(cap, d, start, headers, PayloadOf(b));
            DrainStream(Some(cap), d, x, WrittenHead(start, headers) + Written(b) + rest)
            == Prepend(Batch([m], None), DrainStream(Some(cap), d, Track(x, m), rest))
  {
    hide DrainStream, Step, Frame, Track, Belongs, GoodStart, GoodHeaders, LengthsAgree, ReadsAsDeclared, WrittenHead, Written, RespondsToHead;
    var wire := WrittenHead(start, headers) + (Written(b) + rest);
    assert WrittenHead(start, headers) + Written(b) + rest == wire;
    HeadSteps(Some(cap), d, x, start, headers, Written(b) + rest);
    var head: ParsedHead :|
      && head.startLine == Trim(start) && head.headers == headers && ReadsAsDeclared(head)
      && Step(Some(cap), d, x, wire) == Frame(x, d, head, Written(b) + rest);
    DrainUnfolds(Some(cap), d, x, wire);
    BodyFollows(cap, d, x, head, start, b, rest);
  }

  /** A response whose end is the end of the connection is reported when that comes, with everything received. */
  lemma MessageToTheEnd(cap: nat, s: Decoder, start: Bytes, headers: seq<Header>, payload: Bytes)
    requires s.exchange.server.Idle? && s.server == [] && GoodStart(start) && GoodHeaders(headers) && LengthsAgree(headers)
    requires !RespondsToHead(s.exchange, ServerToClient) && DeclaredBody(Trim(start), headers) == ToEnd
    ensures var (s1, r1) := Push(Some(cap), s, ServerToClient, WrittenHead(start, headers) + payload);
            var (s2, r2) := Finish(s1, ServerToClient);
            var m := Read(cap, ServerToClient, start, headers, payload);
            && r1 == Batch([], None) && r2 == Batch([m], None)
            && s2 == s.(exchange := Track(s.exchange, m))
  {
    hide DrainStream, Step, Track, GoodStart, GoodHeaders, LengthsAgree, WrittenHead, RespondsToHead, IsVersion, HasNoBodyStatus, SaysChunked, LengthOf, Trim;
    var d, x := ServerToClient, s.exchange;
    var wire := WrittenHead(start, headers) + payload;
    assert [] + wire == wire;
    HeadSteps(Some(cap), d, x, start, headers, payload);
    var head: ParsedHead :|
      && head.startLine == Trim(start) && head.headers == headers && ReadsAsDeclared(head)
      && Step(Some(cap), d, x, wire) == Frame(x, d, head, payload);
    var m0 := Headed(d, head);
    var waiting := WithPending(x, d, UntilEof(m0));
    DrainUnfolds(Some(cap), d, x, wire);
    DrainUnfolds(Some(cap), d, waiting, payload);
    WaitsForEnd(cap, d, x, m0, payload);
    assert [] + payload[..Min(cap, |payload|)] == payload[..Min(cap, |payload|)];
    Http1Fragmentation.SameDirection(x, d, UntilEof(Capture(m0, payload, Some(cap))), Idle);
    Http1Fragmentation.SameDirection(x, d, Idle, Idle);
  }

  lemma WaitsForEnd(cap: nat, d: Direction, x: Exchange, m: DecodedMessage, payload: Bytes)
    ensures Step(Some(cap), d, WithPending(x, d, UntilEof(m)), payload)
            == NeedMore(WithPending(x, d, UntilEof(Capture(m, payload, Some(cap)))), [])
  {
    hide Capture;
    Http1Fragmentation.SameDirection(x, d, UntilEof(m), UntilEof(Capture(m, payload, Some(cap))));
  }

  // ----------------------------------------------------------------------- pipelines

  datatype Request = Request(start: Bytes, headers: seq<Header>, body: Sent)

  ghost predicate Sendable(q: Request) {
    && GoodStart(q.start) && GoodHeaders(q.headers) && LengthsAgree(q.headers)
    && Belongs(q.start, q.headers, q.body, false)
  }

  function Wire(qs: seq<Request>): Bytes {
    if qs == [] then [] else WrittenHead(qs[0].start, qs[0].headers) + Written(qs[0].body) + Wire(qs[1..])
  }

  function ReadAll(cap: nat, qs: seq<Request>): seq<DecodedMessage> {
    seq(|qs|, i requires 0 <= i < |qs| => Read(cap, ClientToServer, qs[i].start, qs[i].headers, PayloadOf(qs[i].body)))
  }

  /** Pipelined requests are reported one by one, in order, each as it was written. */
  lemma {:induction false} PipelineDecodes(cap: nat, x: Exchange, qs: seq<Request>)
    requires x.client.Idle? && forall i :: 0 <= i < |qs| ==> Sendable(qs[i])
    ensures var r := DrainStream(Some(cap), ClientToServer, x, Wire(qs));
            r.batch == Batch(ReadAll(cap, qs), None) && r.rest == [] && r.control.client.Idle? && !r.halted
    decreases |qs|
  {
    hide DrainStream, Sendable, Written, WrittenHead, Read, Track, PayloadOf;
    if qs == [] {
      Http1Fragmentation.CleanPushLeavesTrace(Some(cap), ClientToServer, x, []);
      assert ReadAll(cap, qs) == [];
    } else {
      var q := qs[0];
      var m := Read(cap, ClientToServer, q.start, q.headers, PayloadOf(q.body));
      OneRequest(cap, x, q, Wire(qs[1..]));
      StillIdle(x, m);
      PipelineDecodes(cap, Track(x, m), qs[1..]);
      assert ReadAll(cap, qs) == [m] + ReadAll(cap, qs[1..]);
    }
  }

  lemma StillIdle(x: Exchange, m: DecodedMessage)
    ensures Track(x, m).client == x.client
  {
    hide Words, StatusOf;
  }

  lemma OneRequest(cap: nat, x: Exchange, q: Request, rest: Bytes)
    requires x.client.Idle? && Sendable(q)
    ensures var m := Read(cap, ClientToServer, q.start, q.headers, PayloadOf(q.body));
            DrainStream(Some(cap), ClientToServer, x, WrittenHead(q.start, q.headers) + Written(q.body) + rest)
            == Prepend(Batch([m], None), DrainStream(Some(cap), ClientToServer, Track(x, m), rest))
  {
    hide DrainStream, Written, WrittenHead, Track, Belongs, GoodStart, GoodHeaders, LengthsAgree;
    WrittenMessageDecodes(cap, ClientToServer, x, q.start, q.headers, q.body, rest);
  }

  /** From any state between requests, any fragmentation of a pipeline that never exceeds a size limit
      reports exactly its requests. */
  lemma RequestsCutAnywhere(cap: nat, s: Decoder, qs: seq<Request>, fragments: seq<Bytes>)
    requires s.exchange.client.Idle? && s.client == [] && (forall i :: 0 <= i < |qs| ==> Sendable(qs[i]))
    requires fragments != [] && Flatten(fragments) == Wire(qs)
    requires OkAtEveryCut(Http1Fragmentation.Pusher(Some(cap), ClientToServer), Http1Fragmentation.CleanFirst(Some(cap), ClientToServer), s, fragments)
    ensures var (s', r) := Feed(Http1Fragmentation.Pusher(Some(cap), ClientToServer), s, fragments);
            r == Batch(ReadAll(cap, qs), None) && s'.client == [] && s'.exchange.client.Idle?
  {
    hide DrainStream, Sendable, Wire, ReadAll;
    assert [] + Wire(qs) == Wire(qs);
    PipelineDecodes(cap, s.exchange, qs);
    Http1Fragmentation.Fragmentation(Some(cap), ClientToServer, s, fragments);
  }
}
