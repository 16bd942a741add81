/** What HTTP/2 messages contain: the headers of their block, and the DATA payloads of their own stream put
    together in order, whatever other streams send in between (sections 6.1 and 8.1 of RFC 9113). */
module Http2Messages {
  import opened ByteStrings
  import opened Streaming
  import opened Text
  import opened Http2
  import opened Http2HeaderBlocks
  import Grpc

  // ------------------------------------------------------------- frames of both directions

  datatype Sent = Sent(d: Direction, frame: Frame)

  /** Frames of both directions, one after the other, with one report each. */
  function Handle(env: Env, maxBody: nat, c: Core, sent: seq<Sent>): (Core, seq<Report>)
    decreases |sent|
  {
    if sent == [] then (c, [])
    else
      var (c1, r) := Settle(HandleFrame(env, maxBody, c, sent[0].d, sent[0].frame), sent[0].d);
      var (c2, rs) := Handle(env, maxBody, c1, sent[1..]);
      (c2, [r] + rs)
  }

  /** A DATA payload, with the padding it is sent with. */
  function DataPayload(padding: Option<Bytes>, data: Bytes): Bytes
    requires padding.Some? ==> |padding.value| < 256
  {
    if padding.None? then data else [|padding.value|] + data + padding.value
  }

  /** A DATA frame of a stream carrying exactly these bytes, padded in any legal way. */
  ghost predicate Carries(f: Frame, id: nat, data: Bytes, last: bool) {
    && f.kind == FRAME_DATA && f.streamId == id && (HasFlag(f.flags, FLAG_END_STREAM) <==> last)
    && exists padding: Option<Bytes> ::
         && (padding.Some? ==> |padding.value| < 256)
         && (padding.Some? <==> HasFlag(f.flags, FLAG_PADDED))
         && f.payload == DataPayload(padding, data)
  }

  lemma CarriedIsRead(f: Frame, id: nat, data: Bytes, last: bool)
    requires Carries(f, id, data, last)
    ensures DataFragment(f) == Fragment(data)
  {
    hide HasFlag;
    var padding: Option<Bytes> :|
      && (padding.Some? ==> |padding.value| < 256)
      && (padding.Some? <==> HasFlag(f.flags, FLAG_PADDED))
      && f.payload == DataPayload(padding, data);
    if padding.Some? {
      assert f.payload[1..|f.payload| - |padding.value|] == data;
    }
  }

  // --------------------------------------------------------- other streams do not matter

  lemma OtherHeaders(c: Core, d: Direction, other: nat, endStream: bool, headers: seq<Header>, id: nat)
    requires other != id
    ensures var c' := ApplyHeaders(c, d, other, endStream, headers).core;
            (id in c'.streams <==> id in c.streams) && (id in c.streams ==> c'.streams[id] == c.streams[id])
  {
    hide Marked, InitialLine, GrpcHeaderMessage, WithMetadata, Held, PendingOf, WithPending;
  }

  lemma OtherBlock(env: Env, c: Core, d: Direction, f: Frame, block: HeaderBlock, id: nat)
    requires block.streamId != id
    ensures var c' := BlockSoFar(env, c, d, f, block).core;
            (id in c'.streams <==> id in c.streams) && (id in c.streams ==> c'.streams[id] == c.streams[id])
  {
    hide ApplyHeaders, HasFlag, DecodedSize, Lossy;
    var c1 := GiveToHpack(c, d, block.bytes);
    var raw := env.hpack(SideOf(c1, d).history);
    if raw.Some? { OtherHeaders(c1, d, block.streamId, block.endStream, Lossy(env, raw.value), id); }
  }

  lemma OtherData(maxBody: nat, c: Core, d: Direction, f: Frame, id: nat)
    requires f.streamId != id
    ensures var c' := HandleData(maxBody, c, d, f).core;
            (id in c'.streams <==> id in c.streams) && (id in c.streams ==> c'.streams[id] == c.streams[id])
  {
    hide Grpc.Feed, WithMetadata, MissingTrailers, Held, HasFlag, DataFragment, PendingOf, WithPending;
  }

  /** A frame of another stream, in either direction and of any kind, leaves the stream as it is. */
  lemma OtherStreamsDoNotMatter(env: Env, maxBody: nat, c: Core, d: Direction, f: Frame, id: nat)
    requires f.streamId != id
    ensures var c' := Settle(HandleFrame(env, maxBody, c, d, f), d).0;
            (id in c'.streams <==> id in c.streams) && (id in c.streams ==> c'.streams[id] == c.streams[id])
  {
    hide BlockSoFar, HandleData, HeaderFragment, Extend, HasFlag;
    OtherData(maxBody, c, d, f, id);
    if f.kind == FRAME_HEADERS {
      match HeaderFragment(f)
      case BadFragment(_) =>
      case Fragment(bytes) =>
        var block := HeaderBlock(f.streamId, HasFlag(f.flags, FLAG_END_STREAM), [], false);
        ExtendKeepsStream(block, bytes);
        OtherBlock(env, c, d, f, Extend(block, bytes), id);
    } else if f.kind == FRAME_CONTINUATION {
      match SideOf(c, d).continuation
      case None =>
      case Some(block) =>
        if f.streamId == block.streamId {
          ExtendKeepsStream(block, f.payload);
          OtherBlock(env, WithContinuation(c, d, None), d, f, Extend(block, f.payload), id);
        }
    }
  }

  // ---------------------------------------------------------------------- one plain body

  /** A stream waits for the rest of a message in direction `d`. */
  predicate Awaits(c: Core, d: Direction, id: nat, m: DecodedMessage) {
    id in c.streams && !c.streams[id].grpc && PendingOf(c.streams[id], d) == Some(m)
  }

  /** What a cap keeps of a body, flagged exactly when something is missing. */
  function Bodied(m: DecodedMessage, maxBody: nat, body: Bytes): DecodedMessage {
    m.(body := body[..Min(maxBody, |body|)], truncated := |body| > maxBody)
  }

  /** The budget has room for what the cap lets through. */
  predicate HasRoom(c: Core, maxBody: nat, before: Bytes, data: Bytes) {
    c.retained + Min(Monus(maxBody, |before|), |data|) <= MAX_INFLIGHT_CAPTURE
  }

  lemma OneData(env: Env, maxBody: nat, c: Core, d: Direction, id: nat, m: DecodedMessage, before: Bytes, f: Frame, data: Bytes, last: bool)
    requires id != 0 && Open(c, d) && Awaits(c, d, id, Bodied(m, maxBody, before)) && Carries(f, id, data, last)
    requires HasRoom(c, maxBody, before, data)
    ensures var (c', r) := Settle(HandleFrame(env, maxBody, c, d, f), d);
            && Open(c', d)
            && (last ==> r == Batch([WithMetadata(Bodied(m, maxBody, before + data), id, d)], None))
            && (!last ==> r == Batch([], None) && Awaits(c', d, id, Bodied(m, maxBody, before + data)))
  {
    hide HasFlag, DataFragment, WithMetadata, Carries, Held, Grpc.Feed;
    CarriedIsRead(f, id, data, last);
    FlagOf(f, id, data, last);
    BodyGrows(m, maxBody, before, data);
  }

  lemma FlagOf(f: Frame, id: nat, data: Bytes, last: bool)
    requires Carries(f, id, data, last)
    ensures f.kind == FRAME_DATA && f.streamId == id && (HasFlag(f.flags, FLAG_END_STREAM) <==> last)
  {
  }

  lemma BodyGrows(m: DecodedMessage, maxBody: nat, before: Bytes, data: Bytes)
    ensures var p := Bodied(m, maxBody, before);
            var captured := Min(Monus(maxBody, |p.body|), |data|);
            p.(body := p.body + data[..captured], truncated := p.truncated || captured < |data|) == Bodied(m, maxBody, before + data)
    ensures Monus(maxBody, |Bodied(m, maxBody, before).body|) == Monus(maxBody, |before|)
  {
    var p := Bodied(m, maxBody, before);
    var all := before + data;
    var captured := Min(Monus(maxBody, |p.body|), |data|);
    assert p.body + data[..captured] == all[..Min(maxBody, |all|)];
  }

  // ------------------------------------------------------------------ a body on the wire

  /** One frame of a conversation: a payload of the stream in question, or a frame of another stream. */
  datatype Step = Mine(frame: Frame, data: Bytes) | Other(sent: Sent)

  function SentAs(step: Step, d: Direction): Sent {
    if step.Mine? then Sent(d, step.frame) else step.sent
  }

  function AllSent(steps: seq<Step>, d: Direction): seq<Sent> {
    seq(|steps|, i requires 0 <= i < |steps| => SentAs(steps[i], d))
  }

  /** The payloads of the stream, put together in order. */
  function Together(steps: seq<Step>): Bytes {
    if steps == [] then []
    else (if steps[0].Mine? then steps[0].data else []) + Together(steps[1..])
  }

  /** Payloads of stream `id` among frames of other streams, the last frame of all ending the stream. */
  ghost predicate Speaks(steps: seq<Step>, id: nat) {
    && steps != [] && steps[|steps| - 1].Mine?
    && forall i :: 0 <= i < |steps| ==>
         match steps[i]
         case Mine(f, data) => Carries(f, id, data, i == |steps| - 1)
         case Other(sent) => sent.frame.streamId != id
  }

  /** Each payload finds the direction outside a header block and the budget with room for it. */
  predicate Unhindered(env: Env, maxBody: nat, c: Core, d: Direction, before: Bytes, steps: seq<Step>)
    decreases |steps|
  {
    steps == [] ||
    (&& (steps[0].Mine? ==> Open(c, d) && HasRoom(c, maxBody, before, steps[0].data))
     && var sent := SentAs(steps[0], d);
        Unhindered(env, maxBody, Settle(HandleFrame(env, maxBody, c, sent.d, sent.frame), sent.d).0, d,
                   before + (if steps[0].Mine? then steps[0].data else []), steps[1..]))
  }

  /** What the frames of the stream itself report: nothing, until the last one reports the whole message. */
  predicate ReportsOnce(rs: seq<Report>, steps: seq<Step>, m: DecodedMessage)
    requires |rs| == |steps|
  {
    forall i :: 0 <= i < |steps| && steps[i].Mine? ==> rs[i] == Batch(if i == |steps| - 1 then [m] else [], None)
  }

  lemma {:induction false} HandledOnce(env: Env, maxBody: nat, c: Core, sent: seq<Sent>)
    ensures |Handle(env, maxBody, c, sent).1| == |sent|
    decreases |sent|
  {
    hide HandleFrame, Settle;
    if sent != [] { HandledOnce(env, maxBody, Settle(HandleFrame(env, maxBody, c, sent[0].d, sent[0].frame), sent[0].d).0, sent[1..]); }
  }

  lemma SpeaksOn(steps: seq<Step>, id: nat)
    requires Speaks(steps, id) && |steps| > 1
    ensures Speaks(steps[1..], id)
  {
    hide Carries;
    var rest := steps[1..];
    assert forall i :: 0 <= i < |rest| ==> rest[i] == steps[i + 1];
  }

  lemma {:induction false} BodyArrives(env: Env, maxBody: nat, c: Core, d: Direction, id: nat, m: DecodedMessage, before: Bytes, steps: seq<Step>)
    requires id != 0 && Awaits(c, d, id, Bodied(m, maxBody, before)) && Speaks(steps, id)
    requires Unhindered(env, maxBody, c, d, before, steps)
    ensures var rs := Handle(env, maxBody, c, AllSent(steps, d)).1;
            |rs| == |steps| && ReportsOnce(rs, steps, WithMetadata(Bodied(m, maxBody, before + Together(steps)), id, d))
    decreases |steps|
  {
    hide HandleFrame, Settle, Carries, Open, HasRoom, WithMetadata, Bodied, Awaits, Speaks, ReportsOnce;
    var sent := AllSent(steps, d);
    HandledOnce(env, maxBody, c, sent);
    SpeaksFirst(steps, id);
    var rest := steps[1..];
    assert sent[0] == SentAs(steps[0], d) && sent[1..] == AllSent(rest, d);
    var (c1, r) := Settle(HandleFrame(env, maxBody, c, sent[0].d, sent[0].frame), sent[0].d);
    var now := before + if steps[0].Mine? then steps[0].data else [];
    assert now + Together(rest) == before + Together(steps);
    if steps[0].Mine? {
      OneData(env, maxBody, c, d, id, m, before, steps[0].frame, steps[0].data, |steps| == 1);
    } else {
      OtherStreamsDoNotMatter(env, maxBody, c, sent[0].d, sent[0].frame, id);
      StillAwaits(c, c1, d, id, Bodied(m, maxBody, before));
      assert before + [] == before;
    }
    var rs := Handle(env, maxBody, c1, sent[1..]).1;
    var whole := WithMetadata(Bodied(m, maxBody, before + Together(steps)), id, d);
    if |steps| > 1 {
      SpeaksOn(steps, id);
      BodyArrives(env, maxBody, c1, d, id, m, now, rest);
    } else {
      assert Together(rest) == [] && now + [] == now;
    }
    ReportsShift(r, rs, steps, whole);
  }

  lemma SpeaksFirst(steps: seq<Step>, id: nat)
    requires Speaks(steps, id)
    ensures |steps| > 0 && (|steps| == 1 ==> steps[0].Mine?)
    ensures steps[0].Mine? ==> Carries(steps[0].frame, id, steps[0].data, |steps| == 1)
    ensures steps[0].Other? ==> steps[0].sent.frame.streamId != id
  {
    hide Carries;
  }

  lemma ReportsShift(r: Report, rs: seq<Report>, steps: seq<Step>, m: DecodedMessage)
    requires |rs| + 1 == |steps| && (steps[0].Mine? ==> r == Batch(if |steps| == 1 then [m] else [], None))
    requires |steps| > 1 ==> ReportsOnce(rs, steps[1..], m)
    ensures ReportsOnce([r] + rs, steps, m)
  {
    var all, rest := [r] + rs, steps[1..];
    forall i | 0 <= i < |steps| && steps[i].Mine? ensures all[i] == Batch(if i == |steps| - 1 then [m] else [], None) {
      if i > 0 { assert all[i] == rs[i - 1] && steps[i] == rest[i - 1]; }
    }
  }

  lemma StillAwaits(c: Core, c': Core, d: Direction, id: nat, m: DecodedMessage)
    requires Awaits(c, d, id, m)
    requires (id in c'.streams <==> id in c.streams) && (id in c.streams ==> c'.streams[id] == c.streams[id])
    ensures Awaits(c', d, id, m)
  {
  }

  // ------------------------------------------------------------------------ initial lines

  /** The value of the first header of this name. */
  predicate IsFirst(headers: seq<Header>, name: Bytes, value: Bytes) {
    exists i :: 0 <= i < |headers| && FirstAt(headers, name, i) && headers[i].1 == value
  }

  predicate FirstAt(headers: seq<Header>, name: Bytes, i: nat) {
    && i < |headers| && EqIgnoreCase(headers[i].0, name)
    && forall j :: 0 <= j < i ==> !EqIgnoreCase(headers[j].0, name)
  }

  predicate Absent(headers: seq<Header>, name: Bytes) {
    forall i :: 0 <= i < |headers| ==> !EqIgnoreCase(headers[i].0, name)
  }

  lemma {:induction false} FirstIsFound(headers: seq<Header>, name: Bytes)
    ensures forall value :: IsFirst(headers, name, value) ==> HeaderValue(headers, name) == Some(value)
    ensures Absent(headers, name) ==> HeaderValue(headers, name) == None
    decreases |headers|
  {
    hide EqIgnoreCase;
    if headers != [] {
      var rest := headers[1..];
      FirstIsFound(rest, name);
      assert forall i :: 0 <= i < |rest| ==> rest[i] == headers[i + 1];
      forall value | IsFirst(headers, name, value) ensures HeaderValue(headers, name) == Some(value) {
        var i :| 0 <= i < |headers| && FirstAt(headers, name, i) && headers[i].1 == value;
        if i > 0 { assert FirstAt(rest, name, i - 1); }
      }
    }
  }

  /** The start line a header block stands for. */
  ghost predicate Announces(headers: seq<Header>, line: Bytes) {
    || (exists verb, path :: IsFirst(headers, Ascii(":method"), verb) && IsFirst(headers, Ascii(":path"), path)
                             && line == verb + Ascii(" ") + path + Ascii(" HTTP/2"))
    || (exists verb :: IsFirst(headers, Ascii(":method"), verb) && Absent(headers, Ascii(":path"))
                       && line == verb + Ascii(" / HTTP/2"))
    || (Absent(headers, Ascii(":method"))
        && exists status :: IsFirst(headers, Ascii(":status"), status) && line == Ascii("HTTP/2 ") + status)
  }

  lemma AnnouncedLine(headers: seq<Header>, line: Bytes)
    requires Announces(headers, line)
    ensures InitialLine(headers) == Some(line)
  {
    hide IsFirst, Absent, HeaderValue;
    FirstIsFound(headers, Ascii(":method"));
    FirstIsFound(headers, Ascii(":path"));
    FirstIsFound(headers, Ascii(":status"));
    RootPath();
    if exists verb :: IsFirst(headers, Ascii(":method"), verb) && Absent(headers, Ascii(":path")) && line == verb + Ascii(" / HTTP/2") {
      var verb :| IsFirst(headers, Ascii(":method"), verb) && Absent(headers, Ascii(":path")) && line == verb + Ascii(" / HTTP/2");
      assert verb + Ascii(" ") + Ascii("/") + Ascii(" HTTP/2") == verb + (Ascii(" ") + Ascii("/") + Ascii(" HTTP/2"));
    }
  }

  lemma RootPath()
    ensures Ascii(" ") + Ascii("/") + Ascii(" HTTP/2") == Ascii(" / HTTP/2")
  {
  }

  /** Not gRPC by its first content type. */
  ghost predicate NotGrpc(headers: seq<Header>) {
    || Absent(headers, Ascii("content-type"))
    || exists value :: IsFirst(headers, Ascii("content-type"), value) && !StartsWith(LowerAll(value), Ascii("application/grpc"))
  }

  lemma NotGrpcIsPlain(headers: seq<Header>)
    requires NotGrpc(headers)
    ensures !IsGrpc(headers)
  {
    hide IsFirst, Absent, HeaderValue;
    FirstIsFound(headers, Ascii("content-type"));
    assert LowerAll([]) == [] && |Ascii("application/grpc")| == 16;
  }

  /** Decoded headers as they are shown: each name and value as lossy text, in order. */
  predicate AreShown(env: Env, raw: seq<Header>, headers: seq<Header>) {
    |headers| == |raw| && forall i :: 0 <= i < |raw| ==> headers[i].0 == env.lossy(raw[i].0) && headers[i].1 == env.lossy(raw[i].1)
  }

  lemma ShownIsLossy(env: Env, raw: seq<Header>, headers: seq<Header>)
    requires AreShown(env, raw, headers)
    ensures Lossy(env, raw) == headers
  {
  }

  /** A complete header block of a plain stream starts a message. */
  ghost predicate Heads(env: Env, c: Core, d: Direction, f: Frame, id: nat, headers: seq<Header>, line: Bytes) {
    && Open(c, d) && id != 0 && f.kind == FRAME_HEADERS && f.streamId == id
    && HasFlag(f.flags, FLAG_END_HEADERS)
    && HeaderFragment(f).Fragment? && |HeaderFragment(f).bytes| <= MAX_HEADER_BLOCK
    && (var raw := env.hpack(SideOf(c, d).history + [HeaderFragment(f).bytes]);
        raw.Some? && DecodedSize(raw.value) <= MAX_DECODED_HEADERS && AreShown(env, raw.value, headers))
    && Announces(headers, line) && NotGrpc(headers)
    && (if id in c.streams then !c.streams[id].grpc else |c.streams| < MAX_TRACKED_STREAMS)
  }

  function Fresh(d: Direction, line: Bytes, headers: seq<Header>): DecodedMessage {
    DecodedMessage(d, line, headers, [], false)
  }

  lemma HeadStarts(env: Env, maxBody: nat, c: Core, d: Direction, f: Frame, id: nat, headers: seq<Header>, line: Bytes)
    requires Heads(env, c, d, f, id, headers, line)
    ensures var (c', r) := Settle(HandleFrame(env, maxBody, c, d, f), d);
            var m := Fresh(d, line, headers);
            && Open(c', d)
            && (HasFlag(f.flags, FLAG_END_STREAM) ==> r == Batch([WithMetadata(m, id, d)], None))
            && (!HasFlag(f.flags, FLAG_END_STREAM) ==> r == Batch([], None) && Awaits(c', d, id, m))
  {
    hide HasFlag, HeaderFragment, InitialLine, IsGrpc, HeaderValue, WithMetadata, DecodedSize, Lossy, Announces, NotGrpc, GrpcHeaderMessage, Extend;
    AnnouncedLine(headers, line);
    NotGrpcIsPlain(headers);
    ShownIsLossy(env, env.hpack(SideOf(c, d).history + [HeaderFragment(f).bytes]).value, headers);
    ShortBlockIsWhole(id, HasFlag(f.flags, FLAG_END_STREAM), HeaderFragment(f).bytes);
    ExtendKeepsStream(HeaderBlock(id, HasFlag(f.flags, FLAG_END_STREAM), [], false), HeaderFragment(f).bytes);
  }

  /** HEADERS of a plain stream, then its DATA frames among frames of other streams: its own frames report
      exactly one message, with the announced start line, the block's headers, and the first `maxBody` bytes
      of the payloads put together, flagged exactly when there are more. */
  lemma MessageArrives(env: Env, maxBody: nat, c: Core, d: Direction, head: Frame, id: nat, headers: seq<Header>, line: Bytes, steps: seq<Step>)
    requires Heads(env, c, d, head, id, headers, line) && !HasFlag(head.flags, FLAG_END_STREAM) && Speaks(steps, id)
    requires Unhindered(env, maxBody, Settle(HandleFrame(env, maxBody, c, d, head), d).0, d, [], steps)
    ensures var rs := Handle(env, maxBody, c, [Sent(d, head)] + AllSent(steps, d)).1;
            var body := Together(steps);
            var m := DecodedMessage(d, line, headers, body[..Min(maxBody, |body|)], |body| > maxBody);
            && |rs| == 1 + |steps| && rs[0] == Batch([], None)
            && ReportsOnce(rs[1..], steps, WithMetadata(m, id, d))
  {
    hide HandleFrame, Settle, Heads, Speaks, WithMetadata, Handle, Unhindered, ReportsOnce;
    HeadStarts(env, maxBody, c, d, head, id, headers, line);
    var (c1, r) := Settle(HandleFrame(env, maxBody, c, d, head), d);
    var sent := AllSent(steps, d);
    var m := Fresh(d, line, headers);
    assert Bodied(m, maxBody, []) == m;
    IdIsNotZero(env, c, d, head, id, headers, line);
    BodyArrives(env, maxBody, c1, d, id, m, [], steps);
    assert [] + Together(steps) == Together(steps);
    HandleFirst(env, maxBody, c, Sent(d, head), sent);
    var rs := Handle(env, maxBody, c1, sent).1;
    assert ([r] + rs)[1..] == rs;
  }

  lemma IdIsNotZero(env: Env, c: Core, d: Direction, f: Frame, id: nat, headers: seq<Header>, line: Bytes)
    requires Heads(env, c, d, f, id, headers, line)
    ensures id != 0
  {
  }

  lemma HandleFirst(env: Env, maxBody: nat, c: Core, first: Sent, more: seq<Sent>)
    ensures var (c1, r) := Settle(HandleFrame(env, maxBody, c, first.d, first.frame), first.d);
            Handle(env, maxBody, c, [first] + more).1 == [r] + Handle(env, maxBody, c1, more).1
  {
    hide HandleFrame, Settle;
    assert ([first] + more)[1..] == more;
  }

  /** Trailers that end a plain stream add their headers to the message and report it with the body so far. */
  lemma TrailersEndTheMessage(c: Core, d: Direction, id: nat, m: DecodedMessage, trailers: seq<Header>)
    requires Awaits(c, d, id, m) && NotGrpc(trailers)
    requires Absent(trailers, Ascii(":method")) && Absent(trailers, Ascii(":status"))
    ensures var h := ApplyHeaders(c, d, id, true, trailers);
            h.Ok? && h.messages == [WithMetadata(m.(headers := m.headers + trailers), id, d)]
  {
    hide HeaderValue, IsGrpc, WithMetadata, Held, NotGrpc, Absent;
    NotGrpcIsPlain(trailers);
    FirstIsFound(trailers, Ascii(":method"));
    FirstIsFound(trailers, Ascii(":status"));
  }

  /** The marks added to a reported message: its protocol, stream and side. */
  lemma MarksNameTheStream(m: DecodedMessage, id: nat, d: Direction)
    ensures var r := WithMetadata(m, id, d);
            && r.(headers := m.headers) == m && |r.headers| == |m.headers| + 3 && m.headers <= r.headers
            && r.headers[|m.headers|] == (Ascii("lens-protocol"), Ascii("http2"))
            && r.headers[|m.headers| + 1].0 == Ascii("lens-stream-id") && ParseUnsigned(r.headers[|m.headers| + 1].1, 10, id) == Some(id)
            && r.headers[|m.headers| + 2] == (Ascii("lens-boundary"), Ascii(if d == ClientToServer then "request" else "response"))
  {
    hide Ascii;
    var digits := Decimal(id);
    assert DigitOf(digits[0], 10).Some?;
  }
}
