/** The three ways the HTTP/2 capture counter comes to count bytes that nothing holds, each as a run. */
module Http2Leaks {
  import opened ByteStrings
  import opened Streaming
  import opened Text
  import opened Http2
  import opened Http2Budget
  import Grpc

  // ------------------------------------------------------------------ frames as bytes

  predicate Short(f: Frame) {
    |f.payload| < 256 && f.streamId < 256
  }

  function Encode(f: Frame): Bytes
    requires Short(f)
  {
    [0, 0, |f.payload|, f.kind, f.flags, 0, 0, 0, f.streamId] + f.payload
  }

  lemma EncodedReadsBack(f: Frame)
    requires Short(f)
    ensures var b := Encode(f);
            |b| == FRAME_HEADER_BYTES + |f.payload| && FrameLength(b) == |f.payload| && ReadFrame(b) == f
  {
    var b := Encode(f);
    assert [b[5] % 128, b[6], b[7], b[8]] == [0, 0, 0, f.streamId];
    assert b[FRAME_HEADER_BYTES..FRAME_HEADER_BYTES + |f.payload|] == f.payload;
  }

  /** A server that has nothing buffered and nothing to skip. */
  predicate AtFrame(s: Decoder) {
    s.server == [] && !s.core.server.expectPreface && s.core.server.skip == 0
  }

  lemma PushOneFrame(env: Env, maxBody: nat, s: Decoder, f: Frame)
    requires AtFrame(s) && Short(f)
    ensures Apply(env, maxBody, s, Received(ServerToClient, Encode(f))) ==
              s.(core := Settle(HandleFrame(env, maxBody, s.core, ServerToClient, f), ServerToClient).0)
  {
    hide HandleFrame, Settle, ReadFrame, Encode, PREFACE;
    var b := Encode(f);
    EncodedReadsBack(f);
    var (c, report) := Settle(HandleFrame(env, maxBody, s.core, ServerToClient, f), ServerToClient);
    assert [] + b == b && b[|b|..] == [];
    DrainUnfolds(env, maxBody, ServerToClient, s.core, b);
    assert Step(env, maxBody, ServerToClient, s.core, b) == Advance(c, [], report);
    DrainUnfolds(env, maxBody, ServerToClient, c, []);
    NothingBuffered(env, maxBody, c);
  }

  lemma NothingBuffered(env: Env, maxBody: nat, c: Core)
    ensures Step(env, maxBody, ServerToClient, c, []).NeedMore? && Step(env, maxBody, ServerToClient, c, []).rest == []
    ensures Step(env, maxBody, ServerToClient, c, []).control == c
  {
    PrefaceLength();
    assert [][..0] == PREFACE[..0];
  }

  // --------------------------------------------------------------------- the scenes

  /** An HPACK that answers every block with these headers, and text that is already valid. */
  function Answering(headers: seq<Header>): Env {
    Env(_ => Some(headers), b => b)
  }

  function Plain(): seq<Header> {
    [(Ascii(":status"), Ascii("200"))]
  }

  function Grpcs(): seq<Header> {
    [(Ascii("content-type"), Ascii("application/grpc"))]
  }

  const HEAD: Frame := Frame(FRAME_HEADERS, FLAG_END_HEADERS, 1, [])

  function Carrying(payload: Bytes): Frame {
    Frame(FRAME_DATA, 0, 1, payload)
  }

  const RESET: Frame := Frame(FRAME_RST_STREAM, 0, 1, [])

  function Sent(f: Frame): Event
    requires Short(f)
  {
    Received(ServerToClient, Encode(f))
  }

  lemma ThreeFrames(env: Env, maxBody: nat, f: Frame, g: Frame, h: Frame, a: Core, b: Core, c: Core)
    requires Short(f) && Short(g) && Short(h)
    requires Settle(HandleFrame(env, maxBody, InitialCore, ServerToClient, f), ServerToClient).0 == a
    requires Settle(HandleFrame(env, maxBody, a, ServerToClient, g), ServerToClient).0 == b
    requires Settle(HandleFrame(env, maxBody, b, ServerToClient, h), ServerToClient).0 == c
    requires AtFrame(Initial.(core := a)) && AtFrame(Initial.(core := b))
    ensures Run(env, maxBody, Initial, [Sent(f), Sent(g), Sent(h)]).core == c
  {
    hide HandleFrame, Settle, Apply, Encode;
    PushOneFrame(env, maxBody, Initial, f);
    PushOneFrame(env, maxBody, Initial.(core := a), g);
    PushOneFrame(env, maxBody, Initial.(core := b), h);
    var events := [Sent(f), Sent(g), Sent(h)];
    assert events[1..] == [Sent(g), Sent(h)] && events[1..][1..] == [Sent(h)] && events[1..][1..][1..] == [];
    assert Run(env, maxBody, Initial.(core := b), [Sent(h)]) == Initial.(core := c);
  }

  /** One stream that holds nothing against a counter of one is a leak of one. */
  lemma LeakIsOne(env: Env, maxBody: nat, events: seq<Event>)
    requires var c := Run(env, maxBody, Initial, events).core;
             c.retained == 1 && c.streams.Keys <= {1} && forall id :: id in c.streams ==> Held(c.streams[id]) == 0
    ensures RunLeak(env, maxBody, Initial, events) == 1
  {
    hide Run, RunLeak;
    CaptureBudget(env, maxBody, events);
    var c := Run(env, maxBody, Initial, events).core;
    if 1 in c.streams {
      TakeOut(c.streams, 1);
      assert c.streams - {1} == map[];
    } else {
      assert c.streams == map[];
    }
  }

  // ------------------------------------------------------------------- header frames

  lemma PlainIsInitial()
    ensures InitialLine(Plain()) == Some(Ascii("HTTP/2 ") + Ascii("200")) && !IsGrpc(Plain())
    ensures HeaderValue(Plain(), Ascii(":path")).None?
  {
    var h := Plain();
    assert h[1..] == [];
    assert LowerAll(Ascii(":status"))[1] == 's' as int && LowerAll(Ascii(":method"))[1] == 'm' as int && LowerAll(Ascii(":path"))[1] == 'p' as int;
    assert LowerAll(Ascii("content-type"))[0] == 'c' as int && LowerAll(Ascii(":status"))[0] == ':' as int;
    assert |Ascii("application/grpc")| == 16;
  }

  lemma GrpcsAreGrpc()
    ensures IsGrpc(Grpcs()) && HeaderValue(Grpcs(), Ascii(":path")).None?
  {
    var h := Grpcs();
    assert h[1..] == [];
    assert LowerAll(Ascii("content-type"))[0] == 'c' as int && LowerAll(Ascii(":path"))[0] == ':' as int;
    assert LowerAll(Ascii("application/grpc")) == Ascii("application/grpc");
    assert StartsWith(Ascii("application/grpc"), Ascii("application/grpc"));
  }

  lemma HeadCompletesABlock(headers: seq<Header>, maxBody: nat, c: Core)
    requires c.server.continuation.None? && DecodedSize(headers) <= MAX_DECODED_HEADERS
    ensures HandleFrame(Answering(headers), maxBody, c, ServerToClient, HEAD)
            == ApplyHeaders(GiveToHpack(c, ServerToClient, []), ServerToClient, 1, false, headers)
  {
    hide ApplyHeaders, DecodedSize;
    assert HEAD.payload[0..0] == [];
    var none: Bytes := [];
    assert none[..0] == none && none + none == none;
    assert Lossy(Answering(headers), headers) == headers;
  }

  lemma SmallHeaders()
    ensures DecodedSize(Plain()) == 10 && DecodedSize(Grpcs()) == 28
  {
    assert Plain()[1..] == [] && Grpcs()[1..] == [];
    assert |Ascii(":status")| == 7 && |Ascii("200")| == 3 && |Ascii("content-type")| == 12 && |Ascii("application/grpc")| == 16;
  }

  const EMPTY_RESPONSE: DecodedMessage := DecodedMessage(ServerToClient, Ascii("HTTP/2 ") + Ascii("200"), Plain(), [], false)

  function Holding(body: Bytes): Stream {
    NewStream.(response := Some(EMPTY_RESPONSE.(body := body)))
  }

  function Served(blocks: nat, s: Stream, retained: nat): Core {
    Core(InitialCore.client, InitialCore.server.(history := seq(blocks, _ => [])), map[1 := s], retained)
  }

  /** Response headers give the stream a fresh response, whatever it held before. */
  lemma PlainHead(maxBody: nat, c: Core)
    requires c == InitialCore || c == Served(1, Holding([7]), 1)
    ensures var n := |c.server.history|;
            HandleFrame(Answering(Plain()), maxBody, c, ServerToClient, HEAD) == Ok(Served(n + 1, Holding([]), c.retained), [])
  {
    hide InitialLine, IsGrpc, HeaderValue, DecodedSize, HandleFrame, WithMetadata, GrpcHeaderMessage;
    SmallHeaders();
    PlainIsInitial();
    HeadCompletesABlock(Plain(), maxBody, c);
    var n := |c.server.history|;
    var c1 := GiveToHpack(c, ServerToClient, []);
    assert c1.server.history == seq(n + 1, _ => []);
    assert c1.streams[1 := Holding([])] == map[1 := Holding([])];
  }

  lemma PlainByte(maxBody: nat)
    requires maxBody > 0
    ensures HandleFrame(Answering(Plain()), maxBody, Served(1, Holding([]), 0), ServerToClient, Carrying([7]))
            == Ok(Served(1, Holding([7]), 1), [])
  {
    hide Complete, GrpcData;
    var c := Served(1, Holding([]), 0);
    assert [] + [7][..1] == [7];
    assert c.streams[1 := Holding([7])] == map[1 := Holding([7])];
  }

  // ------------------------------------------------------------------------ the runs

  /** RST_STREAM drops a held byte without giving it back. */
  lemma ResetLeaks(maxBody: nat)
    requires maxBody > 0
    ensures var events := [Sent(HEAD), Sent(Carrying([7])), Sent(RESET)];
            var c := Run(Answering(Plain()), maxBody, Initial, events).core;
            c.retained == 1 && c.streams == map[] && RunLeak(Answering(Plain()), maxBody, Initial, events) == 1
  {
    hide Run, RunLeak, HandleHeaders, HandleData, Held;
    var env := Answering(Plain());
    PlainHead(maxBody, InitialCore);
    PlainByte(maxBody);
    var b := Served(1, Holding([7]), 1);
    var c := b.(streams := map[]);
    assert b.streams - {1} == map[];
    ThreeFrames(env, maxBody, HEAD, Carrying([7]), RESET, Served(1, Holding([]), 0), b, c);
    LeakIsOne(env, maxBody, [Sent(HEAD), Sent(Carrying([7])), Sent(RESET)]);
  }

  /** Repeated response headers replace a held body without giving it back. */
  lemma RepeatedHeadersLeak(maxBody: nat)
    requires maxBody > 0
    ensures var events := [Sent(HEAD), Sent(Carrying([7])), Sent(HEAD)];
            var c := Run(Answering(Plain()), maxBody, Initial, events).core;
            c.retained == 1 && c == Served(2, Holding([]), 1) && RunLeak(Answering(Plain()), maxBody, Initial, events) == 1
  {
    hide Run, RunLeak, HandleFrame;
    var env := Answering(Plain());
    PlainHead(maxBody, InitialCore);
    PlainByte(maxBody);
    PlainHead(maxBody, Served(1, Holding([7]), 1));
    ThreeFrames(env, maxBody, HEAD, Carrying([7]), HEAD, Served(1, Holding([]), 0), Served(1, Holding([7]), 1), Served(2, Holding([]), 1));
    LeakIsOne(env, maxBody, [Sent(HEAD), Sent(Carrying([7])), Sent(HEAD)]);
  }

  // -------------------------------------------------------------------- bad envelope flag

  function Parsing(p: Grpc.Parser): Stream {
    NewStream.(grpc := true, grpcResponse := p)
  }

  const HALFWAY: Bytes := [0, 0, 0, 0, 2, 7]
  const BAD_NEXT: Bytes := [8, 2, 0, 0, 0, 0]

  function Half(limit: nat): Grpc.Parser {
    Grpc.Parser([], Some(Grpc.Payload(false, 2, 1, [7], limit)))
  }

  lemma GrpcHead(maxBody: nat)
    ensures Settle(HandleFrame(Answering(Grpcs()), maxBody, InitialCore, ServerToClient, HEAD), ServerToClient).0
            == Served(1, Parsing(Grpc.Ready), 0)
  {
    hide IsGrpc, HeaderValue, DecodedSize, HandleFrame, GrpcHeaderMessage, InitialLine;
    SmallHeaders();
    GrpcsAreGrpc();
    HeadCompletesABlock(Grpcs(), maxBody, InitialCore);
    var c1 := GiveToHpack(InitialCore, ServerToClient, []);
    assert c1.server.history == seq(1, _ => []);
    assert c1.streams[1 := Parsing(Grpc.Ready)] == map[1 := Parsing(Grpc.Ready)];
  }

  lemma HalfFeeds(at: Grpc.Source, limit: nat)
    requires limit > 0
    ensures var r := Grpc.Feed(at, limit, Grpc.Ready, HALFWAY); r.control == Half(limit) && !r.halted
  {
    hide Grpc.Feed, Grpc.EnvelopeMessage;
    var started := Grpc.Parser([], Some(Grpc.Payload(false, 2, 2, [], limit)));
    assert [] + HALFWAY[..5] == [0, 0, 0, 0, 2] && [0, 0, 0, 0, 2][1..] == [0, 0, 0, 2];
    assert HALFWAY[5..] == [7];
    Grpc.FeedUnfolds(at, limit, Grpc.Ready, HALFWAY);
    Grpc.FeedUnfolds(at, limit, started, [7]);
    assert [] + [7][..1] == [7];
  }

  lemma BadNextHalts(at: Grpc.Source, limit: nat, first: nat)
    ensures var r := Grpc.Feed(at, limit, Half(first), BAD_NEXT); r.control == Grpc.Ready && r.halted
  {
    hide Grpc.Feed, Grpc.EnvelopeMessage;
    assert BAD_NEXT[1..] == [2, 0, 0, 0, 0];
    var bad: Bytes := [2, 0, 0, 0, 0];
    assert [] + bad[..5] == bad;
    Grpc.FeedUnfolds(at, limit, Half(first), BAD_NEXT);
    Grpc.FeedUnfolds(at, limit, Grpc.Ready, bad);
  }

  lemma GrpcHalf(maxBody: nat)
    requires maxBody > 0
    ensures exists limit ::
              Settle(HandleFrame(Answering(Grpcs()), maxBody, Served(1, Parsing(Grpc.Ready), 0), ServerToClient, Carrying(HALFWAY)), ServerToClient).0
              == Served(1, Parsing(Half(limit)), 1)
  {
    hide Grpc.Feed, PlainData;
    var c := Served(1, Parsing(Grpc.Ready), 0);
    var limit := CaptureLimit(maxBody, c, 0);
    HalfFeeds(Grpc.Source(ServerToClient, 1, Ascii("/unknown")), limit);
    assert c.streams[1 := Parsing(Half(limit))] == map[1 := Parsing(Half(limit))];
    assert Settle(HandleFrame(Answering(Grpcs()), maxBody, c, ServerToClient, Carrying(HALFWAY)), ServerToClient).0
           == Served(1, Parsing(Half(limit)), 1);
  }

  lemma GrpcBad(maxBody: nat, limit: nat)
    ensures Settle(HandleFrame(Answering(Grpcs()), maxBody, Served(1, Parsing(Half(limit)), 1), ServerToClient, Carrying(BAD_NEXT)), ServerToClient).0
            == Served(1, Parsing(Grpc.Ready), 1)
  {
    hide Grpc.Feed, PlainData;
    var c := Served(1, Parsing(Half(limit)), 1);
    BadNextHalts(Grpc.Source(ServerToClient, 1, Ascii("/unknown")), CaptureLimit(maxBody, c, 1), limit);
    assert c.streams[1 := Parsing(Grpc.Ready)] == map[1 := Parsing(Grpc.Ready)];
  }

  /** A bad envelope flag drops what the parser held without giving it back. */
  lemma BadFlagLeaks(maxBody: nat)
    requires maxBody > 0
    ensures var events := [Sent(HEAD), Sent(Carrying(HALFWAY)), Sent(Carrying(BAD_NEXT))];
            var c := Run(Answering(Grpcs()), maxBody, Initial, events).core;
            c.retained == 1 && c == Served(1, Parsing(Grpc.Ready), 1) && RunLeak(Answering(Grpcs()), maxBody, Initial, events) == 1
  {
    hide Run, RunLeak, HandleFrame, Settle;
    var env := Answering(Grpcs());
    GrpcHead(maxBody);
    GrpcHalf(maxBody);
    var limit :| Settle(HandleFrame(env, maxBody, Served(1, Parsing(Grpc.Ready), 0), ServerToClient, Carrying(HALFWAY)), ServerToClient).0
                 == Served(1, Parsing(Half(limit)), 1);
    GrpcBad(maxBody, limit);
    ThreeFrames(env, maxBody, HEAD, Carrying(HALFWAY), Carrying(BAD_NEXT),
                Served(1, Parsing(Grpc.Ready), 0), Served(1, Parsing(Half(limit)), 1), Served(1, Parsing(Grpc.Ready), 1));
    LeakIsOne(env, maxBody, [Sent(HEAD), Sent(Carrying(HALFWAY)), Sent(Carrying(BAD_NEXT))]);
  }
}
