/** The capture budget: what streams hold, what the counter says, and exactly where they part. */
module Http2Budget {
  import opened ByteStrings
  import opened Streaming
  import opened Text
  import opened Http2
  import Grpc

  // ------------------------------------------------------------------ bytes held

  ghost function TotalHeld(m: map<nat, Stream>): nat
    decreases |m|
  {
    if m == map[] then 0 else
    var k :| k in m;
    Held(m[k]) + TotalHeld(m - {k})
  }

  /** Any stream may be taken out of the sum first. */
  lemma {:induction false} TakeOut(m: map<nat, Stream>, k: nat)
    requires k in m
    ensures TotalHeld(m) == Held(m[k]) + TotalHeld(m - {k})
    decreases |m|
  {
    hide Held;
    var j :| j in m && TotalHeld(m) == Held(m[j]) + TotalHeld(m - {j});
    if j != k {
      TakeOut(m - {j}, k);
      TakeOut(m - {k}, j);
      assert m - {j} - {k} == m - {k} - {j};
    }
  }

  function HeldAt(c: Core, id: nat): nat {
    if id in c.streams then Held(c.streams[id]) else 0
  }

  /** How far the counter is above the bytes held. */
  ghost function Slack(c: Core): int {
    c.retained - TotalHeld(c.streams)
  }

  lemma SetStreamTotals(c: Core, id: nat, s: Stream)
    ensures TotalHeld(SetStream(c, id, s).streams) == TotalHeld(c.streams) - HeldAt(c, id) + Held(s)
    ensures HeldAt(c, id) <= TotalHeld(c.streams)
  {
    hide Held, TotalHeld;
    var m := c.streams[id := s];
    TakeOut(m, id);
    assert m - {id} == c.streams - {id};
    if id in c.streams {
      TakeOut(c.streams, id);
    } else {
      assert c.streams - {id} == c.streams;
    }
  }

  lemma DropTotals(c: Core, id: nat)
    ensures TotalHeld(c.streams - {id}) == TotalHeld(c.streams) - HeldAt(c, id)
    ensures HeldAt(c, id) <= TotalHeld(c.streams)
  {
    hide Held, TotalHeld;
    if id in c.streams {
      TakeOut(c.streams, id);
    } else {
      assert c.streams - {id} == c.streams;
    }
  }

  // ------------------------------------------------------------------- the invariant

  predicate StreamWithin(maxBody: nat, s: Stream) {
    && BodyLength(s.request) <= maxBody && BodyLength(s.response) <= maxBody
    && Grpc.Retained(s.grpcRequest) <= maxBody && Grpc.Retained(s.grpcResponse) <= maxBody
  }

  predicate StreamsWithin(maxBody: nat, m: map<nat, Stream>) {
    |m| <= MAX_TRACKED_STREAMS && forall id :: id in m ==> StreamWithin(maxBody, m[id])
  }

  /** Bytes held never exceed the counter, the counter never exceeds 4 MiB, at most 256 streams are
      tracked, and no body exceeds the cap. */
  ghost predicate Within(maxBody: nat, c: Core) {
    0 <= Slack(c) && c.retained <= MAX_INFLIGHT_CAPTURE && StreamsWithin(maxBody, c.streams)
  }

  lemma SetStreamWithin(maxBody: nat, c: Core, id: nat, s: Stream)
    requires StreamsWithin(maxBody, c.streams) && StreamWithin(maxBody, s)
    requires id in c.streams || |c.streams| < MAX_TRACKED_STREAMS
    ensures StreamsWithin(maxBody, SetStream(c, id, s).streams)
  {
    hide StreamWithin;
    var m := c.streams[id := s];
    assert m.Keys == c.streams.Keys + {id};
    if id in c.streams { assert m.Keys == c.streams.Keys; }
  }

  lemma DropWithin(maxBody: nat, m: map<nat, Stream>, id: nat)
    requires StreamsWithin(maxBody, m)
    ensures StreamsWithin(maxBody, m - {id})
  {
    hide StreamWithin;
    var m' := m - {id};
    assert m'.Keys <= m.Keys;
    SubsetSize(m'.Keys, m.Keys);
  }

  lemma SubsetSize(a: set<nat>, b: set<nat>)
    requires a <= b
    ensures |a| <= |b|
  {
    assert b == a + (b - a);
  }

  // ------------------------------------------------------------------ building blocks

  /** Removing a stream subtracts exactly what it held. */
  lemma RemoveBalances(maxBody: nat, c: Core, id: nat)
    requires Within(maxBody, c)
    ensures Within(maxBody, RemoveStream(c, id)) && Slack(RemoveStream(c, id)) == Slack(c)
    ensures RemoveStream(c, id).retained == c.retained - HeldAt(c, id)
  {
    hide Held, StreamsWithin;
    DropTotals(c, id);
    DropWithin(maxBody, c.streams, id);
  }

  /** A completed message gives back exactly its body. */
  lemma CompleteBalances(maxBody: nat, c: Core, d: Direction, id: nat, s: Stream, p: DecodedMessage, m: DecodedMessage)
    requires PendingOf(s, d) == Some(p) && |p.body| <= |m.body| && StreamWithin(maxBody, s)
    requires id in c.streams && Held(s) == Held(c.streams[id]) && StreamsWithin(maxBody, c.streams)
    requires |m.body| - |p.body| <= Slack(c) && c.retained <= MAX_INFLIGHT_CAPTURE
    ensures var c' := Complete(c, d, id, s, m).core;
            Within(maxBody, c') && Slack(c') == Slack(c) - (|m.body| - |p.body|)
    ensures |m.body| <= c.retained
  {
    hide StreamsWithin, WithMetadata, RemoveStream;
    var s' := WithPending(s, d, None);
    assert Held(s') == Held(s) - |p.body| && StreamWithin(maxBody, s');
    SetStreamTotals(c, id, s');
    SetStreamWithin(maxBody, c, id, s');
    var c1 := SetStream(c, id, s').(retained := Monus(c.retained, |m.body|));
    assert Slack(c1) == Slack(c) - (|m.body| - |p.body|);
    RemoveBalances(maxBody, c1, id);
  }

  // ------------------------------------------------------------------------ headers

  /** Initial headers on a stream whose body is still pending drop that body without giving it back. */
  function HeadersLeak(c: Core, d: Direction, id: nat, headers: seq<Header>): nat {
    if id in c.streams && !Marked(c, id, headers).grpc && InitialLine(headers).Some?
    then BodyLength(PendingOf(c.streams[id], d)) else 0
  }

  lemma MarkedHolds(maxBody: nat, c: Core, id: nat, headers: seq<Header>)
    requires StreamsWithin(maxBody, c.streams)
    ensures var s := Marked(c, id, headers);
            && Held(s) == HeldAt(c, id) && StreamWithin(maxBody, s)
            && (forall d :: PendingOf(s, d) == if id in c.streams then PendingOf(c.streams[id], d) else None)
  {
    hide HeaderValue, IsGrpc;
  }

  lemma NewPendingBalances(maxBody: nat, c: Core, d: Direction, id: nat, s: Stream, p: Option<DecodedMessage>)
    requires Within(maxBody, c) && StreamWithin(maxBody, s) && Held(s) == HeldAt(c, id)
    requires id in c.streams || |c.streams| < MAX_TRACKED_STREAMS
    requires BodyLength(p) <= BodyLength(PendingOf(s, d))
    ensures var c' := SetStream(c, id, WithPending(s, d, p));
            Within(maxBody, c') && Slack(c') == Slack(c) + BodyLength(PendingOf(s, d)) - BodyLength(p)
  {
    hide StreamsWithin;
    var s' := WithPending(s, d, p);
    SetStreamTotals(c, id, s');
    SetStreamWithin(maxBody, c, id, s');
  }

  lemma SameStreamBalances(maxBody: nat, c: Core, id: nat, s: Stream)
    requires Within(maxBody, c) && StreamWithin(maxBody, s) && Held(s) == HeldAt(c, id)
    requires id in c.streams || |c.streams| < MAX_TRACKED_STREAMS
    ensures Within(maxBody, SetStream(c, id, s)) && Slack(SetStream(c, id, s)) == Slack(c)
  {
    hide StreamsWithin, StreamWithin;
    SetStreamTotals(c, id, s);
    SetStreamWithin(maxBody, c, id, s);
  }

  lemma TrailersBalance(maxBody: nat, c: Core, d: Direction, id: nat, s: Stream, endStream: bool, headers: seq<Header>)
    requires Within(maxBody, c) && StreamWithin(maxBody, s) && Held(s) == HeldAt(c, id)
    requires id in c.streams || |c.streams| < MAX_TRACKED_STREAMS
    requires PendingOf(s, d).Some? ==> id in c.streams
    ensures var c' := ApplyTrailers(c, d, id, s, endStream, headers).core;
            Within(maxBody, c') && Slack(c') == Slack(c)
  {
    hide StreamsWithin, StreamWithin, Held, Slack, Complete, WithPending;
    match PendingOf(s, d)
    case None => SameStreamBalances(maxBody, c, id, s);
    case Some(p) =>
      var p' := p.(headers := p.headers + headers);
      if endStream {
        CompleteBalances(maxBody, c, d, id, s, p, p');
      } else {
        NewPendingBalances(maxBody, c, d, id, s, Some(p'));
      }
  }

  lemma HeadersBalance(maxBody: nat, c: Core, d: Direction, id: nat, endStream: bool, headers: seq<Header>)
    requires Within(maxBody, c)
    ensures var c' := ApplyHeaders(c, d, id, endStream, headers).core;
            Within(maxBody, c') && Slack(c') == Slack(c) + HeadersLeak(c, d, id, headers)
  {
    hide StreamWithin, Held, Slack, WithMetadata, GrpcHeaderMessage, InitialLine, ApplyTrailers, RemoveStream, Marked, WithPending;
    if id in c.streams || |c.streams| < MAX_TRACKED_STREAMS {
      var s := Marked(c, id, headers);
      MarkedHolds(maxBody, c, id, headers);
      SameStreamBalances(maxBody, c, id, s);
      RemoveBalances(maxBody, SetStream(c, id, s), id);
      if !s.grpc {
        match InitialLine(headers)
        case None => TrailersBalance(maxBody, c, d, id, s, endStream, headers);
        case Some(line) =>
          var m := DecodedMessage(d, line, headers, [], false);
          NewPendingBalances(maxBody, c, d, id, s, None);
          NewPendingBalances(maxBody, c, d, id, s, Some(m));
      }
    }
  }

  /** The block a frame completes, as HPACK decodes it. */
  function BlockLeak(env: Env, c: Core, d: Direction, f: Frame, block: HeaderBlock): nat {
    if !HasFlag(f.flags, FLAG_END_HEADERS) || block.exceeded then 0
    else
      var c1 := GiveToHpack(c, d, block.bytes);
      match env.hpack(SideOf(c1, d).history)
      case None => 0
      case Some(raw) => if DecodedSize(raw) > MAX_DECODED_HEADERS then 0 else HeadersLeak(c1, d, block.streamId, Lossy(env, raw))
  }

  lemma SidesDoNotCount(maxBody: nat, c: Core, d: Direction, side: Side)
    ensures Slack(WithSide(c, d, side)) == Slack(c) && (Within(maxBody, c) <==> Within(maxBody, WithSide(c, d, side)))
  {
  }

  lemma BlockBalances(env: Env, maxBody: nat, c: Core, d: Direction, f: Frame, block: HeaderBlock)
    requires Within(maxBody, c)
    ensures var c' := BlockSoFar(env, c, d, f, block).core;
            Within(maxBody, c') && Slack(c') == Slack(c) + BlockLeak(env, c, d, f, block)
  {
    hide Within, Slack, ApplyHeaders, HeadersLeak, HasFlag, DecodedSize, Lossy;
    SidesDoNotCount(maxBody, c, d, SideOf(c, d).(continuation := Some(block)));
    SidesDoNotCount(maxBody, c, d, SideOf(c, d).(history := SideOf(c, d).history + [block.bytes]));
    var c1 := GiveToHpack(c, d, block.bytes);
    match env.hpack(SideOf(c1, d).history)
    case None =>
    case Some(raw) => HeadersBalance(maxBody, c1, d, block.streamId, block.endStream, Lossy(env, raw));
  }

  // --------------------------------------------------------------------------- data

  /** A bad envelope flag drops what the parser held without giving it back. */
  function DataLeak(maxBody: nat, c: Core, d: Direction, f: Frame): nat {
    if f.streamId == 0 || f.streamId !in c.streams || DataFragment(f).BadFragment? || !c.streams[f.streamId].grpc then 0
    else
      var s := c.streams[f.streamId];
      var before := Grpc.Retained(GrpcOf(s, d));
      var at := Grpc.Source(d, f.streamId, Or(s.path, Ascii("/unknown")));
      if Grpc.Feed(at, CaptureLimit(maxBody, c, before), GrpcOf(s, d), DataFragment(f).bytes).halted then before else 0
  }

  lemma ParserBalances(maxBody: nat, c: Core, d: Direction, id: nat, p: Grpc.Parser)
    requires Within(maxBody, c) && id in c.streams
    requires var before := Grpc.Retained(GrpcOf(c.streams[id], d)); Grpc.Retained(p) <= CaptureLimit(maxBody, c, before)
    ensures var before := Grpc.Retained(GrpcOf(c.streams[id], d));
            var c1 := SetStream(c, id, WithGrpc(c.streams[id], d, p));
            var c2 := c1.(retained := Monus(c.retained, before) + Grpc.Retained(p));
            && before <= c.retained
            && Within(maxBody, c2) && Slack(c2) == Slack(c)
            && Slack(c1) == Slack(c) + before - Grpc.Retained(p)
            && (Grpc.Retained(p) == 0 ==> Within(maxBody, c1))
  {
    hide StreamsWithin, Grpc.Retained;
    assert StreamWithin(maxBody, c.streams[id]) by { WithinEach(maxBody, c, id); }
    var s' := WithGrpc(c.streams[id], d, p);
    SetStreamTotals(c, id, s');
    SetStreamWithin(maxBody, c, id, s');
  }

  lemma WithinEach(maxBody: nat, c: Core, id: nat)
    requires StreamsWithin(maxBody, c.streams) && id in c.streams
    ensures StreamWithin(maxBody, c.streams[id])
  {
  }

  lemma GrpcDataBalances(maxBody: nat, c: Core, d: Direction, f: Frame, data: Bytes)
    requires Within(maxBody, c) && f.streamId in c.streams && c.streams[f.streamId].grpc
    requires f.streamId != 0 && DataFragment(f) == Fragment(data)
    ensures var c' := GrpcData(maxBody, c, d, f, c.streams[f.streamId], data).core;
            Within(maxBody, c') && Slack(c') == Slack(c) + DataLeak(maxBody, c, d, f)
  {
    hide Held, Slack, StreamsWithin, Grpc.Feed, Grpc.HasIncomplete, MissingTrailers, HasFlag, RemoveStream, DataFragment;
    var s := c.streams[f.streamId];
    var before := Grpc.Retained(GrpcOf(s, d));
    var limit := CaptureLimit(maxBody, c, before);
    var at := Grpc.Source(d, f.streamId, Or(s.path, Ascii("/unknown")));
    WithinEach(maxBody, c, f.streamId);
    Grpc.FeedKeepsLimit(at, limit, GrpcOf(s, d), data);
    var r := Grpc.Feed(at, limit, GrpcOf(s, d), data);
    ParserBalances(maxBody, c, d, f.streamId, r.control);
    var c2 := SetStream(c, f.streamId, WithGrpc(s, d, r.control)).(retained := Monus(c.retained, before) + Grpc.Retained(r.control));
    RemoveBalances(maxBody, c2, f.streamId);
  }

  lemma BodyGrows(maxBody: nat, s: Stream, d: Direction, p: DecodedMessage, m: DecodedMessage)
    requires PendingOf(s, d) == Some(p) && StreamWithin(maxBody, s)
    ensures var s' := WithPending(s, d, Some(m));
            Held(s') == Held(s) - |p.body| + |m.body| && (|m.body| <= maxBody || |m.body| == |p.body| ==> StreamWithin(maxBody, s'))
  {
    hide Grpc.Retained;
  }

  lemma PlainDataBalances(maxBody: nat, c: Core, d: Direction, f: Frame, data: Bytes)
    requires Within(maxBody, c) && f.streamId in c.streams
    ensures var c' := PlainData(maxBody, c, d, f, c.streams[f.streamId], data).core;
            Within(maxBody, c') && Slack(c') == Slack(c)
  {
    hide StreamsWithin, StreamWithin, Held, TotalHeld, HasFlag, Complete, WithPending;
    var s := c.streams[f.streamId];
    match PendingOf(s, d)
    case None =>
    case Some(p) =>
      WithinEach(maxBody, c, f.streamId);
      var room := Min(Monus(maxBody, |p.body|), Monus(MAX_INFLIGHT_CAPTURE, c.retained));
      var captured := Min(room, |data|);
      var p' := p.(body := p.body + data[..captured], truncated := p.truncated || captured < |data|);
      var c1 := c.(retained := c.retained + captured);
      CompleteBalances(maxBody, c1, d, f.streamId, s, p, p');
      var s' := WithPending(s, d, Some(p'));
      BodyGrows(maxBody, s, d, p, p');
      SetStreamTotals(c1, f.streamId, s');
      SetStreamWithin(maxBody, c1, f.streamId, s');
  }

  lemma DataBalances(maxBody: nat, c: Core, d: Direction, f: Frame)
    requires Within(maxBody, c)
    ensures var c' := HandleData(maxBody, c, d, f).core;
            Within(maxBody, c') && Slack(c') == Slack(c) + DataLeak(maxBody, c, d, f)
  {
    hide Within, Slack, GrpcData, PlainData, DataFragment, Grpc.Feed;
    if f.streamId != 0 && f.streamId in c.streams && DataFragment(f).Fragment? {
      var data := DataFragment(f).bytes;
      if c.streams[f.streamId].grpc {
        GrpcDataBalances(maxBody, c, d, f, data);
      } else {
        PlainDataBalances(maxBody, c, d, f, data);
      }
    }
  }

  // ------------------------------------------------------------------------- frames

  /** Bytes the counter keeps for nothing after a frame: RST_STREAM on a stream that holds some, initial
      headers over a pending body, and a bad gRPC flag. */
  function Leak(env: Env, maxBody: nat, c: Core, d: Direction, f: Frame): nat {
    if SideOf(c, d).continuation.Some? && f.kind != FRAME_CONTINUATION then 0
    else if f.kind == FRAME_HEADERS then
      (if f.streamId == 0 || HeaderFragment(f).BadFragment? then 0
       else BlockLeak(env, c, d, f, Extend(HeaderBlock(f.streamId, HasFlag(f.flags, FLAG_END_STREAM), [], false), HeaderFragment(f).bytes)))
    else if f.kind == FRAME_CONTINUATION then
      (match SideOf(c, d).continuation
       case None => 0
       case Some(block) =>
         if f.streamId != block.streamId then 0
         else BlockLeak(env, WithContinuation(c, d, None), d, f, Extend(block, f.payload)))
    else if f.kind == FRAME_DATA then DataLeak(maxBody, c, d, f)
    else if f.kind == FRAME_RST_STREAM then HeldAt(c, f.streamId)
    else 0
  }

  /** Every frame keeps the invariant, and moves the counter away from the bytes held by exactly its leak. */
  lemma FrameBalances(env: Env, maxBody: nat, c: Core, d: Direction, f: Frame)
    requires Within(maxBody, c)
    ensures var c' := Settle(HandleFrame(env, maxBody, c, d, f), d).0;
            Within(maxBody, c') && Slack(c') == Slack(c) + Leak(env, maxBody, c, d, f)
  {
    hide Within, Slack, BlockSoFar, BlockLeak, HandleData, DataLeak, HeaderFragment, Extend, HasFlag, HeldAt;
    var h := HandleFrame(env, maxBody, c, d, f);
    SidesDoNotCount(maxBody, h.core, d, SideOf(h.core, d).(continuation := None));
    SidesDoNotCount(maxBody, c, d, SideOf(c, d).(continuation := None));
    DataBalances(maxBody, c, d, f);
    ResetBalances(maxBody, c, f.streamId);
    if f.kind == FRAME_HEADERS {
      match HeaderFragment(f)
      case BadFragment(_) =>
      case Fragment(bytes) =>
        BlockBalances(env, maxBody, c, d, f, Extend(HeaderBlock(f.streamId, HasFlag(f.flags, FLAG_END_STREAM), [], false), bytes));
    } else if f.kind == FRAME_CONTINUATION {
      match SideOf(c, d).continuation
      case None =>
      case Some(block) => BlockBalances(env, maxBody, WithContinuation(c, d, None), d, f, Extend(block, f.payload));
    }
  }

  lemma ResetBalances(maxBody: nat, c: Core, id: nat)
    requires Within(maxBody, c)
    ensures var c' := c.(streams := c.streams - {id});
            Within(maxBody, c') && Slack(c') == Slack(c) + HeldAt(c, id)
  {
    hide StreamsWithin;
    DropTotals(c, id);
    DropWithin(maxBody, c.streams, id);
  }

  // ---------------------------------------------------------------- loops and sessions

  /** The leak of one decision of the loop. */
  function StepLeak(env: Env, maxBody: nat, d: Direction, c: Core, b: Bytes): nat {
    if SideOf(c, d).expectPreface || SideOf(c, d).skip > 0 || |b| < FRAME_HEADER_BYTES
       || FrameLength(b) > MAX_OBSERVED_FRAME_PAYLOAD || |b| < FRAME_HEADER_BYTES + FrameLength(b) then 0
    else Leak(env, maxBody, c, d, ReadFrame(b))
  }

  function DrainLeak(env: Env, maxBody: nat, d: Direction, c: Core, b: Bytes): nat
    decreases |b|
  {
    var r := Step(env, maxBody, d, c, b);
    StepLeak(env, maxBody, d, c, b) + if r.Advance? then DrainLeak(env, maxBody, d, r.control, r.rest) else 0
  }

  lemma StepBalances(env: Env, maxBody: nat, d: Direction, c: Core, b: Bytes)
    requires Within(maxBody, c)
    ensures var c' := Step(env, maxBody, d, c, b).control;
            Within(maxBody, c') && Slack(c') == Slack(c) + StepLeak(env, maxBody, d, c, b)
  {
    hide Within, Slack, HandleFrame, Settle, Leak, PREFACE, ReadFrame;
    var side := SideOf(c, d);
    SidesDoNotCount(maxBody, c, d, side.(expectPreface := false));
    if side.skip > 0 {
      SidesDoNotCount(maxBody, c, d, side.(skip := Monus(side.skip, |b|)));
    } else if |b| >= FRAME_HEADER_BYTES {
      SidesDoNotCount(maxBody, c, d, side.(skip := FrameLength(b)));
      if |b| >= FRAME_HEADER_BYTES + FrameLength(b) {
        FrameBalances(env, maxBody, c, d, ReadFrame(b));
      }
    }
  }

  lemma {:induction false} DrainBalances(env: Env, maxBody: nat, d: Direction, c: Core, b: Bytes)
    requires Within(maxBody, c)
    ensures var c' := DrainFrames(env, maxBody, d, c, b).control;
            Within(maxBody, c') && Slack(c') == Slack(c) + DrainLeak(env, maxBody, d, c, b)
    decreases |b|
  {
    hide Within, Slack, Step, StepLeak, DrainFrames;
    StepBalances(env, maxBody, d, c, b);
    DrainUnfolds(env, maxBody, d, c, b);
    match Step(env, maxBody, d, c, b)
    case Advance(c', rest, _) => DrainBalances(env, maxBody, d, c', rest);
    case _ =>
  }

  datatype Event = Received(d: Direction, bytes: Bytes) | Ended(d: Direction)

  function Apply(env: Env, maxBody: nat, s: Decoder, e: Event): Decoder {
    if e.Received? then Push(env, maxBody, s, e.d, e.bytes).0 else Finish(env, maxBody, s, e.d).0
  }

  function EventLeak(env: Env, maxBody: nat, s: Decoder, e: Event): nat {
    DrainLeak(env, maxBody, e.d, s.core, BufferOf(s, e.d) + if e.Received? then e.bytes else [])
  }

  /** Any interleaving of pushes and ends of both directions. */
  function Run(env: Env, maxBody: nat, s: Decoder, events: seq<Event>): Decoder
    decreases events
  {
    if events == [] then s else Run(env, maxBody, Apply(env, maxBody, s, events[0]), events[1..])
  }

  function RunLeak(env: Env, maxBody: nat, s: Decoder, events: seq<Event>): nat
    decreases events
  {
    if events == [] then 0
    else EventLeak(env, maxBody, s, events[0]) + RunLeak(env, maxBody, Apply(env, maxBody, s, events[0]), events[1..])
  }

  lemma ApplyBalances(env: Env, maxBody: nat, s: Decoder, e: Event)
    requires Within(maxBody, s.core)
    ensures var s' := Apply(env, maxBody, s, e);
            Within(maxBody, s'.core) && Slack(s'.core) == Slack(s.core) + EventLeak(env, maxBody, s, e)
  {
    hide Within, Slack, DrainFrames, DrainLeak;
    var b := BufferOf(s, e.d) + if e.Received? then e.bytes else [];
    DrainBalances(env, maxBody, e.d, s.core, b);
    if e.Ended? {
      assert b == BufferOf(s, e.d);
      var c := DrainFrames(env, maxBody, e.d, s.core, b).control;
      SidesDoNotCount(maxBody, c, e.d, SideOf(c, e.d).(continuation := None, skip := 0));
    }
  }

  lemma {:induction false} RunBalances(env: Env, maxBody: nat, s: Decoder, events: seq<Event>)
    requires Within(maxBody, s.core)
    ensures var s' := Run(env, maxBody, s, events);
            Within(maxBody, s'.core) && Slack(s'.core) == Slack(s.core) + RunLeak(env, maxBody, s, events)
    decreases events
  {
    hide Within, Slack, Apply, EventLeak;
    if events != [] {
      ApplyBalances(env, maxBody, s, events[0]);
      RunBalances(env, maxBody, Apply(env, maxBody, s, events[0]), events[1..]);
    }
  }

  /** In every reachable state the counter is the bytes held plus the bytes leaked so far, at most 4 MiB;
      it is exact precisely on runs without a leak. */
  lemma CaptureBudget(env: Env, maxBody: nat, events: seq<Event>)
    ensures var c := Run(env, maxBody, Initial, events).core;
            var leaked := RunLeak(env, maxBody, Initial, events);
            && c.retained == TotalHeld(c.streams) + leaked && c.retained <= MAX_INFLIGHT_CAPTURE
            && |c.streams| <= MAX_TRACKED_STREAMS
            && (forall id :: id in c.streams ==> StreamWithin(maxBody, c.streams[id]))
            && (c.retained == TotalHeld(c.streams) <==> leaked == 0)
  {
    hide Run, RunLeak, StreamWithin;
    assert TotalHeld(map[]) == 0;
    RunBalances(env, maxBody, Initial, events);
  }
}
