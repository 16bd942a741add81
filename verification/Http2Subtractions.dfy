/** Every saturating subtraction the HTTP/2 decoder evaluates is an exact one. */
module Http2Subtractions {
  import opened ByteStrings
  import opened Streaming
  import opened Http2
  import opened Http2Budget
  import opened Http2Fragmentation
  import Grpc

  /** One evaluated subtraction: what is taken from what. */
  datatype Subtraction = Subtraction(from: nat, take: nat)

  predicate Exact(subs: seq<Subtraction>) {
    forall i :: 0 <= i < |subs| ==> Monus(subs[i].from, subs[i].take) == subs[i].from - subs[i].take
  }

  lemma ExactJoins(a: seq<Subtraction>, b: seq<Subtraction>)
    requires Exact(a) && Exact(b)
    ensures Exact(a + b)
  {
  }

  // --------------------------------------------- what each operation subtracts, in order

  function RemoveSubs(c: Core, id: nat): seq<Subtraction> {
    if id in c.streams then [Subtraction(c.retained, Held(c.streams[id]))] else []
  }

  function CompleteSubs(c: Core, d: Direction, id: nat, s: Stream, m: DecodedMessage): seq<Subtraction> {
    var c1 := SetStream(c, id, WithPending(s, d, None)).(retained := Monus(c.retained, |m.body|));
    [Subtraction(c.retained, |m.body|)] + if d == ServerToClient then RemoveSubs(c1, id) else []
  }

  function HeadersSubs(c: Core, d: Direction, id: nat, endStream: bool, headers: seq<Header>): seq<Subtraction> {
    if id !in c.streams && |c.streams| >= MAX_TRACKED_STREAMS then []
    else
      var s := Marked(c, id, headers);
      if s.grpc then
        if endStream && d == ServerToClient then RemoveSubs(SetStream(c, id, s), id) else []
      else if InitialLine(headers).None? && PendingOf(s, d).Some? && endStream then
        CompleteSubs(c, d, id, s, PendingOf(s, d).value.(headers := PendingOf(s, d).value.headers + headers))
      else []
  }

  function BlockSubs(env: Env, c: Core, d: Direction, f: Frame, block: HeaderBlock): seq<Subtraction> {
    if !HasFlag(f.flags, FLAG_END_HEADERS) || block.exceeded then []
    else
      var c1 := GiveToHpack(c, d, block.bytes);
      match env.hpack(SideOf(c1, d).history)
      case None => []
      case Some(raw) =>
        if DecodedSize(raw) > MAX_DECODED_HEADERS then []
        else HeadersSubs(c1, d, block.streamId, block.endStream, Lossy(env, raw))
  }

  function ExtendSubs(block: HeaderBlock): seq<Subtraction> {
    [Subtraction(MAX_HEADER_BLOCK, |block.bytes|)]
  }

  /** The room left in an envelope, each time the parser captures into it. */
  function EnvelopeSubs(at: Grpc.Source, limit: nat, parser: Grpc.Parser, bytes: Bytes): seq<Subtraction>
    decreases |bytes|
  {
    var r := Grpc.Step(at, limit, parser, bytes);
    (if parser.pending.Some? then [Subtraction(limit, |parser.pending.value.body|)] else [])
    + if r.Advance? then EnvelopeSubs(at, limit, r.control, r.rest) else []
  }

  function GrpcDataSubs(maxBody: nat, c: Core, d: Direction, f: Frame, s: Stream, data: Bytes): seq<Subtraction> {
    var before := Grpc.Retained(GrpcOf(s, d));
    var at := Grpc.Source(d, f.streamId, Or(s.path, Ascii("/unknown")));
    var limit := CaptureLimit(maxBody, c, before);
    var r := Grpc.Feed(at, limit, GrpcOf(s, d), data);
    var c2 := SetStream(c, f.streamId, WithGrpc(s, d, r.control)).(retained := Monus(c.retained, before) + Grpc.Retained(r.control));
    EnvelopeSubs(at, limit, GrpcOf(s, d), data)
    + (if r.halted then [] else [Subtraction(c.retained, before)])
    + if !r.halted && HasFlag(f.flags, FLAG_END_STREAM) && !Grpc.HasIncomplete(r.control) && d == ServerToClient
      then RemoveSubs(c2, f.streamId) else []
  }

  function PlainDataSubs(maxBody: nat, c: Core, d: Direction, f: Frame, s: Stream, data: Bytes): seq<Subtraction> {
    match PendingOf(s, d)
    case None => []
    case Some(p) =>
      var room := Min(Monus(maxBody, |p.body|), Monus(MAX_INFLIGHT_CAPTURE, c.retained));
      var captured := Min(room, |data|);
      var p' := p.(body := p.body + data[..captured], truncated := p.truncated || captured < |data|);
      [Subtraction(maxBody, |p.body|)]
      + if HasFlag(f.flags, FLAG_END_STREAM) then CompleteSubs(c.(retained := c.retained + captured), d, f.streamId, s, p') else []
  }

  function DataSubs(maxBody: nat, c: Core, d: Direction, f: Frame): seq<Subtraction> {
    if f.streamId == 0 || DataFragment(f).BadFragment? then []
    else
      [Subtraction(MAX_INFLIGHT_CAPTURE, c.retained)]
      + if f.streamId !in c.streams then []
        else
          var s, data := c.streams[f.streamId], DataFragment(f).bytes;
          if s.grpc then GrpcDataSubs(maxBody, c, d, f, s, data) else PlainDataSubs(maxBody, c, d, f, s, data)
  }

  function FrameSubs(env: Env, maxBody: nat, c: Core, d: Direction, f: Frame): seq<Subtraction> {
    if SideOf(c, d).continuation.Some? && f.kind != FRAME_CONTINUATION then []
    else if f.kind == FRAME_HEADERS then
      (if f.streamId == 0 || HeaderFragment(f).BadFragment? then []
       else
         var block := HeaderBlock(f.streamId, HasFlag(f.flags, FLAG_END_STREAM), [], false);
         ExtendSubs(block) + BlockSubs(env, c, d, f, Extend(block, HeaderFragment(f).bytes)))
    else if f.kind == FRAME_CONTINUATION then
      (match SideOf(c, d).continuation
       case None => []
       case Some(block) =>
         if f.streamId != block.streamId then []
         else ExtendSubs(block) + BlockSubs(env, WithContinuation(c, d, None), d, f, Extend(block, f.payload)))
    else if f.kind == FRAME_DATA then DataSubs(maxBody, c, d, f)
    else []
  }

  // ------------------------------------------------------------------ each one is exact

  lemma RemoveIsExact(maxBody: nat, c: Core, id: nat)
    requires Within(maxBody, c)
    ensures Exact(RemoveSubs(c, id))
  {
    hide Held, StreamsWithin;
    DropTotals(c, id);
  }

  lemma CompleteIsExact(maxBody: nat, c: Core, d: Direction, id: nat, s: Stream, p: DecodedMessage, m: DecodedMessage)
    requires PendingOf(s, d) == Some(p) && |p.body| <= |m.body| && StreamWithin(maxBody, s)
    requires id in c.streams && Held(s) == Held(c.streams[id]) && StreamsWithin(maxBody, c.streams)
    requires |m.body| - |p.body| <= Slack(c) && c.retained <= MAX_INFLIGHT_CAPTURE
    ensures Exact(CompleteSubs(c, d, id, s, m))
  {
    hide StreamsWithin, RemoveSubs, StreamWithin, Held, TotalHeld, WithPending, PendingOf;
    CompleteBalances(maxBody, c, d, id, s, p, m);
    TakePendingOut(maxBody, c, d, id, s, p, m);
    var c1 := SetStream(c, id, WithPending(s, d, None)).(retained := Monus(c.retained, |m.body|));
    RemoveIsExact(maxBody, c1, id);
  }

  lemma TakePendingOut(maxBody: nat, c: Core, d: Direction, id: nat, s: Stream, p: DecodedMessage, m: DecodedMessage)
    requires PendingOf(s, d) == Some(p) && |p.body| <= |m.body| && StreamWithin(maxBody, s)
    requires id in c.streams && Held(s) == Held(c.streams[id]) && StreamsWithin(maxBody, c.streams)
    requires |m.body| - |p.body| <= Slack(c) && c.retained <= MAX_INFLIGHT_CAPTURE && |m.body| <= c.retained
    ensures Within(maxBody, SetStream(c, id, WithPending(s, d, None)).(retained := Monus(c.retained, |m.body|)))
  {
    hide StreamsWithin;
    var s' := WithPending(s, d, None);
    assert Held(s') == Held(s) - |p.body| && StreamWithin(maxBody, s');
    SetStreamTotals(c, id, s');
    SetStreamWithin(maxBody, c, id, s');
  }

  lemma HeadersAreExact(maxBody: nat, c: Core, d: Direction, id: nat, endStream: bool, headers: seq<Header>)
    requires Within(maxBody, c)
    ensures Exact(HeadersSubs(c, d, id, endStream, headers))
  {
    hide StreamsWithin, StreamWithin, Held, TotalHeld, Marked, InitialLine, RemoveSubs, CompleteSubs;
    if id in c.streams || |c.streams| < MAX_TRACKED_STREAMS {
      var s := Marked(c, id, headers);
      MarkedHolds(maxBody, c, id, headers);
      SameStreamBalances(maxBody, c, id, s);
      RemoveIsExact(maxBody, SetStream(c, id, s), id);
      if PendingOf(s, d).Some? {
        var p := PendingOf(s, d).value;
        CompleteIsExact(maxBody, c, d, id, s, p, p.(headers := p.headers + headers));
      }
    }
  }

  lemma BlockIsExact(env: Env, maxBody: nat, c: Core, d: Direction, f: Frame, block: HeaderBlock)
    requires Within(maxBody, c)
    ensures Exact(BlockSubs(env, c, d, f, block))
  {
    hide Within, HeadersSubs, HasFlag, DecodedSize, Lossy;
    var c1 := GiveToHpack(c, d, block.bytes);
    SidesDoNotCount(maxBody, c, d, SideOf(c, d).(history := SideOf(c, d).history + [block.bytes]));
    match env.hpack(SideOf(c1, d).history)
    case None =>
    case Some(raw) => HeadersAreExact(maxBody, c1, d, block.streamId, block.endStream, Lossy(env, raw));
  }

  lemma {:induction false} EnvelopesAreExact(at: Grpc.Source, limit: nat, parser: Grpc.Parser, bytes: Bytes)
    requires Grpc.Retained(parser) <= limit
    ensures Exact(EnvelopeSubs(at, limit, parser, bytes))
    decreases |bytes|
  {
    hide Grpc.Step;
    Grpc.StepKeepsLimit(at, limit, parser, bytes);
    var r := Grpc.Step(at, limit, parser, bytes);
    if r.Advance? { EnvelopesAreExact(at, limit, r.control, r.rest); }
  }

  lemma GrpcDataIsExact(maxBody: nat, c: Core, d: Direction, f: Frame, data: Bytes)
    requires Within(maxBody, c) && f.streamId in c.streams && c.streams[f.streamId].grpc
    ensures Exact(GrpcDataSubs(maxBody, c, d, f, c.streams[f.streamId], data))
  {
    hide Held, Slack, StreamsWithin, Grpc.Feed, Grpc.HasIncomplete, HasFlag, RemoveSubs, EnvelopeSubs, Grpc.Retained;
    var s := c.streams[f.streamId];
    var before := Grpc.Retained(GrpcOf(s, d));
    var limit := CaptureLimit(maxBody, c, before);
    var at := Grpc.Source(d, f.streamId, Or(s.path, Ascii("/unknown")));
    WithinEach(maxBody, c, f.streamId);
    Grpc.FeedKeepsLimit(at, limit, GrpcOf(s, d), data);
    EnvelopesAreExact(at, limit, GrpcOf(s, d), data);
    var r := Grpc.Feed(at, limit, GrpcOf(s, d), data);
    ParserBalances(maxBody, c, d, f.streamId, r.control);
    var c2 := SetStream(c, f.streamId, WithGrpc(s, d, r.control)).(retained := Monus(c.retained, before) + Grpc.Retained(r.control));
    RemoveIsExact(maxBody, c2, f.streamId);
  }

  lemma PlainDataIsExact(maxBody: nat, c: Core, d: Direction, f: Frame, data: Bytes)
    requires Within(maxBody, c) && f.streamId in c.streams
    ensures Exact(PlainDataSubs(maxBody, c, d, f, c.streams[f.streamId], data))
  {
    hide StreamsWithin, StreamWithin, Held, TotalHeld, HasFlag, CompleteSubs;
    var s := c.streams[f.streamId];
    match PendingOf(s, d)
    case None =>
    case Some(p) =>
      WithinEach(maxBody, c, f.streamId);
      PendingFits(maxBody, s, d);
      var room := Min(Monus(maxBody, |p.body|), Monus(MAX_INFLIGHT_CAPTURE, c.retained));
      var captured := Min(room, |data|);
      var p' := p.(body := p.body + data[..captured], truncated := p.truncated || captured < |data|);
      CompleteIsExact(maxBody, c.(retained := c.retained + captured), d, f.streamId, s, p, p');
  }

  lemma PendingFits(maxBody: nat, s: Stream, d: Direction)
    requires StreamWithin(maxBody, s)
    ensures BodyLength(PendingOf(s, d)) <= maxBody
  {
  }

  lemma DataIsExact(maxBody: nat, c: Core, d: Direction, f: Frame)
    requires Within(maxBody, c)
    ensures Exact(DataSubs(maxBody, c, d, f))
  {
    hide StreamsWithin, Slack, GrpcDataSubs, PlainDataSubs, DataFragment;
    if f.streamId in c.streams && DataFragment(f).Fragment? {
      var data := DataFragment(f).bytes;
      if c.streams[f.streamId].grpc {
        GrpcDataIsExact(maxBody, c, d, f, data);
      } else {
        PlainDataIsExact(maxBody, c, d, f, data);
      }
    }
  }

  /** Kept header blocks are within their own bound. */
  predicate BlocksFit(c: Core) {
    SideFits(c.client) && SideFits(c.server)
  }

  predicate SideFits(s: Side) {
    s.continuation.Some? ==> |s.continuation.value.bytes| <= MAX_HEADER_BLOCK
  }

  /** In every state within the bounds, each subtraction that any frame makes the decoder evaluate is exact. */
  lemma FrameIsExact(env: Env, maxBody: nat, c: Core, d: Direction, f: Frame)
    requires Within(maxBody, c) && BlocksFit(c)
    ensures Exact(FrameSubs(env, maxBody, c, d, f))
  {
    hide Within, BlockSubs, DataSubs, HeaderFragment, Extend, HasFlag;
    DataIsExact(maxBody, c, d, f);
    SidesDoNotCount(maxBody, c, d, SideOf(c, d).(continuation := None));
    if f.kind == FRAME_HEADERS {
      match HeaderFragment(f)
      case BadFragment(_) =>
      case Fragment(bytes) =>
        BlockIsExact(env, maxBody, c, d, f, Extend(HeaderBlock(f.streamId, HasFlag(f.flags, FLAG_END_STREAM), [], false), bytes));
    } else if f.kind == FRAME_CONTINUATION {
      match SideOf(c, d).continuation
      case None =>
      case Some(block) => BlockIsExact(env, maxBody, WithContinuation(c, d, None), d, f, Extend(block, f.payload));
    }
  }

  // ---------------------------------------------------------------- blocks stay bounded

  lemma BlockSoFarFits(env: Env, c: Core, d: Direction, f: Frame, block: HeaderBlock)
    requires BlocksFit(c) && |block.bytes| <= MAX_HEADER_BLOCK
    ensures BlocksFit(BlockSoFar(env, c, d, f, block).core)
  {
    hide ApplyHeaders, HasFlag, DecodedSize, Lossy;
    var c1 := GiveToHpack(c, d, block.bytes);
    var raw := env.hpack(SideOf(c1, d).history);
    if raw.Some? { ApplyKeepsSides(c1, d, block.streamId, block.endStream, Lossy(env, raw.value)); }
  }

  lemma ExtendFits(block: HeaderBlock, fragment: Bytes)
    requires |block.bytes| <= MAX_HEADER_BLOCK
    ensures |Extend(block, fragment).bytes| <= MAX_HEADER_BLOCK
  {
  }

  lemma FrameFits(env: Env, maxBody: nat, c: Core, d: Direction, f: Frame)
    requires BlocksFit(c)
    ensures BlocksFit(Settle(HandleFrame(env, maxBody, c, d, f), d).0)
  {
    hide BlockSoFar, HandleData, HeaderFragment, Extend, HasFlag;
    DataKeepsSides(maxBody, c, d, f);
    if f.kind == FRAME_HEADERS {
      match HeaderFragment(f)
      case BadFragment(_) =>
      case Fragment(bytes) =>
        var block := HeaderBlock(f.streamId, HasFlag(f.flags, FLAG_END_STREAM), [], false);
        ExtendFits(block, bytes);
        BlockSoFarFits(env, c, d, f, Extend(block, bytes));
    } else if f.kind == FRAME_CONTINUATION {
      match SideOf(c, d).continuation
      case None =>
      case Some(block) =>
        ExtendFits(block, f.payload);
        BlockSoFarFits(env, WithContinuation(c, d, None), d, f, Extend(block, f.payload));
    }
  }

  lemma StepFits(env: Env, maxBody: nat, d: Direction, c: Core, b: Bytes)
    requires BlocksFit(c)
    ensures BlocksFit(Step(env, maxBody, d, c, b).control)
  {
    hide HandleFrame, Settle, PREFACE, ReadFrame;
    if |b| >= FRAME_HEADER_BYTES && |b| >= FRAME_HEADER_BYTES + FrameLength(b) {
      FrameFits(env, maxBody, c, d, ReadFrame(b));
    }
  }

  // ----------------------------------------------------------------------- whole runs

  function StepSubs(env: Env, maxBody: nat, d: Direction, c: Core, b: Bytes): seq<Subtraction> {
    if SideOf(c, d).expectPreface || SideOf(c, d).skip > 0 || |b| < FRAME_HEADER_BYTES
       || FrameLength(b) > MAX_OBSERVED_FRAME_PAYLOAD || |b| < FRAME_HEADER_BYTES + FrameLength(b) then []
    else FrameSubs(env, maxBody, c, d, ReadFrame(b))
  }

  function DrainSubs(env: Env, maxBody: nat, d: Direction, c: Core, b: Bytes): seq<Subtraction>
    decreases |b|
  {
    var r := Step(env, maxBody, d, c, b);
    StepSubs(env, maxBody, d, c, b) + if r.Advance? then DrainSubs(env, maxBody, d, r.control, r.rest) else []
  }

  /** Every subtraction a run evaluates, frame by frame, also in the middle of a push. */
  function RunSubs(env: Env, maxBody: nat, s: Decoder, events: seq<Event>): seq<Subtraction>
    decreases events
  {
    if events == [] then []
    else
      var e := events[0];
      DrainSubs(env, maxBody, e.d, s.core, BufferOf(s, e.d) + if e.Received? then e.bytes else [])
      + RunSubs(env, maxBody, Apply(env, maxBody, s, e), events[1..])
  }

  lemma {:induction false} DrainIsExact(env: Env, maxBody: nat, d: Direction, c: Core, b: Bytes)
    requires Within(maxBody, c) && BlocksFit(c)
    ensures Exact(DrainSubs(env, maxBody, d, c, b))
    ensures BlocksFit(DrainFrames(env, maxBody, d, c, b).control)
    decreases |b|
  {
    hide Within, BlocksFit, Step, StepSubs, Exact, DrainFrames;
    StepIsExact(env, maxBody, d, c, b);
    StepBalances(env, maxBody, d, c, b);
    StepFits(env, maxBody, d, c, b);
    DrainUnfolds(env, maxBody, d, c, b);
    var r := Step(env, maxBody, d, c, b);
    if r.Advance? {
      DrainIsExact(env, maxBody, d, r.control, r.rest);
      ExactJoins(StepSubs(env, maxBody, d, c, b), DrainSubs(env, maxBody, d, r.control, r.rest));
    } else {
      assert StepSubs(env, maxBody, d, c, b) + [] == StepSubs(env, maxBody, d, c, b);
    }
  }

  lemma StepIsExact(env: Env, maxBody: nat, d: Direction, c: Core, b: Bytes)
    requires Within(maxBody, c) && BlocksFit(c)
    ensures Exact(StepSubs(env, maxBody, d, c, b))
  {
    hide Within, BlocksFit, FrameSubs, ReadFrame;
    if |b| >= FRAME_HEADER_BYTES && |b| >= FRAME_HEADER_BYTES + FrameLength(b) {
      FrameIsExact(env, maxBody, c, d, ReadFrame(b));
    }
  }

  lemma {:induction false} RunIsExact(env: Env, maxBody: nat, s: Decoder, events: seq<Event>)
    requires Within(maxBody, s.core) && BlocksFit(s.core)
    ensures Exact(RunSubs(env, maxBody, s, events))
    decreases events
  {
    hide Within, Exact, DrainSubs, DrainFrames;
    if events == [] {
      NothingIsExact();
    } else {
      var e := events[0];
      var b := BufferOf(s, e.d) + if e.Received? then e.bytes else [];
      DrainIsExact(env, maxBody, e.d, s.core, b);
      ApplyBalances(env, maxBody, s, e);
      assert e.Ended? ==> b == BufferOf(s, e.d);
      var next := Apply(env, maxBody, s, e);
      RunIsExact(env, maxBody, next, events[1..]);
      ExactJoins(DrainSubs(env, maxBody, e.d, s.core, b), RunSubs(env, maxBody, next, events[1..]));
    }
  }

  lemma NothingIsExact()
    ensures Exact([])
  {
  }

  /** Over every run, no subtraction the decoder evaluates ever saturates. */
  lemma SubtractionsAreExact(env: Env, maxBody: nat, events: seq<Event>)
    ensures Exact(RunSubs(env, maxBody, Initial, events))
  {
    hide RunSubs, Exact;
    assert TotalHeld(map[]) == 0;
    RunIsExact(env, maxBody, Initial, events);
  }
}
