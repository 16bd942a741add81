/** gRPC calls over HTTP/2: envelopes in the DATA frames of their stream, whatever other streams send. */
module Http2GrpcMessages {
  import opened ByteStrings
  import opened Streaming
  import opened Text
  import opened Http2
  import opened Http2HeaderBlocks
  import opened Http2Messages
  import Grpc
  import GrpcEnvelopes

  // ------------------------------------------------------------------------- headers

  /** The first content type names gRPC. */
  ghost predicate NamesGrpc(headers: seq<Header>) {
    exists value :: IsFirst(headers, Ascii("content-type"), value) && StartsWith(LowerAll(value), Ascii("application/grpc"))
  }

  lemma NamedIsGrpc(headers: seq<Header>)
    requires NamesGrpc(headers)
    ensures IsGrpc(headers)
  {
    hide IsFirst, HeaderValue;
    FirstIsFound(headers, Ascii("content-type"));
  }

  /** The marks every message of a gRPC stream carries. */
  function Tags(id: nat): seq<Header> {
    [(Ascii("lens-protocol"), Ascii("grpc")), (Ascii("lens-stream-id"), Decimal(id))]
  }

  /** The headers of a call start a gRPC stream and are reported with method and path. */
  lemma CallIsReported(c: Core, d: Direction, id: nat, headers: seq<Header>, verb: Bytes, path: Bytes)
    requires NamesGrpc(headers) && IsFirst(headers, Ascii(":method"), verb) && IsFirst(headers, Ascii(":path"), path)
    requires id in c.streams || |c.streams| < MAX_TRACKED_STREAMS
    ensures var h := ApplyHeaders(c, d, id, false, headers);
            && h.Ok? && id in h.core.streams && h.core.streams[id].grpc && h.core.streams[id].path == Some(path)
            && h.messages == [DecodedMessage(d, Ascii("gRPC ") + verb + Ascii(" ") + path,
                                             headers + Tags(id) + [(Ascii("lens-boundary"), Ascii("request"))], [], false)]
  {
    hide HeaderValue, IsGrpc, IsFirst, NamesGrpc;
    NamedIsGrpc(headers);
    FirstIsFound(headers, Ascii(":method"));
    FirstIsFound(headers, Ascii(":path"));
  }

  /** Response headers are reported with their status; trailers with their gRPC status, closing the call. */
  lemma AnswerIsReported(c: Core, id: nat, headers: seq<Header>, status: Bytes)
    requires id in c.streams && c.streams[id].grpc && Absent(headers, Ascii(":method")) && Absent(headers, Ascii(":path"))
    requires IsFirst(headers, Ascii(":status"), status)
    ensures var h := ApplyHeaders(c, ServerToClient, id, false, headers);
            && h.Ok? && id in h.core.streams && h.core.streams[id] == c.streams[id]
            && h.messages == [DecodedMessage(ServerToClient, Ascii("gRPC response HTTP ") + status, headers + Tags(id), [], false)]
  {
    hide HeaderValue, IsGrpc, IsFirst, Absent;
    FirstIsFound(headers, Ascii(":method"));
    FirstIsFound(headers, Ascii(":path"));
    FirstIsFound(headers, Ascii(":status"));
  }

  lemma TrailersCloseTheCall(c: Core, id: nat, headers: seq<Header>, status: Bytes)
    requires id in c.streams && c.streams[id].grpc && Absent(headers, Ascii(":method")) && Absent(headers, Ascii(":status"))
    requires IsFirst(headers, Ascii("grpc-status"), status)
    ensures var h := ApplyHeaders(c, ServerToClient, id, true, headers);
            && h.Ok? && id !in h.core.streams
            && h.messages == [DecodedMessage(ServerToClient, Ascii("gRPC trailers status=") + status,
                                             headers + Tags(id) + [(Ascii("lens-boundary"), Ascii("response"))], [], false)]
  {
    hide HeaderValue, IsGrpc, IsFirst, Absent, Held;
    FirstIsFound(headers, Ascii(":method"));
    FirstIsFound(headers, Ascii(":status"));
    var closed := headers + Tags(id) + [(Ascii("lens-boundary"), Ascii("response"))];
    FirstStaysFirst(headers, Tags(id) + [(Ascii("lens-boundary"), Ascii("response"))], Ascii("grpc-status"), status);
    assert closed == headers + (Tags(id) + [(Ascii("lens-boundary"), Ascii("response"))]);
    FirstIsFound(closed, Ascii("grpc-status"));
  }

  lemma FirstStaysFirst(headers: seq<Header>, more: seq<Header>, name: Bytes, value: Bytes)
    requires IsFirst(headers, name, value)
    ensures IsFirst(headers + more, name, value)
  {
    hide EqIgnoreCase;
    var i :| 0 <= i < |headers| && FirstAt(headers, name, i) && headers[i].1 == value;
    var all := headers + more;
    assert forall j :: 0 <= j <= i ==> all[j] == headers[j];
    assert FirstAt(all, name, i);
  }

  // ------------------------------------------------------------------------ envelopes

  predicate Parses(c: Core, d: Direction, id: nat, path: Option<Bytes>, p: Grpc.Parser) {
    id in c.streams && c.streams[id].grpc && c.streams[id].path == path && GrpcOf(c.streams[id], d) == p
  }

  function SourceOf(d: Direction, id: nat, path: Option<Bytes>): Grpc.Source {
    Grpc.Source(d, id, if path.Some? then path.value else Ascii("/unknown"))
  }

  /** The budget lets an envelope grow to the cap. */
  predicate HasRoomForCap(c: Core, maxBody: nat, p: Grpc.Parser) {
    c.retained + maxBody <= MAX_INFLIGHT_CAPTURE + Grpc.Retained(p)
  }

  lemma OneGrpcData(env: Env, maxBody: nat, c: Core, d: Direction, id: nat, path: Option<Bytes>, p: Grpc.Parser, f: Frame, data: Bytes)
    requires id != 0 && Open(c, d) && Parses(c, d, id, path, p) && Carries(f, id, data, false) && HasRoomForCap(c, maxBody, p)
    ensures var (c', r) := Settle(HandleFrame(env, maxBody, c, d, f), d);
            var fed := Grpc.Feed(SourceOf(d, id, path), maxBody, p, data);
            !fed.halted ==> r == Batch(fed.batch.messages, None) && Parses(c', d, id, path, fed.control)
  {
    hide HasFlag, DataFragment, Carries, Grpc.Feed, PlainData, Grpc.Retained;
    CarriedIsRead(f, id, data, false);
    FlagOf(f, id, data, false);
  }

  /** Envelopes of stream `id` among frames of other streams. */
  ghost predicate Talks(steps: seq<Step>, id: nat) {
    forall i :: 0 <= i < |steps| ==>
      match steps[i]
      case Mine(f, data) => Carries(f, id, data, false)
      case Other(sent) => sent.frame.streamId != id
  }

  function ParserOf(c: Core, d: Direction, id: nat): Grpc.Parser {
    if id in c.streams then GrpcOf(c.streams[id], d) else Grpc.Ready
  }

  predicate RoomThroughout(env: Env, maxBody: nat, c: Core, d: Direction, id: nat, steps: seq<Step>)
    decreases |steps|
  {
    steps == [] ||
    (&& (steps[0].Mine? ==> Open(c, d) && HasRoomForCap(c, maxBody, ParserOf(c, d, id)))
     && var sent := SentAs(steps[0], d);
        RoomThroughout(env, maxBody, Settle(HandleFrame(env, maxBody, c, sent.d, sent.frame), sent.d).0, d, id, steps[1..]))
  }

  /** What the frames of the stream itself report, in order. */
  function OwnReports(rs: seq<Report>, steps: seq<Step>): seq<DecodedMessage>
    requires |rs| == |steps|
  {
    if steps == [] then []
    else (if steps[0].Mine? then rs[0].messages else []) + OwnReports(rs[1..], steps[1..])
  }

  lemma GrpcStays(c: Core, c': Core, d: Direction, id: nat, path: Option<Bytes>, p: Grpc.Parser)
    requires Parses(c, d, id, path, p)
    requires (id in c'.streams <==> id in c.streams) && (id in c.streams ==> c'.streams[id] == c.streams[id])
    ensures Parses(c', d, id, path, p)
  {
  }

  lemma ValidPrefixFeeds(at: Grpc.Source, limit: nat, es: seq<GrpcEnvelopes.Envelope>, sent: Bytes, data: Bytes)
    requires GrpcEnvelopes.AllValid(es) && sent + data <= GrpcEnvelopes.EncodeAll(es)
    ensures var p := Grpc.Feed(at, limit, Grpc.Ready, sent).control;
            var fed := Grpc.Feed(at, limit, p, data);
            var from, to := GrpcEnvelopes.Completed(es, |sent|), GrpcEnvelopes.Completed(es, |sent + data|);
            && from <= to && !fed.halted && fed.control == Grpc.Feed(at, limit, Grpc.Ready, sent + data).control
            && fed.batch.messages == GrpcEnvelopes.AllReported(at, limit, es[from..to])
  {
    hide *;
    OneIsAll(data);
    GrpcEnvelopes.EnvelopesCutAnywhere(at, limit, es, sent, [data]);
    OneFragment(at, limit, Grpc.Feed(at, limit, Grpc.Ready, sent).control, data);
    NotHalted(at, limit, es, sent, data);
  }

  lemma OneIsAll(data: Bytes)
    ensures Flatten([data]) == data
  {
    assert [data][1..] == [] && data + [] == data;
  }

  lemma NotHalted(at: Grpc.Source, limit: nat, es: seq<GrpcEnvelopes.Envelope>, sent: Bytes, data: Bytes)
    requires GrpcEnvelopes.AllValid(es) && sent + data <= GrpcEnvelopes.EncodeAll(es)
    ensures !Grpc.Feed(at, limit, Grpc.Feed(at, limit, Grpc.Ready, sent).control, data).halted
  {
    hide Grpc.Feed, GrpcEnvelopes.EncodeAll, GrpcEnvelopes.AllReported, GrpcEnvelopes.Completed;
    GrpcEnvelopes.PrefixOfStream(at, limit, es, sent);
    GrpcEnvelopes.PrefixOfStream(at, limit, es, sent + data);
    GrpcEnvelopes.FeedCut(at, limit, Grpc.Ready, sent, data);
    assert [] + data == data;
  }

  lemma OneFragment(at: Grpc.Source, limit: nat, p: Grpc.Parser, data: Bytes)
    ensures var r := Grpc.Feed(at, limit, p, data);
            Streaming.Feed(GrpcEnvelopes.Pusher(at, limit), p, [data]) == (r.control, r.batch)
  {
    hide Grpc.Feed;
    assert [data][1..] == [];
    JoinAssociative(Grpc.Feed(at, limit, p, data).batch, Quiet(), Quiet());
  }

  /** DATA frames of a gRPC stream that together are a prefix of a list of envelopes, among frames of other
      streams: its own frames report exactly the completed envelopes in order, each capped and flagged when
      longer than the cap. */
  lemma {:induction false} EnvelopesArrive(env: Env, maxBody: nat, c: Core, d: Direction, id: nat, path: Option<Bytes>,
                                           es: seq<GrpcEnvelopes.Envelope>, sent: Bytes, steps: seq<Step>)
    requires id != 0 && GrpcEnvelopes.AllValid(es) && sent + Together(steps) <= GrpcEnvelopes.EncodeAll(es)
    requires Parses(c, d, id, path, Grpc.Feed(SourceOf(d, id, path), maxBody, Grpc.Ready, sent).control)
    requires Talks(steps, id) && RoomThroughout(env, maxBody, c, d, id, steps)
    ensures var rs := Handle(env, maxBody, c, AllSent(steps, d)).1;
            var from, to := GrpcEnvelopes.Completed(es, |sent|), GrpcEnvelopes.Completed(es, |sent + Together(steps)|);
            && |rs| == |steps| && from <= to
            && OwnReports(rs, steps) == GrpcEnvelopes.AllReported(SourceOf(d, id, path), maxBody, es[from..to])
    decreases |steps|
  {
    hide HandleFrame, Settle, Carries, Open, HasRoomForCap, Grpc.Feed, GrpcEnvelopes.EncodeAll, GrpcEnvelopes.Completed, Parses, SourceOf;
    var at := SourceOf(d, id, path);
    var frames := AllSent(steps, d);
    HandledOnce(env, maxBody, c, frames);
    if steps == [] {
      assert sent + [] == sent;
      assert GrpcEnvelopes.AllReported(at, maxBody, []) == [];
    } else {
      var rest := steps[1..];
      assert frames[0] == SentAs(steps[0], d) && frames[1..] == AllSent(rest, d);
      var (c1, r) := Settle(HandleFrame(env, maxBody, c, frames[0].d, frames[0].frame), frames[0].d);
      var now := sent + if steps[0].Mine? then steps[0].data else [];
      assert now + Together(rest) == sent + Together(steps);
      var p := Grpc.Feed(at, maxBody, Grpc.Ready, sent).control;
      if steps[0].Mine? {
        assert now <= sent + Together(steps);
        ValidPrefixFeeds(at, maxBody, es, sent, steps[0].data);
        ParserIs(c, d, id, path, p);
        OneGrpcData(env, maxBody, c, d, id, path, p, steps[0].frame, steps[0].data);
      } else {
        OtherStreamsDoNotMatter(env, maxBody, c, frames[0].d, frames[0].frame, id);
        GrpcStays(c, c1, d, id, path, p);
        assert now == sent;
      }
      EnvelopesArrive(env, maxBody, c1, d, id, path, es, now, rest);
      var rs := Handle(env, maxBody, c1, frames[1..]).1;
      assert ([r] + rs)[1..] == rs;
      var a, b, e := GrpcEnvelopes.Completed(es, |sent|), GrpcEnvelopes.Completed(es, |now|), GrpcEnvelopes.Completed(es, |sent + Together(steps)|);
      ReportsJoin(at, maxBody, es, a, b, e);
    }
  }

  lemma ParserIs(c: Core, d: Direction, id: nat, path: Option<Bytes>, p: Grpc.Parser)
    requires Parses(c, d, id, path, p)
    ensures ParserOf(c, d, id) == p
  {
  }

  lemma ReportsJoin(at: Grpc.Source, limit: nat, es: seq<GrpcEnvelopes.Envelope>, a: nat, b: nat, e: nat)
    requires a <= b <= e <= |es|
    ensures GrpcEnvelopes.AllReported(at, limit, es[a..b]) + GrpcEnvelopes.AllReported(at, limit, es[b..e])
            == GrpcEnvelopes.AllReported(at, limit, es[a..e])
    ensures a == b ==> [] + GrpcEnvelopes.AllReported(at, limit, es[b..e]) == GrpcEnvelopes.AllReported(at, limit, es[a..e])
  {
    hide GrpcEnvelopes.Reported;
    var x, y, z := es[a..b], es[b..e], es[a..e];
    assert z == x + y;
    assert a == b ==> x == [] && z == y;
    var all := GrpcEnvelopes.AllReported(at, limit, z);
    forall i | 0 <= i < |z| ensures all[i] == (GrpcEnvelopes.AllReported(at, limit, x) + GrpcEnvelopes.AllReported(at, limit, y))[i] {
    }
  }

  /** What an envelope is reported as: its side, path and length, the payload up to the cap, and no headers but
      its own marks. */
  lemma EnvelopeIsDescribed(at: Grpc.Source, limit: nat, e: GrpcEnvelopes.Envelope)
    ensures var m := GrpcEnvelopes.Reported(at, limit, e);
            var n := |e.payload|;
            && m.direction == at.direction && m.body == e.payload[..Min(limit, n)] && (m.truncated <==> n > limit)
            && m.startLine == (if at.direction == ClientToServer then Ascii("gRPC request ") else Ascii("gRPC response "))
                              + at.path + Ascii(" message ") + Decimal(n) + Ascii(" bytes")
            && m.headers == [(Ascii("lens-protocol"), Ascii("grpc")), (Ascii("lens-content"), Ascii("protobuf")),
                             (Ascii("lens-stream-id"), Decimal(at.streamId)),
                             (Ascii("grpc-compressed"), Ascii(if e.compressed then "true" else "false")),
                             (Ascii("grpc-message-bytes"), Decimal(n))]
  {
    assert Ascii("gRPC ") + Ascii("request") + Ascii(" ") == Ascii("gRPC request ");
    assert Ascii("gRPC ") + Ascii("response") + Ascii(" ") == Ascii("gRPC response ");
  }

  // ------------------------------------------------------------------------ the last frame

  /** Bytes that end exactly where one of the envelopes does. */
  predicate EndsBetween(es: seq<GrpcEnvelopes.Envelope>, sent: Bytes)
    requires GrpcEnvelopes.AllValid(es)
  {
    exists j :: 0 <= j <= |es| && sent == GrpcEnvelopes.EncodeAll(es[..j])
  }

  lemma BetweenIsComplete(at: Grpc.Source, limit: nat, es: seq<GrpcEnvelopes.Envelope>, sent: Bytes)
    requires GrpcEnvelopes.AllValid(es) && sent <= GrpcEnvelopes.EncodeAll(es)
    ensures Grpc.HasIncomplete(Grpc.Feed(at, limit, Grpc.Ready, sent).control) <==> !EndsBetween(es, sent)
  {
    hide Grpc.Feed, GrpcEnvelopes.Encode, Grpc.HasIncomplete, GrpcEnvelopes.Completed;
    var j := GrpcEnvelopes.Completed(es, |sent|);
    GrpcEnvelopes.IncompleteIffInside(at, limit, es, sent);
    GrpcEnvelopes.CompletedBounds(es, |sent|);
    PrefixesAgree(es, j, sent);
    if EndsBetween(es, sent) {
      var k :| 0 <= k <= |es| && sent == GrpcEnvelopes.EncodeAll(es[..k]);
      CompletedAt(es, k);
    }
  }

  lemma {:induction false} CompletedAt(es: seq<GrpcEnvelopes.Envelope>, k: nat)
    requires GrpcEnvelopes.AllValid(es) && k <= |es|
    ensures GrpcEnvelopes.Completed(es, |GrpcEnvelopes.EncodeAll(es[..k])|) == k
    decreases |es|
  {
    hide GrpcEnvelopes.Encode;
    if k > 0 {
      assert es[..k][1..] == es[1..][..k - 1];
      CompletedAt(es[1..], k - 1);
    } else if es != [] {
      SomeBytes(es[0]);
    }
  }

  lemma SomeBytes(e: GrpcEnvelopes.Envelope)
    requires GrpcEnvelopes.Valid(e)
    ensures |GrpcEnvelopes.Encode(e)| >= 5
  {
  }

  lemma {:induction false} PrefixesAgree(es: seq<GrpcEnvelopes.Envelope>, j: nat, sent: Bytes)
    requires GrpcEnvelopes.AllValid(es) && j <= |es| && sent <= GrpcEnvelopes.EncodeAll(es)
    ensures GrpcEnvelopes.EncodeAll(es[..j]) <= GrpcEnvelopes.EncodeAll(es)
    ensures |GrpcEnvelopes.EncodeAll(es[..j])| == |sent| ==> sent == GrpcEnvelopes.EncodeAll(es[..j])
    decreases j
  {
    hide GrpcEnvelopes.Encode;
    if j > 0 {
      assert es[..j][1..] == es[1..][..j - 1];
      PrefixesAgree(es[1..], j - 1, []);
    }
  }

  /** The DATA frame that ends a side of a call: envelopes it completes are reported, unless the side ends inside
      one, which is an error; a server that ends without trailers is reported as such, and its stream is dropped. */
  lemma CallEnds(env: Env, maxBody: nat, c: Core, d: Direction, id: nat, path: Option<Bytes>,
                 es: seq<GrpcEnvelopes.Envelope>, sent: Bytes, f: Frame, data: Bytes)
    requires id != 0 && Open(c, d) && GrpcEnvelopes.AllValid(es) && sent + data <= GrpcEnvelopes.EncodeAll(es)
    requires Parses(c, d, id, path, Grpc.Feed(SourceOf(d, id, path), maxBody, Grpc.Ready, sent).control)
    requires Carries(f, id, data, true) && HasRoomForCap(c, maxBody, ParserOf(c, d, id))
    ensures var (c', r) := Settle(HandleFrame(env, maxBody, c, d, f), d);
            var from, to := GrpcEnvelopes.Completed(es, |sent|), GrpcEnvelopes.Completed(es, |sent + data|);
            from <= to &&
            var own := GrpcEnvelopes.AllReported(SourceOf(d, id, path), maxBody, es[from..to]);
            if !EndsBetween(es, sent + data) then r == Batch([], Some(GrpcEndedInside))
            else if d == ClientToServer then r == Batch(own, None)
            else
              && id !in c'.streams
              && r == Batch(own + [DecodedMessage(ServerToClient, Ascii("gRPC stream ended without trailers"),
                                                  Tags(id) + [(Ascii("lens-boundary"), Ascii("response")), (Ascii("grpc-status"), Ascii("missing"))],
                                                  [], true)], None)
  {
    hide HasFlag, DataFragment, Carries, Grpc.Feed, PlainData, Grpc.Retained, Grpc.HasIncomplete, EndsBetween, GrpcEnvelopes.AllReported,
         GrpcEnvelopes.EncodeAll, GrpcEnvelopes.Completed, Ascii, Held;
    var at := SourceOf(d, id, path);
    CarriedIsRead(f, id, data, true);
    FlagOf(f, id, data, true);
    ValidPrefixFeeds(at, maxBody, es, sent, data);
    BetweenIsComplete(at, maxBody, es, sent + data);
    assert MissingTrailers(id).headers == Tags(id) + [(Ascii("lens-boundary"), Ascii("response")), (Ascii("grpc-status"), Ascii("missing"))];
  }
}
