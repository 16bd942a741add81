/** Whole PostgreSQL conversations: two that differ only in omitted bytes look alike, however the bytes of
    both directions are cut and interleaved. */
module PostgresConversation {
  import opened ByteStrings
  import opened Streaming
  import opened Postgres
  import opened PostgresPhases
  import opened PostgresOmission

  // -------------------------------------------------------------- what each side sends

  /** A frame, or the server's one-byte answer to an encryption request. */
  datatype Piece = Framed(unit: Unit) | Answer(byte: Byte)

  predicate FittingPiece(p: Piece) {
    p.Framed? ==> Fitting(p.unit)
  }

  function Wire(p: Piece): (b: Bytes)
    requires FittingPiece(p)
    ensures b != []
  {
    if p.Answer? then [p.byte] else Encode(p.unit)
  }

  predicate AllFittingPieces(ps: seq<Piece>) {
    forall i :: 0 <= i < |ps| ==> FittingPiece(ps[i])
  }

  function WireAll(ps: seq<Piece>): Bytes
    requires AllFittingPieces(ps)
  {
    if ps == [] then [] else Wire(ps[0]) + WireAll(ps[1..])
  }

  /** Pieces that differ only in omitted bytes of equal length. */
  predicate TwinPiece(lossy: Lossy, d: Direction, p: Piece, q: Piece) {
    if p.Answer? then p == q else q.Framed? && Twin(lossy, d, p.unit, q.unit)
  }

  predicate TwinPieces(lossy: Lossy, d: Direction, ps: seq<Piece>, qs: seq<Piece>) {
    |ps| == |qs| && forall i :: 0 <= i < |ps| ==> TwinPiece(lossy, d, ps[i], qs[i])
  }

  predicate IsTyped(p: Piece) {
    p.Framed? && p.unit.TypedUnit?
  }

  predicate IsStartup(p: Piece) {
    p.Framed? && p.unit.StartupUnit? && |p.unit.body| >= 4
  }

  /** A startup frame that asks for encryption. */
  predicate IsRequest(p: Piece) {
    IsStartup(p) && Be32(p.unit.body[..4]) in {SSL_REQUEST_CODE, GSSENC_REQUEST_CODE}
  }

  predicate AllTyped(ps: seq<Piece>) {
    forall i :: 0 <= i < |ps| ==> IsTyped(ps[i])
  }

  /** A client asks for encryption any number of times, then starts up, then sends typed frames. */
  predicate Asks(ps: seq<Piece>) {
    ps == [] || (IsStartup(ps[0]) && if IsRequest(ps[0]) then Asks(ps[1..]) else AllTyped(ps[1..]))
  }

  function Requests(ps: seq<Piece>): nat {
    if ps == [] || !IsRequest(ps[0]) then 0 else 1 + Requests(ps[1..])
  }

  /** A server answers each request with one byte, then sends typed frames. */
  predicate Answers(n: nat, ps: seq<Piece>) {
    ps == [] || if n > 0 then ps[0].Answer? && Answers(n - 1, ps[1..]) else AllTyped(ps)
  }

  /** What both sides still send fits the phase. */
  predicate Shape(phase: Phase, client: seq<Piece>, server: seq<Piece>) {
    match phase
    case Startup => Asks(client) && Answers(Requests(client), server)
    case AwaitingEncryptionResponse => Asks(client) && Answers(Requests(client) + 1, server)
    case Typed => AllTyped(client) && AllTyped(server)
    case Opaque => true
  }

  // ------------------------------------------------------------------- one direction

  /** One run's view of one direction: buffered bytes, bytes to come, and the pieces they make up. */
  datatype Talk = Talk(buffer: Bytes, more: Bytes, pieces: seq<Piece>)

  ghost predicate Spoken(t: Talk) {
    AllFittingPieces(t.pieces) && t.buffer + t.more == WireAll(t.pieces)
  }

  /** Two runs at corresponding points of one direction. */
  ghost predicate Lined(lossy: Lossy, d: Direction, t: Talk, u: Talk) {
    && |t.buffer| == |u.buffer| && |t.more| == |u.more|
    && TwinPieces(lossy, d, t.pieces, u.pieces) && Spoken(t) && Spoken(u)
  }

  /** The direction and phase in which a piece is read. */
  predicate Due(d: Direction, phase: Phase, p: Piece) {
    || (phase == Startup && d == ClientToServer && IsStartup(p))
    || (phase == Typed && IsTyped(p))
    || (phase == AwaitingEncryptionResponse && d == ServerToClient && p.Answer?)
  }

  lemma TwinPieceFacts(lossy: Lossy, d: Direction, p: Piece, q: Piece)
    requires TwinPiece(lossy, d, p, q) && FittingPiece(p) && FittingPiece(q)
    ensures |Wire(p)| == |Wire(q)| && (IsStartup(p) <==> IsStartup(q)) && (IsTyped(p) <==> IsTyped(q))
  {
    hide Twin, Encode;
    if p.Framed? { TwinFacts(lossy, d, p.unit, q.unit); }
  }

  lemma PartOfPieceWaits(lossy: Lossy, maxBody: nat, d: Direction, phase: Phase, p: Piece, b: Bytes)
    requires FittingPiece(p) && Due(d, phase, p) && b < Wire(p)
    ensures Step(lossy, maxBody, d, phase, b) == NeedMore(phase, b)
  {
    hide Encode;
    if p.Answer? {
      assert b == [];
      EmptyWaits(lossy, maxBody, d, phase);
    } else {
      PartialUnitWaits(lossy, maxBody, d, phase, p.unit, b);
    }
  }

  /** What reading a piece makes of the phase. */
  predicate Follows(phase: Phase, p: Piece, next: Phase) {
    match phase
    case Startup => next == if IsRequest(p) then AwaitingEncryptionResponse else Typed
    case AwaitingEncryptionResponse => next == Startup
    case Typed => next == Typed
    case Opaque => false
  }

  lemma TwinPiecesStepAlike(lossy: Lossy, maxBody: nat, d: Direction, phase: Phase, p: Piece, q: Piece, x: Bytes, y: Bytes)
    requires FittingPiece(p) && FittingPiece(q) && TwinPiece(lossy, d, p, q) && Due(d, phase, p)
    ensures var r, t := Step(lossy, maxBody, d, phase, Wire(p) + x), Step(lossy, maxBody, d, phase, Wire(q) + y);
            && !r.NeedMore?
            && (r.Halt? ==> t == r)
            && (r.Advance? ==> t.Advance? && r.control == t.control && r.emitted == t.emitted && r.rest == x && t.rest == y
                               && Follows(phase, p, r.control))
  {
    if p.Answer? {
      hide Message;
      assert (Wire(p) + x)[1..] == x && (Wire(q) + y)[1..] == y;
    } else {
      hide Step, Encode, Twin;
      TwinsStepAlike(lossy, maxBody, d, phase, p.unit, q.unit, x, y);
      PhaseFollows(lossy, maxBody, d, phase, p, x);
    }
  }

  lemma PhaseFollows(lossy: Lossy, maxBody: nat, d: Direction, phase: Phase, p: Piece, x: Bytes)
    requires FittingPiece(p) && p.Framed? && Due(d, phase, p)
    ensures var r := Step(lossy, maxBody, d, phase, Wire(p) + x); r.Advance? ==> Follows(phase, p, r.control)
  {
    hide Step, DecodeTyped, StartupMessage, Encode32, Be32, Message;
    if phase == Typed {
      TypedUnitSteps(lossy, maxBody, d, p.unit, x);
    } else {
      StartupUnitSteps(lossy, maxBody, p.unit, x);
      assert Encode(p.unit)[4..8] == p.unit.body[..4];
    }
  }

  lemma PiecesOfFirst(t: Talk)
    requires Spoken(t) && t.pieces != []
    ensures var first := Wire(t.pieces[0]);
            && (|t.buffer| < |first| ==> t.buffer < first)
            && (|t.buffer| >= |first| ==> t.buffer == first + t.buffer[|first|..]
                                          && Spoken(Talk(t.buffer[|first|..], t.more, t.pieces[1..])))
  {
    hide Wire;
    var first := Wire(t.pieces[0]);
    var whole := t.buffer + t.more;
    assert whole[..|first|] == first;
    if |t.buffer| < |first| {
      assert t.buffer == whole[..|t.buffer|] == first[..|t.buffer|];
    } else {
      assert t.buffer[..|first|] == whole[..|first|];
      assert whole[|first|..] == WireAll(t.pieces[1..]);
      assert whole[|first|..] == t.buffer[|first|..] + t.more;
    }
  }

  function ClientOf(d: Direction, mine: seq<Piece>, other: seq<Piece>): seq<Piece> {
    if d == ClientToServer then mine else other
  }

  function ServerOf(d: Direction, mine: seq<Piece>, other: seq<Piece>): seq<Piece> {
    if d == ClientToServer then other else mine
  }

  predicate Fitted(d: Direction, phase: Phase, mine: seq<Piece>, other: seq<Piece>) {
    Shape(phase, ClientOf(d, mine, other), ServerOf(d, mine, other))
  }

  lemma FirstIsDue(d: Direction, phase: Phase, mine: seq<Piece>, other: seq<Piece>)
    requires Fitted(d, phase, mine, other) && mine != [] && !Waits(d, phase)
    ensures Due(d, phase, mine[0])
    ensures forall next :: Follows(phase, mine[0], next) ==> Fitted(d, next, mine[1..], other)
  {
    hide Be32;
  }

  /** The other side moves first. */
  predicate Waits(d: Direction, phase: Phase) {
    || (phase == Startup && d == ServerToClient)
    || (phase == AwaitingEncryptionResponse && d == ClientToServer)
    || phase == Opaque
  }

  lemma WaitingDrains(lossy: Lossy, maxBody: nat, d: Direction, phase: Phase, b: Bytes)
    requires Waits(d, phase)
    ensures DrainFrames(lossy, maxBody, d, phase, b) == Drained(phase, b, Quiet(), false)
  {
    hide DrainFrames;
    DrainUnfolds(lossy, maxBody, d, phase, b);
  }

  /** Draining lined-up buffers gives the same phase and report, and leaves lined-up buffers. */
  lemma {:induction false} LinedDrains(lossy: Lossy, maxBody: nat, d: Direction, phase: Phase, t: Talk, u: Talk, other: seq<Piece>)
    returns (ps: seq<Piece>, qs: seq<Piece>)
    requires Lined(lossy, d, t, u) && Fitted(d, phase, t.pieces, other)
    ensures var r, q := DrainFrames(lossy, maxBody, d, phase, t.buffer), DrainFrames(lossy, maxBody, d, phase, u.buffer);
            && r.control == q.control && r.batch == q.batch && r.halted == q.halted
            && (!r.halted ==> Lined(lossy, d, Talk(r.rest, t.more, ps), Talk(q.rest, u.more, qs)) && Fitted(d, r.control, ps, other))
    decreases |t.buffer|
  {
    hide DrainFrames, Step, Wire, TwinPiece, Fitted, Due, Follows;
    ps, qs := t.pieces, u.pieces;
    if Waits(d, phase) {
      WaitingDrains(lossy, maxBody, d, phase, t.buffer);
      WaitingDrains(lossy, maxBody, d, phase, u.buffer);
      return;
    }
    DrainUnfolds(lossy, maxBody, d, phase, t.buffer);
    DrainUnfolds(lossy, maxBody, d, phase, u.buffer);
    if ps == [] {
      assert t.buffer == [] && u.buffer == [];
      EmptyWaits(lossy, maxBody, d, phase);
      return;
    }
    var p, q := ps[0], qs[0];
    TwinPieceFacts(lossy, d, p, q);
    PiecesOfFirst(t);
    PiecesOfFirst(u);
    FirstIsDue(d, phase, ps, other);
    TwinIsDue(lossy, d, phase, p, q);
    var n := |Wire(p)|;
    if |t.buffer| < n {
      PartOfPieceWaits(lossy, maxBody, d, phase, p, t.buffer);
      PartOfPieceWaits(lossy, maxBody, d, phase, q, u.buffer);
      return;
    }
    TwinPiecesStepAlike(lossy, maxBody, d, phase, p, q, t.buffer[n..], u.buffer[n..]);
    var r := Step(lossy, maxBody, d, phase, t.buffer);
    if r.Advance? {
      var t', u' := Talk(t.buffer[n..], t.more, ps[1..]), Talk(u.buffer[n..], u.more, qs[1..]);
      ps, qs := LinedDrains(lossy, maxBody, d, r.control, t', u', other);
    }
  }

  lemma TwinIsDue(lossy: Lossy, d: Direction, phase: Phase, p: Piece, q: Piece)
    requires FittingPiece(p) && FittingPiece(q) && TwinPiece(lossy, d, p, q) && Due(d, phase, p)
    ensures Due(d, phase, q)
  {
    hide Wire, Twin;
    TwinPieceFacts(lossy, d, p, q);
  }

  // ------------------------------------------------------------------- both directions

  /** Two decoders at corresponding points of two conversations. */
  ghost predicate Mated(lossy: Lossy, s: Decoder, s': Decoder, client: Talk, client': Talk, server: Talk, server': Talk) {
    && s.phase == s'.phase
    && (s.phase == Opaque ==> s == Dark && s' == Dark)
    && (s.phase != Opaque ==>
          && s.client == client.buffer && s'.client == client'.buffer && s.server == server.buffer && s'.server == server'.buffer
          && Lined(lossy, ClientToServer, client, client') && Lined(lossy, ServerToClient, server, server')
          && Shape(s.phase, client.pieces, server.pieces))
  }

  function Take(t: Talk, n: nat): Talk
    requires n <= |t.more|
  {
    t.(buffer := t.buffer + t.more[..n], more := t.more[n..])
  }

  lemma LinedTakes(lossy: Lossy, d: Direction, t: Talk, u: Talk, n: nat)
    requires Lined(lossy, d, t, u) && n <= |t.more|
    ensures Lined(lossy, d, Take(t, n), Take(u, n))
  {
    hide TwinPieces, WireAll;
    assert t.buffer + t.more[..n] + t.more[n..] == t.buffer + t.more;
    assert u.buffer + u.more[..n] + u.more[n..] == u.buffer + u.more;
  }

  /** One push of the same length in both runs, in either direction. */
  lemma MatedPush(lossy: Lossy, maxBody: nat, d: Direction, s: Decoder, s': Decoder, t: Talk, u: Talk, other: seq<Piece>, a: Bytes, b: Bytes)
    returns (ps: seq<Piece>, qs: seq<Piece>)
    requires s.phase == s'.phase != Opaque && |a| == |b|
    requires BufferOf(s, d) + a == t.buffer && BufferOf(s', d) + b == u.buffer
    requires Lined(lossy, d, t, u) && Fitted(d, s.phase, t.pieces, other)
    ensures var (n, r), (n', q) := Push(lossy, maxBody, s, d, a), Push(lossy, maxBody, s', d, b);
            && r == q && n.phase == n'.phase
            && (n.phase == Opaque ==> n == Dark && n' == Dark)
            && (n.phase != Opaque ==>
                  && n == WithBuffer(s, d, BufferOf(n, d)).(phase := n.phase) && n' == WithBuffer(s', d, BufferOf(n', d)).(phase := n.phase)
                  && Lined(lossy, d, Talk(BufferOf(n, d), t.more, ps), Talk(BufferOf(n', d), u.more, qs))
                  && Fitted(d, n.phase, ps, other))
  {
    hide DrainFrames, Spoken, TwinPieces, Fitted;
    ps, qs := LinedDrains(lossy, maxBody, d, s.phase, t, u, other);
    DrainKeeps(lossy, maxBody, d, s.phase, t.buffer);
  }

  /** Bytes of one direction, in order. */
  function Sent(events: seq<Event>, d: Direction): Bytes {
    if events == [] then []
    else (if events[0].Received? && events[0].d == d then events[0].bytes else []) + Sent(events[1..], d)
  }

  /** The same calls with the same number of bytes. */
  predicate SameCalls(es: seq<Event>, fs: seq<Event>) {
    && |es| == |fs|
    && forall i :: 0 <= i < |es| ==> es[i].Received? && fs[i].Received? && es[i].d == fs[i].d && |es[i].bytes| == |fs[i].bytes|
  }

  /** Two conversations equal except in omitted bytes, cut and interleaved alike in any way, give identical
      reports call by call and leave decoders at corresponding points. */
  lemma {:induction false} OmissionTwoRuns(lossy: Lossy, maxBody: nat, s: Decoder, s': Decoder, es: seq<Event>, fs: seq<Event>,
                                           client: Talk, client': Talk, server: Talk, server': Talk)
    returns (c: Talk, c': Talk, v: Talk, v': Talk)
    requires Mated(lossy, s, s', client, client', server, server') && SameCalls(es, fs)
    requires s.phase != Opaque ==>
               && Sent(es, ClientToServer) <= client.more && Sent(fs, ClientToServer) <= client'.more
               && Sent(es, ServerToClient) <= server.more && Sent(fs, ServerToClient) <= server'.more
    ensures var (n, rs), (n', qs) := Run(lossy, maxBody, s, es), Run(lossy, maxBody, s', fs);
            rs == qs && Mated(lossy, n, n', c, c', v, v')
    decreases es
  {
    hide Push, Lined, Shape;
    c, c', v, v' := client, client', server, server';
    if es != [] {
      var e, f := es[0], fs[0];
      var d, n := e.d, |e.bytes|;
      var (m, r) := Push(lossy, maxBody, s, d, e.bytes);
      var (m', q) := Push(lossy, maxBody, s', d, f.bytes);
      if s.phase == Opaque {
        OpaquePush(lossy, maxBody, s, d, e.bytes);
        OpaquePush(lossy, maxBody, s', d, f.bytes);
      } else if d == ClientToServer {
        SentFirst(es, d, client.more);
        SentFirst(fs, d, client'.more);
        LinedLengths(lossy, d, client, client');
        LinedTakes(lossy, d, client, client', n);
        var ps, qs := MatedPush(lossy, maxBody, d, s, s', Take(client, n), Take(client', n), server.pieces, e.bytes, f.bytes);
        c, c' := Talk(m.client, client.more[n..], ps), Talk(m'.client, client'.more[n..], qs);
        SentOther(es, ServerToClient);
        SentOther(fs, ServerToClient);
      } else {
        SentFirst(es, d, server.more);
        SentFirst(fs, d, server'.more);
        LinedLengths(lossy, d, server, server');
        LinedTakes(lossy, d, server, server', n);
        var ps, qs := MatedPush(lossy, maxBody, d, s, s', Take(server, n), Take(server', n), client.pieces, e.bytes, f.bytes);
        v, v' := Talk(m.server, server.more[n..], ps), Talk(m'.server, server'.more[n..], qs);
        SentOther(es, ClientToServer);
        SentOther(fs, ClientToServer);
      }
      c, c', v, v' := OmissionTwoRuns(lossy, maxBody, m, m', es[1..], fs[1..], c, c', v, v');
    }
  }

  lemma SentFirst(es: seq<Event>, d: Direction, more: Bytes)
    requires es != [] && es[0].Received? && es[0].d == d && Sent(es, d) <= more
    ensures |es[0].bytes| <= |more| && more[..|es[0].bytes|] == es[0].bytes && Sent(es[1..], d) <= more[|es[0].bytes|..]
  {
    var n := |es[0].bytes|;
    assert more[..|Sent(es, d)|] == es[0].bytes + Sent(es[1..], d);
    assert more[n..][..|Sent(es[1..], d)|] == more[..|Sent(es, d)|][n..];
  }

  lemma SentOther(es: seq<Event>, d: Direction)
    requires es != [] && (es[0].Ended? || es[0].d != d)
    ensures Sent(es[1..], d) == Sent(es, d)
  {
    assert [] + Sent(es[1..], d) == Sent(es[1..], d);
  }

  lemma LinedLengths(lossy: Lossy, d: Direction, t: Talk, u: Talk)
    requires Lined(lossy, d, t, u)
    ensures |t.buffer| == |u.buffer| && |t.more| == |u.more|
  {
  }

  /** From the start of a connection, through refused or accepted encryption requests, startup and typed
      traffic of both sides: secret and omitted bytes never show, under any cutting and interleaving. */
  lemma SecretsNeverShow(lossy: Lossy, maxBody: nat, es: seq<Event>, fs: seq<Event>,
                         client: seq<Piece>, client': seq<Piece>, server: seq<Piece>, server': seq<Piece>)
    requires AllFittingPieces(client) && AllFittingPieces(client') && AllFittingPieces(server) && AllFittingPieces(server')
    requires TwinPieces(lossy, ClientToServer, client, client') && TwinPieces(lossy, ServerToClient, server, server')
    requires Asks(client) && Answers(Requests(client), server)
    requires SameCalls(es, fs)
    requires Sent(es, ClientToServer) <= WireAll(client) && Sent(fs, ClientToServer) <= WireAll(client')
    requires Sent(es, ServerToClient) <= WireAll(server) && Sent(fs, ServerToClient) <= WireAll(server')
    ensures var (s, rs), (s', qs) := Run(lossy, maxBody, Initial, es), Run(lossy, maxBody, Initial, fs);
            && rs == qs && s.phase == s'.phase && |s.client| == |s'.client| && |s.server| == |s'.server|
            && Finish(s, ClientToServer).1 == Finish(s', ClientToServer).1 && Finish(s, ServerToClient).1 == Finish(s', ServerToClient).1
  {
    hide *;
    var tc, tc', ts, ts' := StartTalks(lossy, client, client', server, server');
    var c, c', v, v' := OmissionTwoRuns(lossy, maxBody, Initial, Initial, es, fs, tc, tc', ts, ts');
    MatedLookAlike(lossy, Run(lossy, maxBody, Initial, es).0, Run(lossy, maxBody, Initial, fs).0, c, c', v, v');
  }

  lemma StartTalks(lossy: Lossy, client: seq<Piece>, client': seq<Piece>, server: seq<Piece>, server': seq<Piece>)
    returns (tc: Talk, tc': Talk, ts: Talk, ts': Talk)
    requires AllFittingPieces(client) && AllFittingPieces(client') && AllFittingPieces(server) && AllFittingPieces(server')
    requires TwinPieces(lossy, ClientToServer, client, client') && TwinPieces(lossy, ServerToClient, server, server')
    requires Asks(client) && Answers(Requests(client), server)
    ensures tc.more == WireAll(client) && tc'.more == WireAll(client') && ts.more == WireAll(server) && ts'.more == WireAll(server')
    ensures Mated(lossy, Initial, Initial, tc, tc', ts, ts')
  {
    hide TwinPieces, Asks, Answers, Requests, AllFittingPieces, WireAll;
    WiresMatch(lossy, ClientToServer, client, client');
    WiresMatch(lossy, ServerToClient, server, server');
    tc, tc' := Talk([], WireAll(client), client), Talk([], WireAll(client'), client');
    ts, ts' := Talk([], WireAll(server), server), Talk([], WireAll(server'), server');
    assert [] + tc.more == tc.more && [] + tc'.more == tc'.more && [] + ts.more == ts.more && [] + ts'.more == ts'.more;
  }

  /** Decoders at corresponding points have the same phase, buffer as many bytes and end alike. */
  lemma MatedLookAlike(lossy: Lossy, s: Decoder, s': Decoder, c: Talk, c': Talk, v: Talk, v': Talk)
    requires Mated(lossy, s, s', c, c', v, v')
    ensures s.phase == s'.phase && |s.client| == |s'.client| && |s.server| == |s'.server|
    ensures Finish(s, ClientToServer).1 == Finish(s', ClientToServer).1 && Finish(s, ServerToClient).1 == Finish(s', ServerToClient).1
  {
    hide TwinPieces, Spoken, Shape;
  }

  lemma {:induction false} WiresMatch(lossy: Lossy, d: Direction, ps: seq<Piece>, qs: seq<Piece>)
    requires AllFittingPieces(ps) && AllFittingPieces(qs) && TwinPieces(lossy, d, ps, qs)
    ensures |WireAll(ps)| == |WireAll(qs)|
    decreases ps
  {
    hide Wire, TwinPiece;
    if ps != [] {
      TwinPieceFacts(lossy, d, ps[0], qs[0]);
      WiresMatch(lossy, d, ps[1..], qs[1..]);
    }
  }
}
