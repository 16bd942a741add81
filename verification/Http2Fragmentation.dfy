/** Cutting one direction's bytes into pushes, for every HPACK decoder. */
module Http2Fragmentation {
  import opened ByteStrings
  import opened Streaming
  import opened Http2

  lemma SideFacts(c: Core, d: Direction, s: Side, t: Side)
    ensures SideOf(WithSide(c, d, s), d) == s
    ensures WithSide(WithSide(c, d, s), d, t) == WithSide(c, d, t)
    ensures WithSide(c, d, SideOf(c, d)) == c
  {
  }

  // ------------------------------------------------------------------- stability

  lemma PrefaceStable(c: Core, d: Direction, a: Bytes, b: Bytes)
    ensures match StepPreface(c, d, a)
            case NeedMore(c', rest) => c' == c && rest == a
            case Advance(c', rest, e) => StepPreface(c, d, a + b) == Advance(c', rest + b, e)
            case Halt(_, _) => StepPreface(c, d, a + b) == StepPreface(c, d, a)
  {
    hide PREFACE;
    var n, m := Min(|a|, |PREFACE|), Min(|a + b|, |PREFACE|);
    assert (a + b)[..m][..n] == a[..n];
    assert PREFACE[..m][..n] == PREFACE[..n];
    if |a| >= |PREFACE| {
      assert (a + b)[..|PREFACE|] == a[..|PREFACE|];
      assert (a + b)[|PREFACE|..] == a[|PREFACE|..] + b;
    }
  }

  lemma SkipStable(env: Env, maxBody: nat, c: Core, d: Direction, a: Bytes, b: Bytes)
    requires !SideOf(c, d).expectPreface && SideOf(c, d).skip > 0
    ensures StableAt(Stepper(env, maxBody, d), c, a, b)
  {
    hide StepPreface, StepFrame;
    var skip := SideOf(c, d).skip;
    if |a| < skip {
      var side := SideOf(c, d).(skip := skip - |a|);
      SideFacts(c, d, side, side.(skip := 0));
      assert [] + b == b;
      if |a + b| < skip {
        SideFacts(c, d, side, side.(skip := skip - |a + b|));
      } else {
        assert (a + b)[skip..] == b[skip - |a|..];
      }
    } else {
      assert (a + b)[skip..] == a[skip..] + b;
    }
  }

  lemma FrameStable(env: Env, maxBody: nat, c: Core, d: Direction, a: Bytes, b: Bytes)
    ensures match StepFrame(env, maxBody, c, d, a)
            case NeedMore(c', rest) => c' == c && rest == a
            case Advance(c', rest, e) => StepFrame(env, maxBody, c, d, a + b) == Advance(c', rest + b, e)
            case Halt(_, _) => true
  {
    hide HandleFrame, Settle;
    if |a| >= FRAME_HEADER_BYTES {
      var n := FRAME_HEADER_BYTES + FrameLength(a);
      assert FrameLength(a + b) == FrameLength(a);
      assert (a + b)[FRAME_HEADER_BYTES..] == a[FRAME_HEADER_BYTES..] + b;
      if n <= |a| {
        assert (a + b)[FRAME_HEADER_BYTES..n] == a[FRAME_HEADER_BYTES..n];
        assert (a + b)[n..] == a[n..] + b;
        assert ReadFrame(a + b) == ReadFrame(a);
      }
    }
  }

  lemma StepperStable(env: Env, maxBody: nat, d: Direction)
    ensures Stable(Stepper(env, maxBody, d))
  {
    hide StepPreface, StepSkip, StepFrame;
    forall c, a, b ensures StableAt(Stepper(env, maxBody, d), c, a, b) {
      if SideOf(c, d).expectPreface {
        PrefaceStable(c, d, a, b);
      } else if SideOf(c, d).skip > 0 {
        SkipStable(env, maxBody, c, d, a, b);
      } else {
        FrameStable(env, maxBody, c, d, a, b);
      }
    }
  }

  // ------------------------------------------------------- only the preface halts

  predicate PrefaceMismatch(buffer: Bytes) {
    buffer[..Min(|buffer|, |PREFACE|)] != PREFACE[..Min(|buffer|, |PREFACE|)]
  }

  predicate BadStart(s: Decoder, d: Direction, bytes: Bytes) {
    SideOf(s.core, d).expectPreface && PrefaceMismatch(BufferOf(s, d) + bytes)
  }

  lemma ApplyKeepsSides(c: Core, d: Direction, id: nat, endStream: bool, headers: seq<Header>)
    ensures ApplyHeaders(c, d, id, endStream, headers).core.client == c.client
    ensures ApplyHeaders(c, d, id, endStream, headers).core.server == c.server
  {
    hide Marked, InitialLine, GrpcHeaderMessage, WithMetadata, Held, PendingOf;
  }

  lemma BlockKeepsPreface(env: Env, c: Core, d: Direction, f: Frame, block: HeaderBlock)
    ensures var c' := BlockSoFar(env, c, d, f, block).core;
            SideOf(c', d).expectPreface == SideOf(c, d).expectPreface
  {
    hide ApplyHeaders, HasFlag;
    var c1 := GiveToHpack(c, d, block.bytes);
    var raw := env.hpack(SideOf(c1, d).history);
    if raw.Some? {
      ApplyKeepsSides(c1, d, block.streamId, block.endStream, Lossy(env, raw.value));
    }
  }

  lemma DataKeepsSides(maxBody: nat, c: Core, d: Direction, f: Frame)
    ensures HandleData(maxBody, c, d, f).core.client == c.client && HandleData(maxBody, c, d, f).core.server == c.server
  {
    hide Grpc.Feed, WithMetadata, MissingTrailers, Held, HasFlag, DataFragment;
  }

  lemma HandleKeepsPreface(env: Env, maxBody: nat, c: Core, d: Direction, f: Frame)
    ensures var c' := Settle(HandleFrame(env, maxBody, c, d, f), d).0;
            SideOf(c', d).expectPreface == SideOf(c, d).expectPreface
  {
    hide BlockSoFar, HandleData, HeaderFragment, Extend, HasFlag;
    DataKeepsSides(maxBody, c, d, f);
    if f.kind == FRAME_HEADERS {
      match HeaderFragment(f)
      case BadFragment(_) =>
      case Fragment(bytes) =>
        BlockKeepsPreface(env, c, d, f, Extend(HeaderBlock(f.streamId, HasFlag(f.flags, FLAG_END_STREAM), [], false), bytes));
    } else if f.kind == FRAME_CONTINUATION {
      match SideOf(c, d).continuation
      case None =>
      case Some(block) => BlockKeepsPreface(env, WithContinuation(c, d, None), d, f, Extend(block, f.payload));
    }
  }

  lemma StepAfterPreface(env: Env, maxBody: nat, d: Direction, c: Core, b: Bytes)
    requires !SideOf(c, d).expectPreface
    ensures var r := Step(env, maxBody, d, c, b); !r.Halt? && !SideOf(r.control, d).expectPreface
  {
    hide HandleFrame, Settle;
    if SideOf(c, d).skip == 0 && |b| >= FRAME_HEADER_BYTES && |b| >= FRAME_HEADER_BYTES + FrameLength(b) {
      HandleKeepsPreface(env, maxBody, c, d, ReadFrame(b));
    }
  }

  lemma {:induction false} DrainAfterPreface(env: Env, maxBody: nat, d: Direction, c: Core, b: Bytes)
    requires !SideOf(c, d).expectPreface
    ensures var r := DrainFrames(env, maxBody, d, c, b); !r.halted && !SideOf(r.control, d).expectPreface
    decreases |b|
  {
    hide Step, DrainFrames;
    StepAfterPreface(env, maxBody, d, c, b);
    DrainUnfolds(env, maxBody, d, c, b);
    match Step(env, maxBody, d, c, b)
    case Advance(c', rest, _) => DrainAfterPreface(env, maxBody, d, c', rest);
    case _ =>
  }

  /** The loop halts exactly on a preface mismatch, which only drops the buffer. */
  lemma HaltsOnBadStart(env: Env, maxBody: nat, s: Decoder, d: Direction, bytes: Bytes)
    ensures var r := DrainFrames(env, maxBody, d, s.core, BufferOf(s, d) + bytes);
            && (r.halted <==> BadStart(s, d, bytes))
            && (BadStart(s, d, bytes) ==> r == Drained(s.core, [], Batch([], Some(BadPreface)), true))
  {
    hide DrainFrames, PREFACE, StepSkip, StepFrame;
    var b := BufferOf(s, d) + bytes;
    DrainUnfolds(env, maxBody, d, s.core, b);
    if SideOf(s.core, d).expectPreface {
      var r := StepPreface(s.core, d, b);
      if r.Advance? {
        SideFacts(s.core, d, SideOf(s.core, d).(expectPreface := false), SideOf(s.core, d));
        DrainAfterPreface(env, maxBody, d, r.control, r.rest);
      }
    } else {
      DrainAfterPreface(env, maxBody, d, s.core, b);
    }
  }

  // --------------------------------------------------------------- fragmentation

  function Pusher(env: Env, maxBody: nat, d: Direction): (Decoder, Bytes) -> (Decoder, Report) {
    (s, bytes) => Push(env, maxBody, s, d, bytes)
  }

  lemma CutWhenGoodStart(env: Env, maxBody: nat, d: Direction, s: Decoder, a: Bytes, b: Bytes)
    requires !BadStart(s, d, a)
    ensures CutsAt(Pusher(env, maxBody, d), s, a, b)
  {
    hide Step, BadStart;
    StepperProductive(env, maxBody, d);
    StepperStable(env, maxBody, d);
    HaltsOnBadStart(env, maxBody, s, d, a);
    Cut(Stepper(env, maxBody, d), s.core, BufferOf(s, d) + a, b);
    assert BufferOf(s, d) + a + b == BufferOf(s, d) + (a + b);
  }

  lemma MismatchPersists(a: Bytes, b: Bytes)
    requires PrefaceMismatch(a)
    ensures PrefaceMismatch(a + b)
  {
    var n, m := Min(|a|, |PREFACE|), Min(|a + b|, |PREFACE|);
    assert (a + b)[..m][..n] == a[..n];
    assert PREFACE[..m][..n] == PREFACE[..n];
  }

  /** After a mismatch the dropped buffer makes the next push start over: it leaves a trace exactly when
      it is not empty and begins like a preface. */
  lemma PushAfterMismatch(env: Env, maxBody: nat, d: Direction, s: Decoder, b: Bytes)
    requires SideOf(s.core, d).expectPreface && BufferOf(s, d) == []
    ensures Push(env, maxBody, s, d, b).0 == s <==> b == [] || PrefaceMismatch(b)
    ensures b == [] ==> Push(env, maxBody, s, d, b).1 == Quiet()
    ensures PrefaceMismatch(b) ==> Push(env, maxBody, s, d, b).1 == Batch([], Some(BadPreface))
  {
    hide DrainFrames, PREFACE, StepSkip, StepFrame;
    PrefaceLength();
    assert [] + b == b;
    HaltsOnBadStart(env, maxBody, s, d, b);
    DrainUnfolds(env, maxBody, d, s.core, b);
    var r := StepPreface(s.core, d, b);
    if r.Advance? {
      SideFacts(s.core, d, SideOf(s.core, d).(expectPreface := false), SideOf(s.core, d));
      DrainAfterPreface(env, maxBody, d, r.control, r.rest);
    }
  }

  /** Two pushes are one push exactly when the first does not break the client preface, or the second
      one is empty or breaks it again. Oversized frames and frames in error do not matter. */
  lemma PushCut(env: Env, maxBody: nat, d: Direction, s: Decoder, a: Bytes, b: Bytes)
    ensures CutsAt(Pusher(env, maxBody, d), s, a, b)
            <==> !BadStart(s, d, a) || b == [] || PrefaceMismatch(b)
  {
    hide DrainFrames, PrefaceMismatch;
    if !BadStart(s, d, a) {
      CutWhenGoodStart(env, maxBody, d, s, a, b);
    } else {
      var dropped := WithBuffer(s, d, []);
      MismatchPersists(BufferOf(s, d) + a, b);
      assert BufferOf(s, d) + a + b == BufferOf(s, d) + (a + b);
      HaltsOnBadStart(env, maxBody, s, d, a);
      HaltsOnBadStart(env, maxBody, s, d, a + b);
      PushAfterMismatch(env, maxBody, d, dropped, b);
      var bad: Report := Batch([], Some(BadPreface));
      assert Push(env, maxBody, s, d, a) == (dropped, bad) == Push(env, maxBody, s, d, a + b);
      assert Join(bad, Quiet()) == bad == Join(bad, bad);
    }
  }

  function GoodStart(d: Direction): (Decoder, Bytes, Bytes) -> bool {
    (s, a, _) => !BadStart(s, d, a)
  }

  /** From every state and for every HPACK decoder, any fragmentation that never breaks the preface
      before its last push reaches the same decoder and reports the same messages and last reason. */
  lemma Fragmentation(env: Env, maxBody: nat, d: Direction, s: Decoder, fragments: seq<Bytes>)
    requires fragments != [] && OkAtEveryCut(Pusher(env, maxBody, d), GoodStart(d), s, fragments)
    ensures Feed(Pusher(env, maxBody, d), s, fragments) == Push(env, maxBody, s, d, Flatten(fragments))
  {
    hide Push, BadStart;
    forall s, a, b | GoodStart(d)(s, a, b) ensures CutsAt(Pusher(env, maxBody, d), s, a, b) {
      CutWhenGoodStart(env, maxBody, d, s, a, b);
    }
    FeedIsOnePush(Pusher(env, maxBody, d), GoodStart(d), s, fragments);
  }

  /** The cut shows: a byte that breaks the preface drops the buffer it arrives in, so a byte sent after it
      survives in a second push and is lost in the same push. */
  lemma MismatchSeesTheCut(env: Env, maxBody: nat)
    ensures !CutsAt(Pusher(env, maxBody, ClientToServer), Initial, ['X' as int], ['P' as int])
  {
    var a: Bytes, b: Bytes := ['X' as int], ['P' as int];
    PrefaceLength();
    assert PREFACE[0] == 'P' as int;
    assert [] + a == a && a[..1] == a && b[..1] == b && PREFACE[..1] == b;
    assert a[0] != b[0];
    PushCut(env, maxBody, ClientToServer, Initial, a, b);
  }
}
