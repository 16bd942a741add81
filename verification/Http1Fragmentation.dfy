/** Cutting one direction's bytes into pushes does not change what the HTTP/1 decoder reports. */
module Http1Fragmentation {
  import opened ByteStrings
  import opened Streaming
  import opened Http1

  lemma CaptureAppend(m: DecodedMessage, a: Bytes, b: Bytes, cap: Option<nat>)
    ensures Capture(Capture(m, a, cap), b, cap) == Capture(m, a + b, cap)
  {
    if cap.None? {
      assert m.body + a + b == m.body + (a + b);
    } else {
      var k := Min(Monus(cap.value, |m.body|), |a|);
      var n := Min(Monus(cap.value, |m.body| + k), |b|);
      assert (a + b)[..k + n] == a[..k] + b[..n];
      assert m.body + a[..k] + b[..n] == m.body + (a[..k] + b[..n]);
    }
  }

  lemma SameDirection(x: Exchange, d: Direction, p: Pending, q: Pending)
    ensures WithPending(WithPending(x, d, p), d, q) == WithPending(x, d, q)
    ensures PendingOf(WithPending(x, d, p), d) == p
    ensures WithPending(x, d, PendingOf(x, d)) == x
    ensures RespondsToHead(WithPending(x, d, p), d) == RespondsToHead(x, d)
  {
  }

  lemma FrameRest(x: Exchange, d: Direction, head: ParsedHead, rest: Bytes, b: Bytes)
    ensures var r := Frame(x, d, head, rest);
            r.Advance? && Frame(x, d, head, rest + b) == Advance(r.control, rest + b, r.emitted)
  {
  }

  lemma StepHeadStable(x: Exchange, d: Direction, a: Bytes, b: Bytes)
    requires PendingOf(x, d).Idle?
    ensures var r := StepHead(x, d, a);
            && (r.Advance? ==> StepHead(x, d, a + b) == Advance(r.control, r.rest + b, r.emitted))
            && (r.NeedMore? ==> r == NeedMore(x, a))
  {
    SameDirection(x, d, Idle, Idle);
    match Find(a, CRLFCRLF)
    case None =>
    case Some(end) =>
      FindStable(a, b, CRLFCRLF);
      assert (a + b)[..end] == a[..end];
      assert (a + b)[end + 4..] == a[end + 4..] + b;
      match ParseHead(a[..end])
      case Rejected(_) =>
      case Parsed(head) => FrameRest(x, d, head, a[end + 4..], b);
  }

  lemma StepSizeStable(cap: Option<nat>, x: Exchange, d: Direction, m: DecodedMessage, a: Bytes, b: Bytes)
    requires PendingOf(x, d) == Chunked(m, Size)
    ensures var r := StepChunk(cap, x, d, m, Size, a);
            && (r.Advance? ==> StepChunk(cap, x, d, m, Size, a + b) == Advance(r.control, r.rest + b, r.emitted))
            && (r.NeedMore? ==> r == NeedMore(x, a))
  {
    hide ParseChunkLine;
    SameDirection(x, d, Chunked(m, Size), Idle);
    if Find(a, CRLF).Some? {
      var end := Find(a, CRLF).value;
      FindStable(a, b, CRLF);
      assert (a + b)[..end] == a[..end];
      assert (a + b)[end + 2..] == a[end + 2..] + b;
    }
  }

  lemma StepTrailersStable(cap: Option<nat>, x: Exchange, d: Direction, m: DecodedMessage, a: Bytes, b: Bytes)
    requires PendingOf(x, d) == Chunked(m, Trailers)
    ensures var r := StepChunk(cap, x, d, m, Trailers, a);
            && (r.Advance? ==> StepChunk(cap, x, d, m, Trailers, a + b) == Advance(r.control, r.rest + b, r.emitted))
            && (r.NeedMore? ==> r == NeedMore(x, a))
  {
    SameDirection(x, d, Chunked(m, Trailers), Idle);
    if StartsWith(a, CRLF) {
      assert StartsWith(a + b, CRLF);
      assert (a + b)[2..] == a[2..] + b;
    } else if Find(a, CRLFCRLF).Some? {
      var end := Find(a, CRLFCRLF).value;
      FindStable(a, b, CRLFCRLF);
      assert |a| >= 4;
      assert (a + b)[..2] == a[..2];
      assert (a + b)[end + 4..] == a[end + 4..] + b;
    }
  }

  lemma StepDataStable(cap: Option<nat>, x: Exchange, d: Direction, m: DecodedMessage, n: Owed, a: Bytes, b: Bytes)
    requires PendingOf(x, d) == Chunked(m, Data(n))
    ensures StableAt(Stepper(cap, d), x, a, b)
  {
    hide StepHead, ParseChunkLine, Capture, Track;
    if |a| < n {
      var m' := Capture(m, a, cap);
      SameDirection(x, d, Chunked(m', Data(n - |a|)), Idle);
      if |a + b| < n {
        CaptureAppend(m, a, b, cap);
        SameDirection(x, d, Chunked(m', Data(n - |a|)), Chunked(Capture(m, a + b, cap), Data(n - |a + b|)));
        assert [] + b == b;
      } else {
        assert (a + b)[..n] == a + b[..n - |a|];
        assert (a + b)[n..] == b[n - |a|..];
        CaptureAppend(m, a, b[..n - |a|], cap);
        SameDirection(x, d, Chunked(m', Data(n - |a|)), Chunked(Capture(m, (a + b)[..n], cap), DataCrlf));
        assert [] + b == b;
      }
    } else {
      assert (a + b)[..n] == a[..n];
      assert (a + b)[n..] == a[n..] + b;
    }
  }

  lemma StepFixedStable(cap: Option<nat>, x: Exchange, d: Direction, m: DecodedMessage, n: Owed, a: Bytes, b: Bytes)
    requires PendingOf(x, d) == Fixed(m, n)
    ensures StableAt(Stepper(cap, d), x, a, b)
  {
    hide StepHead, ParseChunkLine, Capture, Track;
    if |a| < n {
      var m' := Capture(m, a, cap);
      SameDirection(x, d, Fixed(m', n - |a|), Idle);
      assert [] + b == b;
      if |a + b| < n {
        CaptureAppend(m, a, b, cap);
        SameDirection(x, d, Fixed(m', n - |a|), Fixed(Capture(m, a + b, cap), n - |a + b|));
      } else {
        assert (a + b)[..n] == a + b[..n - |a|];
        assert (a + b)[n..] == b[n - |a|..];
        CaptureAppend(m, a, b[..n - |a|], cap);
      }
    } else {
      assert (a + b)[..n] == a[..n];
      assert (a + b)[n..] == a[n..] + b;
    }
  }

  lemma StepUntilEofStable(cap: Option<nat>, x: Exchange, d: Direction, m: DecodedMessage, a: Bytes, b: Bytes)
    requires PendingOf(x, d) == UntilEof(m)
    ensures StableAt(Stepper(cap, d), x, a, b)
  {
    var m' := Capture(m, a, cap);
    SameDirection(x, d, UntilEof(m'), UntilEof(Capture(m, a + b, cap)));
    CaptureAppend(m, a, b, cap);
    assert [] + b == b;
  }

  lemma StepCrlfStable(cap: Option<nat>, x: Exchange, d: Direction, m: DecodedMessage, a: Bytes, b: Bytes)
    requires PendingOf(x, d) == Chunked(m, DataCrlf)
    ensures StableAt(Stepper(cap, d), x, a, b)
  {
    SameDirection(x, d, Chunked(m, DataCrlf), Idle);
    if |a| >= 2 {
      assert (a + b)[..2] == a[..2];
      assert (a + b)[2..] == a[2..] + b;
    }
  }

  lemma StepperStable(cap: Option<nat>, d: Direction)
    ensures Stable(Stepper(cap, d))
  {
    hide StepHead, StepChunk, Capture;
    forall x, a, b ensures StableAt(Stepper(cap, d), x, a, b) {
      match PendingOf(x, d)
      case Idle => StepHeadStable(x, d, a, b);
      case Fixed(m, n) => StepFixedStable(cap, x, d, m, n, a, b);
      case UntilEof(m) => StepUntilEofStable(cap, x, d, m, a, b);
      case Chunked(m, Size) => StepSizeStable(cap, x, d, m, a, b);
      case Chunked(m, Data(n)) => StepDataStable(cap, x, d, m, n, a, b);
      case Chunked(m, DataCrlf) => StepCrlfStable(cap, x, d, m, a, b);
      case Chunked(m, Trailers) => StepTrailersStable(cap, x, d, m, a, b);
    }
  }

  lemma StepperCandid(cap: Option<nat>, d: Direction)
    ensures Candid(Stepper(cap, d))
  {
    forall x, b ensures CandidAt(Stepper(cap, d), x, b) {
    }
  }

  function Pusher(cap: Option<nat>, d: Direction): (Decoder, Bytes) -> (Decoder, Report) {
    (s, bytes) => Push(cap, s, d, bytes)
  }

  /** Every halt but the three size limits is final: more input does not change it. */
  predicate IsFinal(reason: Reason) {
    reason !in {HeadTooLong, ChunkLineTooLong, TrailersTooLong}
  }

  lemma HeadIsFinal(x: Exchange, d: Direction, a: Bytes, b: Bytes)
    ensures var r := StepHead(x, d, a);
            r.Halt? && IsFinal(r.emitted.desynchronized.value) ==> StepHead(x, d, a + b) == r
  {
    hide ParseHead, Frame;
    if Find(a, CRLFCRLF).Some? {
      FindStable(a, b, CRLFCRLF);
      assert (a + b)[..Find(a, CRLFCRLF).value] == a[..Find(a, CRLFCRLF).value];
    }
  }

  lemma ChunkIsFinal(cap: Option<nat>, x: Exchange, d: Direction, m: DecodedMessage, phase: ChunkPhase, a: Bytes, b: Bytes)
    ensures var r := StepChunk(cap, x, d, m, phase, a);
            r.Halt? && IsFinal(r.emitted.desynchronized.value) ==> StepChunk(cap, x, d, m, phase, a + b) == r
  {
    hide ParseChunkLine, Capture, Track;
    if phase.Size? && Find(a, CRLF).Some? {
      FindStable(a, b, CRLF);
      assert (a + b)[..Find(a, CRLF).value] == a[..Find(a, CRLF).value];
    }
    assert |a| >= 2 ==> (a + b)[..2] == a[..2];
  }

  lemma HaltsAreFinal(cap: Option<nat>, d: Direction)
    ensures Final(Stepper(cap, d), IsFinal)
  {
    hide StepHead, StepChunk, Capture, IsFinal;
    forall x, a, b ensures FinalAt(Stepper(cap, d), IsFinal, x, a, b) {
      HeadIsFinal(x, d, a, b);
      if PendingOf(x, d).Chunked? { ChunkIsFinal(cap, x, d, PendingOf(x, d).message, PendingOf(x, d).phase, a, b); }
    }
  }

  /** What the bytes after `b` can do to the loop over `b`. */
  lemma CutsOrHalts(cap: Option<nat>, d: Direction, x: Exchange, b: Bytes, more: Bytes)
    ensures var r := DrainStream(cap, d, x, b);
            && (r.halted <==> r.batch.desynchronized.Some?)
            && (r.halted ==> r.rest == [])
            && (!r.halted ==> DrainStream(cap, d, x, b + more) == Prepend(r.batch, DrainStream(cap, d, r.control, r.rest + more)))
            && (r.halted && IsFinal(r.batch.desynchronized.value) ==> DrainStream(cap, d, x, b + more) == r)
  {
    hide Step, IsFinal;
    var step := Stepper(cap, d);
    StepperProductive(cap, d);
    StepperStable(cap, d);
    StepperCandid(cap, d);
    HaltsAreFinal(cap, d);
    HaltedIffReported(step, x, b);
    HaltedDropsTheRest(step, x, b);
    if Drain(step, x, b).halted {
      if IsFinal(Drain(step, x, b).batch.desynchronized.value) { CutFinal(step, IsFinal, x, b, more); }
    } else {
      Cut(step, x, b, more);
    }
  }

  /** From inside a body the loop halts, emits a message, or stays inside a body. */
  lemma {:induction false} BodyLeavesTrace(cap: Option<nat>, d: Direction, x: Exchange, b: Bytes)
    requires !PendingOf(x, d).Idle?
    ensures var r := DrainStream(cap, d, x, b); r.halted || r.batch.messages != [] || !PendingOf(r.control, d).Idle?
    decreases |b|
  {
    hide DrainStream, StepHead, ParseChunkLine, Capture, Track, Find;
    DrainUnfolds(cap, d, x, b);
    var r := Step(cap, d, x, b);
    if r.Advance? && r.emitted.messages == [] { BodyLeavesTrace(cap, d, r.control, r.rest); }
  }

  /** From between messages, bytes that are not refused leave a trace. */
  lemma CleanPushLeavesTrace(cap: Option<nat>, d: Direction, x: Exchange, b: Bytes)
    requires PendingOf(x, d).Idle?
    ensures var r := DrainStream(cap, d, x, b);
            && (b == [] ==> r == Drained(x, [], Quiet(), false))
            && (b != [] ==> r.halted || r.rest != [] || r.batch.messages != [] || !PendingOf(r.control, d).Idle?)
  {
    hide DrainStream, ParseHead, Track, Find;
    DrainUnfolds(cap, d, x, b);
    SameDirection(x, d, Idle, Idle);
    var r := Step(cap, d, x, b);
    if r.Advance? && r.emitted.messages == [] { BodyLeavesTrace(cap, d, r.control, r.rest); }
  }

  lemma {:induction false} HaltedIsIdle(cap: Option<nat>, d: Direction, x: Exchange, b: Bytes)
    ensures DrainStream(cap, d, x, b).halted ==> PendingOf(DrainStream(cap, d, x, b).control, d).Idle?
    decreases |b|
  {
    hide DrainStream, ParseHead, ParseChunkLine, Capture, Track, Find;
    DrainUnfolds(cap, d, x, b);
    if Step(cap, d, x, b).Advance? { HaltedIsIdle(cap, d, Step(cap, d, x, b).control, Step(cap, d, x, b).rest); }
  }

  /** Two pushes are one push whenever the first is clean. When the single push is clean, exactly then.
      When the first push halts for good, exactly when the second is empty or is itself refused at once
      for the same reason. */
  lemma PushCut(cap: Option<nat>, d: Direction, s: Decoder, a: Bytes, b: Bytes)
    ensures Push(cap, s, d, a).1.desynchronized.None? ==> CutsAt(Pusher(cap, d), s, a, b)
    ensures Push(cap, s, d, a + b).1.desynchronized.None? ==>
              (CutsAt(Pusher(cap, d), s, a, b) <==> Push(cap, s, d, a).1.desynchronized.None?)
    ensures var (s1, r1) := Push(cap, s, d, a);
            r1.desynchronized.Some? && IsFinal(r1.desynchronized.value) ==>
              (CutsAt(Pusher(cap, d), s, a, b) <==> b == [] || Push(cap, s1, d, b) == (s1, Batch([], r1.desynchronized)))
    ensures b == [] ==> CutsAt(Pusher(cap, d), s, a, b)
  {
    hide DrainStream, IsFinal;
    var x, buffer := s.exchange, BufferOf(s, d);
    var r := DrainStream(cap, d, x, buffer + a);
    assert buffer + a + b == buffer + (a + b);
    CutsOrHalts(cap, d, x, buffer + a, b);
    if r.halted {
      assert [] + b == b;
      HaltedIsIdle(cap, d, x, buffer + a);
      CleanPushLeavesTrace(cap, d, r.control, b);
      CutsOrHalts(cap, d, r.control, b, []);
      assert b == [] ==> a + b == a;
      assert r.batch.messages + [] == r.batch.messages;
    }
  }

  function CleanFirst(cap: Option<nat>, d: Direction): (Decoder, Bytes, Bytes) -> bool {
    (s, a, _) => Push(cap, s, d, a).1.desynchronized.None?
  }

  /** Any fragmentation whose pushes before the last one are clean reports the same messages, the
      same reason and reaches the same decoder as pushing all bytes at once. */
  lemma Fragmentation(cap: Option<nat>, d: Direction, s: Decoder, fragments: seq<Bytes>)
    requires fragments != []
    requires OkAtEveryCut(Pusher(cap, d), CleanFirst(cap, d), s, fragments)
    ensures Feed(Pusher(cap, d), s, fragments) == Push(cap, s, d, Flatten(fragments))
  {
    forall s, a, b | CleanFirst(cap, d)(s, a, b) ensures CutsAt(Pusher(cap, d), s, a, b) {
      PushCut(cap, d, s, a, b);
    }
    FeedIsOnePush(Pusher(cap, d), CleanFirst(cap, d), s, fragments);
  }

  /** The clean first push is needed: an empty start line drops the buffer it arrives in, so a byte
      sent after it survives in a second push and is lost in the same push. */
  lemma DesynchronizationSeesTheCut(cap: Option<nat>)
    ensures !CutsAt(Pusher(cap, ClientToServer), Initial, CRLFCRLF, ['G' as int])
  {
    var d := ClientToServer;
    var first, both := CRLFCRLF, CRLFCRLF + ['G' as int];
    FindIs(first, CRLFCRLF, 0);
    FindStable(first, ['G' as int], CRLFCRLF);
    assert first[..0] == both[..0] == [];
    assert ParseHead([]) == Rejected(EmptyStartLine);
    assert Push(cap, Initial, d, first).0 == Initial by { assert [] + first == first; }
    assert Push(cap, Initial, d, both).0 == Initial by { assert [] + both == both; }
    var rest: Bytes := ['G' as int];
    assert Find(rest, CRLFCRLF).None? by {
      forall j: nat ensures !At(rest, CRLFCRLF, j) {}
    }
    assert Push(cap, Initial, d, rest).0.client == rest by { assert [] + rest == rest; }
  }
}
