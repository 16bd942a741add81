/** The Redis decoder: buffers, the observation bound, and streams of frames cut anywhere. */
module RedisDecoder {
  import opened ByteStrings
  import opened Streaming
  import opened Redis
  import opened RedisFrames

  const FRAME_OVERHEAD_BUDGET: nat := 65536

  /** How a value is rendered as a message; the theorems hold for every rendering. */
  type Renderer = (Direction, Value, nat) -> DecodedMessage

  function FrameLimit(maxBody: nat): nat {
    Min(maxBody + FRAME_OVERHEAD_BUDGET, USIZE_MAX)
  }

  type StepOutcome = Outcome<(), DecodedMessage, Reason>

  function Step(render: Renderer, maxBody: nat, d: Direction, buffer: Bytes): (r: StepOutcome)
    ensures r.control == () && (r.Advance? ==> |r.rest| < |buffer|)
  {
    match ParseValue(buffer, 0)
    case Complete(value, consumed) => Advance((), buffer[consumed..], Batch([render(d, value, maxBody)], None))
    case Incomplete =>
      if |buffer| > FrameLimit(maxBody) then Halt((), Batch([], Some(FrameTooLong))) else NeedMore((), buffer)
    case Invalid(reason) => Halt((), Batch([], Some(reason)))
  }

  function Stepper(render: Renderer, maxBody: nat, d: Direction): ((), Bytes) -> StepOutcome {
    (_, buffer) => Step(render, maxBody, d, buffer)
  }

  lemma StepperProductive(render: Renderer, maxBody: nat, d: Direction)
    ensures Productive(Stepper(render, maxBody, d))
  {
    forall c, b ensures ProductiveAt(Stepper(render, maxBody, d), c, b) {
    }
  }

  function DrainFrames(render: Renderer, maxBody: nat, d: Direction, buffer: Bytes): Drained<(), DecodedMessage, Reason> {
    StepperProductive(render, maxBody, d);
    Drain(Stepper(render, maxBody, d), (), buffer)
  }

  datatype Decoder = Decoder(client: Bytes, server: Bytes)

  type Report = Batch<DecodedMessage, Reason>

  function BufferOf(s: Decoder, d: Direction): Bytes {
    if d == ClientToServer then s.client else s.server
  }

  function WithBuffer(s: Decoder, d: Direction, b: Bytes): Decoder {
    if d == ClientToServer then s.(client := b) else s.(server := b)
  }

  function PushBytes(render: Renderer, maxBody: nat, s: Decoder, d: Direction, bytes: Bytes): (Decoder, Report) {
    var r := DrainFrames(render, maxBody, d, BufferOf(s, d) + bytes);
    (WithBuffer(s, d, r.rest), r.batch)
  }

  function FinishStream(render: Renderer, maxBody: nat, s: Decoder, d: Direction): (Decoder, Report) {
    var r := DrainFrames(render, maxBody, d, BufferOf(s, d));
    if r.rest == [] then (WithBuffer(s, d, []), r.batch)
    else (WithBuffer(s, d, []), r.batch.(desynchronized := Some(EndedInside)))
  }

  lemma DrainUnfolds(render: Renderer, maxBody: nat, d: Direction, b: Bytes)
    ensures DrainFrames(render, maxBody, d, b) ==
            match Step(render, maxBody, d, b)
            case NeedMore(_, rest) => Drained((), rest, Quiet(), false)
            case Halt(_, e) => Drained((), [], e, true)
            case Advance(_, rest, e) => Prepend(e, DrainFrames(render, maxBody, d, rest))
  {
    hide Step;
    StepperProductive(render, maxBody, d);
  }

  // --------------------------------------------------------------- fragmentation

  lemma StepperStable(render: Renderer, maxBody: nat, d: Direction)
    ensures Stable(Stepper(render, maxBody, d)) && Candid(Stepper(render, maxBody, d))
  {
    hide ParseValue;
    forall c, a, b ensures StableAt(Stepper(render, maxBody, d), c, a, b) {
      ValueStable(a, b, 0);
      if ParseValue(a, 0).Complete? {
        var n := ParseValue(a, 0).consumed;
        assert (a + b)[n..] == a[n..] + b;
      }
    }
    forall c, b ensures CandidAt(Stepper(render, maxBody, d), c, b) {
    }
  }

  function Pusher(render: Renderer, maxBody: nat, d: Direction): (Decoder, Bytes) -> (Decoder, Report) {
    (s, bytes) => PushBytes(render, maxBody, s, d, bytes)
  }

  /** Every refusal but the size limit is final: more input does not change it. */
  predicate IsFinal(reason: Reason) {
    reason != FrameTooLong
  }

  lemma RefusalsAreFinal(render: Renderer, maxBody: nat, d: Direction)
    ensures Final(Stepper(render, maxBody, d), IsFinal)
  {
    hide ParseValue;
    forall c, a, b ensures FinalAt(Stepper(render, maxBody, d), IsFinal, c, a, b) {
      ValueStable(a, b, 0);
    }
  }

  /** A push that is not refused leaves its last bytes, or a message, behind. */
  lemma CleanPushLeavesTrace(render: Renderer, maxBody: nat, d: Direction, b: Bytes)
    ensures var r := DrainFrames(render, maxBody, d, b);
            && (b == [] ==> r == Drained((), [], Quiet(), false))
            && (b != [] && !r.halted ==> r.rest != [] || r.batch.messages != [])
  {
    hide ParseValue;
    assert ParseValue([], 0) == Incomplete by { NothingParses(); }
    DrainUnfolds(render, maxBody, d, b);
  }

  lemma NothingParses()
    ensures ParseValue([], 0) == Incomplete
  {
  }

  /** Two pushes are one push whenever the first is clean. When the single push is clean, exactly then.
      When the first push is refused for good, exactly when the second is empty or is itself refused
      at once for the same reason. */
  lemma PushCut(render: Renderer, maxBody: nat, d: Direction, s: Decoder, a: Bytes, b: Bytes)
    ensures PushBytes(render, maxBody, s, d, a).1.desynchronized.None? ==> CutsAt(Pusher(render, maxBody, d), s, a, b)
    ensures PushBytes(render, maxBody, s, d, a + b).1.desynchronized.None? ==>
              (CutsAt(Pusher(render, maxBody, d), s, a, b) <==> PushBytes(render, maxBody, s, d, a).1.desynchronized.None?)
    ensures var (s1, r1) := PushBytes(render, maxBody, s, d, a);
            r1.desynchronized.Some? && IsFinal(r1.desynchronized.value) ==>
              (CutsAt(Pusher(render, maxBody, d), s, a, b) <==>
                 b == [] || PushBytes(render, maxBody, s1, d, b) == (s1, Batch([], r1.desynchronized)))
    ensures b == [] ==> CutsAt(Pusher(render, maxBody, d), s, a, b)
  {
    hide Step, DrainFrames;
    var buffer := BufferOf(s, d);
    var r := DrainFrames(render, maxBody, d, buffer + a);
    assert buffer + a + b == buffer + (a + b);
    CutsOrHalts(render, maxBody, d, buffer + a, b);
    if r.batch.desynchronized.Some? {
      assert [] + b == b;
      CleanPushLeavesTrace(render, maxBody, d, b);
      CutsOrHalts(render, maxBody, d, b, []);
      assert b == [] ==> a + b == a;
      assert r.batch.messages + [] == r.batch.messages;
    }
  }

  /** What the bytes after `x` can do to the loop over `x`. */
  lemma CutsOrHalts(render: Renderer, maxBody: nat, d: Direction, x: Bytes, b: Bytes)
    ensures var r := DrainFrames(render, maxBody, d, x);
            && (r.halted <==> r.batch.desynchronized.Some?)
            && (r.halted ==> r.rest == [])
            && (!r.halted ==> DrainFrames(render, maxBody, d, x + b) == Prepend(r.batch, DrainFrames(render, maxBody, d, r.rest + b)))
            && (r.halted && IsFinal(r.batch.desynchronized.value) ==> DrainFrames(render, maxBody, d, x + b) == r)
  {
    hide Step;
    var step := Stepper(render, maxBody, d);
    StepperProductive(render, maxBody, d);
    StepperStable(render, maxBody, d);
    RefusalsAreFinal(render, maxBody, d);
    HaltedIffReported(step, (), x);
    HaltedDropsTheRest(step, (), x);
    if Drain(step, (), x).halted {
      if IsFinal(Drain(step, (), x).batch.desynchronized.value) { CutFinal(step, IsFinal, (), x, b); }
    } else {
      Cut(step, (), x, b);
    }
  }

  function CleanFirst(render: Renderer, maxBody: nat, d: Direction): (Decoder, Bytes, Bytes) -> bool {
    (s, a, _) => PushBytes(render, maxBody, s, d, a).1.desynchronized.None?
  }

  /** Any fragmentation whose pushes before the last one are clean is one push of all bytes. */
  lemma Fragmentation(render: Renderer, maxBody: nat, d: Direction, s: Decoder, fragments: seq<Bytes>)
    requires fragments != []
    requires OkAtEveryCut(Pusher(render, maxBody, d), CleanFirst(render, maxBody, d), s, fragments)
    ensures Feed(Pusher(render, maxBody, d), s, fragments) == PushBytes(render, maxBody, s, d, Flatten(fragments))
  {
    hide PushBytes;
    forall s, a, b | CleanFirst(render, maxBody, d)(s, a, b) ensures CutsAt(Pusher(render, maxBody, d), s, a, b) {
      PushCut(render, maxBody, d, s, a, b);
    }
    FeedIsOnePush(Pusher(render, maxBody, d), CleanFirst(render, maxBody, d), s, fragments);
  }

  /** The cut shows: an empty inline command drops the buffer it arrives in, so a byte sent after it
      survives in a second push and is lost in the same push. */
  lemma RefusalSeesTheCut(render: Renderer, maxBody: nat)
    ensures !CutsAt(Pusher(render, maxBody, ClientToServer), Decoder([], []), CRLF, ['+' as int])
  {
    hide PushBytes;
    var d, s := ClientToServer, Decoder([], []);
    PushCut(render, maxBody, d, s, CRLF, ['+' as int]);
    EmptyCommandRefused(render, maxBody);
    LoneTypeWaits(render, maxBody);
  }

  lemma EmptyCommandRefused(render: Renderer, maxBody: nat)
    ensures PushBytes(render, maxBody, Decoder([], []), ClientToServer, CRLF) == (Decoder([], []), Batch([], Some(EmptyInline)))
  {
    assert [] + CRLF == CRLF;
    FindIs(CRLF, CRLF, 0);
    DrainUnfolds(render, maxBody, ClientToServer, CRLF);
  }

  lemma LoneTypeWaits(render: Renderer, maxBody: nat)
    ensures PushBytes(render, maxBody, Decoder([], []), ClientToServer, ['+' as int]).1.desynchronized.None?
  {
    var b: Bytes := ['+' as int];
    assert [] + b == b;
    forall j: nat ensures !At(b[1..], CRLF, j) {}
    DrainUnfolds(render, maxBody, ClientToServer, b);
  }

  // ------------------------------------------------------------ streams of frames

  function Messages(render: Renderer, maxBody: nat, d: Direction, vs: seq<Value>): seq<DecodedMessage> {
    seq(|vs|, i requires 0 <= i < |vs| => render(d, vs[i], maxBody))
  }

  /** Frames the decoder promises to observe: printable, and within the buffer bound. */
  ghost predicate Observable(vs: seq<Value>, maxBody: nat) {
    forall i :: 0 <= i < |vs| ==> WellFormed(vs[i], 0) && |Print(vs[i])| <= FrameLimit(maxBody)
  }

  /** `rest` is where the loop stops inside a stream that continues with `vs`. */
  predicate InsideFirst(rest: Bytes, vs: seq<Value>) {
    if vs == [] then rest == [] else |rest| < |Print(vs[0])|
  }

  lemma FrameSteps(render: Renderer, maxBody: nat, d: Direction, v: Value, rest: Bytes)
    requires WellFormed(v, 0)
    ensures DrainFrames(render, maxBody, d, Print(v) + rest)
            == Prepend(Batch([render(d, v, maxBody)], None), DrainFrames(render, maxBody, d, rest))
    ensures |Print(v)| > 0
  {
    hide Print, WellFormed, DrainFrames, ParseValue;
    ParsePrinted(v, 0, rest);
    DrainUnfolds(render, maxBody, d, Print(v) + rest);
    assert (Print(v) + rest)[|Print(v)|..] == rest;
  }

  lemma PartialFrameWaits(render: Renderer, maxBody: nat, d: Direction, v: Value, b: Bytes)
    requires WellFormed(v, 0) && |Print(v)| <= FrameLimit(maxBody) && b < Print(v)
    ensures DrainFrames(render, maxBody, d, b) == Drained((), b, Quiet(), false)
  {
    hide Print, WellFormed, DrainFrames, ParseValue;
    ParsePrinted(v, 0, []);
    assert Print(v) + [] == Print(v);
    assert Print(v)[..|b|] == b;
    StrictPrefixIncomplete(Print(v), 0, |b|);
    DrainUnfolds(render, maxBody, d, b);
  }

  /** One push of a stream: the frames it completes come out, and the loop stops inside the next one. */
  lemma {:induction false} DrainPrefix(render: Renderer, maxBody: nat, d: Direction, vs: seq<Value>, b: Bytes, after: Bytes) returns (k: nat)
    requires Observable(vs, maxBody) && b + after == PrintAll(vs)
    ensures k <= |vs|
    ensures var r := DrainFrames(render, maxBody, d, b);
            && r.batch == Batch(Messages(render, maxBody, d, vs[..k]), None)
            && r.rest + after == PrintAll(vs[k..]) && InsideFirst(r.rest, vs[k..])
    decreases vs
  {
    hide Print, WellFormed, DrainFrames;
    if vs == [] {
      assert b == [];
      DrainUnfolds(render, maxBody, d, b);
      assert Messages(render, maxBody, d, []) == [];
      k := 0;
    } else if |b| < |Print(vs[0])| {
      assert b == Print(vs[0])[..|b|] by {
        assert (b + after)[..|b|] == b;
        assert PrintAll(vs)[..|b|] == Print(vs[0])[..|b|];
      }
      PartialFrameWaits(render, maxBody, d, vs[0], b);
      assert vs[..0] == [] && vs[0..] == vs;
      k := 0;
    } else {
      var first, rest := Print(vs[0]), b[|Print(vs[0])|..];
      assert PrintAll(vs)[..|first|] == first && (b + after)[..|first|] == b[..|first|];
      assert b == first + rest;
      assert (b + after)[|first|..] == rest + after && PrintAll(vs)[|first|..] == PrintAll(vs[1..]);
      FrameSteps(render, maxBody, d, vs[0], rest);
      var n := DrainPrefix(render, maxBody, d, vs[1..], rest, after);
      k := n + 1;
      assert vs[1..][..n] == vs[1..k] && vs[1..][n..] == vs[k..];
      assert Messages(render, maxBody, d, vs[..k])
          == [render(d, vs[0], maxBody)] + Messages(render, maxBody, d, vs[1..][..n]);
    }
  }

  lemma StreamEnds(b: Bytes, vs: seq<Value>)
    requires InsideFirst(b, vs) && b == PrintAll(vs)
    ensures vs == [] && b == []
  {
    hide Print;
  }

  lemma NoMessages(render: Renderer, maxBody: nat, d: Direction)
    ensures Messages(render, maxBody, d, []) == []
  {
  }

  lemma MessagesSplit(render: Renderer, maxBody: nat, d: Direction, vs: seq<Value>, k: nat)
    requires k <= |vs|
    ensures Messages(render, maxBody, d, vs) == Messages(render, maxBody, d, vs[..k]) + Messages(render, maxBody, d, vs[k..])
  {
  }

  /** A stream of frames, cut in any way into pushes, reports one message per frame in order, no
      desynchronization, and leaves the buffer empty. */
  lemma {:induction false} FramesCutAnywhere(render: Renderer, maxBody: nat, d: Direction, s: Decoder, vs: seq<Value>, fragments: seq<Bytes>)
    requires Observable(vs, maxBody)
    requires BufferOf(s, d) + Flatten(fragments) == PrintAll(vs) && InsideFirst(BufferOf(s, d), vs)
    ensures Feed(Pusher(render, maxBody, d), s, fragments)
            == (WithBuffer(s, d, []), Batch(Messages(render, maxBody, d, vs), None))
    decreases fragments
  {
    hide DrainFrames, Print, WellFormed, PrintAll, InsideFirst, Messages;
    if fragments == [] {
      assert BufferOf(s, d) + [] == BufferOf(s, d);
      StreamEnds(BufferOf(s, d), vs);
      NoMessages(render, maxBody, d);
    } else {
      var b, after := BufferOf(s, d) + fragments[0], Flatten(fragments[1..]);
      assert b + after == PrintAll(vs);
      var k := DrainPrefix(render, maxBody, d, vs, b, after);
      var (s1, r1) := PushBytes(render, maxBody, s, d, fragments[0]);
      FramesCutAnywhere(render, maxBody, d, s1, vs[k..], fragments[1..]);
      MessagesSplit(render, maxBody, d, vs, k);
    }
  }

  // ------------------------------------------------------------- the decoder object

  /** One value, by its type byte. */
  method ReadValue(bytes: Bytes, depth: nat) returns (r: Parse)
    ensures r == ParseValue(bytes, depth)
    decreases Monus(MAX_NESTING, depth), 0
  {
    hide ParseLineValue, ParseNull, ParseBoolean, ParseBlob, ParseAggregate, ParseInline;
    if bytes == [] {
      return Incomplete;
    }
    if depth >= MAX_NESTING {
      return Invalid(NestingTooDeep);
    }
    var tag := bytes[0];
    if IsLineTag(tag) {
      return ParseLineValue(bytes);
    } else if tag == '_' as int {
      return ParseNull(bytes);
    } else if tag == '#' as int {
      return ParseBoolean(bytes);
    } else if IsBlobTag(tag) {
      return ParseBlob(bytes);
    } else if IsAggregateTag(tag) {
      r := ReadAggregate(bytes, depth);
    } else {
      return ParseInline(bytes);
    }
  }

  /** An aggregate: its count line, then its items one level deeper. */
  method ReadAggregate(bytes: Bytes, depth: nat) returns (r: Parse)
    requires bytes != [] && IsAggregateTag(bytes[0]) && depth < MAX_NESTING
    ensures r == ParseAggregate(bytes, depth)
    decreases MAX_NESTING - depth - 1, 2
  {
    hide ParseCount, ParseItems;
    var count := ParseCount(bytes);
    match count
    case CountIncomplete => return Incomplete;
    case CountInvalid(reason) => return Invalid(reason);
    case CountNull(consumed) => return Complete(NullArray, consumed);
    case Count(n, consumed) =>
      var items := ParseItemsLoop(bytes[consumed..], depth + 1, n);
      match items
      case ItemsIncomplete => return Incomplete;
      case ItemsInvalid(reason) => return Invalid(reason);
      case ItemsComplete(values, used) => return Complete(AggregateValue(bytes[0], values), consumed + used);
  }

  /** The item loop of an aggregate. */
  method ParseItemsLoop(bytes: Bytes, depth: nat, count: nat) returns (r: Items)
    ensures r == ParseItems(bytes, depth, count)
    decreases Monus(MAX_NESTING, depth), 1
  {
    hide ParseValue, ParseItems;
    var values: seq<Value>, consumed := [], 0;
    ghost var whole := ParseItems(bytes, depth, count);
    assert bytes[0..] == bytes;
    for i := 0 to count
      invariant consumed <= |bytes| && |values| == i
      invariant whole == AfterItems(values, consumed, ParseItems(bytes[consumed..], depth, count - i))
    {
      ItemsUnfold(values, consumed, bytes, depth, count - i);
      var next := ReadValue(bytes[consumed..], depth);
      match next
      case Incomplete => return ItemsIncomplete;
      case Invalid(reason) => return ItemsInvalid(reason);
      case Complete(value, used) =>
        values, consumed := values + [value], consumed + used;
    }
    NoItems(values, consumed, bytes[consumed..], depth);
    return ItemsComplete(values, consumed);
  }

  lemma NoItems(values: seq<Value>, consumed: nat, bytes: Bytes, depth: nat)
    ensures AfterItems(values, consumed, ParseItems(bytes, depth, 0)) == ItemsComplete(values, consumed)
  {
    assert values + [] == values;
  }

  lemma ItemsUnfold(values: seq<Value>, consumed: nat, bytes: Bytes, depth: nat, count: nat)
    requires consumed <= |bytes| && count > 0
    ensures var items := AfterItems(values, consumed, ParseItems(bytes[consumed..], depth, count));
            match ParseValue(bytes[consumed..], depth)
            case Incomplete => items == ItemsIncomplete
            case Invalid(reason) => items == ItemsInvalid(reason)
            case Complete(value, used) =>
              && consumed + used <= |bytes|
              && items == AfterItems(values + [value], consumed + used, ParseItems(bytes[consumed + used..], depth, count - 1))
  {
    hide ParseValue;
    match ParseValue(bytes[consumed..], depth)
    case Complete(value, used) =>
      assert bytes[consumed..][used..] == bytes[consumed + used..];
      var rest := ParseItems(bytes[consumed + used..], depth, count - 1);
      if rest.ItemsComplete? { assert values + ([value] + rest.values) == values + [value] + rest.values; }
    case _ =>
  }

  function AfterItems(values: seq<Value>, consumed: nat, rest: Items): Items {
    if rest.ItemsComplete? then ItemsComplete(values + rest.values, consumed + rest.consumed) else rest
  }

  class StreamDecoder {
    const maxBody: nat
    var client: Bytes
    var server: Bytes

    constructor (maxBody: nat)
      ensures this.maxBody == maxBody && State() == Decoder([], [])
    {
      this.maxBody := maxBody;
      client, server := [], [];
    }

    function State(): Decoder
      reads this
    {
      Decoder(client, server)
    }

    method SetBuffer(d: Direction, b: Bytes)
      modifies this
      ensures State() == WithBuffer(old(State()), d, b)
    {
      if d == ClientToServer { client := b; } else { server := b; }
    }

    /** Parses frames off the front of the buffer until one is incomplete. */
    method DecodeAvailable(render: Renderer, d: Direction) returns (batch: Report)
      modifies this
      ensures var r := DrainFrames(render, maxBody, d, old(BufferOf(State(), d)));
              State() == WithBuffer(old(State()), d, r.rest) && batch == r.batch
    {
      hide ParseValue, DrainFrames;
      ghost var whole := DrainFrames(render, maxBody, d, BufferOf(State(), d));
      batch := Batch([], None);
      JoinAssociative(whole.batch, Quiet(), Quiet());
      while BufferOf(State(), d) != []
        invariant whole == Prepend(batch, DrainFrames(render, maxBody, d, BufferOf(State(), d)))
        invariant State() == WithBuffer(old(State()), d, BufferOf(State(), d)) && batch.desynchronized.None?
        decreases |BufferOf(State(), d)|
      {
        var buffer := BufferOf(State(), d);
        DrainUnfolds(render, maxBody, d, buffer);
        var parsed := ReadValue(buffer, 0);
        match parsed
        case Complete(value, consumed) =>
          ghost var rest := DrainFrames(render, maxBody, d, buffer[consumed..]);
          JoinAssociative(batch, Batch([render(d, value, maxBody)], None), rest.batch);
          batch := Batch(batch.messages + [render(d, value, maxBody)], None);
          SetBuffer(d, buffer[consumed..]);
        case Incomplete =>
          JoinAssociative(batch, Quiet(), Quiet());
          if |buffer| > FrameLimit(maxBody) {
            SetBuffer(d, []);
            batch := Batch(batch.messages, Some(FrameTooLong));
          }
          return;
        case Invalid(reason) =>
          JoinAssociative(batch, Quiet(), Quiet());
          SetBuffer(d, []);
          batch := Batch(batch.messages, Some(reason));
          return;
      }
      EmptyBufferWaits(render, maxBody, d);
      JoinAssociative(batch, Quiet(), Quiet());
    }

    method Push(render: Renderer, d: Direction, bytes: Bytes) returns (batch: Report)
      modifies this
      ensures (State(), batch) == PushBytes(render, maxBody, old(State()), d, bytes)
    {
      hide DrainFrames;
      SetBuffer(d, BufferOf(State(), d) + bytes);
      batch := DecodeAvailable(render, d);
    }

    method Finish(render: Renderer, d: Direction) returns (batch: Report)
      modifies this
      ensures (State(), batch) == FinishStream(render, maxBody, old(State()), d)
    {
      hide DrainFrames;
      batch := DecodeAvailable(render, d);
      if BufferOf(State(), d) != [] {
        SetBuffer(d, []);
        batch := batch.(desynchronized := Some(EndedInside));
      }
    }
  }

  lemma EmptyBufferWaits(render: Renderer, maxBody: nat, d: Direction)
    ensures DrainFrames(render, maxBody, d, []) == Drained((), [], Quiet(), false)
  {
    hide DrainFrames;
    DrainUnfolds(render, maxBody, d, []);
  }
}
