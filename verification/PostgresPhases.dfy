/** PostgreSQL phases: cutting the input changes nothing, buffers stay bounded, opaque stays opaque. */
module PostgresPhases {
  import opened ByteStrings
  import opened Streaming
  import opened Postgres

  // -------------------------------------------------------------------- stability

  /** A decided step ignores what follows, except that it hands it on. */
  predicate Decided(r: StepOutcome, later: StepOutcome, more: Bytes) {
    match r
    case NeedMore(_, _) => true
    case Advance(p, rest, e) => later == Advance(p, rest + more, e)
    case Halt(_, _) => later == r
  }

  lemma StartupStable(lossy: Lossy, a: Bytes, b: Bytes)
    ensures Decided(StepStartup(lossy, a), StepStartup(lossy, a + b), b)
  {
    hide StartupMessage, Message;
    if |a| >= 4 {
      assert (a + b)[..4] == a[..4];
      var length := Be32(a[..4]);
      if length <= |a| {
        assert (a + b)[..length] == a[..length];
        assert (a + b)[length..] == a[length..] + b;
      }
    }
  }

  lemma EncryptionStable(a: Bytes, b: Bytes)
    ensures Decided(StepEncryption(a), StepEncryption(a + b), b)
  {
    hide Message;
    if a != [] { assert (a + b)[1..] == a[1..] + b; }
  }

  lemma TypedStable(lossy: Lossy, maxBody: nat, d: Direction, a: Bytes, b: Bytes)
    ensures Decided(StepTyped(lossy, maxBody, d, a), StepTyped(lossy, maxBody, d, a + b), b)
  {
    hide DecodeTyped;
    if |a| >= 5 {
      assert (a + b)[1..5] == a[1..5];
      var length := Be32(a[1..5]);
      if 4 <= length && length + 1 <= |a| {
        assert (a + b)[5..length + 1] == a[5..length + 1];
        assert (a + b)[length + 1..] == a[length + 1..] + b;
      }
    }
  }

  lemma StepStable(lossy: Lossy, maxBody: nat, d: Direction, phase: Phase, a: Bytes, b: Bytes)
    ensures Decided(Step(lossy, maxBody, d, phase, a), Step(lossy, maxBody, d, phase, a + b), b)
  {
    hide StepStartup, StepEncryption, StepTyped;
    StartupStable(lossy, a, b);
    EncryptionStable(a, b);
    TypedStable(lossy, maxBody, d, a, b);
  }

  lemma StepperStable(lossy: Lossy, maxBody: nat, d: Direction)
    ensures Stable(Stepper(lossy, maxBody, d)) && Firm(Stepper(lossy, maxBody, d))
  {
    hide Step;
    forall p, a, b
      ensures StableAt(Stepper(lossy, maxBody, d), p, a, b)
      ensures FirmAt(Stepper(lossy, maxBody, d), p, a, b)
    {
      StepStable(lossy, maxBody, d, p, a, b);
    }
  }

  // ---------------------------------------------------------------- fragmentation

  lemma {:induction false} DrainKeeps(lossy: Lossy, maxBody: nat, d: Direction, phase: Phase, b: Bytes)
    requires phase != Opaque
    ensures var r := DrainFrames(lossy, maxBody, d, phase, b);
            |r.rest| <= |b| && (r.halted <==> r.control == Opaque)
    decreases |b|
  {
    hide Step, DrainFrames;
    DrainUnfolds(lossy, maxBody, d, phase, b);
    match Step(lossy, maxBody, d, phase, b)
    case Advance(p', rest, _) => DrainKeeps(lossy, maxBody, d, p', rest);
    case _ =>
  }

  function Pusher(lossy: Lossy, maxBody: nat, d: Direction): (Decoder, Bytes) -> (Decoder, Report) {
    (s, bytes) => Push(lossy, maxBody, s, d, bytes)
  }

  predicate Fits(s: Decoder, d: Direction, bytes: Bytes) {
    |BufferOf(s, d)| + |bytes| <= MAX_BUFFERED
  }

  /** When both parts fit the buffer together, two pushes are one push, also across a desynchronization
      or an accepted encryption request. */
  lemma PushCut(lossy: Lossy, maxBody: nat, d: Direction, s: Decoder, a: Bytes, b: Bytes)
    requires Fits(s, d, a + b)
    ensures CutsAt(Pusher(lossy, maxBody, d), s, a, b)
  {
    hide Step;
    var step, x := Stepper(lossy, maxBody, d), BufferOf(s, d) + a;
    StepperProductive(lossy, maxBody, d);
    StepperStable(lossy, maxBody, d);
    assert x + b == BufferOf(s, d) + (a + b);
    if s.phase != Opaque {
      var r := DrainFrames(lossy, maxBody, d, s.phase, x);
      DrainKeeps(lossy, maxBody, d, s.phase, x);
      if r.halted {
        CutHalted(step, s.phase, x, b);
        JoinAssociative(r.batch, r.batch, r.batch);
      } else {
        Cut(step, s.phase, x, b);
      }
    } else {
      JoinAssociative(Quiet<DecodedMessage, Reason>(), Quiet(), Quiet());
    }
  }

  function FitsTogether(d: Direction): (Decoder, Bytes, Bytes) -> bool {
    (s, a, b) => Fits(s, d, a + b)
  }

  lemma PushKeepsRoom(lossy: Lossy, maxBody: nat, d: Direction, s: Decoder, a: Bytes)
    requires Fits(s, d, a)
    ensures |BufferOf(Push(lossy, maxBody, s, d, a).0, d)| <= |BufferOf(s, d)| + |a|
  {
    hide DrainFrames;
    if s.phase != Opaque {
      DrainKeeps(lossy, maxBody, d, s.phase, BufferOf(s, d) + a);
    }
  }

  lemma {:induction false} RoomForAll(lossy: Lossy, maxBody: nat, d: Direction, s: Decoder, fragments: seq<Bytes>)
    requires Fits(s, d, Flatten(fragments))
    ensures OkAtEveryCut(Pusher(lossy, maxBody, d), FitsTogether(d), s, fragments)
    decreases fragments
  {
    hide Push;
    if |fragments| > 1 {
      PushKeepsRoom(lossy, maxBody, d, s, fragments[0]);
      RoomForAll(lossy, maxBody, d, Push(lossy, maxBody, s, d, fragments[0]).0, fragments[1..]);
    }
  }

  /** Any fragmentation of bytes that fit the buffer reports the same messages and reason and reaches the
      same decoder as one push. */
  lemma Fragmentation(lossy: Lossy, maxBody: nat, d: Direction, s: Decoder, fragments: seq<Bytes>)
    requires fragments != [] && Fits(s, d, Flatten(fragments))
    ensures Feed(Pusher(lossy, maxBody, d), s, fragments) == Push(lossy, maxBody, s, d, Flatten(fragments))
  {
    hide Push;
    forall s, a, b | FitsTogether(d)(s, a, b) ensures CutsAt(Pusher(lossy, maxBody, d), s, a, b) {
      PushCut(lossy, maxBody, d, s, a, b);
    }
    RoomForAll(lossy, maxBody, d, s, fragments);
    FeedIsOnePush(Pusher(lossy, maxBody, d), FitsTogether(d), s, fragments);
  }

  // --------------------------------------------------------------------- whole runs

  datatype Event = Received(d: Direction, bytes: Bytes) | Ended(d: Direction)

  function Apply(lossy: Lossy, maxBody: nat, s: Decoder, e: Event): (Decoder, Report) {
    if e.Received? then Push(lossy, maxBody, s, e.d, e.bytes) else Finish(s, e.d)
  }

  function Run(lossy: Lossy, maxBody: nat, s: Decoder, events: seq<Event>): (Decoder, seq<Report>)
    decreases events
  {
    if events == [] then (s, [])
    else
      var (s1, r1) := Apply(lossy, maxBody, s, events[0]);
      var (s2, rs) := Run(lossy, maxBody, s1, events[1..]);
      (s2, [r1] + rs)
  }

  /** Buffers within 16 MiB + 5, and nothing buffered once opaque. */
  predicate Bounded(s: Decoder) {
    |s.client| <= MAX_BUFFERED && |s.server| <= MAX_BUFFERED && (s.phase == Opaque ==> s.client == [] && s.server == [])
  }

  lemma ApplyBounded(lossy: Lossy, maxBody: nat, s: Decoder, e: Event)
    requires Bounded(s)
    ensures Bounded(Apply(lossy, maxBody, s, e).0)
    ensures s.phase == Opaque ==> Apply(lossy, maxBody, s, e) == (s, Quiet())
  {
    hide DrainFrames;
    if e.Received? && s.phase != Opaque {
      DrainKeeps(lossy, maxBody, e.d, s.phase, BufferOf(s, e.d) + e.bytes);
    }
  }

  lemma {:induction false} RunBounded(lossy: Lossy, maxBody: nat, s: Decoder, events: seq<Event>)
    requires Bounded(s)
    ensures Bounded(Run(lossy, maxBody, s, events).0)
    decreases events
  {
    hide Apply, Bounded;
    if events != [] {
      ApplyBounded(lossy, maxBody, s, events[0]);
      RunBounded(lossy, maxBody, Apply(lossy, maxBody, s, events[0]).0, events[1..]);
    }
  }

  lemma {:induction false} OpaqueIsSilent(lossy: Lossy, maxBody: nat, events: seq<Event>)
    ensures var (s, rs) := Run(lossy, maxBody, Dark, events);
            s == Dark && forall i :: 0 <= i < |rs| ==> rs[i] == Quiet()
    decreases events
  {
    hide Apply;
    if events != [] {
      ApplyBounded(lossy, maxBody, Dark, events[0]);
      OpaqueIsSilent(lossy, maxBody, events[1..]);
      var rs := Run(lossy, maxBody, Dark, events[1..]).1;
      assert Run(lossy, maxBody, Dark, events).1 == [Quiet()] + rs;
    }
  }

  /** In every reachable state buffers are bounded; a reachable opaque decoder holds nothing, stays as it is
      and reports nothing, whatever either side sends or however it ends. */
  lemma ReachableOpaqueAbsorbs(lossy: Lossy, maxBody: nat, past: seq<Event>, future: seq<Event>)
    ensures var s := Run(lossy, maxBody, Initial, past).0;
            && Bounded(s)
            && (s.phase == Opaque ==>
                  var (s', rs) := Run(lossy, maxBody, s, future);
                  s == Dark && s' == Dark && forall i :: 0 <= i < |rs| ==> rs[i] == Quiet())
  {
    hide Run;
    RunBounded(lossy, maxBody, Initial, past);
    OpaqueIsSilent(lossy, maxBody, future);
  }

  // ------------------------------------------------------------ NUL-terminated lists

  predicate NulFree(values: seq<Bytes>) {
    forall i :: 0 <= i < |values| ==> 0 !in values[i]
  }

  function Terminated(values: seq<Bytes>): Bytes {
    if values == [] then [] else values[0] + [0] + Terminated(values[1..])
  }

  lemma TakeTerminated(value: Bytes, rest: Bytes)
    requires 0 !in value
    ensures TakeCString(value + [0] + rest) == Ok((value, rest))
  {
    hide NulIndex;
    var s := value + [0] + rest;
    assert s[|value|] == 0;
    var n := NulIndex(s);
    assert n == |value|;
    assert s[..|value|] == value && s[|value| + 1..] == rest;
  }

  /** A list with its closing terminator reads back whole. */
  lemma {:induction false} ClosedListReadsBack(values: seq<Bytes>)
    requires NulFree(values)
    ensures CStrings(Terminated(values) + [0]) == Ok(values)
    decreases values
  {
    hide TakeCString;
    if values != [] {
      var rest := Terminated(values[1..]) + [0];
      var s := values[0] + [0] + rest;
      assert Terminated(values) + [0] == s;
      assert |s| >= 2;
      TakeTerminated(values[0], rest);
      ClosedListReadsBack(values[1..]);
      assert [values[0]] + values[1..] == values;
    }
  }

  /** Without it, the list reads back exactly when its last value is not empty. */
  lemma {:induction false} OpenListReadsBack(values: seq<Bytes>)
    requires NulFree(values)
    ensures CStrings(Terminated(values)) == Ok(values) <==> values == [] || values[|values| - 1] != []
    ensures values != [] && values[|values| - 1] == [] ==> CStrings(Terminated(values)) == Ok(values[..|values| - 1])
    decreases values
  {
    hide TakeCString;
    if values != [] {
      var rest := Terminated(values[1..]);
      var s := values[0] + [0] + rest;
      assert Terminated(values) == s;
      TakeTerminated(values[0], rest);
      OpenListReadsBack(values[1..]);
      if |values| == 1 {
        assert rest == [];
        if values[0] == [] {
          assert s == [0];
        } else {
          assert |s| >= 2;
          assert [values[0]] + CStrings(rest).value == values;
        }
      } else {
        assert |s| >= 2;
        assert [values[0]] + values[1..] == values;
        assert [values[0]] + values[1..][..|values| - 2] == values[..|values| - 1];
      }
    }
  }

  /** ParameterStatus has no closing terminator, so an empty value is refused and the flow goes dark. */
  lemma ParameterStatusNeedsValue(lossy: Lossy, name: Bytes, value: Bytes)
    requires 0 !in name && 0 !in value
    ensures ParameterStatus(lossy, name + [0] + value + [0]).Ok? <==> value != []
  {
    hide CStrings;
    var values: seq<Bytes> := [name, value];
    assert values[1..] == [value] && values[1..][1..] == [];
    assert Terminated(values[1..]) == value + [0] + [] == value + [0];
    assert Terminated(values) == name + [0] + (value + [0]) == name + [0] + value + [0];
    assert values[..1] == [name];
    OpenListReadsBack(values);
  }
}
