/** Omitted values: two conversations that differ only in them produce the same reports, push by push. */
module PostgresOmission {
  import opened ByteStrings
  import opened Streaming
  import opened Postgres
  import opened PostgresPhases

  // ------------------------------------------------------------ what a message may show

  /** Where the parameter values of a Bind message start. */
  function BindValuesStart(p: Bytes): (n: nat)
    ensures n <= |p|
  {
    match TakeCString(p)
    case Err(_) => |p|
    case Ok((portal, rest1)) =>
      match TakeCString(rest1)
      case Err(_) => |p|
      case Ok((statement, rest)) =>
        if |rest| < 2 || |rest| < Be16(rest[..2]) * 2 + 4 then |p|
        else |portal| + |statement| + 2 + Be16(rest[..2]) * 2 + 4
  }

  /** Leading payload bytes a message of this tag may depend on. Credentials, SASL data, bind values, row
      values, COPY data, function arguments, key material and notifications come after them. */
  function Visible(d: Direction, tag: char, p: Bytes): (n: nat)
    ensures n <= |p|
  {
    if d == ClientToServer then
      match tag
      case 'Q' => |p|
      case 'P' => |p|
      case 'E' => |p|
      case 'B' => BindValuesStart(p)
      case _ => 0
    else
      match tag
      case 'S' => |p|
      case 'C' => |p|
      case 'E' => |p|
      case 'N' => |p|
      case 'T' => |p|
      case 'R' => Min(4, |p|)
      case 'D' => Min(2, |p|)
      case 'Z' => Min(1, |p|)
      case _ => 0
  }

  predicate SamePrefix(p: Bytes, q: Bytes, n: nat) {
    n <= |p| == |q| && p[..n] == q[..n]
  }

  lemma SameCString(p: Bytes, q: Bytes, n: nat)
    requires SamePrefix(p, q, n) && TakeCString(p).Ok? && |TakeCString(p).value.0| < n
    ensures TakeCString(q).Ok? && TakeCString(q).value.0 == TakeCString(p).value.0
    ensures SamePrefix(TakeCString(p).value.1, TakeCString(q).value.1, n - |TakeCString(p).value.0| - 1)
  {
    hide TakeCString;
    var (value, rest) := TakeCString(p).value;
    var k := |value|;
    assert p[..n][k] == 0 && q[..n][k] == 0;
    assert value == p[..k] == p[..n][..k] == q[..n][..k] == q[..k];
    assert q == value + [0] + q[k + 1..];
    TakeTerminated(value, q[k + 1..]);
    assert rest == p[k + 1..];
    assert p[k + 1..][..n - k - 1] == p[..n][k + 1..] && q[k + 1..][..n - k - 1] == q[..n][k + 1..];
  }

  lemma BindOmitsValues(lossy: Lossy, p: Bytes, q: Bytes)
    requires SamePrefix(p, q, BindValuesStart(p))
    ensures BindMessage(lossy, p) == BindMessage(lossy, q)
  {
    hide TakeCString;
    var n := BindValuesStart(p);
    if n == |p| {
      assert p == p[..n] == q[..n] == q;
    } else {
      var (portal, rest1) := TakeCString(p).value;
      var (statement, rest) := TakeCString(rest1).value;
      SameCString(p, q, n);
      var rest1' := TakeCString(q).value.1;
      SameCString(rest1, rest1', n - |portal| - 1);
      var rest' := TakeCString(rest1').value.1;
      var m := n - |portal| - |statement| - 2;
      var formats := Be16(rest[..2]) * 2 + 2;
      assert rest[..2] == rest[..m][..2] == rest'[..m][..2] == rest'[..2];
      assert rest[formats..formats + 2] == rest[..m][formats..formats + 2] == rest'[..m][formats..formats + 2] == rest'[formats..formats + 2];
    }
  }

  lemma FrontendOmits(lossy: Lossy, maxBody: nat, tag: char, p: Bytes, q: Bytes)
    requires SamePrefix(p, q, Visible(ClientToServer, tag, p))
    ensures Frontend(lossy, tag, p, maxBody) == Frontend(lossy, tag, q, maxBody)
  {
    hide BindMessage, ParseMessage, ExecuteMessage, TakeCString, BindValuesStart, Kind, WithSql, WithBoundary;
    if tag == 'B' {
      BindOmitsValues(lossy, p, q);
    } else if Visible(ClientToServer, tag, p) == |p| {
      assert p == p[..|p|] == q[..|p|] == q;
    }
  }

  lemma BackendOmits(lossy: Lossy, maxBody: nat, tag: char, p: Bytes, q: Bytes)
    requires SamePrefix(p, q, Visible(ServerToClient, tag, p))
    ensures Backend(lossy, tag, p, maxBody) == Backend(lossy, tag, q, maxBody)
  {
    hide ParameterStatus, ErrorMessage, RowDescription, TakeCString, Kind, WithBoundary;
    if Visible(ServerToClient, tag, p) == |p| {
      assert p == p[..|p|] == q[..|p|] == q;
    } else if tag == 'Z' {
      assert p[..1][0] == q[..1][0];
    }
  }

  /** Messages depend on nothing after the visible prefix but the length. */
  lemma ValuesAreOmitted(lossy: Lossy, maxBody: nat, d: Direction, tag: Byte, p: Bytes, q: Bytes)
    requires SamePrefix(p, q, Visible(d, tag as char, p))
    ensures DecodeTyped(lossy, d, tag, p, maxBody) == DecodeTyped(lossy, d, tag, q, maxBody)
  {
    hide Frontend, Backend, Visible;
    if d == ClientToServer {
      FrontendOmits(lossy, maxBody, tag as char, p, q);
    } else {
      BackendOmits(lossy, maxBody, tag as char, p, q);
    }
  }

  // ------------------------------------------------------------------- startup secrets

  predicate SameField(lossy: Lossy, a: seq<Bytes>, b: seq<Bytes>, i: nat)
    requires i < |a| == |b|
  {
    a[i] == b[i] || (i % 2 == 1 && IsStartupSecret(lossy(a[i - 1])))
  }

  /** Startup parameters equal except for the values of secret names. */
  predicate SameExceptSecrets(lossy: Lossy, a: seq<Bytes>, b: seq<Bytes>) {
    |a| == |b| && forall i: nat :: i < |a| ==> SameField(lossy, a, b, i)
  }

  lemma {:induction false} SecretsAreReplaced(lossy: Lossy, a: seq<Bytes>, b: seq<Bytes>)
    requires |a| % 2 == 0 && SameExceptSecrets(lossy, a, b)
    ensures Pairs(lossy, a) == Pairs(lossy, b)
    decreases a
  {
    hide IsStartupSecret;
    if a != [] {
      forall i: nat | i < |a| - 2 ensures SameField(lossy, a[2..], b[2..], i) {
        assert SameField(lossy, a, b, i + 2);
      }
      SecretsAreReplaced(lossy, a[2..], b[2..]);
      assert SameField(lossy, a, b, 0) && SameField(lossy, a, b, 1);
    }
  }

  predicate SameStartup(lossy: Lossy, p: Bytes, q: Bytes) {
    && |p| == |q| && 4 <= |p| && p[..4] == q[..4]
    && (Be32(p[..4]) in {SSL_REQUEST_CODE, GSSENC_REQUEST_CODE, CANCEL_REQUEST_CODE}
        || var a, b := CStrings(p[4..]), CStrings(q[4..]);
           a == b || (a.Ok? && b.Ok? && SameExceptSecrets(lossy, a.value, b.value)))
  }

  lemma StartupOmits(lossy: Lossy, p: Bytes, q: Bytes)
    requires SameStartup(lossy, p, q) && Be32(p[..4]) !in {SSL_REQUEST_CODE, GSSENC_REQUEST_CODE, CANCEL_REQUEST_CODE}
    ensures StartupMessage(lossy, Be32(p[..4]), p[4..]) == StartupMessage(lossy, Be32(q[..4]), q[4..])
  {
    hide CStrings, Kind, IsStartupSecret;
    var a, b := CStrings(p[4..]), CStrings(q[4..]);
    if a != b && |a.value| % 2 == 0 {
      SecretsAreReplaced(lossy, a.value, b.value);
    }
  }

  // ----------------------------------------------------------------- two conversations

  /** A frame on the wire, without its length field. */
  datatype Unit = StartupUnit(body: Bytes) | TypedUnit(tag: Byte, body: Bytes)

  predicate Fitting(u: Unit) {
    |u.body| + 4 <= MAX_FRAME_BYTES && (u.StartupUnit? ==> |u.body| >= 4)
  }

  function Encode(u: Unit): (b: Bytes)
    requires Fitting(u)
    ensures |b| == |u.body| + if u.StartupUnit? then 4 else 5
  {
    if u.StartupUnit? then Encode32(|u.body| + 4) + u.body else [u.tag] + Encode32(|u.body| + 4) + u.body
  }

  /** Frames that differ only in omitted bytes of equal length. */
  predicate Twin(lossy: Lossy, d: Direction, u: Unit, v: Unit) {
    && Fitting(u) && Fitting(v)
    && if u.StartupUnit? then v.StartupUnit? && SameStartup(lossy, u.body, v.body)
       else v.TypedUnit? && u.tag == v.tag && SamePrefix(u.body, v.body, Visible(d, u.tag as char, u.body))
  }

  predicate Twins(lossy: Lossy, d: Direction, us: seq<Unit>, vs: seq<Unit>) {
    |us| == |vs| && forall i :: 0 <= i < |us| ==> Twin(lossy, d, us[i], vs[i])
  }

  predicate AllFitting(us: seq<Unit>) {
    forall i :: 0 <= i < |us| ==> Fitting(us[i])
  }

  function EncodeAll(us: seq<Unit>): Bytes
    requires AllFitting(us)
  {
    if us == [] then [] else Encode(us[0]) + EncodeAll(us[1..])
  }

  /** Conversations start with one startup frame from the client; everything else is typed. */
  predicate Expected(d: Direction, phase: Phase, us: seq<Unit>) {
    && (forall i :: 1 <= i < |us| ==> us[i].TypedUnit?)
    && (phase == Startup ==> d == ClientToServer && (us != [] ==> us[0].StartupUnit?))
    && (phase == Typed ==> us != [] ==> us[0].TypedUnit?)
  }

  lemma TypedUnitSteps(lossy: Lossy, maxBody: nat, d: Direction, u: Unit, rest: Bytes)
    requires u.TypedUnit? && Fitting(u)
    ensures Step(lossy, maxBody, d, Typed, Encode(u) + rest) == TypedFrame(lossy, maxBody, d, u.tag, u.body, rest)
  {
    hide TypedFrame, Encode32, Be32;
    var b := Encode(u) + rest;
    assert b[1..5] == Encode32(|u.body| + 4);
    assert b[5..|u.body| + 5] == u.body && b[|u.body| + 5..] == rest;
  }

  lemma StartupUnitSteps(lossy: Lossy, maxBody: nat, u: Unit, rest: Bytes)
    requires u.StartupUnit? && Fitting(u)
    ensures Step(lossy, maxBody, ClientToServer, Startup, Encode(u) + rest) == StartupFrame(lossy, Encode(u), rest)
  {
    hide StartupFrame, Encode32, Be32;
    var b := Encode(u) + rest;
    assert b[..4] == Encode32(|u.body| + 4);
    assert b[..|u.body| + 4] == Encode(u) && b[|u.body| + 4..] == rest;
  }

  lemma PartialUnitWaits(lossy: Lossy, maxBody: nat, d: Direction, phase: Phase, u: Unit, b: Bytes)
    requires Fitting(u) && b < Encode(u) && Expected(d, phase, [u]) && phase in {Startup, Typed}
    ensures Step(lossy, maxBody, d, phase, b) == NeedMore(phase, b)
  {
    hide TypedFrame, StartupFrame, Encode32, Be32;
    var whole := Encode(u);
    assert b == whole[..|b|];
    if phase == Startup && |b| >= 4 {
      assert b[..4] == whole[..4] == Encode32(|u.body| + 4);
    } else if phase == Typed && |b| >= 5 {
      assert b[1..5] == whole[1..5] == Encode32(|u.body| + 4);
    }
  }

  /** Twin frames take the same step. */
  lemma TwinsStepAlike(lossy: Lossy, maxBody: nat, d: Direction, phase: Phase, u: Unit, v: Unit, x: Bytes, y: Bytes)
    requires Twin(lossy, d, u, v) && Expected(d, phase, [u]) && phase in {Startup, Typed}
    ensures phase == Typed ==> Step(lossy, maxBody, d, phase, Encode(u) + x).control in {Typed, Opaque}
    ensures var r, t := Step(lossy, maxBody, d, phase, Encode(u) + x), Step(lossy, maxBody, d, phase, Encode(v) + y);
            && !r.NeedMore?
            && (r.Halt? ==> t == r)
            && (r.Advance? ==> t.Advance? && r.control == t.control && r.emitted == t.emitted && r.rest == x && t.rest == y
                               && r.control != Startup)
  {
    hide Step, DecodeTyped, StartupMessage, Encode32, Be32, SameStartup, Message;
    if phase == Typed {
      TypedUnitSteps(lossy, maxBody, d, u, x);
      TypedUnitSteps(lossy, maxBody, d, v, y);
      ValuesAreOmitted(lossy, maxBody, d, u.tag, u.body, v.body);
    } else {
      StartupUnitSteps(lossy, maxBody, u, x);
      StartupUnitSteps(lossy, maxBody, v, y);
      StartupFramesAlike(lossy, u, v, x, y);
    }
  }

  lemma StartupFramesAlike(lossy: Lossy, u: Unit, v: Unit, x: Bytes, y: Bytes)
    requires u.StartupUnit? && v.StartupUnit? && Fitting(u) && Fitting(v) && SameStartup(lossy, u.body, v.body)
    ensures var r, t := StartupFrame(lossy, Encode(u), x), StartupFrame(lossy, Encode(v), y);
            && !r.NeedMore? && (r.Halt? ==> t == r)
            && (r.Advance? ==> t.Advance? && r.control == t.control && r.emitted == t.emitted && r.rest == x && t.rest == y
                               && r.control != Startup)
  {
    hide StartupMessage, Encode32, Be32, Message;
    assert Encode(u)[4..8] == u.body[..4] && Encode(v)[4..8] == v.body[..4];
    assert Encode(u)[8..] == u.body[4..] && Encode(v)[8..] == v.body[4..];
    if Be32(u.body[..4]) !in {SSL_REQUEST_CODE, GSSENC_REQUEST_CODE, CANCEL_REQUEST_CODE} {
      StartupOmits(lossy, u.body, v.body);
    }
  }

  /** Two runs at corresponding points: same phase and length, and the same frames ahead while frames count. */
  ghost predicate Mates(lossy: Lossy, d: Direction, phase: Phase, x: Bytes, moreX: Bytes, y: Bytes, moreY: Bytes, us: seq<Unit>, vs: seq<Unit>) {
    && |x| == |y| && |moreX| == |moreY|
    && (phase in {Startup, Typed} ==>
          && Twins(lossy, d, us, vs) && Expected(d, phase, us)
          && x + moreX == EncodeAll(us) && y + moreY == EncodeAll(vs))
    && (phase == AwaitingEncryptionResponse ==> d == ClientToServer)
  }

  lemma IdlePhase(lossy: Lossy, maxBody: nat, d: Direction, phase: Phase, b: Bytes)
    requires phase == AwaitingEncryptionResponse ==> d == ClientToServer
    requires phase !in {Startup, Typed}
    ensures DrainFrames(lossy, maxBody, d, phase, b) == Drained(phase, b, Quiet(), false)
  {
    hide DrainFrames;
    DrainUnfolds(lossy, maxBody, d, phase, b);
  }

  lemma PartsOfFirst(us: seq<Unit>, x: Bytes, moreX: Bytes)
    requires AllFitting(us) && us != [] && x + moreX == EncodeAll(us)
    ensures |x| < |Encode(us[0])| ==> x < Encode(us[0])
    ensures |x| >= |Encode(us[0])| ==> x == Encode(us[0]) + x[|Encode(us[0])|..]
                                       && x[|Encode(us[0])|..] + moreX == EncodeAll(us[1..])
  {
    hide Encode;
    var first := Encode(us[0]);
    var whole := x + moreX;
    assert whole[..|first|] == first;
    if |x| < |first| {
      assert x == whole[..|x|] == first[..|x|];
    } else {
      assert x[..|first|] == whole[..|first|];
      assert whole[|first|..] == EncodeAll(us[1..]);
      assert whole[|first|..] == x[|first|..] + moreX;
    }
  }

  /** Draining twin buffers gives the same phase and report, and leaves twin buffers. */
  lemma {:induction false} TwinDrains(lossy: Lossy, maxBody: nat, d: Direction, phase: Phase, x: Bytes, moreX: Bytes, y: Bytes, moreY: Bytes, us: seq<Unit>, vs: seq<Unit>)
    returns (us': seq<Unit>, vs': seq<Unit>)
    requires Mates(lossy, d, phase, x, moreX, y, moreY, us, vs)
    ensures var r, t := DrainFrames(lossy, maxBody, d, phase, x), DrainFrames(lossy, maxBody, d, phase, y);
            && r.control == t.control && r.batch == t.batch && r.halted == t.halted
            && (!r.halted ==> Mates(lossy, d, r.control, r.rest, moreX, t.rest, moreY, us', vs'))
    decreases |x|
  {
    hide DrainFrames, Step, Encode, Twin;
    us', vs' := us, vs;
    if phase !in {Startup, Typed} {
      IdlePhase(lossy, maxBody, d, phase, x);
      IdlePhase(lossy, maxBody, d, phase, y);
      return;
    }
    DrainUnfolds(lossy, maxBody, d, phase, x);
    DrainUnfolds(lossy, maxBody, d, phase, y);
    if us == [] {
      assert x == [] && y == [];
      EmptyWaits(lossy, maxBody, d, phase);
      return;
    }
    TwinsFit(lossy, d, us, vs);
    PartsOfFirst(us, x, moreX);
    PartsOfFirst(vs, y, moreY);
    assert Expected(d, phase, [us[0]]) && Expected(d, phase, [vs[0]]);
    var n := |Encode(us[0])|;
    if |x| < n {
      PartialUnitWaits(lossy, maxBody, d, phase, us[0], x);
      PartialUnitWaits(lossy, maxBody, d, phase, vs[0], y);
      return;
    }
    TwinsStepAlike(lossy, maxBody, d, phase, us[0], vs[0], x[n..], y[n..]);
    var r := Step(lossy, maxBody, d, phase, x);
    if r.Advance? {
      us', vs' := TwinDrains(lossy, maxBody, d, r.control, x[n..], moreX, y[n..], moreY, us[1..], vs[1..]);
    }
  }

  lemma TwinFacts(lossy: Lossy, d: Direction, u: Unit, v: Unit)
    requires Twin(lossy, d, u, v)
    ensures Fitting(u) && Fitting(v) && |Encode(u)| == |Encode(v)| && u.StartupUnit? == v.StartupUnit?
  {
    hide Visible, CStrings, SameExceptSecrets;
  }

  lemma TwinsFit(lossy: Lossy, d: Direction, us: seq<Unit>, vs: seq<Unit>)
    requires Twins(lossy, d, us, vs)
    ensures AllFitting(us) && AllFitting(vs)
    ensures us != [] ==> |Encode(us[0])| == |Encode(vs[0])| && us[0].StartupUnit? == vs[0].StartupUnit?
  {
    hide Twin, Fitting, Encode;
    forall i | 0 <= i < |us| ensures Fitting(us[i]) && Fitting(vs[i]) { TwinFacts(lossy, d, us[i], vs[i]); }
    if us != [] { TwinFacts(lossy, d, us[0], vs[0]); }
  }

  lemma EmptyWaits(lossy: Lossy, maxBody: nat, d: Direction, phase: Phase)
    ensures Step(lossy, maxBody, d, phase, []) == NeedMore(phase, [])
  {
  }

  // --------------------------------------------------------------------- push by push

  function Reports(lossy: Lossy, maxBody: nat, d: Direction, s: Decoder, fragments: seq<Bytes>): seq<Report>
    decreases fragments
  {
    if fragments == [] then []
    else
      var (s1, r1) := Push(lossy, maxBody, s, d, fragments[0]);
      [r1] + Reports(lossy, maxBody, d, s1, fragments[1..])
  }

  predicate SameCuts(xs: seq<Bytes>, ys: seq<Bytes>) {
    |xs| == |ys| && forall i :: 0 <= i < |xs| ==> |xs[i]| == |ys[i]|
  }

  lemma {:induction false} SameCutsFlat(xs: seq<Bytes>, ys: seq<Bytes>)
    requires SameCuts(xs, ys)
    ensures |Flatten(xs)| == |Flatten(ys)|
    decreases xs
  {
    if xs != [] { SameCutsFlat(xs[1..], ys[1..]); }
  }

  lemma OnePush(lossy: Lossy, maxBody: nat, d: Direction, s: Decoder, t: Decoder, a: Bytes, moreX: Bytes, b: Bytes, moreY: Bytes, us: seq<Unit>, vs: seq<Unit>)
    returns (us': seq<Unit>, vs': seq<Unit>)
    requires s.phase == t.phase && |a| == |b|
    requires Mates(lossy, d, s.phase, BufferOf(s, d) + a, moreX, BufferOf(t, d) + b, moreY, us, vs)
    ensures var (s', r), (t', q) := Push(lossy, maxBody, s, d, a), Push(lossy, maxBody, t, d, b);
            && r == q && s'.phase == t'.phase
            && (s'.phase != Opaque ==> Mates(lossy, d, s'.phase, BufferOf(s', d), moreX, BufferOf(t', d), moreY, us', vs'))
  {
    hide DrainFrames, Mates;
    MatesLengths(lossy, d, s.phase, BufferOf(s, d) + a, moreX, BufferOf(t, d) + b, moreY, us, vs);
    us', vs' := us, vs;
    if s.phase != Opaque {
      us', vs' := TwinDrains(lossy, maxBody, d, s.phase, BufferOf(s, d) + a, moreX, BufferOf(t, d) + b, moreY, us, vs);
      DrainKeeps(lossy, maxBody, d, s.phase, BufferOf(s, d) + a);
    }
  }

  lemma MatesLengths(lossy: Lossy, d: Direction, phase: Phase, x: Bytes, moreX: Bytes, y: Bytes, moreY: Bytes, us: seq<Unit>, vs: seq<Unit>)
    requires Mates(lossy, d, phase, x, moreX, y, moreY, us, vs)
    ensures |x| == |y| && |moreX| == |moreY|
  {
  }

  /** Mates stay mates when the same number of bytes moves from what is to come to what is buffered. */
  lemma MatesShift(lossy: Lossy, d: Direction, phase: Phase, x: Bytes, a: Bytes, moreX: Bytes, y: Bytes, b: Bytes, moreY: Bytes, us: seq<Unit>, vs: seq<Unit>)
    requires |a| == |b| && Mates(lossy, d, phase, x, a + moreX, y, b + moreY, us, vs)
    ensures Mates(lossy, d, phase, x + a, moreX, y + b, moreY, us, vs)
  {
    hide Twins;
    assert x + (a + moreX) == x + a + moreX && y + (b + moreY) == y + b + moreY;
  }

  /** Two conversations equal except in omitted bytes give identical reports at every push, however they are cut. */
  lemma {:induction false} OneSideTwoRuns(lossy: Lossy, maxBody: nat, d: Direction, s: Decoder, t: Decoder, xs: seq<Bytes>, ys: seq<Bytes>, us: seq<Unit>, vs: seq<Unit>)
    requires s.phase == t.phase && SameCuts(xs, ys)
    requires s.phase != Opaque ==> Mates(lossy, d, s.phase, BufferOf(s, d), Flatten(xs), BufferOf(t, d), Flatten(ys), us, vs)
    ensures Reports(lossy, maxBody, d, s, xs) == Reports(lossy, maxBody, d, t, ys)
    decreases xs
  {
    hide Push, Mates;
    if xs != [] {
      var a, b := xs[0], ys[0];
      var (s', r) := Push(lossy, maxBody, s, d, a);
      var (t', q) := Push(lossy, maxBody, t, d, b);
      var us', vs' := us, vs;
      if s.phase != Opaque {
        MatesShift(lossy, d, s.phase, BufferOf(s, d), a, Flatten(xs[1..]), BufferOf(t, d), b, Flatten(ys[1..]), us, vs);
        us', vs' := OnePush(lossy, maxBody, d, s, t, a, Flatten(xs[1..]), b, Flatten(ys[1..]), us, vs);
      } else {
        OpaquePush(lossy, maxBody, s, d, a);
        OpaquePush(lossy, maxBody, t, d, b);
      }
      OneSideTwoRuns(lossy, maxBody, d, s', t', xs[1..], ys[1..], us', vs');
    }
  }

  lemma OpaquePush(lossy: Lossy, maxBody: nat, s: Decoder, d: Direction, a: Bytes)
    requires s.phase == Opaque
    ensures Push(lossy, maxBody, s, d, a) == (s, Quiet())
  {
  }

  /** The server's side of a typed conversation: row values, notifications, key data and COPY data never show. */
  lemma ServerValuesNeverShow(lossy: Lossy, maxBody: nat, s: Decoder, us: seq<Unit>, vs: seq<Unit>, xs: seq<Bytes>, ys: seq<Bytes>)
    requires s.phase == Typed && s.server == []
    requires Twins(lossy, ServerToClient, us, vs) && Expected(ServerToClient, Typed, us)
    requires SameCuts(xs, ys) && Flatten(xs) == EncodeAll(us) && Flatten(ys) == EncodeAll(vs)
    ensures Reports(lossy, maxBody, ServerToClient, s, xs) == Reports(lossy, maxBody, ServerToClient, s, ys)
  {
    hide Twins, EncodeAll, Reports, SameCuts;
    SameCutsFlat(xs, ys);
    assert [] + Flatten(xs) == Flatten(xs) && [] + Flatten(ys) == Flatten(ys);
    OneSideTwoRuns(lossy, maxBody, ServerToClient, s, s, xs, ys, us, vs);
  }
}
