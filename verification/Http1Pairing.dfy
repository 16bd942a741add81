/** Pairing responses with requests: the queue of methods is the list of unanswered requests, and a
    response to HEAD has no body (section 6.3 of RFC 9112). */
module Http1Pairing {
  import opened ByteStrings
  import opened Streaming
  import opened Text
  import opened Http1
  import opened Http1Cap

  // -------------------------------------------------- reading the log of messages

  /** Methods of the requests in a log of messages, in order. */
  function Requests(log: seq<DecodedMessage>): seq<Bytes> {
    if log == [] then []
    else
      var m := log[|log| - 1];
      var earlier := Requests(log[..|log| - 1]);
      if m.direction == ClientToServer && Words(m.startLine) != [] then earlier + [Words(m.startLine)[0]] else earlier
  }

  predicate IsFinal(m: DecodedMessage) {
    m.direction == ServerToClient && IsFinalStatus(StatusOf(m.startLine))
  }

  function Finals(log: seq<DecodedMessage>): nat {
    if log == [] then 0 else Finals(log[..|log| - 1]) + if IsFinal(log[|log| - 1]) then 1 else 0
  }

  /** Requests answered so far: a final response answers the oldest waiting request, if any. */
  function Answered(log: seq<DecodedMessage>): (n: nat)
    ensures n <= |Requests(log)| && n <= Finals(log)
  {
    if log == [] then 0
    else
      var n := Answered(log[..|log| - 1]);
      if IsFinal(log[|log| - 1]) && n < |Requests(log[..|log| - 1])| then n + 1 else n
  }

  function Waiting(log: seq<DecodedMessage>): seq<Bytes> {
    Requests(log)[Answered(log)..]
  }

  predicate AnswersHead(log: seq<DecodedMessage>) {
    Waiting(log) != [] && EqIgnoreCase(Waiting(log)[0], Ascii("HEAD"))
  }

  function AllMessages(reports: seq<Report>): seq<DecodedMessage> {
    if reports == [] then [] else reports[0].messages + AllMessages(reports[1..])
  }

  // ---------------------------------------------------- the queue is that list

  lemma TrackKeepsWaiting(x: Exchange, m: DecodedMessage, log: seq<DecodedMessage>)
    requires x.methods == Waiting(log)
    ensures Track(x, m).methods == Waiting(log + [m])
  {
    hide Words, StatusOf;
    assert (log + [m])[..|log|] == log;
  }

  lemma TrackOne(x: Exchange, d: Direction, m: DecodedMessage, log: seq<DecodedMessage>)
    requires x.methods == Waiting(log)
    ensures Track(WithPending(x, d, Idle), m).methods == Waiting(log + [m])
  {
    hide Waiting, Words, StatusOf;
    TrackKeepsWaiting(WithPending(x, d, Idle), m, log);
  }

  // ------------------------------------------------------------- timely responses

  /** Server heads are read only while a request is waiting. */
  predicate TimelyStep(d: Direction, x: Exchange, b: Bytes) {
    d == ServerToClient && x.server.Idle? && Find(b, CRLFCRLF).Some? ==> x.methods != []
  }

  predicate TimelyDrain(cap: Option<nat>, d: Direction, x: Exchange, b: Bytes)
    decreases |b|
  {
    && TimelyStep(d, x, b)
    && var r := Step(cap, d, x, b);
       r.Advance? ==> TimelyDrain(cap, d, r.control, r.rest)
  }

  predicate TimelySession(cap: Option<nat>, s: Decoder, events: seq<Event>)
    decreases events
  {
    events == [] ||
    (&& (events[0].Received? ==> TimelyDrain(cap, events[0].d, s.exchange, BufferOf(s, events[0].d) + events[0].bytes))
     && TimelySession(cap, Apply(cap, s, events[0]).0, events[1..]))
  }

  /** A response body is awaited only for a request that is not HEAD. */
  predicate AwaitsBody(x: Exchange) {
    x.server.Idle? || (x.methods != [] && !EqIgnoreCase(x.methods[0], Ascii("HEAD")))
  }

  /** Each server message in `log[from..]` that answers HEAD has no body. */
  ghost predicate HeadHasNoBody(log: seq<DecodedMessage>, from: nat) {
    forall i :: from <= i < |log| && log[i].direction == ServerToClient && AnswersHead(log[..i]) ==> log[i].body == []
  }

  /** A message that this step emits is framed as an answer to HEAD: without a body, whatever it declares. */
  predicate FramesAsHead(x: Exchange, d: Direction) {
    PendingOf(x, d).Idle? && RespondsToHead(x, d)
  }

  /** For each message of a loop, whether it was framed as an answer to HEAD. */
  function Framings(cap: Option<nat>, d: Direction, x: Exchange, b: Bytes): seq<bool>
    decreases |b|
  {
    var r := Step(cap, d, x, b);
    if !r.Advance? then []
    else seq(|r.emitted.messages|, _ => FramesAsHead(x, d)) + Framings(cap, d, r.control, r.rest)
  }

  function EventFramings(cap: Option<nat>, s: Decoder, e: Event): seq<bool> {
    if e.Received? then Framings(cap, e.d, s.exchange, BufferOf(s, e.d) + e.bytes)
    else seq(|Finish(s, e.d).1.messages|, _ => false)
  }

  function SessionFramings(cap: Option<nat>, s: Decoder, events: seq<Event>): seq<bool>
    decreases events
  {
    if events == [] then []
    else EventFramings(cap, s, events[0]) + SessionFramings(cap, Apply(cap, s, events[0]).0, events[1..])
  }

  /** Each server message in `log[from..]` found a request waiting, and was framed as an answer to HEAD,
      without a body, exactly when that request is HEAD. */
  ghost predicate Framed(log: seq<DecodedMessage>, from: nat, framings: seq<bool>) {
    && from + |framings| == |log|
    && forall i :: from <= i < |log| && log[i].direction == ServerToClient ==>
         && Waiting(log[..i]) != []
         && (framings[i - from] <==> AnswersHead(log[..i]))
         && (framings[i - from] ==> log[i].body == [])
  }

  /** What a step appends to the log. */
  function Emitted(r: StepOutcome): seq<DecodedMessage> {
    if r.NeedMore? then [] else r.emitted.messages
  }

  /** Everything a step does that pairing depends on. */
  ghost predicate StepPairs(r: StepOutcome, log: seq<DecodedMessage>, timely: bool, asHead: bool) {
    var log' := log + Emitted(r);
    && r.control.methods == Waiting(log')
    && (timely ==> AwaitsBody(r.control) && Framed(log', |log|, seq(|Emitted(r)|, _ => asHead)))
  }

  lemma SilentPairs(r: StepOutcome, log: seq<DecodedMessage>, timely: bool, asHead: bool)
    requires r.control.methods == Waiting(log) && Emitted(r) == []
    requires timely ==> AwaitsBody(r.control)
    ensures StepPairs(r, log, timely, asHead)
  {
    hide Waiting;
    assert log + [] == log;
  }

  lemma EmitPairs(x: Exchange, d: Direction, m: DecodedMessage, rest: Bytes, log: seq<DecodedMessage>, timely: bool, asHead: bool)
    requires x.methods == Waiting(log) && m.direction == d
    requires timely ==> AwaitsBody(x)
    requires timely && d == ServerToClient ==> x.methods != [] && (asHead <==> AnswersHead(log)) && (asHead ==> m.body == [])
    ensures StepPairs(Emit(x, d, m, rest), log, timely, asHead)
  {
    hide Words, StatusOf, EqIgnoreCase;
    TrackOne(x, d, m, log);
    assert (log + [m])[..|log|] == log;
  }

  lemma FramePairs(x: Exchange, d: Direction, head: ParsedHead, rest: Bytes, log: seq<DecodedMessage>, timely: bool)
    requires x.methods == Waiting(log) && PendingOf(x, d).Idle?
    requires timely ==> AwaitsBody(x) && (d == ServerToClient ==> x.methods != [])
    ensures StepPairs(Frame(x, d, head, rest), log, timely, RespondsToHead(x, d))
  {
    hide Waiting, EqIgnoreCase, StepPairs, Track;
    var m := Headed(d, head);
    var r := Frame(x, d, head, rest);
    EmitPairs(x, d, m, rest, log, timely, RespondsToHead(x, d));
    if r.emitted == Quiet() {
      SilentPairs(r, log, timely, RespondsToHead(x, d));
    }
  }

  lemma HeadPairs(x: Exchange, d: Direction, b: Bytes, log: seq<DecodedMessage>, timely: bool)
    requires x.methods == Waiting(log) && PendingOf(x, d).Idle?
    requires timely ==> AwaitsBody(x) && TimelyStep(d, x, b)
    ensures StepPairs(StepHead(x, d, b), log, timely, RespondsToHead(x, d))
  {
    hide Waiting, EqIgnoreCase, StepPairs, Find, ParseHead, Frame;
    var r := StepHead(x, d, b);
    match Find(b, CRLFCRLF)
    case None => SilentPairs(r, log, timely, RespondsToHead(x, d));
    case Some(end) =>
      match ParseHead(b[..end])
      case Rejected(_) => SilentPairs(r, log, timely, RespondsToHead(x, d));
      case Parsed(head) => FramePairs(x, d, head, b[end + 4..], log, timely);
  }

  lemma ChunkPairs(cap: Option<nat>, x: Exchange, d: Direction, m: DecodedMessage, phase: ChunkPhase, b: Bytes, log: seq<DecodedMessage>, timely: bool)
    requires x.methods == Waiting(log) && m.direction == d && PendingOf(x, d) == Chunked(m, phase)
    requires timely ==> AwaitsBody(x)
    ensures StepPairs(StepChunk(cap, x, d, m, phase, b), log, timely, false)
  {
    hide Waiting, EqIgnoreCase, StepPairs, Find, ParseChunkLine, Capture, Track;
    var r := StepChunk(cap, x, d, m, phase, b);
    if r.Advance? && r.emitted != Quiet() {
      EmitPairs(x, d, m, r.rest, log, timely, false);
    } else {
      SilentPairs(r, log, timely, false);
    }
  }

  /** Messages kept for a direction carry that direction. */
  predicate Oriented(x: Exchange) {
    && (x.client.Idle? || x.client.message.direction == ClientToServer)
    && (x.server.Idle? || x.server.message.direction == ServerToClient)
  }

  lemma ChunkOriented(cap: Option<nat>, x: Exchange, d: Direction, m: DecodedMessage, phase: ChunkPhase, b: Bytes)
    requires Oriented(x) && m.direction == d
    ensures Oriented(StepChunk(cap, x, d, m, phase, b).control)
  {
    hide Find, ParseChunkLine, Words, StatusOf;
  }

  lemma HeadOriented(x: Exchange, d: Direction, b: Bytes)
    requires Oriented(x)
    ensures Oriented(StepHead(x, d, b).control)
  {
    hide Find, ParseHead, Words, StatusOf, RespondsToHead;
  }

  lemma StepOriented(cap: Option<nat>, d: Direction, x: Exchange, b: Bytes)
    requires Oriented(x)
    ensures Oriented(Step(cap, d, x, b).control)
  {
    hide StepHead, StepChunk, Words, StatusOf;
    HeadOriented(x, d, b);
    if PendingOf(x, d).Chunked? {
      ChunkOriented(cap, x, d, PendingOf(x, d).message, PendingOf(x, d).phase, b);
    }
  }

  lemma OneStepPairs(cap: Option<nat>, d: Direction, x: Exchange, b: Bytes, log: seq<DecodedMessage>, timely: bool)
    requires Oriented(x) && x.methods == Waiting(log)
    requires timely ==> AwaitsBody(x) && TimelyStep(d, x, b)
    ensures StepPairs(Step(cap, d, x, b), log, timely, FramesAsHead(x, d))
  {
    hide Waiting, EqIgnoreCase, StepPairs, StepHead, StepChunk, Track, Capture, Find;
    var r := Step(cap, d, x, b);
    match PendingOf(x, d)
    case Idle => HeadPairs(x, d, b, log, timely);
    case Chunked(m, phase) => ChunkPairs(cap, x, d, m, phase, b, log, timely);
    case UntilEof(m) => SilentPairs(r, log, timely, false);
    case Fixed(m, remaining) =>
      if |b| < remaining {
        SilentPairs(r, log, timely, false);
      } else {
        CaptureKeepsDirection(m, b[..remaining], cap);
        EmitPairs(x, d, Capture(m, b[..remaining], cap), b[remaining..], log, timely, false);
      }
  }

  lemma CaptureKeepsDirection(m: DecodedMessage, bytes: Bytes, cap: Option<nat>)
    ensures Capture(m, bytes, cap).direction == m.direction
  {
  }

  // ------------------------------------------------------------ loops and sessions

  /** The decoder state agrees with the log read so far. */
  ghost predicate Paired(x: Exchange, log: seq<DecodedMessage>, timely: bool) {
    Oriented(x) && x.methods == Waiting(log) && (timely ==> AwaitsBody(x))
  }

  lemma FramedJoins(log: seq<DecodedMessage>, more: seq<DecodedMessage>, from: nat, f: seq<bool>, g: seq<bool>)
    requires Framed(log, from, f) && Framed(log + more, |log|, g)
    ensures Framed(log + more, from, f + g)
  {
    hide Waiting, AnswersHead;
    var all := log + more;
    forall i | from <= i < |all| && all[i].direction == ServerToClient
      ensures Waiting(all[..i]) != [] && ((f + g)[i - from] <==> AnswersHead(all[..i])) && ((f + g)[i - from] ==> all[i].body == [])
    {
      if i < |log| { assert all[..i] == log[..i]; }
    }
  }

  lemma {:induction false} DrainPairs(cap: Option<nat>, d: Direction, x: Exchange, b: Bytes, log: seq<DecodedMessage>, timely: bool)
    requires Paired(x, log, timely) && (timely ==> TimelyDrain(cap, d, x, b))
    ensures var r := DrainStream(cap, d, x, b);
            var log' := log + r.batch.messages;
            Paired(r.control, log', timely) && (timely ==> Framed(log', |log|, Framings(cap, d, x, b)))
    decreases |b|
  {
    hide Step, Waiting, AwaitsBody, Oriented, DrainStream, Framed, TimelyStep, FramesAsHead;
    OneStepPairs(cap, d, x, b, log, timely);
    StepOriented(cap, d, x, b);
    DrainUnfolds(cap, d, x, b);
    HaltIsSilent(cap, d, x, b);
    match Step(cap, d, x, b)
    case NeedMore(_, _) => assert seq(0, _ => FramesAsHead(x, d)) == [];
    case Halt(_, _) => assert seq(0, _ => FramesAsHead(x, d)) == [];
    case Advance(x', rest, e) =>
      var log' := log + e.messages;
      DrainPairs(cap, d, x', rest, log', timely);
      var more := DrainStream(cap, d, x', rest).batch.messages;
      assert log' + more == log + (e.messages + more);
      if timely { FramedJoins(log', more, |log|, seq(|e.messages|, _ => FramesAsHead(x, d)), Framings(cap, d, x', rest)); }
  }

  lemma HaltIsSilent(cap: Option<nat>, d: Direction, x: Exchange, b: Bytes)
    ensures Step(cap, d, x, b).Halt? ==> Step(cap, d, x, b).emitted.messages == []
  {
    hide ParseHead, ParseChunkLine, Capture, Track, Find;
  }

  lemma ApplyPairs(cap: Option<nat>, s: Decoder, e: Event, log: seq<DecodedMessage>, timely: bool)
    requires Paired(s.exchange, log, timely)
    requires timely && e.Received? ==> TimelyDrain(cap, e.d, s.exchange, BufferOf(s, e.d) + e.bytes)
    ensures var (s', r) := Apply(cap, s, e);
            var log' := log + r.messages;
            Paired(s'.exchange, log', timely) && (timely ==> Framed(log', |log|, EventFramings(cap, s, e)))
  {
    hide DrainStream, Waiting, EqIgnoreCase, Words, StatusOf, TimelyDrain, Framings;
    match e
    case Received(d, bytes) => DrainPairs(cap, d, s.exchange, BufferOf(s, d) + bytes, log, timely);
    case Ended(d) =>
      var p := PendingOf(s.exchange, d);
      assert log + [] == log;
      if !p.Idle? {
        var m := p.message.(truncated := p.message.truncated || !p.UntilEof?);
        EmitPairs(s.exchange, d, m, [], log, timely, false);
      }
  }

  lemma {:induction false} SessionPairs(cap: Option<nat>, s: Decoder, events: seq<Event>, log: seq<DecodedMessage>, timely: bool)
    requires Paired(s.exchange, log, timely) && (timely ==> TimelySession(cap, s, events))
    ensures var (s', rs) := Session(cap, s, events);
            var log' := log + AllMessages(rs);
            Paired(s'.exchange, log', timely) && (timely ==> Framed(log', |log|, SessionFramings(cap, s, events)))
    decreases events
  {
    hide Apply, Paired, TimelyDrain, Framed, EventFramings;
    if events == [] {
      assert log + AllMessages([]) == log;
      NothingToPair(log);
    } else {
      var (s1, r1) := Apply(cap, s, events[0]);
      ApplyPairs(cap, s, events[0], log, timely);
      SessionPairs(cap, s1, events[1..], log + r1.messages, timely);
      var rs := Session(cap, s1, events[1..]).1;
      assert ([r1] + rs)[1..] == rs;
      assert log + AllMessages([r1] + rs) == log + r1.messages + AllMessages(rs);
      if timely {
        FramedJoins(log + r1.messages, AllMessages(rs), |log|, EventFramings(cap, s, events[0]), SessionFramings(cap, s1, events[1..]));
      }
    }
  }

  lemma StartIsPaired()
    ensures Paired(Initial.exchange, [], true)
  {
  }

  lemma NothingToPair(log: seq<DecodedMessage>)
    ensures Framed(log, |log|, [])
  {
  }

  /** After any interleaving of pushes and ends, the queue is exactly the list of unanswered requests,
      so the next server head is framed as a response to HEAD exactly when the oldest unanswered
      request is HEAD. */
  lemma QueueIsUnansweredRequests(cap: Option<nat>, events: seq<Event>)
    ensures var (s, rs) := Session(cap, Initial, events);
            var log := AllMessages(rs);
            && s.exchange.methods == Requests(log)[Answered(log)..]
            && (RespondsToHead(s.exchange, ServerToClient) <==> AnswersHead(log))
  {
    hide Session, EqIgnoreCase;
    SessionPairs(cap, Initial, events, [], false);
    var log := AllMessages(Session(cap, Initial, events).1);
    assert [] + log == log;
  }

  /** Every final response in the log found a request waiting. */
  ghost predicate NoneUnasked(log: seq<DecodedMessage>) {
    forall i :: 0 <= i < |log| && IsFinal(log[i]) ==> Waiting(log[..i]) != []
  }

  lemma NoneUnaskedSteps(log: seq<DecodedMessage>)
    requires log != []
    ensures var earlier, m := log[..|log| - 1], log[|log| - 1];
            NoneUnasked(log) <==> NoneUnasked(earlier) && (IsFinal(m) ==> Waiting(earlier) != [])
  {
    hide IsFinal, Waiting;
    var n := |log| - 1;
    var earlier := log[..n];
    assert forall i :: 0 <= i < n ==> earlier[..i] == log[..i] && earlier[i] == log[i];
  }

  /** Final responses and answered requests are counted alike exactly when no final response arrives
      without a waiting request; interim responses answer nothing. */
  lemma {:induction false} FinalsAnswerInOrder(log: seq<DecodedMessage>)
    ensures Answered(log) == Finals(log) <==> NoneUnasked(log)
  {
    hide IsFinal, Words;
    if log != [] {
      hide NoneUnasked;
      FinalsAnswerInOrder(log[..|log| - 1]);
      NoneUnaskedSteps(log);
    }
  }

  lemma {:induction false} RequestsGrow(log: seq<DecodedMessage>, i: nat)
    requires i <= |log|
    ensures Requests(log[..i]) <= Requests(log)
    decreases |log|
  {
    hide Words;
    if i == |log| {
      assert log[..i] == log;
    } else {
      RequestsGrow(log[..|log| - 1], i);
      assert log[..|log| - 1][..i] == log[..i];
    }
  }

  /** When every response head is read while a request waits, no response arrives unasked and no
      response to HEAD has a body. */
  lemma HeadResponsesHaveNoBody(cap: Option<nat>, events: seq<Event>)
    requires TimelySession(cap, Initial, events)
    ensures var log := AllMessages(Session(cap, Initial, events).1);
            HeadHasNoBody(log, 0) && NoneUnasked(log) && Answered(log) == Finals(log)
  {
    hide Session, EqIgnoreCase, TimelySession, SessionFramings, Waiting;
    StartIsPaired();
    SessionPairs(cap, Initial, events, [], true);
    var log := AllMessages(Session(cap, Initial, events).1);
    assert [] + log == log;
    FinalsAnswerInOrder(log);
  }

  predicate IsHead(verb: Bytes) {
    EqIgnoreCase(verb, Ascii("HEAD"))
  }

  /** The n-th final response, and every interim response before it, belongs to the n-th request: it is
      framed as an answer to HEAD, and so without a body, exactly when that request is HEAD. */
  lemma NthResponseAnswersNthRequest(cap: Option<nat>, events: seq<Event>, i: nat)
    requires TimelySession(cap, Initial, events)
    requires var log := AllMessages(Session(cap, Initial, events).1); i < |log| && log[i].direction == ServerToClient
    ensures var log := AllMessages(Session(cap, Initial, events).1);
            var framings := SessionFramings(cap, Initial, events);
            var n := Finals(log[..i]);
            && |framings| == |log| && n < |Requests(log)|
            && (framings[i] <==> IsHead(Requests(log)[n]))
            && (framings[i] ==> log[i].body == [])
  {
    hide Session, EqIgnoreCase, TimelySession, SessionFramings, Requests, Answered, Finals;
    StartIsPaired();
    SessionPairs(cap, Initial, events, [], true);
    var log := AllMessages(Session(cap, Initial, events).1);
    assert [] + log == log;
    var earlier := log[..i];
    assert NoneUnasked(earlier) by { PrefixUnasked(log, i, SessionFramings(cap, Initial, events)); }
    FinalsAnswerInOrder(earlier);
    RequestsGrow(log, i);
    assert Waiting(earlier)[0] == Requests(earlier)[Answered(earlier)];
  }

  lemma PrefixUnasked(log: seq<DecodedMessage>, i: nat, framings: seq<bool>)
    requires Framed(log, 0, framings) && i <= |log|
    ensures NoneUnasked(log[..i])
  {
    hide Waiting, AnswersHead;
    forall j | 0 <= j < i && IsFinal(log[..i][j])
      ensures Waiting(log[..i][..j]) != []
    {
      assert log[..i][..j] == log[..j];
    }
  }
}
