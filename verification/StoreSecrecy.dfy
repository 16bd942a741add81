/** What stored flows may depend on: of every message, what its redactors let through and nothing else. */
module StoreSecrecy {
  import opened ByteStrings
  import opened Streaming
  import opened Text
  import opened Store
  import opened StorePlugins
  import opened StoreRetention

  // --------------------------------------------------------------- messages that look alike

  /** Nothing plugins are shown, and nothing that pairs or labels messages, tells the two apart. */
  predicate SameOutside(env: Env, m: DecodedMessage, n: DecodedMessage) {
    && m.truncated == n.truncated
    && HeaderValue(m.headers, Ascii("lens-stream-id")) == HeaderValue(n.headers, Ascii("lens-stream-id"))
    && HeaderValue(m.headers, Ascii("lens-boundary")) == HeaderValue(n.headers, Ascii("lens-boundary"))
    && HeaderValue(m.headers, Ascii("lens-protocol")) == HeaderValue(n.headers, Ascii("lens-protocol"))
    && (env.plugins.Some? ==> env.redactForPlugins(m) == env.redactForPlugins(n))
  }

  /** Nor does what is stored of them, when that is to be compared too. */
  predicate SameMessage(stored: bool, env: Env, env': Env, m: DecodedMessage, n: DecodedMessage) {
    SameOutside(env, m, n) && (stored ==> env.redact(m) == env'.redact(n))
  }

  predicate SameReport(stored: bool, env: Env, env': Env, r: Report, q: Report) {
    && r.desynchronized == q.desynchronized && |r.messages| == |q.messages|
    && forall i :: 0 <= i < |r.messages| ==> SameMessage(stored, env, env', r.messages[i], q.messages[i])
  }

  type Alikeness = (Bytes, Bytes) -> bool

  predicate SameInput(alike: Alikeness, i: Input, j: Input) {
    match i
    case Push(d, bytes) => j.Push? && j.direction == d && alike(bytes, j.bytes)
    case Finish(_) => i == j
  }

  /** Decoders for the same protocol, given inputs that are alike one by one. */
  predicate SameDecoder(alike: Alikeness, d: Decoder, c: Decoder) {
    && d.protocol == c.protocol && |d.inputs| == |c.inputs|
    && forall i :: 0 <= i < |d.inputs| ==> SameInput(alike, d.inputs[i], c.inputs[i])
  }

  predicate SameEvent(alike: Alikeness, e: Event, f: Event) {
    && e.flow == f.flow && e.at == f.at
    && (if e.kind.Data? then f.kind.Data? && f.kind.direction == e.kind.direction && alike(e.kind.bytes, f.kind.bytes)
        else f.kind == e.kind)
  }

  predicate SameEvents(alike: Alikeness, a: seq<Event>, b: seq<Event>) {
    |a| == |b| && forall i :: 0 <= i < |a| ==> SameEvent(alike, a[i], b[i])
  }

  /** Two settings with the same plugins, whose decoders report messages that look alike for inputs that
      are alike; with `stored`, what is stored of them is the same too. */
  ghost predicate Agree(stored: bool, alike: Alikeness, env: Env, env': Env) {
    && env.plugins == env'.plugins && env.redactForPlugins == env'.redactForPlugins
    && (stored ==> env.unmasked == env'.unmasked)
    && forall d, c :: SameDecoder(alike, d, c) ==> SameReport(stored, env, env', env.decode(d), env'.decode(c))
  }

  // ------------------------------------------------------------------- stores that look alike

  /** Stores that differ at most in their decoders' inputs and the text and mark of their records; with
      `stored`, not in their records. */
  predicate Seen(stored: bool, s: State, t: State) {
    s.(flows := t.flows, decoders := t.decoders) == t && AlikeFlows(s.flows, t.flows) && (stored ==> s.flows == t.flows)
  }

  predicate SameDecoders(alike: Alikeness, a: map<FlowId, Decoder>, b: map<FlowId, Decoder>) {
    a.Keys == b.Keys && forall k :: k in a ==> SameDecoder(alike, a[k], b[k])
  }

  lemma ChangeSeen(stored: bool, s: State, t: State, id: FlowId, c: Change)
    requires Seen(stored, s, t) && !c.Append?
    ensures Seen(stored, ChangeFlow(s, id, c), ChangeFlow(t, id, c))
  {
    hide Changed, AlikeFlows;
    ChangeAlike(s.(decoders := t.decoders), t, id, c);
  }

  lemma AppendSeen(stored: bool, s: State, t: State, id: FlowId, a: MessageRecord, b: MessageRecord)
    requires Seen(stored, s, t) && AlikeRecord(a, b) && (stored ==> a == b)
    ensures Seen(stored, ChangeFlow(s, id, Append(a)), ChangeFlow(t, id, Append(b)))
  {
    hide Changed, AlikeFlows;
    AppendAlike(s.(decoders := t.decoders), t, id, a, b);
  }

  lemma PairedAlike(env: Env, flow: FlowId, at: nat, pending: map<Key, seq<nat>>, m: DecodedMessage, n: DecodedMessage)
    requires SameOutside(env, m, n)
    ensures PendingAfter(pending, flow, at, m) == PendingAfter(pending, flow, at, n)
    ensures LatencyOf(pending, flow, at, m) == LatencyOf(pending, flow, at, n)
    ensures IsGrpc(m) == IsGrpc(n)
  {
    hide HeaderValue, Ascii;
  }

  lemma RecordsSeen(stored: bool, env: Env, env': Env, s: State, t: State, flow: FlowId, at: nat, m: DecodedMessage, n: DecodedMessage)
    requires Seen(stored, s, t) && SameMessage(stored, env, env', m, n)
    requires env.plugins == env'.plugins && env.redactForPlugins == env'.redactForPlugins && (stored ==> env.unmasked == env'.unmasked)
    ensures var a, b := RecordOf(env, s, flow, at, m), RecordOf(env', t, flow, at, n);
            a.id == b.id && AlikeRecord(a, b) && (stored ==> a == b)
    ensures Consult(env, s, flow, at, m) == Consult(env', t, flow, at, n)
  {
    hide LatencyOf, AlikeFlows, HeaderValue;
    PairedAlike(env, flow, at, s.pending, m, n);
  }

  lemma MessageSeen(stored: bool, env: Env, env': Env, s: State, t: State, flow: FlowId, at: nat, m: DecodedMessage, n: DecodedMessage)
    requires Seen(stored, s, t) && SameMessage(stored, env, env', m, n)
    requires env.plugins == env'.plugins && env.redactForPlugins == env'.redactForPlugins && (stored ==> env.unmasked == env'.unmasked)
    ensures Seen(stored, StoreMessage(env, s, flow, at, m), StoreMessage(env', t, flow, at, n))
  {
    hide IsGrpc, PendingAfter, ChangeFlow, AlikeFlows, RecordOf, Consult, HeaderValue, Ascii;
    var a, b := RecordOf(env, s, flow, at, m), RecordOf(env', t, flow, at, n);
    RecordsSeen(stored, env, env', s, t, flow, at, m, n);
    PairedAlike(env, flow, at, s.pending, m, n);
    var grpc := Relabel(Ascii("grpc"));
    var s1 := s.(pending := PendingAfter(s.pending, flow, at, m), nextMessageId := a.id);
    var t1 := t.(pending := PendingAfter(t.pending, flow, at, n), nextMessageId := b.id);
    ChangeSeen(stored, s1, t1, flow, grpc);
    var s2 := if IsGrpc(m) then ChangeFlow(s1, flow, grpc) else s1;
    var t2 := if IsGrpc(n) then ChangeFlow(t1, flow, grpc) else t1;
    AppendSeen(stored, s2, t2, flow, a, b);
    var report := Consult(env, s, flow, at, m);
    if report.Some? {
      ChangeSeen(stored, ChangeFlow(s2, flow, Append(a)), ChangeFlow(t2, flow, Append(b)), flow, Annotate(report.value));
    }
  }

  lemma {:induction false} MessagesSeen(stored: bool, env: Env, env': Env, s: State, t: State, flow: FlowId, at: nat, ms: seq<DecodedMessage>, ns: seq<DecodedMessage>)
    requires Seen(stored, s, t) && |ms| == |ns| && forall i :: 0 <= i < |ms| ==> SameMessage(stored, env, env', ms[i], ns[i])
    requires env.plugins == env'.plugins && env.redactForPlugins == env'.redactForPlugins && (stored ==> env.unmasked == env'.unmasked)
    ensures Seen(stored, StoreMessages(env, s, flow, at, ms), StoreMessages(env', t, flow, at, ns))
    decreases |ms|
  {
    hide StoreMessage, Seen, SameMessage;
    if ms != [] {
      MessageSeen(stored, env, env', s, t, flow, at, ms[0], ns[0]);
      MessagesSeen(stored, env, env', StoreMessage(env, s, flow, at, ms[0]), StoreMessage(env', t, flow, at, ns[0]), flow, at, ms[1..], ns[1..]);
    }
  }

  lemma BatchSeen(stored: bool, env: Env, env': Env, s: State, t: State, flow: FlowId, at: nat, r: Report, q: Report)
    requires Seen(stored, s, t) && SameReport(stored, env, env', r, q)
    requires env.plugins == env'.plugins && env.redactForPlugins == env'.redactForPlugins && (stored ==> env.unmasked == env'.unmasked)
    ensures Seen(stored, StoreBatch(env, s, flow, at, r), StoreBatch(env', t, flow, at, q))
    ensures StoreBatch(env, s, flow, at, r).decoders == s.decoders && StoreBatch(env', t, flow, at, q).decoders == t.decoders
  {
    hide StoreMessages, Seen, ChangeFlow, SameMessage, Ids;
    BatchKeepsShape(env, s, flow, at, r);
    BatchKeepsShape(env', t, flow, at, q);
    if r.desynchronized.Some? {
      var c := Desynchronize(r.desynchronized.value);
      ChangeSeen(stored, s, t, flow, c);
      MessagesSeen(stored, env, env', ChangeFlow(s, flow, c), ChangeFlow(t, flow, c), flow, at, r.messages, q.messages);
    } else {
      MessagesSeen(stored, env, env', s, t, flow, at, r.messages, q.messages);
    }
  }

  // ---------------------------------------------------------------------------- one event

  /** Stores that look alike, with decoders that were given alike inputs. */
  predicate Matches(stored: bool, alike: Alikeness, s: State, t: State) {
    Seen(stored, s, t) && SameDecoders(alike, s.decoders, t.decoders)
  }

  lemma GivenAlike(alike: Alikeness, d: Decoder, c: Decoder, i: Input, j: Input)
    requires SameDecoder(alike, d, c) && SameInput(alike, i, j)
    ensures SameDecoder(alike, Given(d, i), Given(c, j))
  {
  }

  lemma ChangeMatches(stored: bool, alike: Alikeness, s: State, t: State, id: FlowId, c: Change)
    requires Matches(stored, alike, s, t) && !c.Append?
    ensures Matches(stored, alike, ChangeFlow(s, id, c), ChangeFlow(t, id, c))
  {
    hide Changed, AlikeFlows, SameDecoder;
    ChangeSeen(stored, s, t, id, c);
  }

  lemma DecodersChange(stored: bool, alike: Alikeness, s: State, t: State, flow: FlowId, d: Decoder, c: Decoder)
    requires Matches(stored, alike, s, t) && SameDecoder(alike, d, c)
    ensures Matches(stored, alike, s.(decoders := s.decoders[flow := d]), t.(decoders := t.decoders[flow := c]))
    ensures Matches(stored, alike, s.(decoders := s.decoders - {flow}), t.(decoders := t.decoders - {flow}))
    ensures Matches(stored, alike, ForgetFlow(s, flow), ForgetFlow(t, flow))
  {
    hide AlikeFlows, SameDecoder;
    assert s.decoders[flow := d].Keys == s.decoders.Keys + {flow} && t.decoders[flow := c].Keys == t.decoders.Keys + {flow};
    assert (s.decoders - {flow}).Keys == s.decoders.Keys - {flow} && (t.decoders - {flow}).Keys == t.decoders.Keys - {flow};
  }

  lemma BatchMatches(stored: bool, alike: Alikeness, env: Env, env': Env, s: State, t: State, flow: FlowId, at: nat, d: Decoder, c: Decoder)
    requires Agree(stored, alike, env, env') && Matches(stored, alike, s, t) && SameDecoder(alike, d, c)
    ensures Matches(stored, alike, StoreBatch(env, s, flow, at, env.decode(d)), StoreBatch(env', t, flow, at, env'.decode(c)))
  {
    hide StoreBatch, Seen, SameDecoder, SameReport;
    BatchSeen(stored, env, env', s, t, flow, at, env.decode(d), env'.decode(c));
  }

  lemma ShutMatches(stored: bool, alike: Alikeness, env: Env, env': Env, s: State, t: State, flow: FlowId, at: nat)
    requires Agree(stored, alike, env, env') && Matches(stored, alike, s, t)
    ensures Matches(stored, alike, Shut(env, s, flow, at), Shut(env', t, flow, at))
  {
    hide StoreBatch, Seen, SameDecoder, Agree, ForgetFlow, Given;
    if flow in s.decoders {
      var d, c := s.decoders[flow], t.decoders[flow];
      DecodersChange(stored, alike, s, t, flow, d, c);
      var s1, t1 := s.(decoders := s.decoders - {flow}), t.(decoders := t.decoders - {flow});
      var i, j := Finish(ClientToServer), Finish(ServerToClient);
      GivenAlike(alike, d, c, i, i);
      GivenAlike(alike, Given(d, i), Given(c, i), j, j);
      BatchMatches(stored, alike, env, env', s1, t1, flow, at, Given(d, i), Given(c, i));
      var s2, t2 := StoreBatch(env, s1, flow, at, ClientEnd(env, d)), StoreBatch(env', t1, flow, at, ClientEnd(env', c));
      BatchMatches(stored, alike, env, env', s2, t2, flow, at, Given(Given(d, i), j), Given(Given(c, i), j));
      DecodersChange(stored, alike, StoreBatch(env, s2, flow, at, ServerEnd(env, d)), StoreBatch(env', t2, flow, at, ServerEnd(env', c)), flow, d, c);
    } else {
      SameFresh(alike, Decoder(Http1, []));
      DecodersChange(stored, alike, s, t, flow, Decoder(Http1, []), Decoder(Http1, []));
    }
  }

  lemma SameFresh(alike: Alikeness, d: Decoder)
    ensures d.inputs == [] ==> SameDecoder(alike, d, d)
  {
  }

  lemma DetectMatches(stored: bool, alike: Alikeness, s: State, t: State, flow: FlowId, name: Bytes)
    requires Matches(stored, alike, s, t)
    ensures Matches(stored, alike, Detect(s, flow, name), Detect(t, flow, name))
  {
    hide Seen, ChangeFlow, SameDecoder, SameDecoders, Matches, Ascii;
    ChangeMatches(stored, alike, s, t, flow, Relabel(name));
    var blank := if DecoderFor(name).Some? then DecoderFor(name).value else Decoder(Http1, []);
    SameFresh(alike, blank);
    DecodersChange(stored, alike, ChangeFlow(s, flow, Relabel(name)), ChangeFlow(t, flow, Relabel(name)), flow, blank, blank);
  }

  lemma EvictMatches(stored: bool, alike: Alikeness, maxFlows: nat, s: State, t: State)
    requires Matches(stored, alike, s, t)
    ensures Matches(stored, alike, Evict(maxFlows, s), Evict(maxFlows, t))
  {
    hide ForgetFlow, SameDecoder, SameDecoders, AlikeFlow;
    if s.flows != [] {
      assert AlikeFlow(s.flows[0], t.flows[0]);
      assert s.flows[0].id == t.flows[0].id by { FirstIds(s.flows[0], t.flows[0]); }
      SameFresh(alike, Decoder(Http1, []));
      DecodersChange(stored, alike, s, t, s.flows[0].id, Decoder(Http1, []), Decoder(Http1, []));
      Forgets(s, s.flows[0].id);
      Forgets(t, s.flows[0].id);
    }
  }

  lemma FirstIds(f: StoredFlow, g: StoredFlow)
    requires AlikeFlow(f, g)
    ensures f.id == g.id
  {
  }

  lemma Forgets(s: State, flow: FlowId)
    ensures ForgetFlow(s, flow).flows == s.flows && ForgetFlow(s, flow).evicted == s.evicted
  {
  }

  lemma OpenMatches(stored: bool, alike: Alikeness, s: State, t: State, e: Event)
    requires Matches(stored, alike, s, t) && e.kind.Opened?
    ensures Matches(stored, alike, OpenFlow(s, e), OpenFlow(t, e))
  {
    hide SameDecoder, Ascii, AlikeFlow;
    var flow := StoredFlow(e.flow, e.kind.client, e.kind.upstream, e.kind.protocol, None, Open, None, None, 0, 0, [], [], [], 0);
    SelfAlike(flow);
    var s1, t1 := s.(flows := s.flows + [flow]), t.(flows := t.flows + [flow]);
    assert AlikeFlows(s1.flows, t1.flows);
    if e.kind.protocol.Some? && DecoderFor(e.kind.protocol.value).Some? {
      var blank := DecoderFor(e.kind.protocol.value).value;
      SameFresh(alike, blank);
      DecodersChange(stored, alike, s1, t1, e.flow, blank, blank);
    }
  }

  lemma SelfAlike(f: StoredFlow)
    ensures AlikeFlow(f, f)
  {
  }

  lemma ApplyMatches(stored: bool, alike: Alikeness, env: Env, env': Env, maxFlows: nat, s: State, t: State, e: Event, f: Event)
    requires Agree(stored, alike, env, env') && Matches(stored, alike, s, t) && SameEvent(alike, e, f)
    ensures Matches(stored, alike, Apply(env, maxFlows, s, e), Apply(env', maxFlows, t, f))
  {
    hide ChangeFlow, StoreBatch, Shut, Detect, OpenFlow, Evict, Seen, SameDecoder, Agree, Given;
    match e.kind
    case Opened(_, _, _) =>
      EvictMatches(stored, alike, maxFlows, s, t);
      OpenMatches(stored, alike, Evict(maxFlows, s), Evict(maxFlows, t), e);
      assert OpenFlow(Evict(maxFlows, t), e) == OpenFlow(Evict(maxFlows, t), f);
    case Identified(identity) => ChangeMatches(stored, alike, s, t, e.flow, Identify(identity));
    case ProtocolDetected(name) => DetectMatches(stored, alike, s, t, e.flow, name);
    case Transferred(direction, count) => ChangeMatches(stored, alike, s, t, e.flow, Count(direction, count));
    case Data(direction, bytes) =>
      if e.flow in s.decoders {
        var i, j := Push(direction, bytes), Push(direction, f.kind.bytes);
        var d, c := Given(s.decoders[e.flow], i), Given(t.decoders[e.flow], j);
        GivenAlike(alike, s.decoders[e.flow], t.decoders[e.flow], i, j);
        DecodersChange(stored, alike, s, t, e.flow, d, c);
        BatchMatches(stored, alike, env, env', s.(decoders := s.decoders[e.flow := d]), t.(decoders := t.decoders[e.flow := c]), e.flow, e.at, d, c);
      }
    case FlowClosed =>
      ShutMatches(stored, alike, env, env', s, t, e.flow, e.at);
      ChangeMatches(stored, alike, Shut(env, s, e.flow, e.at), Shut(env', t, e.flow, e.at), e.flow, Close);
    case FlowFailed(reason) =>
      ShutMatches(stored, alike, env, env', s, t, e.flow, e.at);
      ChangeMatches(stored, alike, Shut(env, s, e.flow, e.at), Shut(env', t, e.flow, e.at), e.flow, Fail(reason));
  }

  // ---------------------------------------------------------------------------- whole runs

  lemma {:induction false} RunsMatch(stored: bool, alike: Alikeness, env: Env, env': Env, maxFlows: nat, a: seq<Event>, b: seq<Event>)
    requires Agree(stored, alike, env, env') && SameEvents(alike, a, b)
    ensures Matches(stored, alike, Run(env, maxFlows, a), Run(env', maxFlows, b))
    decreases |a|
  {
    hide Apply, Agree, SameEvent, Matches;
    if a == [] {
      assert Matches(stored, alike, EMPTY, EMPTY) by { EmptyMatches(stored, alike); }
    } else {
      var n := |a| - 1;
      RunsMatch(stored, alike, env, env', maxFlows, a[..n], b[..n]);
      ApplyMatches(stored, alike, env, env', maxFlows, Run(env, maxFlows, a[..n]), Run(env', maxFlows, b[..n]), a[n], b[n]);
    }
  }

  lemma EmptyMatches(stored: bool, alike: Alikeness)
    ensures Matches(stored, alike, EMPTY, EMPTY)
  {
  }

  /** Two runs whose data lead to messages with the same redacted outcome, flag and pairing headers store the
      same flows, records included, and leave the same requests waiting: nothing else of a message gets in. */
  lemma OnlyRedactedIsStored(alike: Alikeness, env: Env, env': Env, maxFlows: nat, a: seq<Event>, b: seq<Event>)
    requires Agree(true, alike, env, env') && SameEvents(alike, a, b)
    ensures var s, t := Run(env, maxFlows, a), Run(env', maxFlows, b);
            s.flows == t.flows && s.pending == t.pending && s.evicted == t.evicted && s.nextMessageId == t.nextMessageId
  {
    hide Agree, SameEvents;
    RunsMatch(true, alike, env, env', maxFlows, a, b);
  }

  /** On the same data, with decoders that report such messages, the stores are the same altogether. */
  lemma SameDataSameStore(env: Env, env': Env, maxFlows: nat, events: seq<Event>)
    requires Agree(true, (x, y) => x == y, env, env')
    ensures Run(env, maxFlows, events) == Run(env', maxFlows, events)
  {
    hide Agree, Seen;
    var alike: Alikeness := (x, y) => x == y;
    assert SameEvents(alike, events, events);
    RunsMatch(true, alike, env, env', maxFlows, events, events);
    var s, t := Run(env, maxFlows, events), Run(env', maxFlows, events);
    forall k | k in s.decoders ensures s.decoders[k] == t.decoders[k] { SameInputsSameDecoder(alike, s.decoders[k], t.decoders[k]); }
    assert s.decoders == t.decoders;
    SeenIsEqual(s, t);
  }

  lemma SameInputsSameDecoder(alike: Alikeness, d: Decoder, c: Decoder)
    requires SameDecoder(alike, d, c) && forall x, y :: alike(x, y) ==> x == y
    ensures d == c
  {
    forall i | 0 <= i < |d.inputs| ensures d.inputs[i] == c.inputs[i] { assert SameInput(alike, d.inputs[i], c.inputs[i]); }
  }

  lemma SeenIsEqual(s: State, t: State)
    requires Seen(true, s, t) && s.decoders == t.decoders
    ensures s == t
  {
  }

  /** What plugins report, and everything else but the text and mark of the records, depends only on what the
      plugins' own redactor lets through, whatever is stored of the messages and whether or not it is masked. */
  lemma OnlyPluginRedactionIsShown(alike: Alikeness, env: Env, env': Env, maxFlows: nat, a: seq<Event>, b: seq<Event>)
    requires Agree(false, alike, env, env') && SameEvents(alike, a, b)
    ensures var s, t := Run(env, maxFlows, a), Run(env', maxFlows, b);
            AlikeFlows(s.flows, t.flows) && s.pending == t.pending && s.evicted == t.evicted && s.nextMessageId == t.nextMessageId
  {
    hide Agree, SameEvents, AlikeFlows;
    RunsMatch(false, alike, env, env', maxFlows, a, b);
  }
}
