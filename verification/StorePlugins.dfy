/** Plugins see only what their own redactor lets through, and leave a bounded trace. */
module StorePlugins {
  import opened ByteStrings
  import opened Streaming
  import opened Store

  // ------------------------------------------------------------------ bounded annotations

  /** No flow keeps more than its share of annotations. */
  predicate Annotated(s: State) {
    forall i :: 0 <= i < |s.flows| ==> |s.flows[i].annotations| <= MAX_ANNOTATIONS
  }

  lemma ChangeIsAnnotated(s: State, id: FlowId, c: Change)
    requires Annotated(s)
    ensures Annotated(ChangeFlow(s, id, c))
  {
  }

  lemma {:induction false} MessagesAreAnnotated(env: Env, s: State, flow: FlowId, at: nat, ms: seq<DecodedMessage>)
    requires Annotated(s)
    ensures Annotated(StoreMessages(env, s, flow, at, ms))
    decreases |ms|
  {
    hide StoreMessage, Annotated;
    if ms != [] {
      MessageIsAnnotated(env, s, flow, at, ms[0]);
      MessagesAreAnnotated(env, StoreMessage(env, s, flow, at, ms[0]), flow, at, ms[1..]);
    }
  }

  lemma MessageIsAnnotated(env: Env, s: State, flow: FlowId, at: nat, m: DecodedMessage)
    requires Annotated(s)
    ensures Annotated(StoreMessage(env, s, flow, at, m))
  {
    hide IsGrpc, PendingAfter, LatencyOf, ChangeFlow, Consult;
    var record := RecordOf(env, s, flow, at, m);
    var numbered := s.(pending := PendingAfter(s.pending, flow, at, m), nextMessageId := record.id);
    var labelled := if IsGrpc(m) then ChangeFlow(numbered, flow, Relabel(Ascii("grpc"))) else numbered;
    ChangeIsAnnotated(numbered, flow, Relabel(Ascii("grpc")));
    ChangeIsAnnotated(labelled, flow, Append(record));
    var report := Consult(env, s, flow, at, m);
    if report.Some? { ChangeIsAnnotated(ChangeFlow(labelled, flow, Append(record)), flow, Annotate(report.value)); }
  }

  lemma BatchIsAnnotated(env: Env, s: State, flow: FlowId, at: nat, report: Report)
    requires Annotated(s)
    ensures Annotated(StoreBatch(env, s, flow, at, report))
  {
    hide StoreMessages, ChangeFlow, Annotated;
    if report.desynchronized.Some? { ChangeIsAnnotated(s, flow, Desynchronize(report.desynchronized.value)); }
    MessagesAreAnnotated(env, if report.desynchronized.Some? then ChangeFlow(s, flow, Desynchronize(report.desynchronized.value)) else s,
                         flow, at, report.messages);
  }

  lemma ShutIsAnnotated(env: Env, s: State, flow: FlowId, at: nat)
    requires Annotated(s)
    ensures Annotated(Shut(env, s, flow, at))
  {
    hide StoreBatch, ClientEnd, ServerEnd;
    if flow in s.decoders {
      var d := s.decoders[flow];
      var removed := s.(decoders := s.decoders - {flow});
      BatchIsAnnotated(env, removed, flow, at, ClientEnd(env, d));
      BatchIsAnnotated(env, StoreBatch(env, removed, flow, at, ClientEnd(env, d)), flow, at, ServerEnd(env, d));
    }
  }

  lemma ApplyIsAnnotated(env: Env, maxFlows: nat, s: State, e: Event)
    requires Annotated(s)
    ensures Annotated(Apply(env, maxFlows, s, e))
  {
    hide ChangeFlow, StoreBatch, Shut, DecoderFor, Changed;
    match e.kind
    case Opened(_, _, _) =>
    case Identified(identity) => ChangeIsAnnotated(s, e.flow, Identify(identity));
    case ProtocolDetected(name) => ChangeIsAnnotated(s, e.flow, Relabel(name));
    case Transferred(direction, count) => ChangeIsAnnotated(s, e.flow, Count(direction, count));
    case Data(direction, bytes) =>
      if e.flow in s.decoders {
        var d := Given(s.decoders[e.flow], Push(direction, bytes));
        BatchIsAnnotated(env, s.(decoders := s.decoders[e.flow := d]), e.flow, e.at, env.decode(d));
      }
    case FlowClosed =>
      ShutIsAnnotated(env, s, e.flow, e.at);
      ChangeIsAnnotated(Shut(env, s, e.flow, e.at), e.flow, Close);
    case FlowFailed(reason) =>
      ShutIsAnnotated(env, s, e.flow, e.at);
      ChangeIsAnnotated(Shut(env, s, e.flow, e.at), e.flow, Fail(reason));
  }

  /** Whatever plugins report, no flow ever keeps more than 32 annotations. */
  lemma {:induction false} AnnotationsAreBounded(env: Env, maxFlows: nat, events: seq<Event>)
    ensures Annotated(Run(env, maxFlows, events))
    decreases |events|
  {
    hide Apply;
    if events != [] {
      AnnotationsAreBounded(env, maxFlows, events[..|events| - 1]);
      ApplyIsAnnotated(env, maxFlows, Run(env, maxFlows, events[..|events| - 1]), events[|events| - 1]);
    }
  }

  // ------------------------------------------------------------- masking or not

  /** The same settings with another redactor for what is stored, and another choice of whether to mask at all. */
  function Showing(env: Env, redact: DecodedMessage -> Redacted, unmasked: bool): Env {
    env.(redact := redact, unmasked := unmasked)
  }

  predicate AlikeRecord(a: MessageRecord, b: MessageRecord) {
    a.(message := b.message, sensitivity := b.sensitivity) == b
  }

  predicate AlikeFlow(f: StoredFlow, g: StoredFlow) {
    && f.(messages := g.messages) == g && |f.messages| == |g.messages|
    && forall i :: 0 <= i < |f.messages| ==> AlikeRecord(f.messages[i], g.messages[i])
  }

  predicate AlikeFlows(fs: seq<StoredFlow>, gs: seq<StoredFlow>) {
    |fs| == |gs| && forall i :: 0 <= i < |fs| ==> AlikeFlow(fs[i], gs[i])
  }

  /** Stores that differ only in the text and mark of their records. */
  predicate Alike(s: State, t: State) {
    s.(flows := t.flows) == t && AlikeFlows(s.flows, t.flows)
  }

  lemma {:induction false} SameIndex(fs: seq<StoredFlow>, gs: seq<StoredFlow>, id: FlowId)
    requires AlikeFlows(fs, gs)
    ensures IndexOf(fs, id) == IndexOf(gs, id)
    decreases |fs|
  {
    if fs != [] {
      assert AlikeFlow(fs[0], gs[0]);
      SameIndex(fs[1..], gs[1..], id);
    }
  }

  lemma ChangesAlike(f: StoredFlow, g: StoredFlow, c: Change)
    requires AlikeFlow(f, g) && !c.Append?
    ensures AlikeFlow(Changed(f, c), Changed(g, c))
  {
  }

  lemma AppendsAlike(f: StoredFlow, g: StoredFlow, a: MessageRecord, b: MessageRecord)
    requires AlikeFlow(f, g) && AlikeRecord(a, b)
    ensures AlikeFlow(Changed(f, Append(a)), Changed(g, Append(b)))
  {
  }

  lemma ChangeAlike(s: State, t: State, id: FlowId, c: Change)
    requires Alike(s, t) && !c.Append?
    ensures Alike(ChangeFlow(s, id, c), ChangeFlow(t, id, c))
  {
    hide AlikeFlow, Changed;
    SameIndex(s.flows, t.flows, id);
    if IndexOf(s.flows, id).Some? {
      var i := IndexOf(s.flows, id).value;
      ChangesAlike(s.flows[i], t.flows[i], c);
    }
  }

  lemma AppendAlike(s: State, t: State, id: FlowId, a: MessageRecord, b: MessageRecord)
    requires Alike(s, t) && AlikeRecord(a, b)
    ensures Alike(ChangeFlow(s, id, Append(a)), ChangeFlow(t, id, Append(b)))
  {
    hide AlikeFlow, Changed;
    SameIndex(s.flows, t.flows, id);
    if IndexOf(s.flows, id).Some? {
      var i := IndexOf(s.flows, id).value;
      AppendsAlike(s.flows[i], t.flows[i], a, b);
    }
  }

  lemma MessageAlike(env: Env, redact: DecodedMessage -> Redacted, unmasked: bool, s: State, t: State, flow: FlowId, at: nat, m: DecodedMessage)
    requires Alike(s, t)
    ensures Alike(StoreMessage(env, s, flow, at, m), StoreMessage(Showing(env, redact, unmasked), t, flow, at, m))
  {
    hide IsGrpc, PendingAfter, LatencyOf, ChangeFlow, AlikeFlows;
    var env' := Showing(env, redact, unmasked);
    var a, b := RecordOf(env, s, flow, at, m), RecordOf(env', t, flow, at, m);
    assert AlikeRecord(a, b) && Consult(env, s, flow, at, m) == Consult(env', t, flow, at, m);
    var s1 := s.(pending := PendingAfter(s.pending, flow, at, m), nextMessageId := a.id);
    var t1 := t.(pending := PendingAfter(t.pending, flow, at, m), nextMessageId := b.id);
    ChangeAlike(s1, t1, flow, Relabel(Ascii("grpc")));
    var s2 := if IsGrpc(m) then ChangeFlow(s1, flow, Relabel(Ascii("grpc"))) else s1;
    var t2 := if IsGrpc(m) then ChangeFlow(t1, flow, Relabel(Ascii("grpc"))) else t1;
    AppendAlike(s2, t2, flow, a, b);
    var report := Consult(env, s, flow, at, m);
    if report.Some? {
      ChangeAlike(ChangeFlow(s2, flow, Append(a)), ChangeFlow(t2, flow, Append(b)), flow, Annotate(report.value));
    }
  }

  lemma {:induction false} MessagesAlike(env: Env, redact: DecodedMessage -> Redacted, unmasked: bool, s: State, t: State, flow: FlowId, at: nat, ms: seq<DecodedMessage>)
    requires Alike(s, t)
    ensures Alike(StoreMessages(env, s, flow, at, ms), StoreMessages(Showing(env, redact, unmasked), t, flow, at, ms))
    decreases |ms|
  {
    hide StoreMessage, Alike, Showing;
    if ms != [] {
      MessageAlike(env, redact, unmasked, s, t, flow, at, ms[0]);
      MessagesAlike(env, redact, unmasked, StoreMessage(env, s, flow, at, ms[0]),
                    StoreMessage(Showing(env, redact, unmasked), t, flow, at, ms[0]), flow, at, ms[1..]);
    }
  }

  lemma BatchAlike(env: Env, redact: DecodedMessage -> Redacted, unmasked: bool, s: State, t: State, flow: FlowId, at: nat, report: Report)
    requires Alike(s, t)
    ensures Alike(StoreBatch(env, s, flow, at, report), StoreBatch(Showing(env, redact, unmasked), t, flow, at, report))
  {
    hide StoreMessages, Alike, ChangeFlow, Showing;
    if report.desynchronized.Some? {
      var c := Desynchronize(report.desynchronized.value);
      ChangeAlike(s, t, flow, c);
      MessagesAlike(env, redact, unmasked, ChangeFlow(s, flow, c), ChangeFlow(t, flow, c), flow, at, report.messages);
    } else {
      MessagesAlike(env, redact, unmasked, s, t, flow, at, report.messages);
    }
  }

  lemma ForgetAlike(s: State, t: State, flow: FlowId)
    requires Alike(s, t)
    ensures Alike(ForgetFlow(s, flow), ForgetFlow(t, flow))
    ensures Alike(s.(decoders := s.decoders - {flow}), t.(decoders := t.decoders - {flow}))
  {
    hide AlikeFlows;
  }

  lemma ShutAlike(env: Env, redact: DecodedMessage -> Redacted, unmasked: bool, s: State, t: State, flow: FlowId, at: nat)
    requires Alike(s, t)
    ensures Alike(Shut(env, s, flow, at), Shut(Showing(env, redact, unmasked), t, flow, at))
  {
    hide StoreBatch, AlikeFlows, ForgetFlow;
    var env' := Showing(env, redact, unmasked);
    ForgetAlike(s, t, flow);
    if flow in s.decoders {
      var d := s.decoders[flow];
      var s1, t1 := s.(decoders := s.decoders - {flow}), t.(decoders := t.decoders - {flow});
      BatchAlike(env, redact, unmasked, s1, t1, flow, at, ClientEnd(env, d));
      var s2, t2 := StoreBatch(env, s1, flow, at, ClientEnd(env, d)), StoreBatch(env', t1, flow, at, ClientEnd(env, d));
      BatchAlike(env, redact, unmasked, s2, t2, flow, at, ServerEnd(env, d));
      ForgetAlike(StoreBatch(env, s2, flow, at, ServerEnd(env, d)), StoreBatch(env', t2, flow, at, ServerEnd(env, d)), flow);
    }
  }

  lemma OpenAlike(maxFlows: nat, s: State, t: State, e: Event)
    requires Alike(s, t) && e.kind.Opened?
    ensures Alike(OpenFlow(Evict(maxFlows, s), e), OpenFlow(Evict(maxFlows, t), e))
  {
    hide DecoderFor, ForgetFlow;
    if s.flows != [] {
      assert AlikeFlow(s.flows[0], t.flows[0]);
      ForgetAlike(s, t, s.flows[0].id);
    }
  }

  lemma ApplyAlike(env: Env, redact: DecodedMessage -> Redacted, unmasked: bool, maxFlows: nat, s: State, t: State, e: Event)
    requires Alike(s, t)
    ensures Alike(Apply(env, maxFlows, s, e), Apply(Showing(env, redact, unmasked), maxFlows, t, e))
  {
    hide ChangeFlow, StoreBatch, Shut, DecoderFor, AlikeFlows, OpenFlow, Evict;
    match e.kind
    case Opened(_, _, _) => OpenAlike(maxFlows, s, t, e);
    case Identified(identity) => ChangeAlike(s, t, e.flow, Identify(identity));
    case ProtocolDetected(name) => ChangeAlike(s, t, e.flow, Relabel(name));
    case Transferred(direction, count) => ChangeAlike(s, t, e.flow, Count(direction, count));
    case Data(direction, bytes) =>
      if e.flow in s.decoders {
        var d := Given(s.decoders[e.flow], Push(direction, bytes));
        BatchAlike(env, redact, unmasked, s.(decoders := s.decoders[e.flow := d]), t.(decoders := t.decoders[e.flow := d]), e.flow, e.at, env.decode(d));
      }
    case FlowClosed =>
      ShutAlike(env, redact, unmasked, s, t, e.flow, e.at);
      ChangeAlike(Shut(env, s, e.flow, e.at), Shut(Showing(env, redact, unmasked), t, e.flow, e.at), e.flow, Close);
    case FlowFailed(reason) =>
      ShutAlike(env, redact, unmasked, s, t, e.flow, e.at);
      ChangeAlike(Shut(env, s, e.flow, e.at), Shut(Showing(env, redact, unmasked), t, e.flow, e.at), e.flow, Fail(reason));
  }

  /** Revealing, or storing under another redactor, changes only the text and mark of stored records: what
      plugins are shown, and so what they report, is the same over every run. */
  lemma {:induction false} RevealChangesOnlyRecords(env: Env, redact: DecodedMessage -> Redacted, unmasked: bool, maxFlows: nat, events: seq<Event>)
    ensures Alike(Run(env, maxFlows, events), Run(Showing(env, redact, unmasked), maxFlows, events))
    decreases |events|
  {
    hide Apply, Showing;
    if events != [] {
      var before := events[..|events| - 1];
      RevealChangesOnlyRecords(env, redact, unmasked, maxFlows, before);
      ApplyAlike(env, redact, unmasked, maxFlows, Run(env, maxFlows, before), Run(Showing(env, redact, unmasked), maxFlows, before), events[|events| - 1]);
    }
  }
}
