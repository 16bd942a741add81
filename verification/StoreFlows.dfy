/** What a stored flow says: each of its fields, from what happened to it since it was opened. */
module StoreFlows {
  import opened ByteStrings
  import opened Streaming
  import opened Text
  import opened Store
  import opened StoreRetention
  import opened StoreConservation
  import opened Sequences

  /** One thing that happens to a flow. */
  datatype Note =
    | Began(flow: FlowId, client: Bytes, upstream: Bytes, protocol: Option<Bytes>)
    | Named(flow: FlowId, identity: Bytes)
    | Labelled(flow: FlowId, name: Bytes)
    | Moved(flow: FlowId, direction: Direction, count: nat)
    | Lost(flow: FlowId, reason: Bytes)
    | Heard(flow: FlowId, at: nat, message: DecodedMessage, id: nat, latency: Option<nat>)
    | Ended(flow: FlowId)
    | Broke(flow: FlowId, reason: Bytes)

  // --------------------------------------------------------------- what a run amounts to

  function MessageNotes(env: Env, s: State, flow: FlowId, at: nat, ms: seq<DecodedMessage>): seq<Note>
    decreases |ms|
  {
    if ms == [] then []
    else [Heard(flow, at, ms[0], SaturatingAdd(s.nextMessageId, 1), LatencyOf(s.pending, flow, at, ms[0]))]
         + MessageNotes(env, StoreMessage(env, s, flow, at, ms[0]), flow, at, ms[1..])
  }

  function LossNotes(flow: FlowId, report: Report): seq<Note> {
    if report.desynchronized.Some? then [Lost(flow, report.desynchronized.value)] else []
  }

  function BatchNotes(env: Env, s: State, flow: FlowId, at: nat, report: Report): seq<Note> {
    LossNotes(flow, report) + MessageNotes(env, s, flow, at, report.messages)
  }

  function ShutNotes(env: Env, s: State, flow: FlowId, at: nat): seq<Note> {
    if flow !in s.decoders then []
    else
      var d := s.decoders[flow];
      var client := env.decode(Decoder(d.protocol, d.inputs + [Finish(ClientToServer)]));
      var server := env.decode(Decoder(d.protocol, d.inputs + [Finish(ClientToServer)] + [Finish(ServerToClient)]));
      BatchNotes(env, s, flow, at, client)
      + BatchNotes(env, StoreBatch(env, s, flow, at, client), flow, at, server)
  }

  function EventNotes(env: Env, s: State, e: Event): seq<Note> {
    match e.kind
    case Opened(client, upstream, protocol) => [Began(e.flow, client, upstream, protocol)]
    case Identified(identity) => [Named(e.flow, identity)]
    case ProtocolDetected(name) => [Labelled(e.flow, name)]
    case Transferred(direction, count) => [Moved(e.flow, direction, count)]
    case Data(direction, bytes) =>
      if e.flow !in s.decoders then []
      else
        var d := s.decoders[e.flow];
        BatchNotes(env, s, e.flow, e.at, env.decode(Decoder(d.protocol, d.inputs + [Push(direction, bytes)])))
    case FlowClosed => ShutNotes(env, s, e.flow, e.at) + [Ended(e.flow)]
    case FlowFailed(reason) => ShutNotes(env, s, e.flow, e.at) + [Broke(e.flow, reason)]
  }

  function Notes(env: Env, maxFlows: nat, events: seq<Event>): seq<Note> {
    if events == [] then []
    else
      var before := events[..|events| - 1];
      Notes(env, maxFlows, before) + EventNotes(env, Run(env, maxFlows, before), events[|events| - 1])
  }

  /** The notes about one flow since it was last opened. */
  function About(ns: seq<Note>, id: FlowId): seq<Note> {
    if ns == [] then []
    else
      var before, n := About(ns[..|ns| - 1], id), ns[|ns| - 1];
      if n.flow != id then before
      else if n.Began? then [n]
      else if before == [] then []
      else before + [n]
  }

  // ------------------------------------------------------------------- reading the notes

  function LastIdentity(ns: seq<Note>): Option<Bytes> {
    if ns == [] then None
    else if ns[|ns| - 1].Named? then Some(ns[|ns| - 1].identity)
    else LastIdentity(ns[..|ns| - 1])
  }

  function LastLoss(ns: seq<Note>): Option<Bytes> {
    if ns == [] then None
    else if ns[|ns| - 1].Lost? then Some(ns[|ns| - 1].reason)
    else LastLoss(ns[..|ns| - 1])
  }

  function LastFailure(ns: seq<Note>): Option<Bytes> {
    if ns == [] then None
    else if ns[|ns| - 1].Broke? then Some(ns[|ns| - 1].reason)
    else LastFailure(ns[..|ns| - 1])
  }

  function LastState(ns: seq<Note>): FlowState {
    if ns == [] then Open
    else if ns[|ns| - 1].Ended? then Closed
    else if ns[|ns| - 1].Broke? then Failed
    else LastState(ns[..|ns| - 1])
  }

  predicate SaysGrpc(m: DecodedMessage) {
    HeaderValue(m.headers, Ascii("lens-protocol")) == Some(Ascii("grpc"))
  }

  /** The protocol last given, detected, or told by a gRPC message. */
  function LastProtocol(ns: seq<Note>): Option<Bytes> {
    if ns == [] then None
    else
      var n := ns[|ns| - 1];
      if n.Began? then n.protocol
      else if n.Labelled? then Some(n.name)
      else if n.Heard? && SaysGrpc(n.message) then Some(Ascii("grpc"))
      else LastProtocol(ns[..|ns| - 1])
  }

  function Total(ns: seq<Note>, d: Direction): nat {
    if ns == [] then 0
    else Total(ns[..|ns| - 1], d) + if ns[|ns| - 1].Moved? && ns[|ns| - 1].direction == d then ns[|ns| - 1].count else 0
  }

  /** What is stored of a message: its redacted form, marked secret when masking is off, hidden when redaction changed it. */
  function Stored(env: Env, n: Note): MessageRecord
    requires n.Heard?
  {
    MessageRecord(n.id, env.redact(n.message).message, n.message.truncated, n.at, n.latency,
                  if env.unmasked then Secret else if env.redact(n.message).changed then Hidden else Public)
  }

  /** What plugins are shown of it: the form their own redactor gives, never the stored one. */
  function Shown(env: Env, n: Note): MessageRecord
    requires n.Heard?
  {
    MessageRecord(n.id, env.redactForPlugins(n.message).message, n.message.truncated, n.at, n.latency,
                  if env.redactForPlugins(n.message).changed then Hidden else Public)
  }

  function Records(env: Env, ns: seq<Note>): seq<MessageRecord> {
    if ns == [] then []
    else Records(env, ns[..|ns| - 1]) + if ns[|ns| - 1].Heard? then [Stored(env, ns[|ns| - 1])] else []
  }

  function Remarks(env: Env, n: Note): PluginReport {
    if n.Heard? && env.plugins.Some? then env.plugins.value(n.flow, Shown(env, n)) else PluginReport([], 0)
  }

  function Annotations(env: Env, ns: seq<Note>): seq<Bytes> {
    if ns == [] then [] else Annotations(env, ns[..|ns| - 1]) + Remarks(env, ns[|ns| - 1]).annotations
  }

  function Failures(env: Env, ns: seq<Note>): nat {
    if ns == [] then 0 else Failures(env, ns[..|ns| - 1]) + Remarks(env, ns[|ns| - 1]).failures
  }

  /** A flow tells exactly what the notes about it say. */
  predicate Tells(env: Env, f: StoredFlow, ns: seq<Note>) {
    && ns != [] && ns[0].Began? && f.id == ns[0].flow && f.client == ns[0].client && f.upstream == ns[0].upstream
    && TellsState(f, ns) && TellsTraffic(f, ns) && TellsMessages(env, f, ns)
  }

  predicate TellsState(f: StoredFlow, ns: seq<Note>) {
    && f.protocol == LastProtocol(ns)
    && f.identity == LastIdentity(ns)
    && f.state == LastState(ns)
    && f.failure == LastFailure(ns)
    && f.decoderError == LastLoss(ns)
  }

  predicate TellsTraffic(f: StoredFlow, ns: seq<Note>) {
    && f.clientBytes == Min(Total(ns, ClientToServer), U64_MAX)
    && f.upstreamBytes == Min(Total(ns, ServerToClient), U64_MAX)
  }

  predicate TellsMessages(env: Env, f: StoredFlow, ns: seq<Note>) {
    && f.messages == Records(env, ns)
    && f.messageIds == IdsOf(Records(env, ns))
    && f.annotations == Annotations(env, ns)[..Min(|Annotations(env, ns)|, MAX_ANNOTATIONS)]
    && f.pluginFailures == Min(Failures(env, ns), U64_MAX)
  }

  // -------------------------------------------------------------------- one note at a time

  /** What a note does to its flow. */
  function Noted(env: Env, f: StoredFlow, n: Note): StoredFlow
    requires !n.Began?
  {
    match n
    case Named(_, identity) => Changed(f, Identify(identity))
    case Labelled(_, name) => Changed(f, Relabel(name))
    case Moved(_, direction, count) => Changed(f, Count(direction, count))
    case Lost(_, reason) => Changed(f, Desynchronize(reason))
    case Ended(_) => Changed(f, Close)
    case Broke(_, reason) => Changed(f, Fail(reason))
    case Heard(_, _, _, _, _) =>
      var labelled := if SaysGrpc(n.message) then Changed(f, Relabel(Ascii("grpc"))) else f;
      var appended := Changed(labelled, Append(Stored(env, n)));
      if env.plugins.Some? then Changed(appended, Annotate(env.plugins.value(n.flow, Shown(env, n)))) else appended
  }

  lemma {:induction false} NotedState(env: Env, f: StoredFlow, ns: seq<Note>, n: Note)
    requires TellsState(f, ns) && !n.Began?
    ensures TellsState(Noted(env, f, n), ns + [n])
  {
    hide SaysGrpc, Ascii, Stored, Shown, SaturatingAdd;
    assert (ns + [n])[..|ns|] == ns;
  }

  lemma {:induction false} NotedTraffic(env: Env, f: StoredFlow, ns: seq<Note>, n: Note)
    requires TellsTraffic(f, ns) && !n.Began?
    ensures TellsTraffic(Noted(env, f, n), ns + [n])
  {
    hide SaysGrpc, Ascii, Stored, Shown;
    assert (ns + [n])[..|ns|] == ns;
  }

  lemma CappedGrows(a: seq<Bytes>, b: seq<Bytes>)
    ensures var kept := a[..Min(|a|, MAX_ANNOTATIONS)];
            (a + b)[..Min(|a + b|, MAX_ANNOTATIONS)] == kept + b[..Min(Monus(MAX_ANNOTATIONS, |kept|), |b|)]
  {
  }

  lemma RecordIdsGrow(records: seq<MessageRecord>, record: MessageRecord)
    ensures IdsOf(records + [record]) == IdsOf(records) + [record.id]
  {
  }

  lemma {:induction false} NotedMessages(env: Env, f: StoredFlow, ns: seq<Note>, n: Note)
    requires TellsMessages(env, f, ns) && !n.Began?
    ensures TellsMessages(env, Noted(env, f, n), ns + [n])
  {
    hide SaysGrpc, Ascii, Stored, Shown, IdsOf;
    assert (ns + [n])[..|ns|] == ns;
    var a, b := Annotations(env, ns), Remarks(env, n).annotations;
    CappedGrows(a, b);
    if n.Heard? {
      RecordIdsGrow(Records(env, ns), Stored(env, n));
    } else {
      assert Records(env, ns) + [] == Records(env, ns) && a + [] == a;
    }
    if n.Heard? && env.plugins.None? { assert a + [] == a; }
  }

  lemma NotedTells(env: Env, f: StoredFlow, ns: seq<Note>, n: Note)
    requires Tells(env, f, ns) && !n.Began?
    ensures Tells(env, Noted(env, f, n), ns + [n])
  {
    hide TellsState, TellsTraffic, TellsMessages, SaysGrpc, Ascii, Stored, Shown;
    NotedState(env, f, ns, n);
    NotedTraffic(env, f, ns, n);
    NotedMessages(env, f, ns, n);
  }

  // ------------------------------------------------------------------------- whole stores

  /** Every stored flow tells what the notes about it say, and no two have the same id. */
  predicate Told(env: Env, s: State, ns: seq<Note>) {
    && Distinct(Ids(s.flows))
    && forall i :: 0 <= i < |s.flows| ==> Tells(env, s.flows[i], About(ns, s.flows[i].id))
  }

  lemma AboutGrows(ns: seq<Note>, n: Note, id: FlowId)
    requires !n.Began?
    ensures About(ns + [n], id) == if n.flow != id || About(ns, id) == [] then About(ns, id) else About(ns, id) + [n]
  {
    assert (ns + [n])[..|ns|] == ns;
  }

  /** The store after one note: the flow it is about, if any, has changed. */
  function StateNoted(env: Env, s: State, n: Note): State
    requires !n.Began?
  {
    match IndexOf(s.flows, n.flow)
    case None => s
    case Some(i) => s.(flows := s.flows[i := Noted(env, s.flows[i], n)])
  }

  lemma NotedKeepsId(env: Env, f: StoredFlow, n: Note)
    requires !n.Began?
    ensures Noted(env, f, n).id == f.id
  {
    hide SaysGrpc, Ascii, Stored, Shown;
  }

  lemma StateIsTold(env: Env, s: State, ns: seq<Note>, n: Note)
    requires Told(env, s, ns) && !n.Began?
    ensures Told(env, StateNoted(env, s, n), ns + [n])
  {
    hide Tells, Noted, Distinct, About;
    var t := StateNoted(env, s, n);
    forall i | 0 <= i < |s.flows| ensures t.flows[i].id == s.flows[i].id { NotedKeepsId(env, s.flows[i], n); }
    assert Ids(t.flows) == Ids(s.flows);
    forall i | 0 <= i < |t.flows| ensures Tells(env, t.flows[i], About(ns + [n], t.flows[i].id)) {
      var f := s.flows[i];
      AboutGrows(ns, n, f.id);
      TellsSomething(env, f, About(ns, f.id));
      if f.id == n.flow {
        OnlyOne(s.flows, i);
        NotedTells(env, f, About(ns, f.id), n);
      }
    }
  }

  lemma TellsSomething(env: Env, f: StoredFlow, ns: seq<Note>)
    ensures Tells(env, f, ns) ==> ns != []
  {
  }

  lemma OnlyOne(flows: seq<StoredFlow>, i: nat)
    requires Distinct(Ids(flows)) && i < |flows|
    ensures IndexOf(flows, flows[i].id) == Some(i)
  {
    hide IndexOf, Distinct;
    var r := IndexOf(flows, flows[i].id);
    DistinctAt(Ids(flows), i, r.value);
  }

  // ------------------------------------------------------------------ messages and batches

  lemma ChangeIsNoted(env: Env, s: State, n: Note, c: Change)
    requires !n.Began? && !n.Heard? && forall f: StoredFlow :: Noted(env, f, n) == Changed(f, c)
    ensures ChangeFlow(s, n.flow, c) == StateNoted(env, s, n)
  {
    hide Noted, Changed;
  }

  lemma MessageIsNoted(env: Env, s: State, flow: FlowId, at: nat, m: DecodedMessage)
    ensures var n := Heard(flow, at, m, SaturatingAdd(s.nextMessageId, 1), LatencyOf(s.pending, flow, at, m));
            StoreMessage(env, s, flow, at, m).flows == StateNoted(env, s, n).flows
  {
    hide LatencyOf, PendingAfter, Ascii, IndexOf, HeaderValue;
    var n := Heard(flow, at, m, SaturatingAdd(s.nextMessageId, 1), LatencyOf(s.pending, flow, at, m));
    assert RecordOf(env, s, flow, at, m) == Stored(env, n);
    assert env.plugins.Some? ==> PluginView(env, s, flow, at, m) == Shown(env, n);
    var s1 := s.(pending := PendingAfter(s.pending, flow, at, m), nextMessageId := Stored(env, n).id);
    var s2 := if IsGrpc(m) then ChangeFlow(s1, flow, Relabel(Ascii("grpc"))) else s1;
    SameIndexAfter(s1, flow, Relabel(Ascii("grpc")));
    SameIndexAfter(s2, flow, Append(Stored(env, n)));
  }

  lemma SameIndexAfter(s: State, id: FlowId, c: Change)
    ensures IndexOf(ChangeFlow(s, id, c).flows, id) == IndexOf(s.flows, id)
  {
    if IndexOf(s.flows, id).Some? { ChangeAt(s, id, c); }
  }

  /** The notes a batch leaves depend on the ids given so far and the requests that wait. */
  predicate SameCounters(s: State, t: State) {
    s.nextMessageId == t.nextMessageId && s.pending == t.pending
  }

  lemma CountersAfter(env: Env, s: State, t: State, flow: FlowId, at: nat, m: DecodedMessage)
    requires SameCounters(s, t)
    ensures SameCounters(StoreMessage(env, s, flow, at, m), StoreMessage(env, t, flow, at, m))
  {
    hide PendingAfter, LatencyOf, ChangeFlow, IsGrpc, Ascii;
    CountersOf(env, s, flow, at, m);
    CountersOf(env, t, flow, at, m);
  }

  lemma ChangeKeepsCounters(s: State, id: FlowId, c: Change)
    ensures SameCounters(ChangeFlow(s, id, c), s)
  {
    hide IndexOf, Changed;
  }

  lemma CountersOf(env: Env, s: State, flow: FlowId, at: nat, m: DecodedMessage)
    ensures var r := StoreMessage(env, s, flow, at, m);
            r.nextMessageId == SaturatingAdd(s.nextMessageId, 1) && r.pending == PendingAfter(s.pending, flow, at, m)
  {
    hide PendingAfter, LatencyOf, ChangeFlow, IsGrpc, Ascii;
    var record, report := RecordOf(env, s, flow, at, m), Consult(env, s, flow, at, m);
    var s1 := s.(pending := PendingAfter(s.pending, flow, at, m), nextMessageId := record.id);
    var grpc := Relabel(Ascii("grpc"));
    var s2 := if IsGrpc(m) then ChangeFlow(s1, flow, grpc) else s1;
    ChangeKeepsCounters(s1, flow, grpc);
    ChangeKeepsCounters(s2, flow, Append(record));
    if report.Some? { ChangeKeepsCounters(ChangeFlow(s2, flow, Append(record)), flow, Annotate(report.value)); }
  }

  lemma {:induction false} MessagesAreTold(env: Env, s: State, t: State, flow: FlowId, at: nat, ms: seq<DecodedMessage>, ns: seq<Note>)
    requires Told(env, s, ns) && SameCounters(s, t)
    ensures Told(env, StoreMessages(env, s, flow, at, ms), ns + MessageNotes(env, t, flow, at, ms))
    ensures SameCounters(StoreMessages(env, s, flow, at, ms), StoreMessages(env, t, flow, at, ms))
    decreases |ms|
  {
    hide Told, StoreMessage, LatencyOf, StateNoted;
    if ms == [] {
      assert ns + [] == ns;
    } else {
      var n := Heard(flow, at, ms[0], SaturatingAdd(s.nextMessageId, 1), LatencyOf(s.pending, flow, at, ms[0]));
      var s', t' := StoreMessage(env, s, flow, at, ms[0]), StoreMessage(env, t, flow, at, ms[0]);
      MessageIsNoted(env, s, flow, at, ms[0]);
      StateIsTold(env, s, ns, n);
      ToldByFlows(env, StateNoted(env, s, n), s', ns + [n]);
      CountersAfter(env, s, t, flow, at, ms[0]);
      MessagesAreTold(env, s', t', flow, at, ms[1..], ns + [n]);
      assert ns + ([n] + MessageNotes(env, t', flow, at, ms[1..])) == ns + [n] + MessageNotes(env, t', flow, at, ms[1..]);
    }
  }

  lemma ToldByFlows(env: Env, s: State, t: State, ns: seq<Note>)
    requires Told(env, s, ns) && s.flows == t.flows
    ensures Told(env, t, ns)
  {
    hide Tells, Distinct, About;
  }

  lemma ChangeIsTold(env: Env, s: State, ns: seq<Note>, n: Note, c: Change)
    requires Told(env, s, ns) && !n.Began? && !n.Heard? && forall f: StoredFlow :: Noted(env, f, n) == Changed(f, c)
    ensures Told(env, ChangeFlow(s, n.flow, c), ns + [n]) && SameCounters(ChangeFlow(s, n.flow, c), s)
  {
    hide Told, Noted, Changed, IndexOf;
    ChangeIsNoted(env, s, n, c);
    StateIsTold(env, s, ns, n);
  }

  lemma BatchIsTold(env: Env, s: State, t: State, flow: FlowId, at: nat, report: Report, ns: seq<Note>)
    requires Told(env, s, ns) && SameCounters(s, t)
    ensures Told(env, StoreBatch(env, s, flow, at, report), ns + BatchNotes(env, t, flow, at, report))
    ensures SameCounters(StoreBatch(env, s, flow, at, report), StoreBatch(env, t, flow, at, report))
  {
    hide Told, StoreMessages, MessageNotes, ChangeFlow, Changed, Noted;
    if report.desynchronized.None? {
      assert [] + MessageNotes(env, t, flow, at, report.messages) == MessageNotes(env, t, flow, at, report.messages);
      MessagesAreTold(env, s, t, flow, at, report.messages, ns);
    } else {
      var n, c := Lost(flow, report.desynchronized.value), Desynchronize(report.desynchronized.value);
      LostIsDesynchronized(env, n, c);
      ChangeIsTold(env, s, ns, n, c);
      MessagesAreTold(env, ChangeFlow(s, flow, c), t, flow, at, report.messages, ns + [n]);
      ChangeKeepsCounters(t, flow, c);
      CountersAfterAll(env, ChangeFlow(s, flow, c), ChangeFlow(t, flow, c), flow, at, report.messages);
      assert ns + ([n] + MessageNotes(env, t, flow, at, report.messages)) == ns + [n] + MessageNotes(env, t, flow, at, report.messages);
    }
  }

  lemma LostIsDesynchronized(env: Env, n: Note, c: Change)
    requires n.Lost? && c == Desynchronize(n.reason)
    ensures forall f: StoredFlow :: Noted(env, f, n) == Changed(f, c)
  {
  }

  lemma {:induction false} CountersAfterAll(env: Env, s: State, t: State, flow: FlowId, at: nat, ms: seq<DecodedMessage>)
    requires SameCounters(s, t)
    ensures SameCounters(StoreMessages(env, s, flow, at, ms), StoreMessages(env, t, flow, at, ms))
    decreases |ms|
  {
    hide StoreMessage;
    if ms != [] {
      CountersAfter(env, s, t, flow, at, ms[0]);
      CountersAfterAll(env, StoreMessage(env, s, flow, at, ms[0]), StoreMessage(env, t, flow, at, ms[0]), flow, at, ms[1..]);
    }
  }

  lemma ShutIsTold(env: Env, s: State, flow: FlowId, at: nat, ns: seq<Note>)
    requires Told(env, s, ns)
    ensures Told(env, Shut(env, s, flow, at), ns + ShutNotes(env, s, flow, at))
  {
    hide Told, StoreBatch, BatchNotes;
    if flow !in s.decoders {
      assert ns + [] == ns;
      ToldByFlows(env, s, Shut(env, s, flow, at), ns);
    } else {
      var d := s.decoders[flow];
      var removed := s.(decoders := s.decoders - {flow});
      var a, b := ClientEnd(env, d), ServerEnd(env, d);
      ToldByFlows(env, s, removed, ns);
      BatchIsTold(env, removed, s, flow, at, a, ns);
      var s1, t1 := StoreBatch(env, removed, flow, at, a), StoreBatch(env, s, flow, at, a);
      BatchIsTold(env, s1, t1, flow, at, b, ns + BatchNotes(env, s, flow, at, a));
      ToldByFlows(env, StoreBatch(env, s1, flow, at, b), Shut(env, s, flow, at), ns + BatchNotes(env, s, flow, at, a) + BatchNotes(env, t1, flow, at, b));
      assert ns + (BatchNotes(env, s, flow, at, a) + BatchNotes(env, t1, flow, at, b))
             == ns + BatchNotes(env, s, flow, at, a) + BatchNotes(env, t1, flow, at, b);
    }
  }

  // ------------------------------------------------------------------------- whole runs

  lemma OpeningIsTold(env: Env, maxFlows: nat, s: State, e: Event, ns: seq<Note>)
    requires Told(env, s, ns) && e.kind.Opened? && e.flow !in Ids(s.flows)
    ensures Told(env, OpenFlow(Evict(maxFlows, s), e), ns + EventNotes(env, s, e))
  {
    hide DecoderFor, Tells, Distinct, About;
    var n := Began(e.flow, e.kind.client, e.kind.upstream, e.kind.protocol);
    var kept := Evict(maxFlows, s);
    var r := OpenFlow(kept, e);
    assert r.flows == kept.flows + [r.flows[|kept.flows|]];
    OpeningShiftsIds(s, maxFlows, e);
    StaysDistinct(Ids(s.flows), e.flow);
    BeginningTells(env, r.flows[|kept.flows|], ns, n);
    forall i | 0 <= i < |kept.flows| ensures Tells(env, r.flows[i], About(ns + [n], r.flows[i].id)) {
      var j := i + |s.flows| - |kept.flows|;
      assert r.flows[i] == s.flows[j] && Ids(s.flows)[j] == s.flows[j].id;
      AboutOthers(ns, n, r.flows[i].id);
    }
  }

  lemma StaysDistinct(ids: seq<FlowId>, id: FlowId)
    requires Distinct(ids) && id !in ids
    ensures Distinct(ids + [id]) && (ids != [] ==> Distinct(ids[1..] + [id]))
  {
    DistinctAppend(ids, [id]);
    if ids != [] { DistinctAppend(ids[1..], [id]); }
  }

  lemma AboutOthers(ns: seq<Note>, n: Note, id: FlowId)
    requires n.flow != id
    ensures About(ns + [n], id) == About(ns, id)
  {
    assert (ns + [n])[..|ns|] == ns;
  }

  lemma BeginningTells(env: Env, f: StoredFlow, ns: seq<Note>, n: Note)
    requires n.Began? && f == StoredFlow(n.flow, n.client, n.upstream, n.protocol, None, Open, None, None, 0, 0, [], [], [], 0)
    ensures Tells(env, f, About(ns + [n], n.flow))
  {
    assert About(ns + [n], n.flow) == [n];
    assert [n][..0] == [];
  }

  lemma EventIsTold(env: Env, maxFlows: nat, s: State, e: Event, ns: seq<Note>)
    requires Told(env, s, ns) && (e.kind.Opened? ==> e.flow !in Ids(s.flows))
    ensures Told(env, Apply(env, maxFlows, s, e), ns + EventNotes(env, s, e))
  {
    hide Told, ChangeFlow, StoreBatch, Shut, DecoderFor, OpenFlow, Evict, Ids, ShutNotes, BatchNotes;
    match e.kind
    case Opened(_, _, _) => OpeningIsTold(env, maxFlows, s, e, ns);
    case Identified(identity) => ChangeIsTold(env, s, ns, Named(e.flow, identity), Identify(identity));
    case ProtocolDetected(name) =>
      ChangeIsTold(env, s, ns, Labelled(e.flow, name), Relabel(name));
      ToldByFlows(env, ChangeFlow(s, e.flow, Relabel(name)), Detect(s, e.flow, name), ns + [Labelled(e.flow, name)]);
    case Transferred(direction, count) => ChangeIsTold(env, s, ns, Moved(e.flow, direction, count), Count(direction, count));
    case Data(direction, bytes) =>
      if e.flow in s.decoders {
        var d := Given(s.decoders[e.flow], Push(direction, bytes));
        var t := s.(decoders := s.decoders[e.flow := d]);
        ToldByFlows(env, s, t, ns);
        BatchIsTold(env, t, s, e.flow, e.at, env.decode(d), ns);
      } else {
        assert ns + [] == ns;
      }
    case FlowClosed => EndIsTold(env, s, e, ns, Ended(e.flow), Close);
    case FlowFailed(reason) => EndIsTold(env, s, e, ns, Broke(e.flow, reason), Fail(reason));
  }

  lemma EndIsTold(env: Env, s: State, e: Event, ns: seq<Note>, n: Note, c: Change)
    requires Told(env, s, ns) && n.flow == e.flow && !n.Began? && !n.Heard? && forall f: StoredFlow :: Noted(env, f, n) == Changed(f, c)
    ensures Told(env, ChangeFlow(Shut(env, s, e.flow, e.at), e.flow, c), ns + (ShutNotes(env, s, e.flow, e.at) + [n]))
  {
    hide Told, ChangeFlow, Shut, ShutNotes, Noted, Changed;
    ShutIsTold(env, s, e.flow, e.at, ns);
    ChangeIsTold(env, Shut(env, s, e.flow, e.at), ns + ShutNotes(env, s, e.flow, e.at), n, c);
    assert ns + (ShutNotes(env, s, e.flow, e.at) + [n]) == ns + ShutNotes(env, s, e.flow, e.at) + [n];
  }

  /** After any run in which no flow id is opened twice, every stored flow tells exactly what happened to it. */
  lemma {:induction false} FlowsTellTheRun(env: Env, maxFlows: nat, events: seq<Event>)
    requires maxFlows > 0 && Distinct(Opens(events))
    ensures Told(env, Run(env, maxFlows, events), Notes(env, maxFlows, events))
    decreases |events|
  {
    hide Apply, EventNotes, Told, Distinct;
    if events == [] {
      assert Told(env, EMPTY, []) by { EmptyIsTold(env); }
    } else {
      var before, e := events[..|events| - 1], events[|events| - 1];
      DistinctPrefix(events);
      FlowsTellTheRun(env, maxFlows, before);
      RetainsTheLastOpened(env, maxFlows, before);
      EventIsTold(env, maxFlows, Run(env, maxFlows, before), e, Notes(env, maxFlows, before));
    }
  }

  lemma EmptyIsTold(env: Env)
    ensures Told(env, EMPTY, [])
  {
  }

  // --------------------------------------------------------------------- what decoders see

  /** The decoder a flow should have: the last one its protocol called for, given all data since; none once it ended. */
  function Fed(events: seq<Event>, id: FlowId): Option<Decoder> {
    if events == [] then None
    else
      var before, e := Fed(events[..|events| - 1], id), events[|events| - 1];
      if e.flow != id then before
      else match e.kind
        case Opened(_, _, Some(name)) => if DecoderFor(name).Some? then DecoderFor(name) else before
        case ProtocolDetected(name) => DecoderFor(name)
        case Data(direction, bytes) =>
          if before.Some? then Some(Decoder(before.value.protocol, before.value.inputs + [Push(direction, bytes)])) else None
        case FlowClosed => None
        case FlowFailed(_) => None
        case _ => before
  }

  /** The names each protocol goes by. */
  function NamesOf(p: Protocol): set<Bytes> {
    match p
    case Http1 => {Ascii("http1")}
    case Http2 => {Ascii("http2"), Ascii("grpc")}
    case Postgres => {Ascii("postgres")}
    case Redis => {Ascii("redis")}
  }

  /** A name calls for a new decoder of its protocol, and for none when no protocol goes by it. */
  lemma NameCallsForDecoder(name: Bytes, p: Protocol)
    ensures DecoderFor(name) == Some(Decoder(p, [])) <==> name in NamesOf(p)
    ensures DecoderFor(name).Some? ==> DecoderFor(name).value.inputs == []
  {
    assert Ascii("http1")[4] != Ascii("http2")[4] && |Ascii("grpc")| == 4 && |Ascii("redis")| == 5 && |Ascii("postgres")| == 8;
    assert Ascii("redis")[0] != Ascii("http1")[0];
  }

  function DecoderOf(s: State, id: FlowId): Option<Decoder> {
    if id in s.decoders then Some(s.decoders[id]) else None
  }

  lemma DecoderAfter(env: Env, maxFlows: nat, s: State, events: seq<Event>, e: Event, id: FlowId)
    requires DecoderOf(s, id) == Fed(events, id)
    requires e.kind.Opened? ==> DecoderOf(Evict(maxFlows, s), id) == DecoderOf(s, id)
    ensures DecoderOf(Apply(env, maxFlows, s, e), id) == Fed(events + [e], id)
  {
    hide StoreBatch, ChangeFlow, Shut, DecoderFor, Evict, Ids;
    assert (events + [e])[..|events|] == events;
    match e.kind
    case Opened(_, _, _) =>
    case Identified(identity) => ChangeKeepsShape(s, e.flow, Identify(identity));
    case ProtocolDetected(name) => ChangeKeepsShape(s, e.flow, Relabel(name));
    case Transferred(direction, count) => ChangeKeepsShape(s, e.flow, Count(direction, count));
    case Data(direction, bytes) =>
      if e.flow in s.decoders {
        var d := Given(s.decoders[e.flow], Push(direction, bytes));
        BatchKeepsShape(env, s.(decoders := s.decoders[e.flow := d]), e.flow, e.at, env.decode(d));
      }
    case FlowClosed =>
      ShutKeepsShape(env, s, e.flow, e.at);
      ChangeKeepsShape(Shut(env, s, e.flow, e.at), e.flow, Close);
    case FlowFailed(reason) =>
      ShutKeepsShape(env, s, e.flow, e.at);
      ChangeKeepsShape(Shut(env, s, e.flow, e.at), e.flow, Fail(reason));
  }

  lemma EvictionLeaves(maxFlows: nat, s: State, id: FlowId)
    ensures (|s.flows| != maxFlows || s.flows == [] || s.flows[0].id != id) ==> DecoderOf(Evict(maxFlows, s), id) == DecoderOf(s, id)
  {
  }

  /** After any run in which no flow id is opened twice, the decoder of every flow that was not evicted is the
      one its protocol last called for, and has been given exactly the data observed since, in order. */
  lemma {:induction false} DecodersSeeTheData(env: Env, maxFlows: nat, events: seq<Event>, id: FlowId)
    requires maxFlows > 0 && Distinct(Opens(events))
    requires id in Ids(Run(env, maxFlows, events).flows) || id !in Opens(events)
    ensures DecoderOf(Run(env, maxFlows, events), id) == Fed(events, id)
    decreases |events|
  {
    hide Apply, Distinct, Evict, Fed;
    if events == [] {
      assert DecoderOf(EMPTY, id) == Fed(events, id) by { NothingFed(id); }
    } else {
      var before, e := events[..|events| - 1], events[|events| - 1];
      var s := Run(env, maxFlows, before);
      assert events == before + [e];
      DistinctPrefix(events);
      RetainsTheLastOpened(env, maxFlows, before);
      RetainsTheLastOpened(env, maxFlows, events);
      StillThere(env, maxFlows, before, e, id);
      DecodersSeeTheData(env, maxFlows, before, id);
      EvictionLeaves(maxFlows, s, id);
      DecoderAfter(env, maxFlows, s, before, e, id);
    }
  }

  lemma NothingFed(id: FlowId)
    ensures DecoderOf(EMPTY, id) == Fed([], id)
  {
  }

  lemma OldestLeaves(opens: seq<FlowId>, id: FlowId, n: nat)
    requires Distinct(opens + [id]) && 0 < n <= |opens|
    ensures LastOf(opens, n)[0] !in LastOf(opens + [id], n)
  {
    hide Distinct;
    var all := opens + [id];
    var first := |opens| - n;
    forall i | first < i < |all| ensures all[i] != all[first] {
      if all[i] == all[first] { DistinctAt(all, i, first); }
    }
  }

  /** A flow that is stored after an observation was stored or unopened before it, and was not the one evicted. */
  lemma StillThere(env: Env, maxFlows: nat, before: seq<Event>, e: Event, id: FlowId)
    requires maxFlows > 0 && Distinct(Opens(before + [e]))
    requires id in Ids(Run(env, maxFlows, before + [e]).flows) || id !in Opens(before + [e])
    ensures var s := Run(env, maxFlows, before);
            && (id in Ids(s.flows) || id !in Opens(before))
            && (e.kind.Opened? && s.flows != [] && s.flows[0].id == id ==> |s.flows| != maxFlows)
  {
    hide Apply, Distinct, Evict, OpenFlow, IndexOf;
    DistinctPrefix(before + [e]);
    var events := before + [e];
    assert events[..|before|] == before;
    var s := Run(env, maxFlows, before);
    RetainsTheLastOpened(env, maxFlows, before);
    RetainsTheLastOpened(env, maxFlows, events);
    var opens := Opens(before);
    if e.kind.Opened? {
      assert Opens(events) == opens + [e.flow];
      if id == e.flow {
        DistinctAppend(opens, [id]);
        assert id in Elements([id]) && id !in Elements(opens);
      }
      assert s.flows != [] ==> Ids(s.flows)[0] == s.flows[0].id && Ids(s.flows)[0] in opens;
      if |s.flows| == maxFlows { OldestLeaves(opens, e.flow, maxFlows); }
    }
  }
}
