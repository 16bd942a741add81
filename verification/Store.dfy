/** The single-writer flow store: what each observation does to flows, decoders and waiting requests. */
module Store {
  import opened ByteStrings
  import opened Streaming
  import opened Text

  const U64_MAX: nat := 0xFFFF_FFFF_FFFF_FFFF

  function SaturatingAdd(a: nat, b: nat): nat {
    Min(a + b, U64_MAX)
  }

  type FlowId = nat

  /** A flow and the stream inside it that a request and its response share. */
  type Key = (FlowId, Bytes)

  datatype Protocol = Http1 | Http2 | Postgres | Redis

  datatype Input = Push(direction: Direction, bytes: Bytes) | Finish(direction: Direction)

  /** A decoder is what it was created for and everything it has been given. */
  datatype Decoder = Decoder(protocol: Protocol, inputs: seq<Input>)

  type Report = Batch<DecodedMessage, Bytes>

  datatype Redacted = Redacted(message: DecodedMessage, changed: bool)

  datatype Sensitivity = Public | Hidden | Secret

  datatype PluginReport = PluginReport(annotations: seq<Bytes>, failures: nat)

  /** What the store relies on: what a decoder reports for its latest input, the redactor for what is stored,
      the redactor for what plugins see, whether to mask at all, and the plugins, when there are any. */
  datatype Env = Env(
    decode: Decoder -> Report,
    redact: DecodedMessage -> Redacted,
    redactForPlugins: DecodedMessage -> Redacted,
    unmasked: bool,
    plugins: Option<(FlowId, MessageRecord) -> PluginReport>)

  function Given(d: Decoder, i: Input): Decoder {
    d.(inputs := d.inputs + [i])
  }

  datatype FlowState = Open | Closed | Failed

  datatype MessageRecord = MessageRecord(
    id: nat,
    message: DecodedMessage,
    truncated: bool,
    at: nat,
    latency: Option<nat>,
    sensitivity: Sensitivity)

  datatype StoredFlow = StoredFlow(
    id: FlowId,
    client: Bytes,
    upstream: Bytes,
    protocol: Option<Bytes>,
    identity: Option<Bytes>,
    state: FlowState,
    failure: Option<Bytes>,
    decoderError: Option<Bytes>,
    clientBytes: nat,
    upstreamBytes: nat,
    messageIds: seq<nat>,
    messages: seq<MessageRecord>,
    annotations: seq<Bytes>,
    pluginFailures: nat)

  const MAX_ANNOTATIONS: nat := 32

  datatype Kind =
    | Opened(client: Bytes, upstream: Bytes, protocol: Option<Bytes>)
    | Identified(identity: Bytes)
    | ProtocolDetected(name: Bytes)
    | Transferred(direction: Direction, count: nat)
    | Data(direction: Direction, bytes: Bytes)
    | FlowClosed
    | FlowFailed(reason: Bytes)

  datatype Event = Event(flow: FlowId, at: nat, kind: Kind)

  datatype State = State(
    flows: seq<StoredFlow>,
    evicted: nat,
    nextMessageId: nat,
    decoders: map<FlowId, Decoder>,
    pending: map<Key, seq<nat>>)

  const EMPTY: State := State([], 0, 0, map[], map[])

  // --------------------------------------------------------------------- one flow

  datatype Change =
    | Identify(identity: Bytes)
    | Relabel(protocol: Bytes)
    | Count(direction: Direction, bytes: nat)
    | Desynchronize(reason: Bytes)
    | Append(record: MessageRecord)
    | Annotate(report: PluginReport)
    | Close
    | Fail(reason: Bytes)

  function Changed(f: StoredFlow, c: Change): StoredFlow {
    match c
    case Identify(identity) => f.(identity := Some(identity))
    case Relabel(protocol) => f.(protocol := Some(protocol))
    case Count(ClientToServer, bytes) => f.(clientBytes := SaturatingAdd(f.clientBytes, bytes))
    case Count(ServerToClient, bytes) => f.(upstreamBytes := SaturatingAdd(f.upstreamBytes, bytes))
    case Desynchronize(reason) => f.(decoderError := Some(reason))
    case Append(record) => f.(messageIds := f.messageIds + [record.id], messages := f.messages + [record])
    case Annotate(report) =>
      var room := Min(Monus(MAX_ANNOTATIONS, |f.annotations|), |report.annotations|);
      f.(annotations := f.annotations + report.annotations[..room],
         pluginFailures := SaturatingAdd(f.pluginFailures, report.failures))
    case Close => f.(state := Closed)
    case Fail(reason) => f.(state := Failed, failure := Some(reason))
  }

  /** Index of the first flow with this id. */
  function IndexOf(flows: seq<StoredFlow>, id: FlowId): (r: Option<nat>)
    ensures r.Some? ==> r.value < |flows| && flows[r.value].id == id
    ensures r.None? ==> forall i :: 0 <= i < |flows| ==> flows[i].id != id
  {
    if flows == [] then None
    else if flows[0].id == id then Some(0)
    else match IndexOf(flows[1..], id)
      case None => None
      case Some(i) => Some(i + 1)
  }

  function ChangeFlow(s: State, id: FlowId, c: Change): State {
    match IndexOf(s.flows, id)
    case None => s
    case Some(i) => s.(flows := s.flows[i := Changed(s.flows[i], c)])
  }

  // ---------------------------------------------------------------- decoded messages

  function KeyOf(flow: FlowId, m: DecodedMessage): Key {
    match HeaderValue(m.headers, Ascii("lens-stream-id"))
    case None => (flow, [])
    case Some(stream) => (flow, stream)
  }

  predicate IsRequest(m: DecodedMessage) {
    HeaderValue(m.headers, Ascii("lens-boundary")) == Some(Ascii("request"))
  }

  predicate IsResponse(m: DecodedMessage) {
    !IsRequest(m) && HeaderValue(m.headers, Ascii("lens-boundary")) == Some(Ascii("response"))
  }

  predicate IsGrpc(m: DecodedMessage) {
    HeaderValue(m.headers, Ascii("lens-protocol")) == Some(Ascii("grpc"))
  }

  function Waiting(pending: map<Key, seq<nat>>, k: Key): seq<nat> {
    if k in pending then pending[k] else []
  }

  function LatencyOf(pending: map<Key, seq<nat>>, flow: FlowId, at: nat, m: DecodedMessage): Option<nat> {
    var waiting := Waiting(pending, KeyOf(flow, m));
    if IsResponse(m) && waiting != [] then Some(Monus(at, waiting[0])) else None
  }

  function PendingAfter(pending: map<Key, seq<nat>>, flow: FlowId, at: nat, m: DecodedMessage): map<Key, seq<nat>> {
    var k := KeyOf(flow, m);
    var waiting := Waiting(pending, k);
    if IsRequest(m) then pending[k := waiting + [at]]
    else if IsResponse(m) && waiting != [] then pending[k := waiting[1..]]
    else pending
  }

  /** A record of a message under one redaction of it. */
  function Recording(s: State, flow: FlowId, at: nat, m: DecodedMessage, shown: DecodedMessage, sensitivity: Sensitivity): MessageRecord {
    MessageRecord(SaturatingAdd(s.nextMessageId, 1), shown, m.truncated, at, LatencyOf(s.pending, flow, at, m), sensitivity)
  }

  function RecordOf(env: Env, s: State, flow: FlowId, at: nat, m: DecodedMessage): MessageRecord {
    var outcome := env.redact(m);
    Recording(s, flow, at, m, outcome.message, if env.unmasked then Secret else if outcome.changed then Hidden else Public)
  }

  /** What plugins are shown of a message: never more than their own redactor lets through. */
  function PluginView(env: Env, s: State, flow: FlowId, at: nat, m: DecodedMessage): MessageRecord {
    var outcome := env.redactForPlugins(m);
    Recording(s, flow, at, m, outcome.message, if outcome.changed then Hidden else Public)
  }

  function Consult(env: Env, s: State, flow: FlowId, at: nat, m: DecodedMessage): Option<PluginReport> {
    if env.plugins.None? then None else Some(env.plugins.value(flow, PluginView(env, s, flow, at, m)))
  }

  function StoreMessage(env: Env, s: State, flow: FlowId, at: nat, m: DecodedMessage): State {
    var record := RecordOf(env, s, flow, at, m);
    var report := Consult(env, s, flow, at, m);
    var numbered := s.(pending := PendingAfter(s.pending, flow, at, m), nextMessageId := record.id);
    var labelled := if IsGrpc(m) then ChangeFlow(numbered, flow, Relabel(Ascii("grpc"))) else numbered;
    var appended := ChangeFlow(labelled, flow, Append(record));
    if report.None? then appended else ChangeFlow(appended, flow, Annotate(report.value))
  }

  function StoreMessages(env: Env, s: State, flow: FlowId, at: nat, ms: seq<DecodedMessage>): State
    decreases |ms|
  {
    if ms == [] then s else StoreMessages(env, StoreMessage(env, s, flow, at, ms[0]), flow, at, ms[1..])
  }

  function StoreBatch(env: Env, s: State, flow: FlowId, at: nat, report: Report): State {
    var warned := match report.desynchronized
      case None => s
      case Some(reason) => ChangeFlow(s, flow, Desynchronize(reason));
    StoreMessages(env, warned, flow, at, report.messages)
  }

  // ------------------------------------------------------------------ observations

  function DecoderFor(name: Bytes): Option<Decoder> {
    if name == Ascii("http1") then Some(Decoder(Http1, []))
    else if name == Ascii("http2") || name == Ascii("grpc") then Some(Decoder(Http2, []))
    else if name == Ascii("postgres") then Some(Decoder(Postgres, []))
    else if name == Ascii("redis") then Some(Decoder(Redis, []))
    else None
  }

  function ForgetFlow(s: State, flow: FlowId): State {
    s.(decoders := s.decoders - {flow}, pending := map k | k in s.pending && k.0 != flow :: s.pending[k])
  }

  /** The final reports of a decoder that is being shut down: client side, then server side. */
  function ClientEnd(env: Env, d: Decoder): Report {
    env.decode(Given(d, Finish(ClientToServer)))
  }

  function ServerEnd(env: Env, d: Decoder): Report {
    env.decode(Given(Given(d, Finish(ClientToServer)), Finish(ServerToClient)))
  }

  function Shut(env: Env, s: State, flow: FlowId, at: nat): State {
    if flow !in s.decoders then ForgetFlow(s, flow)
    else
      var d := s.decoders[flow];
      var removed := s.(decoders := s.decoders - {flow});
      var client := StoreBatch(env, removed, flow, at, ClientEnd(env, d));
      ForgetFlow(StoreBatch(env, client, flow, at, ServerEnd(env, d)), flow)
  }

  function Evict(maxFlows: nat, s: State): State {
    if |s.flows| != maxFlows || s.flows == [] then s
    else ForgetFlow(s, s.flows[0].id).(flows := s.flows[1..], evicted := SaturatingAdd(s.evicted, 1))
  }

  function OpenFlow(s: State, e: Event): State
    requires e.kind.Opened?
  {
    var flow := StoredFlow(e.flow, e.kind.client, e.kind.upstream, e.kind.protocol, None, Open, None, None, 0, 0, [], [], [], 0);
    var grown := s.(flows := s.flows + [flow]);
    if e.kind.protocol.Some? && DecoderFor(e.kind.protocol.value).Some? then
      grown.(decoders := s.decoders[e.flow := DecoderFor(e.kind.protocol.value).value])
    else grown
  }

  function Detect(s: State, flow: FlowId, name: Bytes): State {
    var relabelled := ChangeFlow(s, flow, Relabel(name));
    match DecoderFor(name)
    case None => relabelled.(decoders := relabelled.decoders - {flow})
    case Some(d) => relabelled.(decoders := relabelled.decoders[flow := d])
  }

  function Observe(env: Env, s: State, flow: FlowId, at: nat, direction: Direction, bytes: Bytes): State {
    if flow !in s.decoders then s
    else
      var d := Given(s.decoders[flow], Push(direction, bytes));
      StoreBatch(env, s.(decoders := s.decoders[flow := d]), flow, at, env.decode(d))
  }

  function Apply(env: Env, maxFlows: nat, s: State, e: Event): State {
    match e.kind
    case Opened(_, _, _) => OpenFlow(Evict(maxFlows, s), e)
    case Identified(identity) => ChangeFlow(s, e.flow, Identify(identity))
    case ProtocolDetected(name) => Detect(s, e.flow, name)
    case Transferred(direction, count) => ChangeFlow(s, e.flow, Count(direction, count))
    case Data(direction, bytes) => Observe(env, s, e.flow, e.at, direction, bytes)
    case FlowClosed => ChangeFlow(Shut(env, s, e.flow, e.at), e.flow, Close)
    case FlowFailed(reason) => ChangeFlow(Shut(env, s, e.flow, e.at), e.flow, Fail(reason))
  }

  /** The store after a run of observations. */
  function Run(env: Env, maxFlows: nat, events: seq<Event>): State {
    if events == [] then EMPTY
    else Apply(env, maxFlows, Run(env, maxFlows, events[..|events| - 1]), events[|events| - 1])
  }
}
