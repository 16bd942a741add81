/** The store actor: one writer that applies observations to its fields. */
module StoreActor {
  import opened ByteStrings
  import opened Streaming
  import opened Text
  import opened Store
  import opened StoreRetention
  import opened Sequences

  class Actor {
    const env: Env
    const maxFlows: nat
    var flows: seq<StoredFlow>
    var evicted: nat
    var nextMessageId: nat
    var decoders: map<FlowId, Decoder>
    var pending: map<Key, seq<nat>>

    function Contents(): State
      reads this
    {
      State(flows, evicted, nextMessageId, decoders, pending)
    }

    constructor (env: Env, maxFlows: nat)
      requires maxFlows > 0
      ensures this.env == env && this.maxFlows == maxFlows
      ensures Contents() == Run(env, maxFlows, [])
    {
      this.env, this.maxFlows := env, maxFlows;
      flows, evicted, nextMessageId, decoders, pending := [], 0, 0, map[], map[];
    }

    method FindFlow(id: FlowId) returns (r: Option<nat>)
      ensures r == IndexOf(flows, id)
    {
      for i := 0 to |flows|
        invariant IndexOf(flows, id) == match IndexOf(flows[i..], id) case None => None case Some(j) => Some(i + j)
      {
        assert flows[i..][0] == flows[i] && flows[i..][1..] == flows[i + 1..];
        if flows[i].id == id {
          return Some(i);
        }
      }
      assert flows[|flows|..] == [];
      return None;
    }

    method UpdateFlow(id: FlowId, c: Change)
      modifies this`flows
      ensures Contents() == ChangeFlow(old(Contents()), id, c)
    {
      var found := FindFlow(id);
      if found.Some? {
        flows := flows[found.value := Changed(flows[found.value], c)];
      }
    }

    /** Latency bookkeeping for one message. */
    method Pair(flow: FlowId, at: nat, m: DecodedMessage) returns (latency: Option<nat>)
      modifies this`pending
      ensures latency == LatencyOf(old(pending), flow, at, m)
      ensures pending == PendingAfter(old(pending), flow, at, m)
    {
      hide HeaderValue, KeyOf;
      var key := KeyOf(flow, m);
      latency := None;
      if IsRequest(m) {
        var queue := if key in pending then pending[key] else [];
        pending := pending[key := queue + [at]];
      } else if IsResponse(m) {
        if key in pending && pending[key] != [] {
          var started := pending[key][0];
          pending := pending[key := pending[key][1..]];
          latency := Some(Monus(at, started));
        }
      }
    }

    method StoreReport(flow: FlowId, at: nat, report: Report)
      modifies this
      ensures Contents() == StoreBatch(env, old(Contents()), flow, at, report)
    {
      hide ChangeFlow, PendingAfter, LatencyOf, IsGrpc, Changed;
      if report.desynchronized.Some? {
        UpdateFlow(flow, Desynchronize(report.desynchronized.value));
      }
      ghost var warned := Contents();
      var ms := report.messages;
      assert ms[0..] == ms;
      for i := 0 to |ms|
        invariant StoreMessages(env, Contents(), flow, at, ms[i..]) == StoreMessages(env, warned, flow, at, ms)
      {
        assert ms[i..][0] == ms[i] && ms[i..][1..] == ms[i + 1..];
        ghost var before := Contents();
        var latency := Pair(flow, at, ms[i]);
        nextMessageId := SaturatingAdd(nextMessageId, 1);
        var outcome := env.redact(ms[i]);
        var sensitivity := if env.unmasked then Secret else if outcome.changed then Hidden else Public;
        var record := MessageRecord(nextMessageId, outcome.message, ms[i].truncated, at, latency, sensitivity);
        var report: Option<PluginReport> := None;
        if env.plugins.Some? {
          var safe := env.redactForPlugins(ms[i]);
          var view := MessageRecord(nextMessageId, safe.message, ms[i].truncated, at, latency, if safe.changed then Hidden else Public);
          report := Some(env.plugins.value(flow, view));
        }
        if IsGrpc(ms[i]) {
          UpdateFlow(flow, Relabel(Ascii("grpc")));
        }
        UpdateFlow(flow, Append(record));
        if report.Some? {
          UpdateFlow(flow, Annotate(report.value));
        }
        assert Contents() == StoreMessage(env, before, flow, at, ms[i]);
      }
    }

    method DropFlow(flow: FlowId)
      modifies this`decoders, this`pending
      ensures Contents() == ForgetFlow(old(Contents()), flow)
    {
      decoders := decoders - {flow};
      pending := map k | k in pending && k.0 != flow :: pending[k];
    }

    method ShutFlow(flow: FlowId, at: nat)
      modifies this
      ensures Contents() == Shut(env, old(Contents()), flow, at)
    {
      hide StoreBatch, ForgetFlow;
      if flow in decoders {
        var d := decoders[flow];
        decoders := decoders - {flow};
        d := Given(d, Finish(ClientToServer));
        StoreReport(flow, at, env.decode(d));
        d := Given(d, Finish(ServerToClient));
        StoreReport(flow, at, env.decode(d));
      }
      DropFlow(flow);
    }

    method Open(e: Event)
      requires e.kind.Opened? && maxFlows > 0
      modifies this
      ensures Contents() == OpenFlow(Evict(maxFlows, old(Contents())), e)
    {
      hide DecoderFor, ForgetFlow;
      if |flows| == maxFlows {
        var oldest := flows[0].id;
        flows := flows[1..];
        DropFlow(oldest);
        evicted := SaturatingAdd(evicted, 1);
        EvictOrder(maxFlows, old(Contents()));
      }
      var protocol := e.kind.protocol;
      flows := flows + [StoredFlow(e.flow, e.kind.client, e.kind.upstream, protocol, None, FlowState.Open, None, None, 0, 0, [], [], [], 0)];
      if protocol.Some? {
        var decoder := DecoderFor(protocol.value);
        if decoder.Some? {
          decoders := decoders[e.flow := decoder.value];
        }
      }
    }

    /** One observation. */
    method Apply(e: Event)
      requires maxFlows > 0
      modifies this
      ensures Contents() == Store.Apply(env, maxFlows, old(Contents()), e)
    {
      hide StoreBatch, Shut, OpenFlow, Evict, ChangeFlow, DecoderFor;
      match e.kind
      case Data(direction, bytes) =>
        if e.flow in decoders {
          var d := Given(decoders[e.flow], Push(direction, bytes));
          decoders := decoders[e.flow := d];
          StoreReport(e.flow, e.at, env.decode(d));
        }
      case Opened(_, _, _) => Open(e);
      case Identified(identity) => UpdateFlow(e.flow, Identify(identity));
      case ProtocolDetected(name) =>
        UpdateFlow(e.flow, Relabel(name));
        var decoder := DecoderFor(name);
        if decoder.Some? {
          decoders := decoders[e.flow := decoder.value];
        } else {
          decoders := decoders - {e.flow};
        }
      case Transferred(direction, count) => UpdateFlow(e.flow, Count(direction, count));
      case FlowClosed =>
        ShutFlow(e.flow, e.at);
        UpdateFlow(e.flow, Close);
      case FlowFailed(reason) =>
        ShutFlow(e.flow, e.at);
        UpdateFlow(e.flow, Fail(reason));
    }

    /** The actor's loop over everything its senders observed. */
    method Consume(events: seq<Event>)
      requires maxFlows > 0 && Contents() == EMPTY
      modifies this
      ensures Contents() == Run(env, maxFlows, events)
      ensures Ids(flows) == LastOf(Opens(events), maxFlows)
    {
      hide Store.Apply;
      for i := 0 to |events|
        invariant Contents() == Run(env, maxFlows, events[..i])
      {
        assert events[..i + 1][..i] == events[..i];
        Apply(events[i]);
      }
      assert events[..|events|] == events;
      RetainsTheLastOpened(env, maxFlows, events);
    }
  }

  lemma EvictOrder(maxFlows: nat, s: State)
    requires |s.flows| == maxFlows > 0
    ensures Evict(maxFlows, s) ==
              ForgetFlow(s.(flows := s.flows[1..]), s.flows[0].id).(evicted := SaturatingAdd(s.evicted, 1))
  {
  }
}
