/** Which flows the store keeps, which message ids they hold, and what its tables may mention. */
module StoreRetention {
  import opened ByteStrings
  import opened Streaming
  import opened Text
  import opened Store
  import opened Sequences

  function Ids(flows: seq<StoredFlow>): seq<FlowId> {
    seq(|flows|, i requires 0 <= i < |flows| => flows[i].id)
  }

  /** Flow ids in the order they were opened. */
  function Opens(events: seq<Event>): seq<FlowId> {
    if events == [] then []
    else
      var before := Opens(events[..|events| - 1]);
      var e := events[|events| - 1];
      if e.kind.Opened? then before + [e.flow] else before
  }

  // ------------------------------------------------------- what storing leaves alone

  /** Two stores hold the same flows and decoders, and the same evictions so far. */
  predicate SameShape(a: State, b: State) {
    Ids(a.flows) == Ids(b.flows) && a.evicted == b.evicted && a.decoders == b.decoders
  }

  lemma ChangeKeepsShape(s: State, id: FlowId, c: Change)
    ensures SameShape(s, ChangeFlow(s, id, c))
  {
    assert Ids(ChangeFlow(s, id, c).flows) == Ids(s.flows);
  }

  lemma MessageKeepsShape(env: Env, s: State, flow: FlowId, at: nat, m: DecodedMessage)
    ensures SameShape(s, StoreMessage(env, s, flow, at, m))
  {
    hide IsGrpc, PendingAfter, LatencyOf, ChangeFlow;
    var record := RecordOf(env, s, flow, at, m);
    var numbered := s.(pending := PendingAfter(s.pending, flow, at, m), nextMessageId := record.id);
    var labelled := if IsGrpc(m) then ChangeFlow(numbered, flow, Relabel(Ascii("grpc"))) else numbered;
    ChangeKeepsShape(numbered, flow, Relabel(Ascii("grpc")));
    ChangeKeepsShape(labelled, flow, Append(record));
    var report := Consult(env, s, flow, at, m);
    if report.Some? { ChangeKeepsShape(ChangeFlow(labelled, flow, Append(record)), flow, Annotate(report.value)); }
  }

  lemma {:induction false} MessagesKeepShape(env: Env, s: State, flow: FlowId, at: nat, ms: seq<DecodedMessage>)
    ensures SameShape(s, StoreMessages(env, s, flow, at, ms))
    decreases |ms|
  {
    hide StoreMessage;
    if ms != [] {
      MessageKeepsShape(env, s, flow, at, ms[0]);
      MessagesKeepShape(env, StoreMessage(env, s, flow, at, ms[0]), flow, at, ms[1..]);
    }
  }

  lemma BatchKeepsShape(env: Env, s: State, flow: FlowId, at: nat, report: Report)
    ensures SameShape(s, StoreBatch(env, s, flow, at, report))
  {
    hide StoreMessages, ChangeFlow;
    if report.desynchronized.None? {
      MessagesKeepShape(env, s, flow, at, report.messages);
    } else {
      ChangeKeepsShape(s, flow, Desynchronize(report.desynchronized.value));
      MessagesKeepShape(env, ChangeFlow(s, flow, Desynchronize(report.desynchronized.value)), flow, at, report.messages);
    }
  }

  lemma ShutKeepsShape(env: Env, s: State, flow: FlowId, at: nat)
    ensures var r := Shut(env, s, flow, at);
            Ids(r.flows) == Ids(s.flows) && r.evicted == s.evicted && r.decoders == s.decoders - {flow}
  {
    hide StoreBatch, ClientEnd, ServerEnd;
    if flow in s.decoders {
      var d := s.decoders[flow];
      var removed := s.(decoders := s.decoders - {flow});
      BatchKeepsShape(env, removed, flow, at, ClientEnd(env, d));
      BatchKeepsShape(env, StoreBatch(env, removed, flow, at, ClientEnd(env, d)), flow, at, ServerEnd(env, d));
    }
  }

  /** Only an opened flow changes the queue of flows or the eviction count. */
  lemma OthersKeepFlows(env: Env, maxFlows: nat, s: State, e: Event)
    requires !e.kind.Opened?
    ensures var r := Apply(env, maxFlows, s, e); Ids(r.flows) == Ids(s.flows) && r.evicted == s.evicted
  {
    hide ChangeFlow, StoreBatch, Shut;
    match e.kind
    case Identified(identity) => ChangeKeepsShape(s, e.flow, Identify(identity));
    case ProtocolDetected(name) => ChangeKeepsShape(s, e.flow, Relabel(name));
    case Transferred(direction, count) => ChangeKeepsShape(s, e.flow, Count(direction, count));
    case Data(direction, bytes) =>
      if e.flow in s.decoders {
        var d := Given(s.decoders[e.flow], Push(direction, bytes));
        BatchKeepsShape(env, s.(decoders := s.decoders[e.flow := d]), e.flow, e.at, env.decode(d));
      }
    case FlowClosed =>
      ShutKeepsShape(env, s, e.flow, e.at);
      ChangeKeepsShape(Shut(env, s, e.flow, e.at), e.flow, Close);
    case FlowFailed(reason) =>
      ShutKeepsShape(env, s, e.flow, e.at);
      ChangeKeepsShape(Shut(env, s, e.flow, e.at), e.flow, Fail(reason));
  }

  // --------------------------------------------------------------------- retention

  lemma OpeningShiftsIds(s: State, maxFlows: nat, e: Event)
    requires e.kind.Opened?
    ensures var r := OpenFlow(Evict(maxFlows, s), e);
            Ids(r.flows) == (if |s.flows| == maxFlows && s.flows != [] then Ids(s.flows)[1..] else Ids(s.flows)) + [e.flow]
  {
    hide DecoderFor;
    var kept := Evict(maxFlows, s);
    var r := OpenFlow(kept, e);
    assert Ids(r.flows) == Ids(kept.flows) + [e.flow];
    assert |s.flows| == maxFlows && s.flows != [] ==> Ids(kept.flows) == Ids(s.flows)[1..];
  }

  /** After any run the store holds the last `maxFlows` flows opened, oldest first, and has counted
      every other one as evicted. Flow ids may repeat. */
  lemma {:induction false} RetainsTheLastOpened(env: Env, maxFlows: nat, events: seq<Event>)
    requires maxFlows > 0
    ensures var s := Run(env, maxFlows, events);
            var n := |Opens(events)|;
            && Ids(s.flows) == LastOf(Opens(events), maxFlows)
            && s.evicted == Min(n - |s.flows|, U64_MAX)
            && (n <= U64_MAX ==> |s.flows| + s.evicted == n)
    decreases |events|
  {
    hide Apply, OpenFlow, Evict;
    if events != [] {
      var before := events[..|events| - 1];
      var e := events[|events| - 1];
      var s := Run(env, maxFlows, before);
      RetainsTheLastOpened(env, maxFlows, before);
      assert |Ids(s.flows)| == |s.flows|;
      if e.kind.Opened? {
        OpeningShiftsIds(s, maxFlows, e);
        OpeningCounts(env, maxFlows, s, e);
        var n := |Opens(before)|;
        assert |s.flows| == Min(n, maxFlows);
      } else {
        OthersKeepFlows(env, maxFlows, s, e);
      }
    }
  }

  lemma OpeningCounts(env: Env, maxFlows: nat, s: State, e: Event)
    requires e.kind.Opened? && maxFlows > 0
    ensures var r := Apply(env, maxFlows, s, e);
            && r == OpenFlow(Evict(maxFlows, s), e)
            && r.evicted == (if |s.flows| == maxFlows then SaturatingAdd(s.evicted, 1) else s.evicted)
  {
    hide DecoderFor;
  }

  // ------------------------------------------------------------------- message ids

  predicate Increasing(ids: seq<nat>) {
    forall i, j :: 0 <= i < j < |ids| ==> ids[i] < ids[j]
  }

  function IdsOf(records: seq<MessageRecord>): seq<nat> {
    seq(|records|, i requires 0 <= i < |records| => records[i].id)
  }

  predicate NumberedFlow(f: StoredFlow, next: nat) {
    && f.messageIds == IdsOf(f.messages)
    && Increasing(f.messageIds)
    && forall i :: 0 <= i < |f.messageIds| ==> f.messageIds[i] <= next
  }

  /** Every flow lists the ids of its own messages, in increasing order and none from the future. */
  predicate Numbered(s: State) {
    forall i :: 0 <= i < |s.flows| ==> NumberedFlow(s.flows[i], s.nextMessageId)
  }

  lemma ChangeKeepsNumbered(s: State, id: FlowId, c: Change)
    requires Numbered(s) && !c.Append?
    ensures Numbered(ChangeFlow(s, id, c)) && ChangeFlow(s, id, c).nextMessageId == s.nextMessageId
  {
    hide NumberedFlow;
    forall f: StoredFlow | NumberedFlow(f, s.nextMessageId)
      ensures NumberedFlow(Changed(f, c), s.nextMessageId)
    {
      ChangedIsNumbered(f, c, s.nextMessageId);
    }
  }

  lemma ChangedIsNumbered(f: StoredFlow, c: Change, next: nat)
    requires NumberedFlow(f, next) && !c.Append?
    ensures NumberedFlow(Changed(f, c), next)
  {
  }

  lemma AppendIsNumbered(f: StoredFlow, record: MessageRecord, next: nat)
    requires NumberedFlow(f, next) && next < record.id
    ensures NumberedFlow(Changed(f, Append(record)), record.id)
  {
    assert IdsOf(f.messages + [record]) == IdsOf(f.messages) + [record.id];
  }

  lemma MessageIsNumbered(env: Env, s: State, flow: FlowId, at: nat, m: DecodedMessage)
    requires Numbered(s) && s.nextMessageId < U64_MAX
    ensures var r := StoreMessage(env, s, flow, at, m); Numbered(r) && r.nextMessageId == s.nextMessageId + 1
  {
    hide IsGrpc, PendingAfter, LatencyOf, NumberedFlow, ChangeFlow;
    var record := RecordOf(env, s, flow, at, m);
    var pending := PendingAfter(s.pending, flow, at, m);
    var early := s.(pending := pending);
    var labelled := if IsGrpc(m) then ChangeFlow(early, flow, Relabel(Ascii("grpc"))) else early;
    if IsGrpc(m) { ChangeKeepsNumbered(early, flow, Relabel(Ascii("grpc"))); }
    NumberThenChange(early, flow, record.id, Relabel(Ascii("grpc")));
    AppendStays(labelled, flow, record);
    var report := Consult(env, s, flow, at, m);
    if report.Some? {
      ChangeKeepsNumbered(ChangeFlow(labelled.(nextMessageId := record.id), flow, Append(record)), flow, Annotate(report.value));
    }
  }

  lemma NumberThenChange(s: State, flow: FlowId, next: nat, c: Change)
    ensures ChangeFlow(s.(nextMessageId := next), flow, c) == ChangeFlow(s, flow, c).(nextMessageId := next)
  {
  }

  lemma AppendStays(s: State, flow: FlowId, record: MessageRecord)
    requires Numbered(s) && s.nextMessageId < record.id
    ensures var r := ChangeFlow(s.(nextMessageId := record.id), flow, Append(record));
            Numbered(r) && r.nextMessageId == record.id
  {
    hide NumberedFlow, Changed;
    forall f: StoredFlow | NumberedFlow(f, s.nextMessageId)
      ensures NumberedFlow(f, record.id) && NumberedFlow(Changed(f, Append(record)), record.id)
    {
      AppendIsNumbered(f, record, s.nextMessageId);
      LaterIsFine(f, s.nextMessageId, record.id);
    }
  }

  lemma LaterIsFine(f: StoredFlow, next: nat, later: nat)
    requires NumberedFlow(f, next) && next <= later
    ensures NumberedFlow(f, later)
  {
  }

  lemma {:induction false} MessagesAreNumbered(env: Env, s: State, flow: FlowId, at: nat, ms: seq<DecodedMessage>)
    requires Numbered(s) && s.nextMessageId + |ms| <= U64_MAX
    ensures var r := StoreMessages(env, s, flow, at, ms); Numbered(r) && r.nextMessageId == s.nextMessageId + |ms|
    decreases |ms|
  {
    hide StoreMessage, Numbered;
    if ms != [] {
      MessageIsNumbered(env, s, flow, at, ms[0]);
      MessagesAreNumbered(env, StoreMessage(env, s, flow, at, ms[0]), flow, at, ms[1..]);
    }
  }

  lemma BatchIsNumbered(env: Env, s: State, flow: FlowId, at: nat, report: Report)
    requires Numbered(s) && s.nextMessageId + |report.messages| <= U64_MAX
    ensures var r := StoreBatch(env, s, flow, at, report); Numbered(r) && r.nextMessageId == s.nextMessageId + |report.messages|
  {
    hide StoreMessages, Numbered, ChangeFlow;
    if report.desynchronized.Some? { ChangeKeepsNumbered(s, flow, Desynchronize(report.desynchronized.value)); }
    MessagesAreNumbered(env, if report.desynchronized.Some? then ChangeFlow(s, flow, Desynchronize(report.desynchronized.value)) else s,
                        flow, at, report.messages);
  }

  /** How many messages one observation makes the decoders report. */
  function Reported(env: Env, s: State, e: Event): nat {
    if e.flow !in s.decoders then 0
    else
      var d := s.decoders[e.flow];
      match e.kind
      case Data(direction, bytes) => |env.decode(Given(d, Push(direction, bytes))).messages|
      case FlowClosed => |ClientEnd(env, d).messages| + |ServerEnd(env, d).messages|
      case FlowFailed(_) => |ClientEnd(env, d).messages| + |ServerEnd(env, d).messages|
      case _ => 0
  }

  function ReportedBy(env: Env, maxFlows: nat, events: seq<Event>): nat {
    if events == [] then 0
    else
      var before := events[..|events| - 1];
      ReportedBy(env, maxFlows, before) + Reported(env, Run(env, maxFlows, before), events[|events| - 1])
  }

  lemma ShutIsNumbered(env: Env, s: State, flow: FlowId, at: nat)
    requires Numbered(s)
    requires flow in s.decoders ==>
               s.nextMessageId + |ClientEnd(env, s.decoders[flow]).messages| + |ServerEnd(env, s.decoders[flow]).messages| <= U64_MAX
    ensures var r := Shut(env, s, flow, at);
            && Numbered(r)
            && r.nextMessageId == s.nextMessageId +
                 if flow in s.decoders then |ClientEnd(env, s.decoders[flow]).messages| + |ServerEnd(env, s.decoders[flow]).messages| else 0
  {
    hide StoreBatch, ClientEnd, ServerEnd, NumberedFlow;
    if flow in s.decoders {
      var d := s.decoders[flow];
      var removed := s.(decoders := s.decoders - {flow});
      BatchIsNumbered(env, removed, flow, at, ClientEnd(env, d));
      BatchIsNumbered(env, StoreBatch(env, removed, flow, at, ClientEnd(env, d)), flow, at, ServerEnd(env, d));
    }
  }

  lemma ApplyIsNumbered(env: Env, maxFlows: nat, s: State, e: Event)
    requires Numbered(s) && s.nextMessageId + Reported(env, s, e) <= U64_MAX
    ensures var r := Apply(env, maxFlows, s, e); Numbered(r) && r.nextMessageId == s.nextMessageId + Reported(env, s, e)
  {
    hide ChangeFlow, StoreBatch, Shut, NumberedFlow, DecoderFor, ClientEnd, ServerEnd;
    match e.kind
    case Opened(_, _, _) => OpeningIsNumbered(s, maxFlows, e);
    case Identified(identity) => ChangeKeepsNumbered(s, e.flow, Identify(identity));
    case ProtocolDetected(name) => ChangeKeepsNumbered(s, e.flow, Relabel(name));
    case Transferred(direction, count) => ChangeKeepsNumbered(s, e.flow, Count(direction, count));
    case Data(direction, bytes) =>
      if e.flow in s.decoders {
        var d := Given(s.decoders[e.flow], Push(direction, bytes));
        BatchIsNumbered(env, s.(decoders := s.decoders[e.flow := d]), e.flow, e.at, env.decode(d));
      }
    case FlowClosed =>
      ShutIsNumbered(env, s, e.flow, e.at);
      ChangeKeepsNumbered(Shut(env, s, e.flow, e.at), e.flow, Close);
    case FlowFailed(reason) =>
      ShutIsNumbered(env, s, e.flow, e.at);
      ChangeKeepsNumbered(Shut(env, s, e.flow, e.at), e.flow, Fail(reason));
  }

  lemma OpeningIsNumbered(s: State, maxFlows: nat, e: Event)
    requires Numbered(s) && e.kind.Opened?
    ensures var r := OpenFlow(Evict(maxFlows, s), e); Numbered(r) && r.nextMessageId == s.nextMessageId
  {
    hide DecoderFor;
  }

  /** As long as no more messages were reported than a 64-bit counter holds, every flow's ids match its
      messages and strictly increase, and the counter is the number of messages reported. */
  lemma {:induction false} MessageIdsIncrease(env: Env, maxFlows: nat, events: seq<Event>)
    requires ReportedBy(env, maxFlows, events) <= U64_MAX
    ensures var s := Run(env, maxFlows, events);
            Numbered(s) && s.nextMessageId == ReportedBy(env, maxFlows, events)
    decreases |events|
  {
    hide Apply, NumberedFlow, Reported;
    if events != [] {
      var before := events[..|events| - 1];
      MessageIdsIncrease(env, maxFlows, before);
      ApplyIsNumbered(env, maxFlows, Run(env, maxFlows, before), events[|events| - 1]);
    }
  }

  /** At the top of the counter the bound above is sharp: the next message repeats the last id. */
  lemma SaturatedIdsRepeat(env: Env, s: State, flow: FlowId, at: nat, m: DecodedMessage)
    requires s.nextMessageId == U64_MAX && IndexOf(s.flows, flow).Some?
    requires var f := s.flows[IndexOf(s.flows, flow).value];
             f.messageIds != [] && f.messageIds[|f.messageIds| - 1] == U64_MAX
    ensures var r := StoreMessage(env, s, flow, at, m);
            exists i :: 0 <= i < |r.flows| && !Increasing(r.flows[i].messageIds)
  {
    hide IsGrpc, PendingAfter, LatencyOf, ChangeFlow, Consult;
    var record := RecordOf(env, s, flow, at, m);
    var numbered := s.(pending := PendingAfter(s.pending, flow, at, m), nextMessageId := record.id);
    var labelled := if IsGrpc(m) then ChangeFlow(numbered, flow, Relabel(Ascii("grpc"))) else numbered;
    var i := IndexOf(s.flows, flow).value;
    ChangeAt(numbered, flow, Relabel(Ascii("grpc")));
    ChangeAt(labelled, flow, Append(record));
    var report := Consult(env, s, flow, at, m);
    if report.Some? { ChangeAt(ChangeFlow(labelled, flow, Append(record)), flow, Annotate(report.value)); }
    var ids := StoreMessage(env, s, flow, at, m).flows[i].messageIds;
    assert ids[|ids| - 2] == ids[|ids| - 1];
  }

  lemma ChangeAt(s: State, id: FlowId, c: Change)
    requires IndexOf(s.flows, id).Some?
    ensures var i := IndexOf(s.flows, id).value;
            var r := ChangeFlow(s, id, c);
            IndexOf(r.flows, id) == Some(i) && r.flows[i] == Changed(s.flows[i], c)
  {
    hide Changed;
    SameIndex(s.flows, id, c);
  }

  lemma {:induction false} SameIndex(flows: seq<StoredFlow>, id: FlowId, c: Change)
    requires IndexOf(flows, id).Some?
    ensures var i := IndexOf(flows, id).value; IndexOf(flows[i := Changed(flows[i], c)], id) == Some(i)
    decreases |flows|
  {
    var i := IndexOf(flows, id).value;
    if flows[0].id != id {
      SameIndex(flows[1..], id, c);
      assert flows[i := Changed(flows[i], c)][1..] == flows[1..][i - 1 := Changed(flows[i], c)];
    }
  }

  // ------------------------------------------------------------------------ tables

  predicate Retained(s: State, flow: FlowId) {
    flow in Ids(s.flows)
  }

  /** Decoders and waiting requests belong to flows that are still stored. */
  predicate Tidy(s: State) {
    && (forall flow :: flow in s.decoders ==> Retained(s, flow))
    && (forall k :: k in s.pending ==> Retained(s, k.0))
  }

  /** An event that would give a decoder to a flow the store does not hold. */
  predicate Strays(s: State, e: Event) {
    e.kind.ProtocolDetected? && DecoderFor(e.kind.name).Some? && !Retained(s, e.flow)
  }

  lemma PendingStaysTidy(pending: map<Key, seq<nat>>, flow: FlowId, at: nat, m: DecodedMessage)
    ensures forall k :: k in PendingAfter(pending, flow, at, m) ==> k in pending || k.0 == flow
  {
    hide IsRequest, IsResponse, HeaderValue;
  }

  lemma MessageStaysTidy(env: Env, s: State, flow: FlowId, at: nat, m: DecodedMessage)
    ensures forall k :: k in StoreMessage(env, s, flow, at, m).pending ==> k in s.pending || k.0 == flow
  {
    hide IsGrpc, PendingAfter, LatencyOf;
    PendingStaysTidy(s.pending, flow, at, m);
  }

  lemma {:induction false} MessagesStayTidy(env: Env, s: State, flow: FlowId, at: nat, ms: seq<DecodedMessage>)
    ensures forall k :: k in StoreMessages(env, s, flow, at, ms).pending ==> k in s.pending || k.0 == flow
    decreases |ms|
  {
    hide StoreMessage;
    if ms != [] {
      MessageStaysTidy(env, s, flow, at, ms[0]);
      MessagesStayTidy(env, StoreMessage(env, s, flow, at, ms[0]), flow, at, ms[1..]);
    }
  }

  lemma BatchStaysTidy(env: Env, s: State, flow: FlowId, at: nat, report: Report)
    ensures forall k :: k in StoreBatch(env, s, flow, at, report).pending ==> k in s.pending || k.0 == flow
  {
    hide StoreMessages;
    var warned := if report.desynchronized.Some? then ChangeFlow(s, flow, Desynchronize(report.desynchronized.value)) else s;
    MessagesStayTidy(env, warned, flow, at, report.messages);
  }

  lemma ShutStaysTidy(env: Env, s: State, flow: FlowId, at: nat)
    ensures forall k :: k in Shut(env, s, flow, at).pending ==> k in s.pending && k.0 != flow
  {
    hide StoreBatch, ClientEnd, ServerEnd;
    if flow in s.decoders {
      var d := s.decoders[flow];
      var removed := s.(decoders := s.decoders - {flow});
      BatchStaysTidy(env, removed, flow, at, ClientEnd(env, d));
      BatchStaysTidy(env, StoreBatch(env, removed, flow, at, ClientEnd(env, d)), flow, at, ServerEnd(env, d));
    }
  }

  /** From a tidy store, an event leaves a tidy store exactly when it does not stray. */
  lemma TidyUnlessStraying(env: Env, maxFlows: nat, s: State, e: Event)
    requires Tidy(s) && maxFlows > 0
    ensures Tidy(Apply(env, maxFlows, s, e)) <==> !Strays(s, e)
  {
    hide ChangeFlow, StoreBatch, Shut, DecoderFor, Evict, OpenFlow;
    match e.kind
    case Opened(_, _, _) => OpeningIsTidy(s, maxFlows, e);
    case Identified(identity) => TidyChange(s, e.flow, Identify(identity));
    case ProtocolDetected(name) => TidyChange(s, e.flow, Relabel(name));
      assert DecoderFor(name).Some? ==> e.flow in Detect(s, e.flow, name).decoders;
    case Transferred(direction, count) => TidyChange(s, e.flow, Count(direction, count));
    case Data(direction, bytes) =>
      if e.flow in s.decoders {
        var d := Given(s.decoders[e.flow], Push(direction, bytes));
        var fed := s.(decoders := s.decoders[e.flow := d]);
        BatchKeepsShape(env, fed, e.flow, e.at, env.decode(d));
        BatchStaysTidy(env, fed, e.flow, e.at, env.decode(d));
      }
    case FlowClosed => ShutIsTidy(env, s, e.flow, e.at, Close);
    case FlowFailed(reason) => ShutIsTidy(env, s, e.flow, e.at, Fail(reason));
  }

  lemma TidyChange(s: State, id: FlowId, c: Change)
    ensures var r := ChangeFlow(s, id, c); Ids(r.flows) == Ids(s.flows) && r.decoders == s.decoders && r.pending == s.pending
  {
    ChangeKeepsShape(s, id, c);
  }

  lemma ShutIsTidy(env: Env, s: State, flow: FlowId, at: nat, c: Change)
    requires Tidy(s)
    ensures Tidy(ChangeFlow(Shut(env, s, flow, at), flow, c))
  {
    hide ChangeFlow, Shut;
    ShutKeepsShape(env, s, flow, at);
    ShutStaysTidy(env, s, flow, at);
    TidyChange(Shut(env, s, flow, at), flow, c);
  }

  lemma OpeningIsTidy(s: State, maxFlows: nat, e: Event)
    requires Tidy(s) && e.kind.Opened? && maxFlows > 0
    ensures Tidy(OpenFlow(Evict(maxFlows, s), e))
  {
    hide DecoderFor;
    var kept := Evict(maxFlows, s);
    var r := OpenFlow(kept, e);
    forall flow | Retained(s, flow) && (|s.flows| == maxFlows ==> flow != s.flows[0].id)
      ensures Retained(r, flow)
    {
      var i :| 0 <= i < |s.flows| && s.flows[i].id == flow;
      var j := if |s.flows| == maxFlows then i - 1 else i;
      assert Ids(r.flows)[j] == flow;
    }
    assert Ids(r.flows)[|r.flows| - 1] == e.flow;
  }

  predicate AlwaysTidy(env: Env, maxFlows: nat, events: seq<Event>) {
    && Tidy(Run(env, maxFlows, events))
    && (events != [] ==> AlwaysTidy(env, maxFlows, events[..|events| - 1]))
  }

  predicate NeverStrays(env: Env, maxFlows: nat, events: seq<Event>) {
    events != [] ==>
      var before := events[..|events| - 1];
      NeverStrays(env, maxFlows, before) && !Strays(Run(env, maxFlows, before), events[|events| - 1])
  }

  /** The store is tidy after every prefix of a run exactly when no event of the run strays. */
  lemma {:induction false} TidyThroughout(env: Env, maxFlows: nat, events: seq<Event>)
    requires maxFlows > 0
    ensures AlwaysTidy(env, maxFlows, events) <==> NeverStrays(env, maxFlows, events)
    decreases |events|
  {
    hide Apply, Tidy, Strays;
    if events == [] {
      EmptyIsTidy();
    } else {
      var before := events[..|events| - 1];
      TidyThroughout(env, maxFlows, before);
      if AlwaysTidy(env, maxFlows, before) {
        TidyUnlessStraying(env, maxFlows, Run(env, maxFlows, before), events[|events| - 1]);
      }
    }
  }

  lemma EmptyIsTidy()
    ensures Tidy(EMPTY)
  {
  }

  /** A protocol detected for a flow that was evicted, or never opened, leaves a decoder behind. */
  lemma StrayingHappens(env: Env)
    ensures var events := [Event(1, 0, ProtocolDetected(Ascii("http1")))]; !Tidy(Run(env, 1, events))
  {
    var e := Event(1, 0, ProtocolDetected(Ascii("http1")));
    assert [e][..0] == [];
    assert Run(env, 1, [e]) == Apply(env, 1, EMPTY, e);
    assert 1 in Run(env, 1, [e]).decoders && !Retained(Run(env, 1, [e]), 1);
  }
}
