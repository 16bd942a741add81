/** Nothing a decoder reports about a stored flow is lost, reordered or given to another flow. */
module StoreConservation {
  import opened ByteStrings
  import opened Streaming
  import opened Store
  import opened Sequences
  import opened StoreRetention
  import opened StoreLatency

  function RecordsFor(entries: seq<Entry>, flow: FlowId): seq<MessageRecord> {
    if entries == [] then []
    else
      var before := RecordsFor(entries[..|entries| - 1], flow);
      var e := entries[|entries| - 1];
      if e.flow == flow then before + [e.record] else before
  }

  /** Each stored flow holds exactly the records made for it, in order. */
  predicate Complete(s: State, entries: seq<Entry>) {
    forall i :: 0 <= i < |s.flows| ==> s.flows[i].messages == RecordsFor(entries, s.flows[i].id)
  }

  lemma AddRecord(entries: seq<Entry>, e: Entry, flow: FlowId)
    ensures RecordsFor(entries + [e], flow) == if e.flow == flow then RecordsFor(entries, flow) + [e.record] else RecordsFor(entries, flow)
  {
    assert (entries + [e])[..|entries + [e]| - 1] == entries;
  }

  lemma ChangeIsComplete(s: State, id: FlowId, c: Change, entries: seq<Entry>)
    requires Complete(s, entries) && !c.Append?
    ensures Complete(ChangeFlow(s, id, c), entries)
  {
    hide RecordsFor;
  }

  lemma AppendIsComplete(s: State, flow: FlowId, m: DecodedMessage, record: MessageRecord, entries: seq<Entry>)
    requires Complete(s, entries) && Distinct(Ids(s.flows))
    ensures Complete(ChangeFlow(s, flow, Append(record)), entries + [Entry(flow, m, record)])
  {
    hide RecordsFor, Distinct;
    var r := ChangeFlow(s, flow, Append(record));
    forall i | 0 <= i < |r.flows|
      ensures r.flows[i].messages == RecordsFor(entries + [Entry(flow, m, record)], r.flows[i].id)
    {
      AddRecord(entries, Entry(flow, m, record), r.flows[i].id);
      if s.flows[i].id == flow { DistinctAt(Ids(s.flows), i, IndexOf(s.flows, flow).value); }
    }
  }

  lemma MessageIsComplete(env: Env, s: State, flow: FlowId, at: nat, m: DecodedMessage, entries: seq<Entry>)
    requires Complete(s, entries) && Distinct(Ids(s.flows))
    ensures Complete(StoreMessage(env, s, flow, at, m), entries + [Entry(flow, m, RecordOf(env, s, flow, at, m))])
  {
    hide IsGrpc, PendingAfter, LatencyOf, RecordsFor, ChangeFlow, Distinct;
    var record := RecordOf(env, s, flow, at, m);
    var numbered := s.(pending := PendingAfter(s.pending, flow, at, m), nextMessageId := record.id);
    var labelled := if IsGrpc(m) then ChangeFlow(numbered, flow, Relabel(Ascii("grpc"))) else numbered;
    ChangeIsComplete(numbered, flow, Relabel(Ascii("grpc")), entries);
    ChangeKeepsShape(numbered, flow, Relabel(Ascii("grpc")));
    assert Complete(labelled, entries) && Ids(labelled.flows) == Ids(s.flows);
    AppendIsComplete(labelled, flow, m, record, entries);
    var report := Consult(env, s, flow, at, m);
    if report.Some? {
      ChangeIsComplete(ChangeFlow(labelled, flow, Append(record)), flow, Annotate(report.value), entries + [Entry(flow, m, record)]);
    }
  }

  lemma {:induction false} MessagesAreComplete(env: Env, s: State, flow: FlowId, at: nat, ms: seq<DecodedMessage>, entries: seq<Entry>)
    requires Complete(s, entries) && Distinct(Ids(s.flows))
    ensures Complete(StoreMessages(env, s, flow, at, ms), entries + MessageEntries(env, s, flow, at, ms))
    decreases |ms|
  {
    hide StoreMessage, Complete, Distinct, RecordOf;
    if ms == [] {
      assert entries + [] == entries;
    } else {
      var next := StoreMessage(env, s, flow, at, ms[0]);
      var entry := Entry(flow, ms[0], RecordOf(env, s, flow, at, ms[0]));
      MessageIsComplete(env, s, flow, at, ms[0], entries);
      MessageKeepsShape(env, s, flow, at, ms[0]);
      MessagesAreComplete(env, next, flow, at, ms[1..], entries + [entry]);
      assert entries + [entry] + MessageEntries(env, next, flow, at, ms[1..]) == entries + MessageEntries(env, s, flow, at, ms);
    }
  }

  lemma BatchIsComplete(env: Env, s: State, flow: FlowId, at: nat, report: Report, entries: seq<Entry>)
    requires Complete(s, entries) && Distinct(Ids(s.flows))
    ensures Complete(StoreBatch(env, s, flow, at, report), entries + BatchEntries(env, s, flow, at, report))
  {
    hide StoreMessages, MessageEntries, Complete, Distinct, ChangeFlow;
    if report.desynchronized.Some? {
      ChangeIsComplete(s, flow, Desynchronize(report.desynchronized.value), entries);
      ChangeKeepsShape(s, flow, Desynchronize(report.desynchronized.value));
      MessagesAreComplete(env, ChangeFlow(s, flow, Desynchronize(report.desynchronized.value)), flow, at, report.messages, entries);
    } else {
      MessagesAreComplete(env, s, flow, at, report.messages, entries);
    }
  }

  lemma ShutIsComplete(env: Env, s: State, flow: FlowId, at: nat, entries: seq<Entry>)
    requires Complete(s, entries) && Distinct(Ids(s.flows))
    ensures Complete(Shut(env, s, flow, at), entries + ShutEntries(env, s, flow, at))
  {
    hide StoreBatch, BatchEntries, ClientEnd, ServerEnd, RecordsFor, Distinct;
    if flow !in s.decoders {
      assert entries + [] == entries;
    } else {
      var d := s.decoders[flow];
      var removed := s.(decoders := s.decoders - {flow});
      var client := StoreBatch(env, removed, flow, at, ClientEnd(env, d));
      var first := BatchEntries(env, removed, flow, at, ClientEnd(env, d));
      var second := BatchEntries(env, client, flow, at, ServerEnd(env, d));
      BatchIsComplete(env, removed, flow, at, ClientEnd(env, d), entries);
      BatchKeepsShape(env, removed, flow, at, ClientEnd(env, d));
      BatchIsComplete(env, client, flow, at, ServerEnd(env, d), entries + first);
      assert entries + first + second == entries + (first + second);
    }
  }

  lemma OpeningIsComplete(s: State, maxFlows: nat, e: Event, entries: seq<Entry>)
    requires Complete(s, entries) && e.kind.Opened? && RecordsFor(entries, e.flow) == []
    ensures Complete(OpenFlow(Evict(maxFlows, s), e), entries)
  {
    hide RecordsFor, DecoderFor;
  }

  lemma EventIsComplete(env: Env, maxFlows: nat, s: State, e: Event, entries: seq<Entry>)
    requires Complete(s, entries) && Distinct(Ids(s.flows))
    requires e.kind.Opened? ==> RecordsFor(entries, e.flow) == []
    ensures Complete(Apply(env, maxFlows, s, e), entries + EventEntries(env, s, e))
  {
    hide ChangeFlow, StoreBatch, BatchEntries, Shut, ShutEntries, OpenFlow, Evict, RecordsFor, Distinct, DecoderFor;
    assert entries + [] == entries;
    match e.kind
    case Opened(_, _, _) => OpeningIsComplete(s, maxFlows, e, entries);
    case Identified(identity) => ChangeIsComplete(s, e.flow, Identify(identity), entries);
    case ProtocolDetected(name) => ChangeIsComplete(s, e.flow, Relabel(name), entries);
    case Transferred(direction, count) => ChangeIsComplete(s, e.flow, Count(direction, count), entries);
    case Data(direction, bytes) =>
      if e.flow in s.decoders {
        var d := Given(s.decoders[e.flow], Push(direction, bytes));
        BatchIsComplete(env, s.(decoders := s.decoders[e.flow := d]), e.flow, e.at, env.decode(d), entries);
      }
    case FlowClosed =>
      ShutIsComplete(env, s, e.flow, e.at, entries);
      ChangeIsComplete(Shut(env, s, e.flow, e.at), e.flow, Close, entries + ShutEntries(env, s, e.flow, e.at));
    case FlowFailed(reason) =>
      ShutIsComplete(env, s, e.flow, e.at, entries);
      ChangeIsComplete(Shut(env, s, e.flow, e.at), e.flow, Fail(reason), entries + ShutEntries(env, s, e.flow, e.at));
  }

  // ------------------------------------------------------- records name opened flows

  predicate AllFor(entries: seq<Entry>, flow: FlowId) {
    forall i :: 0 <= i < |entries| ==> entries[i].flow == flow
  }

  lemma {:induction false} MessageEntriesFor(env: Env, s: State, flow: FlowId, at: nat, ms: seq<DecodedMessage>)
    ensures AllFor(MessageEntries(env, s, flow, at, ms), flow)
    decreases |ms|
  {
    hide StoreMessage, RecordOf;
    if ms != [] { MessageEntriesFor(env, StoreMessage(env, s, flow, at, ms[0]), flow, at, ms[1..]); }
  }

  lemma BatchEntriesFor(env: Env, s: State, flow: FlowId, at: nat, report: Report)
    ensures AllFor(BatchEntries(env, s, flow, at, report), flow)
  {
    hide MessageEntries, ChangeFlow;
    MessageEntriesFor(env, if report.desynchronized.Some? then ChangeFlow(s, flow, Desynchronize(report.desynchronized.value)) else s,
                      flow, at, report.messages);
  }

  lemma EventEntriesFor(env: Env, s: State, e: Event)
    ensures AllFor(EventEntries(env, s, e), e.flow)
    ensures EventEntries(env, s, e) != [] ==> e.flow in s.decoders
  {
    hide BatchEntries, StoreBatch, ClientEnd, ServerEnd;
    if e.flow in s.decoders {
      var d := s.decoders[e.flow];
      var removed := s.(decoders := s.decoders - {e.flow});
      BatchEntriesFor(env, removed, e.flow, e.at, ClientEnd(env, d));
      BatchEntriesFor(env, StoreBatch(env, removed, e.flow, e.at, ClientEnd(env, d)), e.flow, e.at, ServerEnd(env, d));
      if e.kind.Data? {
        var fed := Given(d, Push(e.kind.direction, e.kind.bytes));
        BatchEntriesFor(env, s.(decoders := s.decoders[e.flow := fed]), e.flow, e.at, env.decode(fed));
      }
    }
  }

  lemma {:induction false} NoRecordsFor(entries: seq<Entry>, flow: FlowId)
    requires forall i :: 0 <= i < |entries| ==> entries[i].flow != flow
    ensures RecordsFor(entries, flow) == []
    decreases |entries|
  {
    if entries != [] { NoRecordsFor(entries[..|entries| - 1], flow); }
  }

  /** Without stray decoders, records are made only for flows that were opened. */
  lemma {:induction false} RecordsAreForOpened(env: Env, maxFlows: nat, events: seq<Event>)
    requires maxFlows > 0 && NeverStrays(env, maxFlows, events)
    ensures forall i :: 0 <= i < |Recorded(env, maxFlows, events)| ==> Recorded(env, maxFlows, events)[i].flow in Opens(events)
    decreases |events|
  {
    hide Apply, EventEntries, Strays;
    if events != [] {
      var before := events[..|events| - 1];
      var e := events[|events| - 1];
      var s := Run(env, maxFlows, before);
      RecordsAreForOpened(env, maxFlows, before);
      EventEntriesFor(env, s, e);
      TidyThroughout(env, maxFlows, before);
      RetainsTheLastOpened(env, maxFlows, before);
      assert e.flow in s.decoders ==> Retained(s, e.flow);
    }
  }

  lemma DistinctPrefix(events: seq<Event>)
    requires events != [] && Distinct(Opens(events))
    ensures var before := events[..|events| - 1];
            && Distinct(Opens(before))
            && (events[|events| - 1].kind.Opened? ==> events[|events| - 1].flow !in Opens(before))
  {
    var before, e := events[..|events| - 1], events[|events| - 1];
    if e.kind.Opened? {
      DistinctAppend(Opens(before), [e.flow]);
      assert e.flow in Elements([e.flow]);
    }
  }

  lemma SuffixIsDistinct(s: seq<FlowId>, n: nat)
    requires Distinct(s)
    ensures Distinct(LastOf(s, n))
  {
    assert s == s[..Monus(|s|, n)] + LastOf(s, n);
    DistinctAppend(s[..Monus(|s|, n)], LastOf(s, n));
  }

  /** When flow ids are not reused and no decoder strays, each stored flow holds exactly the records
      its decoder reports led to, in order. */
  lemma {:induction false} FlowsKeepTheirMessages(env: Env, maxFlows: nat, events: seq<Event>)
    requires maxFlows > 0 && NeverStrays(env, maxFlows, events) && Distinct(Opens(events))
    ensures Complete(Run(env, maxFlows, events), Recorded(env, maxFlows, events))
    decreases |events|
  {
    hide Apply, EventEntries, Strays, Complete, RecordsFor, Distinct;
    if events == [] {
      assert Complete(EMPTY, []) by { EmptyIsComplete(); }
    } else {
      var before := events[..|events| - 1];
      var e := events[|events| - 1];
      DistinctPrefix(events);
      FlowsKeepTheirMessages(env, maxFlows, before);
      RetainsTheLastOpened(env, maxFlows, before);
      SuffixIsDistinct(Opens(before), maxFlows);
      RecordsAreForOpened(env, maxFlows, before);
      if e.kind.Opened? { NoRecordsFor(Recorded(env, maxFlows, before), e.flow); }
      EventIsComplete(env, maxFlows, Run(env, maxFlows, before), e, Recorded(env, maxFlows, before));
    }
  }

  lemma EmptyIsComplete()
    ensures Complete(EMPTY, [])
  {
  }
}
