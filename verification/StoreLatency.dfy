/** How responses are paired with the requests that wait for them. */
module StoreLatency {
  import opened ByteStrings
  import opened Streaming
  import opened Text
  import opened Store

  /** What a run means for waiting requests: one is asked, one is answered, or a flow is forgotten. */
  datatype Act =
    | Ask(key: Key, at: nat)
    | Answer(key: Key, at: nat)
    | Forget(flow: FlowId, at: nat)

  /** The stream a message names, or the flow's only one. */
  function StreamOf(m: DecodedMessage): Bytes {
    if HeaderValue(m.headers, Ascii("lens-stream-id")).Some? then HeaderValue(m.headers, Ascii("lens-stream-id")).value else []
  }

  lemma KeyIsStream(flow: FlowId, m: DecodedMessage)
    ensures KeyOf(flow, m) == (flow, StreamOf(m))
  {
    hide HeaderValue, Ascii;
  }

  function MessageActs(flow: FlowId, at: nat, m: DecodedMessage): seq<Act> {
    var boundary := HeaderValue(m.headers, Ascii("lens-boundary"));
    if boundary == Some(Ascii("request")) then [Ask((flow, StreamOf(m)), at)]
    else if boundary == Some(Ascii("response")) then [Answer((flow, StreamOf(m)), at)]
    else []
  }

  function BatchActs(flow: FlowId, at: nat, ms: seq<DecodedMessage>): seq<Act> {
    if ms == [] then [] else MessageActs(flow, at, ms[0]) + BatchActs(flow, at, ms[1..])
  }

  function EventActs(env: Env, maxFlows: nat, s: State, e: Event): seq<Act> {
    match e.kind
    case Opened(_, _, _) => if |s.flows| == maxFlows && s.flows != [] then [Forget(s.flows[0].id, e.at)] else []
    case Data(direction, bytes) =>
      if e.flow in s.decoders then BatchActs(e.flow, e.at, env.decode(Given(s.decoders[e.flow], Push(direction, bytes))).messages) else []
    case FlowClosed => ShutActs(env, s, e.flow, e.at)
    case FlowFailed(_) => ShutActs(env, s, e.flow, e.at)
    case _ => []
  }

  function ShutActs(env: Env, s: State, flow: FlowId, at: nat): seq<Act> {
    (if flow in s.decoders then
       BatchActs(flow, at, ClientEnd(env, s.decoders[flow]).messages) + BatchActs(flow, at, ServerEnd(env, s.decoders[flow]).messages)
     else []) + [Forget(flow, at)]
  }

  function Trace(env: Env, maxFlows: nat, events: seq<Event>): seq<Act> {
    if events == [] then []
    else
      var before := events[..|events| - 1];
      Trace(env, maxFlows, before) + EventActs(env, maxFlows, Run(env, maxFlows, before), events[|events| - 1])
  }

  // -------------------------------------------------------- the records a run makes

  /** A record, and the decoded message it was made from. */
  datatype Entry = Entry(flow: FlowId, decoded: DecodedMessage, record: MessageRecord)

  function MessageEntries(env: Env, s: State, flow: FlowId, at: nat, ms: seq<DecodedMessage>): seq<Entry>
    decreases |ms|
  {
    if ms == [] then []
    else [Entry(flow, ms[0], RecordOf(env, s, flow, at, ms[0]))] + MessageEntries(env, StoreMessage(env, s, flow, at, ms[0]), flow, at, ms[1..])
  }

  function BatchEntries(env: Env, s: State, flow: FlowId, at: nat, report: Report): seq<Entry> {
    var warned := match report.desynchronized
      case None => s
      case Some(reason) => ChangeFlow(s, flow, Desynchronize(reason));
    MessageEntries(env, warned, flow, at, report.messages)
  }

  function ShutEntries(env: Env, s: State, flow: FlowId, at: nat): seq<Entry> {
    if flow !in s.decoders then []
    else
      var d := s.decoders[flow];
      var removed := s.(decoders := s.decoders - {flow});
      BatchEntries(env, removed, flow, at, ClientEnd(env, d))
      + BatchEntries(env, StoreBatch(env, removed, flow, at, ClientEnd(env, d)), flow, at, ServerEnd(env, d))
  }

  function EventEntries(env: Env, s: State, e: Event): seq<Entry> {
    match e.kind
    case Data(direction, bytes) =>
      if e.flow !in s.decoders then []
      else
        var d := Given(s.decoders[e.flow], Push(direction, bytes));
        BatchEntries(env, s.(decoders := s.decoders[e.flow := d]), e.flow, e.at, env.decode(d))
    case FlowClosed => ShutEntries(env, s, e.flow, e.at)
    case FlowFailed(_) => ShutEntries(env, s, e.flow, e.at)
    case _ => []
  }

  /** Every message record a run makes, in order, whether or not its flow is still stored. */
  function Recorded(env: Env, maxFlows: nat, events: seq<Event>): seq<Entry> {
    if events == [] then []
    else
      var before := events[..|events| - 1];
      Recorded(env, maxFlows, before) + EventEntries(env, Run(env, maxFlows, before), events[|events| - 1])
  }

  /** The latencies recorded for the responses of one key. */
  function Outcomes(entries: seq<Entry>, k: Key): seq<Option<nat>> {
    if entries == [] then []
    else
      var before := Outcomes(entries[..|entries| - 1], k);
      var e := entries[|entries| - 1];
      if IsResponse(e.decoded) && KeyOf(e.flow, e.decoded) == k then before + [e.record.latency] else before
  }

  // ------------------------------------------------------------ one queue at a time

  /** Positions of the requests that wait under one key. */
  function Queue(acts: seq<Act>, k: Key): seq<nat> {
    if acts == [] then []
    else
      var before := Queue(acts[..|acts| - 1], k);
      match acts[|acts| - 1]
      case Ask(k', _) => if k' == k then before + [|acts| - 1] else before
      case Answer(k', _) => if k' == k && before != [] then before[1..] else before
      case Forget(flow, _) => if flow == k.0 then [] else before
  }

  /** An answer takes the request at the front of its queue. */
  predicate Takes(acts: seq<Act>, p: nat, q: nat) {
    && p < |acts| && acts[p].Answer?
    && Queue(acts[..p], acts[p].key) != []
    && Queue(acts[..p], acts[p].key)[0] == q
  }

  /** A request of this key that no answer has taken and no close or eviction has dropped. */
  ghost predicate Unmatched(acts: seq<Act>, k: Key, q: nat) {
    && q < |acts| && acts[q].Ask? && acts[q].key == k
    && (forall r :: q < r < |acts| ==> !(acts[r].Forget? && acts[r].flow == k.0))
    && !Taken(acts, q)
  }

  ghost predicate Taken(acts: seq<Act>, q: nat) {
    exists p: nat :: Takes(acts, p, q)
  }

  lemma {:induction false} QueueHoldsAsks(acts: seq<Act>, k: Key)
    ensures forall i :: 0 <= i < |Queue(acts, k)| ==> var q := Queue(acts, k)[i]; q < |acts| && acts[q].Ask? && acts[q].key == k
    decreases |acts|
  {
    if acts != [] {
      var before := acts[..|acts| - 1];
      QueueHoldsAsks(before, k);
      assert forall q :: 0 <= q < |before| ==> before[q] == acts[q];
    }
  }

  lemma {:induction false} QueueIsSorted(acts: seq<Act>, k: Key)
    ensures forall i, j :: 0 <= i < j < |Queue(acts, k)| ==> Queue(acts, k)[i] < Queue(acts, k)[j]
    decreases |acts|
  {
    if acts != [] {
      QueueIsSorted(acts[..|acts| - 1], k);
      QueueHoldsAsks(acts[..|acts| - 1], k);
    }
  }

  lemma TakesGrows(acts: seq<Act>, q: nat)
    requires acts != []
    ensures Taken(acts, q) <==> Taken(acts[..|acts| - 1], q) || Takes(acts, |acts| - 1, q)
  {
    hide Queue;
    var before := acts[..|acts| - 1];
    forall p: nat | p < |before|
      ensures Takes(acts, p, q) <==> Takes(before, p, q)
    {
      assert acts[..p] == before[..p];
    }
  }

  lemma TakenIsEarlier(acts: seq<Act>, q: nat)
    ensures Taken(acts, q) ==> q < |acts|
  {
    hide Queue;
    if Taken(acts, q) {
      var p: nat :| Takes(acts, p, q);
      QueueHoldsAsks(acts[..p], acts[p].key);
    }
  }

  /** The queue of a key is exactly its unmatched requests. */
  lemma {:induction false} QueueIsUnmatched(acts: seq<Act>, k: Key, q: nat)
    ensures q in Queue(acts, k) <==> Unmatched(acts, k, q)
    decreases |acts|
  {
    hide Takes, Taken;
    if acts != [] {
      var before := acts[..|acts| - 1];
      QueueIsUnmatched(before, k, q);
      QueueHoldsAsks(before, k);
      QueueIsSorted(before, k);
      TakesGrows(acts, q);
      TakenIsEarlier(before, q);
      LastTakes(acts, q);
      UnmatchedGrows(acts, k, q);
    }
  }

  lemma LastTakes(acts: seq<Act>, q: nat)
    requires acts != []
    ensures var last := acts[|acts| - 1];
            var before := acts[..|acts| - 1];
            && (Takes(acts, |acts| - 1, q) <==> last.Answer? && Queue(before, last.key) != [] && Queue(before, last.key)[0] == q)
            && (Takes(acts, |acts| - 1, q) ==> q < |before| && acts[q].Ask? && acts[q].key == last.key)
  {
    hide Queue;
    if acts[|acts| - 1].Answer? { QueueHoldsAsks(acts[..|acts| - 1], acts[|acts| - 1].key); }
  }

  lemma UnmatchedGrows(acts: seq<Act>, k: Key, q: nat)
    requires acts != []
    ensures var last := acts[|acts| - 1];
            var before := acts[..|acts| - 1];
            Unmatched(acts, k, q) <==>
              if q == |before| then last.Ask? && last.key == k
              else Unmatched(before, k, q) && !(last.Forget? && last.flow == k.0) && !Takes(acts, |acts| - 1, q)
  {
    hide Takes, Taken;
    var before := acts[..|acts| - 1];
    TakesGrows(acts, q);
    TakenIsEarlier(before, q);
    LastTakes(acts, q);
    assert forall r :: 0 <= r < |before| ==> before[r] == acts[r];
  }

  /** Every response takes the earliest unmatched request of its own key, and nothing else. */
  lemma TakesTheEarliest(acts: seq<Act>, p: nat, q: nat)
    requires p < |acts| && acts[p].Answer?
    ensures Takes(acts, p, q) <==>
              && Unmatched(acts[..p], acts[p].key, q)
              && forall q': nat :: q' < q ==> !Unmatched(acts[..p], acts[p].key, q')
  {
    hide Queue, Unmatched;
    var before, k := acts[..p], acts[p].key;
    var queue := Queue(before, k);
    QueueIsSorted(before, k);
    forall r: nat
      ensures r in queue <==> Unmatched(before, k, r)
    {
      QueueIsUnmatched(before, k, r);
    }
    if queue != [] {
      assert Unmatched(before, k, queue[0]);
      assert forall r: nat :: r in queue ==> queue[0] <= r;
    }
  }

  /** No request is matched twice. */
  lemma NeverTakenTwice(acts: seq<Act>, p: nat, p': nat, q: nat)
    requires Takes(acts, p, q) && Takes(acts, p', q)
    ensures p == p'
  {
    hide Queue;
    if p < p' {
      StillTaken(acts, p, p', q);
    } else if p' < p {
      StillTaken(acts, p', p, q);
    }
  }

  lemma StillTaken(acts: seq<Act>, p: nat, p': nat, q: nat)
    requires p < p' < |acts| && Takes(acts, p, q)
    ensures !Takes(acts, p', q)
  {
    hide Queue;
    assert acts[..p'][..p] == acts[..p];
    assert Takes(acts[..p'], p, q);
    if acts[p'].Answer? { TakesTheEarliest(acts, p', q); }
  }

  // -------------------------------------------------------------------- latencies

  function TimesAfter(before: seq<nat>, a: Act, k: Key): seq<nat> {
    match a
    case Ask(k', at) => if k' == k then before + [at] else before
    case Answer(k', _) => if k' == k && before != [] then before[1..] else before
    case Forget(flow, _) => if flow == k.0 then [] else before
  }

  /** Start times of the requests that wait under one key. */
  function Times(acts: seq<Act>, k: Key): seq<nat> {
    if acts == [] then [] else TimesAfter(Times(acts[..|acts| - 1], k), acts[|acts| - 1], k)
  }

  function Elapsed(times: seq<nat>, at: nat): Option<nat> {
    if times == [] then None else Some(Monus(at, times[0]))
  }

  /** What the responses of one key are told, in order. */
  function Latencies(acts: seq<Act>, k: Key): seq<Option<nat>> {
    if acts == [] then []
    else
      var before := acts[..|acts| - 1];
      var last := acts[|acts| - 1];
      Latencies(before, k) + if last.Answer? && last.key == k then [Elapsed(Times(before, k), last.at)] else []
  }

  lemma {:induction false} TimesOfQueue(acts: seq<Act>, k: Key)
    ensures |Times(acts, k)| == |Queue(acts, k)|
    ensures forall i :: 0 <= i < |Times(acts, k)| ==> Queue(acts, k)[i] < |acts| && Times(acts, k)[i] == acts[Queue(acts, k)[i]].at
    decreases |acts|
  {
    if acts != [] {
      var before := acts[..|acts| - 1];
      TimesOfQueue(before, k);
      assert forall r :: 0 <= r < |before| ==> before[r] == acts[r];
    }
  }

  predicate Monotone(acts: seq<Act>) {
    forall i, j :: 0 <= i <= j < |acts| ==> acts[i].at <= acts[j].at
  }

  /** A response is told the time since the request it takes, or nothing when none waits; under a
      clock that never goes back the subtraction is exact. */
  lemma LatencyIsElapsed(acts: seq<Act>, p: nat)
    requires p < |acts| && acts[p].Answer?
    ensures var r := Elapsed(Times(acts[..p], acts[p].key), acts[p].at);
            && (r.None? <==> !exists q: nat :: Takes(acts, p, q))
            && (forall q: nat :: Takes(acts, p, q) ==>
                  && q < p && r == Some(Monus(acts[p].at, acts[q].at))
                  && (Monotone(acts) ==> r.value + acts[q].at == acts[p].at))
  {
    hide Queue, Times;
    var before, k := acts[..p], acts[p].key;
    TimesOfQueue(before, k);
    if Queue(before, k) != [] {
      assert Takes(acts, p, Queue(before, k)[0]);
    }
  }

  // --------------------------------------------------------------------- locality

  predicate Concerns(a: Act, k: Key) {
    match a
    case Ask(k', _) => k' == k
    case Answer(k', _) => k' == k
    case Forget(flow, _) => flow == k.0
  }

  /** The sub-trace of one key. */
  function Project(acts: seq<Act>, k: Key): seq<Act> {
    if acts == [] then []
    else
      var before := Project(acts[..|acts| - 1], k);
      if Concerns(acts[|acts| - 1], k) then before + [acts[|acts| - 1]] else before
  }

  lemma {:induction false} ProjectKeeps(acts: seq<Act>, k: Key)
    ensures Times(Project(acts, k), k) == Times(acts, k)
    ensures Latencies(Project(acts, k), k) == Latencies(acts, k)
    decreases |acts|
  {
    if acts != [] {
      var before := acts[..|acts| - 1];
      var last := acts[|acts| - 1];
      ProjectKeeps(before, k);
      if Concerns(last, k) {
        assert Project(acts, k)[..|Project(acts, k)| - 1] == Project(before, k);
      }
    }
  }

  // ------------------------------------------------------- the store keeps to this

  /** The store's table and records say what the trace says about one key. */
  predicate Agrees(s: State, acts: seq<Act>, entries: seq<Entry>, k: Key) {
    Waiting(s.pending, k) == Times(acts, k) && Outcomes(entries, k) == Latencies(acts, k)
  }

  lemma AddAct(acts: seq<Act>, a: Act, k: Key)
    ensures Times(acts + [a], k) == TimesAfter(Times(acts, k), a, k)
    ensures Latencies(acts + [a], k) ==
              Latencies(acts, k) + if a.Answer? && a.key == k then [Elapsed(Times(acts, k), a.at)] else []
  {
    assert (acts + [a])[..|acts + [a]| - 1] == acts;
  }

  lemma AddEntry(entries: seq<Entry>, e: Entry, k: Key)
    ensures Outcomes(entries + [e], k) ==
              Outcomes(entries, k) + if IsResponse(e.decoded) && KeyOf(e.flow, e.decoded) == k then [e.record.latency] else []
  {
    hide IsResponse, KeyOf;
    assert (entries + [e])[..|entries + [e]| - 1] == entries;
  }

  lemma StoreMessagePending(env: Env, s: State, flow: FlowId, at: nat, m: DecodedMessage)
    ensures StoreMessage(env, s, flow, at, m).pending == PendingAfter(s.pending, flow, at, m)
  {
    hide PendingAfter, LatencyOf, IsGrpc;
  }

  lemma MessageAgrees(env: Env, s: State, flow: FlowId, at: nat, m: DecodedMessage, acts: seq<Act>, entries: seq<Entry>, k: Key)
    requires Agrees(s, acts, entries, k)
    ensures Agrees(StoreMessage(env, s, flow, at, m), acts + MessageActs(flow, at, m), entries + [Entry(flow, m, RecordOf(env, s, flow, at, m))], k)
  {
    hide StoreMessage, HeaderValue, KeyOf, StreamOf, Times, Latencies, Outcomes, Ascii;
    KeyIsStream(flow, m);
    StoreMessagePending(env, s, flow, at, m);
    AddEntry(entries, Entry(flow, m, RecordOf(env, s, flow, at, m)), k);
    if IsRequest(m) {
      AddAct(acts, Ask(KeyOf(flow, m), at), k);
    } else if IsResponse(m) {
      AddAct(acts, Answer(KeyOf(flow, m), at), k);
    } else {
      assert acts + [] == acts;
    }
  }

  lemma {:induction false} MessagesAgree(env: Env, s: State, flow: FlowId, at: nat, ms: seq<DecodedMessage>, acts: seq<Act>, entries: seq<Entry>, k: Key)
    requires Agrees(s, acts, entries, k)
    ensures Agrees(StoreMessages(env, s, flow, at, ms), acts + BatchActs(flow, at, ms), entries + MessageEntries(env, s, flow, at, ms), k)
    decreases |ms|
  {
    hide Agrees, StoreMessage, MessageActs, RecordOf;
    if ms == [] {
      assert acts + [] == acts && entries + [] == entries;
    } else {
      var entry := Entry(flow, ms[0], RecordOf(env, s, flow, at, ms[0]));
      var next := StoreMessage(env, s, flow, at, ms[0]);
      MessageAgrees(env, s, flow, at, ms[0], acts, entries, k);
      MessagesAgree(env, next, flow, at, ms[1..], acts + MessageActs(flow, at, ms[0]), entries + [entry], k);
      assert acts + MessageActs(flow, at, ms[0]) + BatchActs(flow, at, ms[1..]) == acts + BatchActs(flow, at, ms);
      assert entries + [entry] + MessageEntries(env, next, flow, at, ms[1..]) == entries + MessageEntries(env, s, flow, at, ms);
    }
  }

  lemma BatchAgrees(env: Env, s: State, flow: FlowId, at: nat, report: Report, acts: seq<Act>, entries: seq<Entry>, k: Key)
    requires Agrees(s, acts, entries, k)
    ensures Agrees(StoreBatch(env, s, flow, at, report), acts + BatchActs(flow, at, report.messages), entries + BatchEntries(env, s, flow, at, report), k)
  {
    hide StoreMessages, MessageEntries, Times, Latencies, Outcomes;
    var warned := if report.desynchronized.Some? then ChangeFlow(s, flow, Desynchronize(report.desynchronized.value)) else s;
    MessagesAgree(env, warned, flow, at, report.messages, acts, entries, k);
  }

  lemma ForgetAgrees(s: State, flow: FlowId, at: nat, acts: seq<Act>, entries: seq<Entry>, k: Key)
    requires Agrees(s, acts, entries, k)
    ensures Agrees(ForgetFlow(s, flow), acts + [Forget(flow, at)], entries, k)
  {
    hide Times, Latencies, Outcomes;
    AddAct(acts, Forget(flow, at), k);
  }

  lemma ShutAgrees(env: Env, s: State, flow: FlowId, at: nat, acts: seq<Act>, entries: seq<Entry>, k: Key)
    requires Agrees(s, acts, entries, k)
    ensures Agrees(Shut(env, s, flow, at), acts + ShutActs(env, s, flow, at), entries + ShutEntries(env, s, flow, at), k)
  {
    hide StoreBatch, BatchActs, BatchEntries, ClientEnd, ServerEnd, Times, Latencies, Outcomes, ForgetFlow;
    if flow !in s.decoders {
      ForgetAgrees(s, flow, at, acts, entries, k);
      assert [] + [Forget(flow, at)] == [Forget(flow, at)] && entries + [] == entries;
    } else {
      var d := s.decoders[flow];
      var removed := s.(decoders := s.decoders - {flow});
      var client := StoreBatch(env, removed, flow, at, ClientEnd(env, d));
      var acts1 := BatchActs(flow, at, ClientEnd(env, d).messages);
      var acts2 := BatchActs(flow, at, ServerEnd(env, d).messages);
      var entries1 := BatchEntries(env, removed, flow, at, ClientEnd(env, d));
      var entries2 := BatchEntries(env, client, flow, at, ServerEnd(env, d));
      BatchAgrees(env, removed, flow, at, ClientEnd(env, d), acts, entries, k);
      BatchAgrees(env, client, flow, at, ServerEnd(env, d), acts + acts1, entries + entries1, k);
      ForgetAgrees(StoreBatch(env, client, flow, at, ServerEnd(env, d)), flow, at, acts + acts1 + acts2, entries + entries1 + entries2, k);
      assert acts + acts1 + acts2 + [Forget(flow, at)] == acts + (acts1 + acts2 + [Forget(flow, at)]);
      assert entries + entries1 + entries2 == entries + (entries1 + entries2);
    }
  }

  lemma EventAgrees(env: Env, maxFlows: nat, s: State, e: Event, acts: seq<Act>, entries: seq<Entry>, k: Key)
    requires Agrees(s, acts, entries, k)
    ensures Agrees(Apply(env, maxFlows, s, e), acts + EventActs(env, maxFlows, s, e), entries + EventEntries(env, s, e), k)
  {
    hide StoreBatch, BatchActs, BatchEntries, Shut, ShutActs, ShutEntries, Times, Latencies, Outcomes, ForgetFlow, DecoderFor, Changed;
    assert acts + [] == acts && entries + [] == entries;
    match e.kind
    case Opened(_, _, _) =>
      if |s.flows| == maxFlows && s.flows != [] { ForgetAgrees(s, s.flows[0].id, e.at, acts, entries, k); }
    case Data(direction, bytes) =>
      if e.flow in s.decoders {
        var d := Given(s.decoders[e.flow], Push(direction, bytes));
        BatchAgrees(env, s.(decoders := s.decoders[e.flow := d]), e.flow, e.at, env.decode(d), acts, entries, k);
      }
    case FlowClosed => ShutAgrees(env, s, e.flow, e.at, acts, entries, k);
    case FlowFailed(_) => ShutAgrees(env, s, e.flow, e.at, acts, entries, k);
    case _ =>
  }

  /** Over any run, the requests that wait under a key and the latencies recorded for its responses
      are those of the trace. */
  lemma {:induction false} RunAgrees(env: Env, maxFlows: nat, events: seq<Event>, k: Key)
    ensures var acts := Trace(env, maxFlows, events);
            && Waiting(Run(env, maxFlows, events).pending, k) == Times(acts, k)
            && Outcomes(Recorded(env, maxFlows, events), k) == Latencies(acts, k)
    decreases |events|
  {
    hide Apply, EventActs, EventEntries;
    if events != [] {
      var before := events[..|events| - 1];
      RunAgrees(env, maxFlows, before, k);
      EventAgrees(env, maxFlows, Run(env, maxFlows, before), events[|events| - 1],
                  Trace(env, maxFlows, before), Recorded(env, maxFlows, before), k);
    }
  }

  /** What a key's responses are told depends on that key's sub-trace alone. */
  lemma KeysAreIndependent(env: Env, maxFlows: nat, env': Env, maxFlows': nat, a: seq<Event>, b: seq<Event>, k: Key)
    requires Project(Trace(env, maxFlows, a), k) == Project(Trace(env', maxFlows', b), k)
    ensures Outcomes(Recorded(env, maxFlows, a), k) == Outcomes(Recorded(env', maxFlows', b), k)
  {
    hide Trace, Recorded, Outcomes, Latencies, Project, Run;
    RunAgrees(env, maxFlows, a, k);
    RunAgrees(env', maxFlows', b, k);
    ProjectKeeps(Trace(env, maxFlows, a), k);
    ProjectKeeps(Trace(env', maxFlows', b), k);
  }

  // ------------------------------------------------------------------------- clock

  predicate AllAt(acts: seq<Act>, at: nat) {
    forall i :: 0 <= i < |acts| ==> acts[i].at == at
  }

  lemma {:induction false} BatchActsAt(flow: FlowId, at: nat, ms: seq<DecodedMessage>)
    ensures AllAt(BatchActs(flow, at, ms), at)
    decreases |ms|
  {
    hide IsRequest, IsResponse, KeyOf;
    if ms != [] { BatchActsAt(flow, at, ms[1..]); }
  }

  lemma EventActsAt(env: Env, maxFlows: nat, s: State, e: Event)
    ensures AllAt(EventActs(env, maxFlows, s, e), e.at)
  {
    hide BatchActs, ClientEnd, ServerEnd;
    match e.kind
    case Data(direction, bytes) =>
      if e.flow in s.decoders { BatchActsAt(e.flow, e.at, env.decode(Given(s.decoders[e.flow], Push(direction, bytes))).messages); }
    case FlowClosed =>
      if e.flow in s.decoders {
        BatchActsAt(e.flow, e.at, ClientEnd(env, s.decoders[e.flow]).messages);
        BatchActsAt(e.flow, e.at, ServerEnd(env, s.decoders[e.flow]).messages);
      }
    case FlowFailed(_) =>
      if e.flow in s.decoders {
        BatchActsAt(e.flow, e.at, ClientEnd(env, s.decoders[e.flow]).messages);
        BatchActsAt(e.flow, e.at, ServerEnd(env, s.decoders[e.flow]).messages);
      }
    case _ =>
  }

  predicate ClockMonotone(events: seq<Event>) {
    forall i, j :: 0 <= i <= j < |events| ==> events[i].at <= events[j].at
  }

  /** A clock that never goes back gives a trace that never goes back, so every latency is exact. */
  lemma {:induction false} TraceIsMonotone(env: Env, maxFlows: nat, events: seq<Event>)
    requires ClockMonotone(events)
    ensures Monotone(Trace(env, maxFlows, events))
    ensures events != [] ==> forall i :: 0 <= i < |Trace(env, maxFlows, events)| ==> Trace(env, maxFlows, events)[i].at <= events[|events| - 1].at
    decreases |events|
  {
    hide EventActs;
    if events != [] {
      var before := events[..|events| - 1];
      TraceIsMonotone(env, maxFlows, before);
      EventActsAt(env, maxFlows, Run(env, maxFlows, before), events[|events| - 1]);
      assert before != [] ==> before[|before| - 1] == events[|before| - 1];
    }
  }
}
