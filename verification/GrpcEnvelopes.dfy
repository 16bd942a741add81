/** Lists of gRPC envelopes cut into any DATA payloads. */
module GrpcEnvelopes {
  import opened ByteStrings
  import opened Streaming
  import opened Grpc

  datatype Envelope = Envelope(compressed: bool, payload: Bytes)

  predicate Valid(e: Envelope) {
    |e.payload| < 0x1_0000_0000
  }

  predicate AllValid(es: seq<Envelope>) {
    forall i :: 0 <= i < |es| ==> Valid(es[i])
  }

  function Encode(e: Envelope): (b: Bytes)
    requires Valid(e)
    ensures |b| == 5 + |e.payload|
  {
    [if e.compressed then 1 else 0] + Encode32(|e.payload|) + e.payload
  }

  function EncodeAll(es: seq<Envelope>): Bytes
    requires AllValid(es)
  {
    if es == [] then [] else Encode(es[0]) + EncodeAll(es[1..])
  }

  /** What an envelope is reported as under a limit. */
  function Reported(at: Source, limit: nat, e: Envelope): DecodedMessage {
    EnvelopeMessage(at, e.compressed, |e.payload|, e.payload[..Min(limit, |e.payload|)], |e.payload| > limit)
  }

  function AllReported(at: Source, limit: nat, es: seq<Envelope>): seq<DecodedMessage> {
    seq(|es|, i requires 0 <= i < |es| => Reported(at, limit, es[i]))
  }

  /** The parser after `k` bytes of an envelope. */
  function Inside(limit: nat, e: Envelope, k: nat): Parser
    requires Valid(e) && k < |Encode(e)|
  {
    if k < 5 then Parser(Encode(e)[..k], None)
    else Parser([], Some(Payload(e.compressed, |e.payload|, |e.payload| - (k - 5), e.payload[..Min(limit, k - 5)], limit)))
  }

  // ------------------------------------------------------------------- stability

  lemma KeptAppend(body: Bytes, a: Bytes, b: Bytes, limit: nat)
    ensures Kept(Kept(body, a, limit), b, limit) == Kept(body, a + b, limit)
  {
    var k := Min(Monus(limit, |body|), |a|);
    var n := Min(Monus(limit, |body| + k), |b|);
    assert (a + b)[..k + n] == a[..k] + b[..n];
  }

  lemma PendingStable(at: Source, limit: nat, parser: Parser, a: Bytes, b: Bytes)
    requires parser.pending.Some?
    ensures StableAt(Stepper(at, limit), parser, a, b)
  {
    hide EnvelopeMessage, Kept, Start;
    var p := parser.pending.value;
    if |a| < p.remaining {
      assert [] + b == b;
      if |a + b| < p.remaining {
        KeptAppend(p.body, a, b, limit);
      } else {
        PayloadSplits(a, b, p.remaining);
        KeptAppend(p.body, a, b[..p.remaining - |a|], limit);
      }
    } else {
      PayloadEnds(a, b, p.remaining);
    }
  }

  lemma PayloadSplits(a: Bytes, b: Bytes, n: nat)
    requires |a| < n <= |a + b|
    ensures (a + b)[..n] == a + b[..n - |a|] && (a + b)[n..] == b[n - |a|..]
  {
  }

  lemma PayloadEnds(a: Bytes, b: Bytes, n: nat)
    requires n <= |a|
    ensures (a + b)[..n] == a[..n] && (a + b)[n..] == a[n..] + b
  {
  }

  lemma PrefixStable(at: Source, limit: nat, parser: Parser, a: Bytes, b: Bytes)
    requires parser.pending.None?
    ensures StableAt(Stepper(at, limit), parser, a, b)
  {
    hide EnvelopeMessage, Kept, Be32, Start;
    var needed := 5 - |parser.prefix|;
    if |a| < needed {
      assert [] + b == b;
      PrefixGrows(parser.prefix, a, b, needed);
    } else {
      assert (a + b)[..needed] == a[..needed];
      assert (a + b)[needed..] == a[needed..] + b;
      StartStable(at, limit, parser.prefix + a[..needed], a[needed..], b);
    }
  }

  lemma PrefixGrows(prefix: Bytes, a: Bytes, b: Bytes, needed: nat)
    requires |a| < needed
    ensures if |a + b| < needed then prefix + a + b == prefix + (a + b)
            else prefix + (a + b)[..needed] == prefix + a + b[..needed - |a|] && (a + b)[needed..] == b[needed - |a|..]
  {
    if |a + b| >= needed { assert (a + b)[..needed] == a + b[..needed - |a|]; }
  }

  lemma StartStable(at: Source, limit: nat, prefix: Bytes, rest: Bytes, b: Bytes)
    requires |prefix| == 5
    ensures match Start(at, limit, prefix, rest)
            case NeedMore(_, _) => false
            case Advance(c', r, e) => Start(at, limit, prefix, rest + b) == Advance(c', r + b, e)
            case Halt(_, _) => true
  {
    hide EnvelopeMessage, Kept, Be32;
  }

  lemma StepperStable(at: Source, limit: nat)
    ensures Stable(Stepper(at, limit))
  {
    hide Step;
    forall parser, a, b ensures StableAt(Stepper(at, limit), parser, a, b) {
      if parser.pending.Some? {
        PendingStable(at, limit, parser, a, b);
      } else {
        PrefixStable(at, limit, parser, a, b);
      }
    }
  }

  /** Cutting a payload changes nothing unless its first part is in error. */
  lemma FeedCut(at: Source, limit: nat, parser: Parser, a: Bytes, b: Bytes)
    requires !Grpc.Feed(at, limit, parser, a).halted
    ensures var r := Grpc.Feed(at, limit, parser, a);
            Grpc.Feed(at, limit, parser, a + b) == Prepend(r.batch, Grpc.Feed(at, limit, r.control, r.rest + b))
  {
    hide Step;
    StepperProductive(at, limit);
    StepperStable(at, limit);
    Cut(Stepper(at, limit), parser, a, b);
  }

  // ------------------------------------------------------------------- envelopes

  lemma PrefixOfEnvelope(at: Source, limit: nat, e: Envelope, rest: Bytes)
    requires Valid(e)
    ensures var b := Encode(e)[..5] + rest;
            var r := Step(at, limit, Ready, b);
            if e.payload == [] then r == Advance(Ready, rest, Batch([Reported(at, limit, e)], None))
            else r == Advance(Inside(limit, e, 5), rest, Quiet())
  {
    hide EnvelopeMessage, Be32, Encode32;
    var five := Encode(e)[..5];
    var b := five + rest;
    assert [] + b[..5] == five && b[5..] == rest;
    assert five[1..] == Encode32(|e.payload|);
  }

  lemma PayloadOfEnvelope(at: Source, limit: nat, e: Envelope, rest: Bytes)
    requires Valid(e) && e.payload != []
    ensures Step(at, limit, Inside(limit, e, 5), e.payload + rest)
            == Advance(Ready, rest, Batch([Reported(at, limit, e)], None))
  {
    hide EnvelopeMessage, Encode;
    var b, n := e.payload + rest, |e.payload|;
    assert b[..n] == e.payload && b[n..] == rest;
    assert [] + e.payload[..Min(limit, n)] == e.payload[..Min(limit, n)];
  }

  /** A whole envelope gives its message and a ready parser. */
  lemma WholeEnvelope(at: Source, limit: nat, e: Envelope, rest: Bytes)
    requires Valid(e)
    ensures Grpc.Feed(at, limit, Ready, Encode(e) + rest)
            == Prepend(Batch([Reported(at, limit, e)], None), Grpc.Feed(at, limit, Ready, rest))
  {
    hide Grpc.Feed, Step, EnvelopeMessage, Encode32;
    var b := Encode(e)[..5] + (e.payload + rest);
    assert Encode(e) + rest == b;
    PrefixOfEnvelope(at, limit, e, e.payload + rest);
    FeedUnfolds(at, limit, Ready, b);
    if e.payload == [] {
      assert e.payload + rest == rest;
    } else {
      PayloadOfEnvelope(at, limit, e, rest);
      FeedUnfolds(at, limit, Inside(limit, e, 5), e.payload + rest);
      JoinAssociative(Batch([Reported(at, limit, e)], None), Grpc.Feed(at, limit, Ready, rest).batch, Quiet());
      JoinAssociative(Join(Batch([Reported(at, limit, e)], None), Grpc.Feed(at, limit, Ready, rest).batch), Quiet(), Quiet());
    }
  }

  /** Part of an envelope is kept and reports nothing. */
  lemma PartOfEnvelope(at: Source, limit: nat, e: Envelope, k: nat)
    requires Valid(e) && k < |Encode(e)|
    ensures Grpc.Feed(at, limit, Ready, Encode(e)[..k]) == Drained(Inside(limit, e, k), [], Quiet(), false)
  {
    hide Grpc.Feed, EnvelopeMessage, Encode32, Be32;
    var b := Encode(e)[..k];
    if k < 5 {
      assert [] + b == b;
      FeedUnfolds(at, limit, Ready, b);
    } else {
      var part := e.payload[..k - 5];
      assert b == Encode(e)[..5] + part;
      PrefixOfEnvelope(at, limit, e, part);
      FeedUnfolds(at, limit, Ready, b);
      FeedUnfolds(at, limit, Inside(limit, e, 5), part);
      assert [] + part[..Min(limit, k - 5)] == e.payload[..Min(limit, k - 5)];
      JoinAssociative(Quiet(), Quiet<DecodedMessage, Reason>(), Quiet());
    }
  }

  /** How many envelopes a prefix of the stream completes. */
  function Completed(es: seq<Envelope>, n: nat): (j: nat)
    requires AllValid(es)
    ensures j <= |es|
  {
    if es == [] || n < |Encode(es[0])| then 0 else 1 + Completed(es[1..], n - |Encode(es[0])|)
  }

  lemma {:induction false} CompletedBounds(es: seq<Envelope>, n: nat)
    requires AllValid(es) && n <= |EncodeAll(es)|
    ensures var j := Completed(es, n);
            && |EncodeAll(es[..j])| <= n
            && (if j == |es| then n == |EncodeAll(es)| else n - |EncodeAll(es[..j])| < |Encode(es[j])|)
    decreases es
  {
    hide Encode;
    if es != [] && n >= |Encode(es[0])| {
      CompletedBounds(es[1..], n - |Encode(es[0])|);
      var j := Completed(es[1..], n - |Encode(es[0])|);
      assert es[..j + 1][1..] == es[1..][..j];
    }
    if Completed(es, n) == |es| { assert es[..|es|] == es; }
  }

  lemma {:induction false} PrefixOfStream(at: Source, limit: nat, es: seq<Envelope>, b: Bytes)
    requires AllValid(es) && b <= EncodeAll(es)
    ensures var j := Completed(es, |b|);
            && 0 <= |b| - |EncodeAll(es[..j])|
            && (j < |es| ==> |b| - |EncodeAll(es[..j])| < |Encode(es[j])|)
            && Grpc.Feed(at, limit, Ready, b)
               == Drained(if j < |es| then Inside(limit, es[j], |b| - |EncodeAll(es[..j])|) else Ready, [],
                          Batch(AllReported(at, limit, es[..j]), None), false)
    decreases es
  {
    hide Grpc.Feed, EnvelopeMessage, Encode, Reported, Inside;
    CompletedBounds(es, |b|);
    if es == [] {
      NothingToFeed(at, limit, Ready);
    } else {
      var first := Encode(es[0]);
      if |b| < |first| {
        assert b == first[..|b|];
        PartOfEnvelope(at, limit, es[0], |b|);
        assert es[..0] == [];
      } else {
        var rest := b[|first|..];
        assert b == first + rest && rest <= EncodeAll(es[1..]);
        WholeEnvelope(at, limit, es[0], rest);
        PrefixOfStream(at, limit, es[1..], rest);
        var j := Completed(es[1..], |rest|);
        assert es[..j + 1][1..] == es[1..][..j];
        assert AllReported(at, limit, es[..j + 1]) == [Reported(at, limit, es[0])] + AllReported(at, limit, es[1..][..j]);
      }
    }
  }

  function Pusher(at: Source, limit: nat): (Parser, Bytes) -> (Parser, Batch<DecodedMessage, Reason>) {
    (parser, bytes) => var r := Grpc.Feed(at, limit, parser, bytes); (r.control, r.batch)
  }

  /** Under one limit, DATA payloads that together are a prefix of a list of envelopes report exactly the
      completed envelopes in order, each capped and flagged when longer than the limit; the parser is
      inside an envelope exactly when the bytes so far do not end one. */
  lemma {:induction false} EnvelopesCutAnywhere(at: Source, limit: nat, es: seq<Envelope>, sent: Bytes, payloads: seq<Bytes>)
    requires AllValid(es) && sent + Flatten(payloads) <= EncodeAll(es)
    ensures var before, total := Completed(es, |sent|), Completed(es, |sent + Flatten(payloads)|);
            var (parser, batch) := Streaming.Feed(Pusher(at, limit), Grpc.Feed(at, limit, Ready, sent).control, payloads);
            && before <= total
            && batch == Batch(AllReported(at, limit, es[before..total]), None)
            && parser == Grpc.Feed(at, limit, Ready, sent + Flatten(payloads)).control
            && (HasIncomplete(parser) <==> |EncodeAll(es[..total])| < |sent + Flatten(payloads)|)
    decreases payloads
  {
    hide Grpc.Feed, Encode, EncodeAll, Completed, Reported, Inside;
    var total := Completed(es, |sent + Flatten(payloads)|);
    if payloads == [] {
      assert sent + [] == sent;
      PrefixOfStream(at, limit, es, sent);
      NothingReported(at, limit, es, total);
      IncompleteIffInside(at, limit, es, sent);
    } else {
      var next := sent + payloads[0];
      assert sent <= EncodeAll(es) && next <= EncodeAll(es) by {
        assert next + Flatten(payloads[1..]) == sent + Flatten(payloads);
      }
      PrefixOfStream(at, limit, es, sent);
      PrefixOfStream(at, limit, es, next);
      FeedCut(at, limit, Ready, sent, payloads[0]);
      assert [] + payloads[0] == payloads[0];
      assert next + Flatten(payloads[1..]) == sent + Flatten(payloads);
      EnvelopesCutAnywhere(at, limit, es, next, payloads[1..]);
      var before, middle := Completed(es, |sent|), Completed(es, |next|);
      CompletedGrows(es, |sent|, |next|);
      SplitReports(at, limit, es, before, middle, total, Grpc.Feed(at, limit, Grpc.Feed(at, limit, Ready, sent).control, payloads[0]).batch);
    }
  }

  lemma NothingReported(at: Source, limit: nat, es: seq<Envelope>, k: nat)
    requires k <= |es|
    ensures AllReported(at, limit, es[k..k]) == []
  {
  }

  lemma {:induction false} CompletedGrows(es: seq<Envelope>, m: nat, n: nat)
    requires AllValid(es) && m <= n
    ensures Completed(es, m) <= Completed(es, n)
    decreases es
  {
    hide Encode;
    if es != [] && m >= |Encode(es[0])| {
      CompletedGrows(es[1..], m - |Encode(es[0])|, n - |Encode(es[0])|);
    }
  }

  lemma SplitReports(at: Source, limit: nat, es: seq<Envelope>, before: nat, middle: nat, total: nat, batch: Batch<DecodedMessage, Reason>)
    requires before <= middle <= total <= |es|
    requires Batch(AllReported(at, limit, es[..middle]), None) == Join(Batch(AllReported(at, limit, es[..before]), None), batch)
    ensures Join(batch, Batch(AllReported(at, limit, es[middle..total]), None)) == Batch(AllReported(at, limit, es[before..total]), None)
  {
    hide Reported;
    var all := AllReported(at, limit, es[..middle]);
    assert all[..before] == AllReported(at, limit, es[..before]);
    assert all[before..] == AllReported(at, limit, es[before..middle]);
    assert batch.messages == all[before..];
    assert AllReported(at, limit, es[before..total])
        == AllReported(at, limit, es[before..middle]) + AllReported(at, limit, es[middle..total]);
  }

  lemma IncompleteIffInside(at: Source, limit: nat, es: seq<Envelope>, b: Bytes)
    requires AllValid(es) && b <= EncodeAll(es)
    ensures HasIncomplete(Grpc.Feed(at, limit, Ready, b).control) <==> |EncodeAll(es[..Completed(es, |b|)])| < |b|
  {
    hide Grpc.Feed, Encode;
    PrefixOfStream(at, limit, es, b);
    CompletedBounds(es, |b|);
    if Completed(es, |b|) == |es| { assert es[..|es|] == es; }
  }

  // ------------------------------------------------------------ limits that change

  /** Part of a payload, and the limit of the DATA frame that carries it. */
  datatype Part = Part(bytes: Bytes, limit: nat)

  function Whole(parts: seq<Part>): Bytes {
    if parts == [] then [] else parts[0].bytes + Whole(parts[1..])
  }

  /** What is kept of a payload that arrives in parts. */
  function KeptParts(body: Bytes, parts: seq<Part>): Bytes
    decreases |parts|
  {
    if parts == [] then body else KeptParts(Kept(body, parts[0].bytes, parts[0].limit), parts[1..])
  }

  function FeedParts(at: Source, parser: Parser, parts: seq<Part>): (Parser, seq<DecodedMessage>)
    decreases |parts|
  {
    if parts == [] then (parser, [])
    else
      var r := Grpc.Feed(at, parts[0].limit, parser, parts[0].bytes);
      var (after, more) := FeedParts(at, r.control, parts[1..]);
      (after, r.batch.messages + more)
  }

  /** Each part that brings bytes still fits its own limit, counting everything received before it. */
  predicate AllFit(received: nat, parts: seq<Part>)
    decreases |parts|
  {
    parts == [] ||
    (&& (parts[0].bytes != [] ==> received + |parts[0].bytes| <= parts[0].limit)
     && AllFit(received + |parts[0].bytes|, parts[1..]))
  }

  lemma {:induction false} NothingMoreToFeed(at: Source, parts: seq<Part>)
    requires Whole(parts) == []
    ensures FeedParts(at, Ready, parts) == (Ready, [])
    decreases |parts|
  {
    hide Grpc.Feed;
    if parts != [] {
      assert parts[0].bytes == [];
      NothingToFeed(at, parts[0].limit, Ready);
      NothingMoreToFeed(at, parts[1..]);
    }
  }

  lemma {:induction false} NothingMoreToKeep(body: Bytes, parts: seq<Part>)
    requires Whole(parts) == []
    ensures KeptParts(body, parts) == body
    decreases |parts|
  {
    if parts != [] {
      assert parts[0].bytes == [];
      assert Kept(body, [], parts[0].limit) == body;
      NothingMoreToKeep(body, parts[1..]);
    }
  }

  /** However a payload is cut, it is reported once, with what was kept and the first limit's flag. */
  lemma {:induction false} PartsDeliver(at: Source, p: Payload, parts: seq<Part>)
    requires |Whole(parts)| == p.remaining
    ensures FeedParts(at, Parser([], Some(p)), parts)
            == (Ready, [EnvelopeMessage(at, p.compressed, p.length, KeptParts(p.body, parts), p.length > p.limit)])
    decreases |parts|
  {
    hide Grpc.Feed, EnvelopeMessage;
    var bytes, limit := parts[0].bytes, parts[0].limit;
    FeedUnfolds(at, limit, Parser([], Some(p)), bytes);
    if |bytes| < p.remaining {
      var next := p.(body := Kept(p.body, bytes, limit), remaining := p.remaining - |bytes|);
      PartsDeliver(at, next, parts[1..]);
      var more := FeedParts(at, Parser([], Some(next)), parts[1..]).1;
      assert [] + more == more;
    } else {
      assert Whole(parts[1..]) == [] && bytes[..p.remaining] == bytes && bytes[p.remaining..] == [];
      NothingToFeed(at, limit, Ready);
      NothingMoreToFeed(at, parts[1..]);
      NothingMoreToKeep(Kept(p.body, bytes, limit), parts[1..]);
      var m := Finished(at, p.(body := Kept(p.body, bytes, limit)));
      assert Grpc.Feed(at, limit, Parser([], Some(p)), bytes).batch.messages == [m] + [] == [m];
      assert [m] + [] == [m];
    }
  }

  lemma {:induction false} KeptIsNoLonger(body: Bytes, parts: seq<Part>)
    ensures |KeptParts(body, parts)| <= |body| + |Whole(parts)|
    decreases |parts|
  {
    if parts != [] { KeptIsNoLonger(Kept(body, parts[0].bytes, parts[0].limit), parts[1..]); }
  }

  lemma {:induction false} WholeIffAllFit(body: Bytes, parts: seq<Part>)
    ensures KeptParts(body, parts) == body + Whole(parts) <==> AllFit(|body|, parts)
    decreases |parts|
  {
    if parts == [] {
      assert body + [] == body;
    } else {
      var bytes, limit := parts[0].bytes, parts[0].limit;
      var kept := Kept(body, bytes, limit);
      WholeIffAllFit(kept, parts[1..]);
      KeptIsNoLonger(kept, parts[1..]);
      assert body + Whole(parts) == body + bytes + Whole(parts[1..]);
      if |kept| == |body| + |bytes| { assert kept == body + bytes; }
    }
  }

  /** The flag uses the limit in force when the envelope starts, whatever the limits of the frames that
      carry its payload. It tells whether bytes were dropped exactly if the first limit and the frames'
      own limits agree on it. */
  lemma FlagUsesFirstLimit(at: Source, start: nat, e: Envelope, parts: seq<Part>)
    requires Valid(e) && e.payload != [] && Whole(parts) == e.payload
    ensures var (after, messages) := FeedParts(at, Inside(start, e, 5), parts);
            && after == Ready && |messages| == 1
            && var m := messages[0];
               && m.body == KeptParts([], parts)
               && (m.truncated <==> |e.payload| > start)
               && (m.body == e.payload <==> AllFit(0, parts))
               && ((m.truncated <==> m.body != e.payload) <==> (|e.payload| <= start <==> AllFit(0, parts)))
  {
    hide FeedParts, Encode, KeptParts, AllFit;
    assert e.payload[..0] == [];
    PartsDeliver(at, Inside(start, e, 5).pending.value, parts);
    WholeIffAllFit([], parts);
    assert [] + e.payload == e.payload;
  }

  /** The flag can mislead: a limit of one when the envelope starts and of two when its two bytes arrive
      keeps the whole payload and calls it truncated. */
  lemma FlagMisleads(at: Source)
    ensures var e := Envelope(false, [7, 8]);
            var (_, messages) := FeedParts(at, Inside(1, e, 5), [Part([7, 8], 2)]);
            |messages| == 1 && messages[0].truncated && messages[0].body == e.payload
  {
    hide FeedParts;
    var e, parts := Envelope(false, [7, 8]), [Part([7, 8], 2)];
    assert parts[1..] == [] && [7, 8] + Whole([]) == [7, 8];
    FlagUsesFirstLimit(at, 1, e, parts);
  }
}
