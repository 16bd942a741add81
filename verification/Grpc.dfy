/** The gRPC envelope parser that runs inside HTTP/2 DATA payloads. */
module Grpc {
  import opened ByteStrings
  import opened Streaming
  import opened Text

  type Owed = n: int | n > 0 witness 1
  type Prefix = s: Bytes | |s| < 5

  /** A started envelope: bytes still owed, bytes kept, and the limit in force when it started. */
  datatype Payload = Payload(compressed: bool, length: nat, remaining: Owed, body: Bytes, limit: nat)

  datatype Parser = Parser(prefix: Prefix, pending: Option<Payload>)

  const Ready: Parser := Parser([], None)

  datatype Reason = BadFlag

  /** Where the envelopes belong. */
  datatype Source = Source(direction: Direction, streamId: nat, path: Bytes)

  function BoolText(b: bool): Bytes {
    if b then Ascii("true") else Ascii("false")
  }

  function EnvelopeMessage(at: Source, compressed: bool, length: nat, body: Bytes, truncated: bool): DecodedMessage {
    DecodedMessage(
      at.direction,
      Ascii("gRPC ") + (if at.direction == ClientToServer then Ascii("request") else Ascii("response"))
      + Ascii(" ") + at.path + Ascii(" message ") + Decimal(length) + Ascii(" bytes"),
      [(Ascii("lens-protocol"), Ascii("grpc")), (Ascii("lens-content"), Ascii("protobuf")),
       (Ascii("lens-stream-id"), Decimal(at.streamId)), (Ascii("grpc-compressed"), BoolText(compressed)),
       (Ascii("grpc-message-bytes"), Decimal(length))],
      body,
      truncated)
  }

  function Finished(at: Source, p: Payload): DecodedMessage {
    EnvelopeMessage(at, p.compressed, p.length, p.body, p.length > p.limit)
  }

  function Kept(body: Bytes, bytes: Bytes, limit: nat): Bytes {
    body + bytes[..Min(Monus(limit, |body|), |bytes|)]
  }

  type StepOutcome = Outcome<Parser, DecodedMessage, Reason>

  /** A complete five-byte prefix starts an envelope; an empty envelope is finished at once. */
  function Start(at: Source, limit: nat, prefix: Bytes, rest: Bytes): StepOutcome
    requires |prefix| == 5
  {
    if prefix[0] > 1 then Halt(Ready, Batch([], Some(BadFlag)))
    else
      var compressed, length := prefix[0] == 1, Be32(prefix[1..]);
      if length == 0 then Advance(Ready, rest, Batch([EnvelopeMessage(at, compressed, 0, [], false)], None))
      else Advance(Parser([], Some(Payload(compressed, length, length, [], limit))), rest, Quiet())
  }

  function Step(at: Source, limit: nat, parser: Parser, bytes: Bytes): (r: StepOutcome)
    ensures r.Advance? ==> |r.rest| < |bytes|
  {
    match parser.pending
    case Some(p) =>
      if |bytes| < p.remaining
      then NeedMore(parser.(pending := Some(p.(body := Kept(p.body, bytes, limit), remaining := p.remaining - |bytes|))), [])
      else Advance(parser.(pending := None), bytes[p.remaining..],
                   Batch([Finished(at, p.(body := Kept(p.body, bytes[..p.remaining], limit)))], None))
    case None =>
      var needed := 5 - |parser.prefix|;
      if |bytes| < needed then NeedMore(parser.(prefix := parser.prefix + bytes), [])
      else Start(at, limit, parser.prefix + bytes[..needed], bytes[needed..])
  }

  function Stepper(at: Source, limit: nat): (Parser, Bytes) -> StepOutcome {
    (parser, bytes) => Step(at, limit, parser, bytes)
  }

  lemma StepperProductive(at: Source, limit: nat)
    ensures Productive(Stepper(at, limit))
  {
    hide Step;
    forall p, b ensures ProductiveAt(Stepper(at, limit), p, b) {
    }
  }

  /** All envelopes a DATA payload completes. */
  function Feed(at: Source, limit: nat, parser: Parser, bytes: Bytes): Drained<Parser, DecodedMessage, Reason> {
    StepperProductive(at, limit);
    Drain(Stepper(at, limit), parser, bytes)
  }

  predicate HasIncomplete(parser: Parser) {
    parser.prefix != [] || parser.pending.Some?
  }

  function Retained(parser: Parser): nat {
    if parser.pending.Some? then |parser.pending.value.body| else 0
  }

  lemma FeedUnfolds(at: Source, limit: nat, parser: Parser, bytes: Bytes)
    ensures Feed(at, limit, parser, bytes) ==
            match Step(at, limit, parser, bytes)
            case NeedMore(p', rest) => Drained(p', rest, Quiet(), false)
            case Halt(p', e) => Drained(p', [], e, true)
            case Advance(p', rest, e) => Prepend(e, Feed(at, limit, p', rest))
  {
    hide Step;
    StepperProductive(at, limit);
  }

  /** The loop over a DATA payload. */
  method Push(at: Source, limit: nat, parser: Parser, bytes: Bytes) returns (after: Parser, messages: seq<DecodedMessage>, error: Option<Reason>)
    ensures var r := Feed(at, limit, parser, bytes);
            && after == r.control && r.halted == error.Some?
            && (error.None? ==> messages == r.batch.messages)
  {
    hide Feed, EnvelopeMessage, Be32;
    var rest := bytes;
    after, messages, error := parser, [], None;
    ghost var whole := Feed(at, limit, parser, bytes);
    JoinAssociative(whole.batch, Quiet(), Quiet());
    ghost var batch := Batch([], None);
    while rest != []
      invariant whole == Prepend(batch, Feed(at, limit, after, rest)) && batch == Batch(messages, None)
      decreases |rest|
    {
      FeedUnfolds(at, limit, after, rest);
      if after.pending.Some? {
        var p := after.pending.value;
        var consumed := Min(p.remaining, |rest|);
        var kept := Kept(p.body, rest[..consumed], limit);
        if consumed == p.remaining {
          var message := Finished(at, p.(body := kept));
          ghost var next := Feed(at, limit, after.(pending := None), rest[consumed..]);
          JoinAssociative(batch, Batch([message], None), next.batch);
          messages := messages + [message];
          after, rest := after.(pending := None), rest[consumed..];
        } else {
          assert rest[..consumed] == rest;
          JoinAssociative(batch, Quiet(), Quiet());
          after := after.(pending := Some(p.(body := kept, remaining := p.remaining - consumed)));
          return;
        }
      } else {
        var needed := 5 - |after.prefix|;
        if |rest| < needed {
          JoinAssociative(batch, Quiet(), Quiet());
          after := after.(prefix := after.prefix + rest);
          return;
        }
        var prefix := after.prefix + rest[..needed];
        rest := rest[needed..];
        if prefix[0] > 1 {
          return Ready, messages, Some(BadFlag);
        }
        var compressed, length := prefix[0] == 1, Be32(prefix[1..]);
        if length == 0 {
          var message := EnvelopeMessage(at, compressed, 0, [], false);
          JoinAssociative(batch, Batch([message], None), Feed(at, limit, Ready, rest).batch);
          messages := messages + [message];
          after := Ready;
        } else {
          after := Parser([], Some(Payload(compressed, length, length, [], limit)));
          JoinAssociative(Feed(at, limit, after, rest).batch, Quiet(), Quiet());
        }
      }
      batch := Batch(messages, None);
    }
    NothingToFeed(at, limit, after);
    JoinAssociative(batch, Quiet(), Quiet());
  }

  lemma NothingToFeed(at: Source, limit: nat, parser: Parser)
    ensures Feed(at, limit, parser, []) == Drained(parser, [], Quiet(), false)
  {
    hide Feed;
    FeedUnfolds(at, limit, parser, []);
    if parser.pending.Some? {
      var p := parser.pending.value;
      assert Kept(p.body, [], limit) == p.body;
      assert p.(body := p.body) == p;
    } else {
      assert parser.prefix + [] == parser.prefix;
    }
  }

  // ------------------------------------------------------------------- capture bound

  lemma StepKeepsLimit(at: Source, limit: nat, parser: Parser, bytes: Bytes)
    requires Retained(parser) <= limit
    ensures Retained(Step(at, limit, parser, bytes).control) <= limit
    ensures Step(at, limit, parser, bytes).Halt? ==> Step(at, limit, parser, bytes).control == Ready
  {
    hide EnvelopeMessage, Be32;
  }

  /** A payload never holds more than the limit of the DATA frame, and an error holds nothing. */
  lemma {:induction false} FeedKeepsLimit(at: Source, limit: nat, parser: Parser, bytes: Bytes)
    requires Retained(parser) <= limit
    ensures Retained(Feed(at, limit, parser, bytes).control) <= limit
    ensures Feed(at, limit, parser, bytes).halted ==> Feed(at, limit, parser, bytes).control == Ready
    decreases |bytes|
  {
    hide Step, Feed, Retained;
    StepKeepsLimit(at, limit, parser, bytes);
    FeedUnfolds(at, limit, parser, bytes);
    match Step(at, limit, parser, bytes)
    case Advance(p', rest, _) => FeedKeepsLimit(at, limit, p', rest);
    case _ =>
  }
}
