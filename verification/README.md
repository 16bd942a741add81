# Lens observation pipeline: a Dafny model

Lens is a local proxy that watches traffic. Its proxy tasks mirror bytes as observations. Four incremental
decoders (HTTP/1, HTTP/2 with gRPC, Redis, PostgreSQL) turn them into messages. A redactor masks SQL text, a
single-writer store keeps a bounded number of flows, and a replay reader parses back what the store rendered.
This project models that pipeline and two small stateful parts beside it: the cache of per-host TLS
configurations and the proxy's connection counters.

Layout:

- `Streaming` is the contract behind every decoder: a step over (control, buffer), the loop that repeats it, and
  the theorem that cutting the input changes nothing. Each decoder instantiates it.
- `Http1`, `Http2`, `Grpc`, `Redis`, `Postgres`, `SqlScanner`, `Store` hold specifications as functions.
- `*Decoder`, `SqlRedactor`, `Replay`, `StoreActor`, and the classes in `LeafCache` and `ProxyRuntime` hold the code
  that updates state in place or loops, proved against those functions.
- The other modules hold the theorems: fragmentation, capture budget, header blocks, envelopes, chunked bodies, caps,
  request pairing, body framing, replay, frame round trip, phases, conversations, rescanning, retention, latency,
  conservation, plugins and counters.
- `*Messages`, `Http2Wire`, `SqlGrammar`, `LeafHosts` write the input down from the sender's side and prove what it is
  reported as. `StoreFlows` and `StoreSecrecy` say what stored flows contain and what they may depend on.
- `ByteStrings`, `Text`, `TextLemmas`, `LineText`, `Sequences` are the vocabulary: bytes are integers below 256, text
  is its UTF-8 bytes, and `usize` is 64 bits wide.

How foreign code appears: HPACK is any function of the blocks it has been given so far. Lossy UTF-8 decoding is
any function, and the Redis framing theorems hold for any rendering; `RedisMessages` has the one in the code. A stored flow's decoder is any function of the inputs it has been given.
The store's redactors and plugins are any functions. Certificate issuance is an outcome that accompanies each call. Scheduling is an arbitrary sequence of steps.

Properties that are not true as one might first state them are given with their exact condition:

- HTTP/1 and Redis drop their buffer on a desynchronization, so a cut right there can be visible. When the reason is
  not a size limit, it is invisible if and only if the rest is empty or is refused at once for the same reason. HTTP/2
  has this only on a client preface mismatch.
- The HTTP/2 capture counter is an upper bound. It is exact if and only if a run avoids three leaks, each shown as a run.
- The gRPC truncation flag uses the limit in force when an envelope starts, so it can mislead when limits change.
- A message without headers does not survive rendering and reading.
- An unterminated PostgreSQL string list loses a last empty value.
- A protocol detected for a flow that is no longer stored leaves a decoder behind.
- A connection task that panics after it was counted is counted twice.
- Spellings of a host share a cached configuration unless a dot follows a closing bracket, which keeps the bracket.

## Model

| member | source | states |
|---|---|---|
| `Streaming.Cut` | crates/lens-protocol/src/lib.rs:63-73 | For any step function that more input does not disturb, draining a buffer in two parts gives the control state, remainder and report of draining it whole, unless the first part halts the loop |
| `Streaming.CutHalted` | crates/lens-protocol/src/lib.rs:63-73 | Bytes behind the point where a firm loop halts are never looked at |
| `Streaming.CutFinal` | crates/lens-protocol/src/lib.rs:63-73 | Bytes behind the point where a loop halts for a final reason are never looked at |
| `Streaming.FeedIsOnePush` | crates/lens-protocol/src/lib.rs:63-73 | A push that may be cut in two wherever a condition allows it may be cut into any number of fragments |
| `Http1Fragmentation.PushCut` | crates/lens-proto-http1/src/lib.rs:33-61 | Two pushes equal one push whenever the first is clean; if the single push is clean, only then; if the first halts for any reason but the three size limits, if and only if the second is empty or is refused at once for the same reason; an empty second push is always invisible |
| `Http1Fragmentation.Fragmentation` | crates/lens-proto-http1/src/lib.rs:33-61 | Any fragmentation whose pushes before the last one are clean reports the same messages and reason and reaches the same decoder as one push of all bytes |
| `Http1Fragmentation.HaltsAreFinal` | crates/lens-proto-http1/src/lib.rs:121-279 | Every halt except the three size limits stays the same whatever bytes follow |
| `Http1Fragmentation.DesynchronizationSeesTheCut` | crates/lens-proto-http1/src/lib.rs:127-149 | A concrete stream whose cut after a desynchronization changes the outcome |
| `Http1.StepperProductive` | crates/lens-proto-http1/src/lib.rs:121-279 | Every step that consumes shrinks the buffer, so the loop ends |
| `Http1Cap.SessionCapped` | crates/lens-proto-http1/src/lib.rs:177-279 | For every cap and every interleaving of pushes and ends, the capped session is the uncapped one with each body cut to the cap and flagged when cut |
| `Http1Cap.CapsAgree` | crates/lens-proto-http1/src/lib.rs:417-422 | Two caps: same errors, messages, leftover bytes and request queue, and each smaller body is a prefix of the larger one |
| `Http1Chunked.ChunkLineParses` | crates/lens-proto-http1/src/lib.rs:209-226 | A size line with hex digits, blanks and any extension parses to its size |
| `Http1Chunked.ReadTrailers` | crates/lens-proto-http1/src/lib.rs:258-275 | Trailer lines and the empty line end the message and leave exactly what follows |
| `Http1Chunked.ChunkedBodyDecodes` | crates/lens-proto-http1/src/lib.rs:177-279 | Every chunked encoding, with extensions and trailers, decodes to the first n payload bytes, truncated if and only if there are more, and the loop goes on at the first byte after it |
| `Http1Pairing.QueueIsUnansweredRequests` | crates/lens-proto-http1/src/lib.rs:70-89 | After any interleaving the method queue is exactly the unanswered requests in order, and HEAD framing is decided by the oldest one |
| `Http1Pairing.HeadResponsesHaveNoBody` | crates/lens-proto-http1/src/lib.rs:150-174 | When each response head is read while a request waits, no final response arrives unasked, so finals and answered requests agree in number, and no response to HEAD has a body |
| `Http1Pairing.NthResponseAnswersNthRequest` | crates/lens-proto-http1/src/lib.rs:33-89 | In such a session, a response before which n finals were sent belongs to request n: it is framed as an answer to HEAD, without a body, if and only if that request is HEAD |
| `Http1Bodies.HeadReadsAsDeclared` | crates/lens-proto-http1/src/lib.rs:346-414 | Every accepted head is framed by what its start line and headers declare: the status, the last Content-Length, any chunked coding |
| `Http1Bodies.ResponsesAreFramedByTheirRequest` | crates/lens-proto-http1/src/lib.rs:150-174 | In such a session without a cap, every whole response has no body if the request it answers is HEAD, and otherwise exactly the body its own head declares |
| `Http1Pairing.FinalsAnswerInOrder` | crates/lens-proto-http1/src/lib.rs:70-89 | In any log, final responses answer requests one for one if and only if none arrives unasked; other 1xx answer nothing |
| `Http1Replay.ParsedHeadersAreGood` | crates/lens-proto-http1/src/lib.rs:346-414 | Every accepted head gives trimmed, CRLF-free header names and values, and colon-free names |
| `Http1Replay.DecodedMessagesReplay` | crates/lens-proto-http1/src/lib.rs:33-112 | For every message any session reports, rendering and reading back gives its headers and body if and only if it has a header |
| `Http1Decoder.ParseHeadBytes` | crates/lens-proto-http1/src/lib.rs:346-414 | The header loop computes the head parser of the specification |
| `Http1Decoder.ReadChunks` | crates/lens-proto-http1/src/lib.rs:177-279 | The chunk loop leaves exactly the state, message or error the specification loop gives for the bytes it was handed |
| `Http1Decoder.StreamDecoder.TrackExchange` | crates/lens-proto-http1/src/lib.rs:70-89 | The queue update after a message, and nothing else |
| `Http1Decoder.StreamDecoder.ConsumeChunked` | crates/lens-proto-http1/src/lib.rs:177-279 | A chunked body advances the direction in place and leaves the other direction and the queue alone |
| `Http1Decoder.StreamDecoder.ConsumePending` | crates/lens-proto-http1/src/lib.rs:177-279 | An unfinished body of any framing advances in place as specified |
| `Http1Decoder.StreamDecoder.StepOnce` | crates/lens-proto-http1/src/lib.rs:121-175 | One step in place is one step of the specification, with the rest of the loop unchanged |
| `Http1Decoder.StreamDecoder.Push` | crates/lens-proto-http1/src/lib.rs:33-61 | The in-place loop reports and leaves exactly what the specification of push says |
| `Http1Decoder.StreamDecoder.Finish` | crates/lens-proto-http1/src/lib.rs:100-112 | The end of a direction flushes or reports what was pending |
| `Http1Messages.RequestLineIsAccepted` | crates/lens-proto-http1/src/lib.rs:346-375 | Method, target and version, separated by spaces, make an accepted request line whose first word is the method |
| `Http1Messages.StatusLineIsAccepted` | crates/lens-proto-http1/src/lib.rs:346-375 | Version, status and any reason make an accepted status line with that status |
| `Http1Messages.HeadersAreAdded` | crates/lens-proto-http1/src/lib.rs:379-414 | Reading good header lines adds exactly those headers, in order, and is refused if and only if a Content-Length is bad or conflicts |
| `Http1Messages.WrittenHeadParses` | crates/lens-proto-http1/src/lib.rs:346-414 | A start line and good headers written as lines parse if and only if their Content-Lengths are numbers that agree, and then to exactly that trimmed start line and those headers in order |
| `Http1Messages.WrittenMessageDecodes` | crates/lens-proto-http1/src/lib.rs:121-279 | A written message with no body, a fixed body or any chunking of it is reported as exactly its start line, its headers and the first max_body bytes of its body, flagged if and only if there are more, and decoding goes on right after it |
| `Http1Messages.MessageToTheEnd` | crates/lens-proto-http1/src/lib.rs:281-291 | A response without a length is reported at the end of its stream, with everything that was sent as its body, capped |
| `Http1Messages.PipelineDecodes` | crates/lens-proto-http1/src/lib.rs:33-61 | Any list of written requests is reported one by one in order, with methods queued in the same order |
| `Http1Messages.RequestsCutAnywhere` | crates/lens-proto-http1/src/lib.rs:33-61 | The same for push, however the bytes are cut |
| `Replay.Render` | crates/lens-protocol/src/lib.rs:29-40 | The rendering loop produces the specified wire form |
| `Replay.ParseWire` | crates/lens-replay/src/lib.rs:460-475 | The reading loop returns the specified headers and body or the specified error |
| `Replay.RoundTrip` | crates/lens-replay/src/lib.rs:460-475 | For trimmed, CRLF-free headers with colon-free names, reading a rendering returns it unchanged if and only if there is at least one header |
| `Replay.WithoutHeaders` | crates/lens-protocol/src/lib.rs:29-40 | A rendering without headers never reads back as what it was |
| `Http2Fragmentation.HaltsOnBadStart` | crates/lens-proto-http2/src/lib.rs:430-450 | The loop halts exactly on a client preface mismatch, which drops the buffer and changes nothing else |
| `Http2Fragmentation.PushAfterMismatch` | crates/lens-proto-http2/src/lib.rs:430-450 | After a mismatch the next push starts over, and leaves a trace exactly when it is not empty and begins like a preface |
| `Http2Fragmentation.PushCut` | crates/lens-proto-http2/src/lib.rs:74-95 | From any state and for any HPACK decoder, two pushes are one push if and only if the first does not break the preface, or the second is empty or breaks it again; oversize skips and frame errors do not matter |
| `Http2Fragmentation.Fragmentation` | crates/lens-proto-http2/src/lib.rs:430-487 | Any fragmentation that does not break the preface before its last push reaches the same decoder with the same messages and last reason as one push |
| `Http2Fragmentation.MismatchSeesTheCut` | crates/lens-proto-http2/src/lib.rs:430-450 | A concrete stream whose cut after a preface mismatch changes the outcome |
| `Http2Budget.RemoveBalances` | crates/lens-proto-http2/src/lib.rs:378-385 | Removing a stream lowers the counter by exactly what the stream held |
| `Http2Budget.FrameBalances` | crates/lens-proto-http2/src/lib.rs:97-116 | Every frame keeps the bounds and moves the counter away from the bytes held by exactly its leak: a reset, repeated headers over a pending body, or a bad envelope flag |
| `Http2Budget.CaptureBudget` | crates/lens-proto-http2/src/lib.rs:192-385 | Over every run: counter = bytes held + bytes leaked <= 4 MiB, at most 256 streams, every held body <= max_body, and the counter is exact if and only if nothing leaked |
| `Http2Subtractions.FrameIsExact` | crates/lens-proto-http2/src/lib.rs:97-385 | In every state within the bounds, every saturating subtraction that handling any frame evaluates is exact: capture room, completed bodies, removed streams, envelope room under the frame limit, header block room |
| `Http2Subtractions.SubtractionsAreExact` | crates/lens-proto-http2/src/lib.rs:294-385 | Over every run, frame by frame and also in the middle of a push, no saturating subtraction of the decoder saturates |
| `Http2Leaks.ResetLeaks` | crates/lens-proto-http2/src/lib.rs:110-113 | A run of HEADERS, one DATA byte and RST_STREAM leaves the counter at one with no stream |
| `Http2Leaks.RepeatedHeadersLeak` | crates/lens-proto-http2/src/lib.rs:270-292 | A run of HEADERS, one DATA byte and HEADERS again leaves the counter at one with nothing held |
| `Http2Leaks.BadFlagLeaks` | crates/lens-proto-http2/src/lib.rs:316-327 | A gRPC run with half an envelope and then a bad flag leaves the counter at one with nothing held |
| `Http2HeaderBlocks.PaddingIsInvisible` | crates/lens-proto-http2/src/lib.rs:690-709 | Any legal padding leaves the header fragment as it is |
| `Http2HeaderBlocks.PriorityIsInvisible` | crates/lens-proto-http2/src/lib.rs:690-709 | Priority fields leave the header fragment as it is |
| `Http2HeaderBlocks.ExtendAppend` | crates/lens-proto-http2/src/lib.rs:510-517 | Adding two fragments is adding their concatenation, also past 64 KiB |
| `Http2HeaderBlocks.SplitBlockIsOneBlock` | crates/lens-proto-http2/src/lib.rs:118-190 | A block split over HEADERS and any CONTINUATIONs, however padded or prioritised, has the effect of the one-frame form: same HPACK input, streams, messages and errors |
| `Http2HeaderBlocks.HpackSeesTheBlock` | crates/lens-proto-http2/src/lib.rs:160-190 | HPACK is given the whole block when it fits 64 KiB and nothing otherwise |
| `Http2HeaderBlocks.InterruptedBlockVanishes` | crates/lens-proto-http2/src/lib.rs:97-116 | A block interrupted by any other frame leaves HPACK, streams and budget as before it began, and the interrupting frame is dropped |
| `Http2Decoder.StreamDecoder.RemoveStream` | crates/lens-proto-http2/src/lib.rs:378-385 | In-place removal of a stream and its bytes from the counter |
| `Http2Decoder.StreamDecoder.ApplyHeaders` | crates/lens-proto-http2/src/lib.rs:192-292 | In-place header handling meets the specification, error paths included |
| `Http2Decoder.StreamDecoder.CompleteHeaderBlock` | crates/lens-proto-http2/src/lib.rs:160-190 | In-place completion of a block meets the specification |
| `Http2Decoder.StreamDecoder.HandleHeaders` | crates/lens-proto-http2/src/lib.rs:118-139 | In-place HEADERS handling meets the specification |
| `Http2Decoder.StreamDecoder.HandleContinuation` | crates/lens-proto-http2/src/lib.rs:141-158 | In-place CONTINUATION handling meets the specification |
| `Http2Decoder.StreamDecoder.HandleGrpcData` | crates/lens-proto-http2/src/lib.rs:294-345 | In-place DATA handling of gRPC streams meets the specification, the leaking error path included |
| `Http2Decoder.StreamDecoder.HandleData` | crates/lens-proto-http2/src/lib.rs:294-376 | In-place DATA handling meets the specification |
| `Http2Decoder.StreamDecoder.HandleFrame` | crates/lens-proto-http2/src/lib.rs:97-116 | In-place dispatch of a frame meets the specification |
| `Http2Decoder.StreamDecoder.ReadNextFrame` | crates/lens-proto-http2/src/lib.rs:430-487 | Preface, oversize skip and frame reading in place are the specification loop cut at frames |
| `Http2Decoder.StreamDecoder.DecodeAvailable` | crates/lens-proto-http2/src/lib.rs:74-95 | The in-place frame loop reports and leaves exactly what the specification says |
| `Http2Decoder.StreamDecoder.Push` | crates/lens-proto-http2/src/lib.rs:392-395 | push as specified |
| `Http2Decoder.StreamDecoder.Finish` | crates/lens-proto-http2/src/lib.rs:397-406 | finish as specified |
| `Http2Messages.CarriedIsRead` | crates/lens-proto-http2/src/lib.rs:711-727 | A DATA frame with any legal padding is read as the data it carries |
| `Http2Messages.OtherStreamsDoNotMatter` | crates/lens-proto-http2/src/lib.rs:97-116 | No frame of another stream, in either direction, valid or not, changes a stream |
| `Http2Messages.BodyArrives` | crates/lens-proto-http2/src/lib.rs:347-376 | DATA frames of a stream among any frames of others: its own frames report one message at END_STREAM, with the first max_body bytes of the payloads in order, flagged if and only if there are more |
| `Http2Messages.AnnouncedLine` | crates/lens-proto-http2/src/lib.rs:247-257 | Method and path, or status, decide the start line |
| `Http2Messages.HeadStarts` | crates/lens-proto-http2/src/lib.rs:118-292 | HEADERS of a plain stream start or, with END_STREAM, report a message with the decoded headers in order |
| `Http2Messages.MessageArrives` | crates/lens-proto-http2/src/lib.rs:118-376 | HEADERS and DATA of a plain stream among frames of others report exactly one message: announced start line, the headers, the payloads together up to max_body |
| `Http2Messages.TrailersEndTheMessage` | crates/lens-proto-http2/src/lib.rs:255-275 | Trailers are appended to the headers and end the message |
| `Http2Messages.MarksNameTheStream` | crates/lens-proto-http2/src/lib.rs:736-751 | A reported message names its protocol, its stream and its side |
| `Http2GrpcMessages.CallIsReported` | crates/lens-proto-http2/src/lib.rs:199-245 | The headers of a call are reported with method and path and make the stream a gRPC stream |
| `Http2GrpcMessages.AnswerIsReported` | crates/lens-proto-http2/src/lib.rs:214-245 | Response headers of a call are reported with their status |
| `Http2GrpcMessages.TrailersCloseTheCall` | crates/lens-proto-http2/src/lib.rs:214-245 | Trailers are reported with their gRPC status and close the stream |
| `Http2GrpcMessages.EnvelopesArrive` | crates/lens-proto-http2/src/lib.rs:294-345 | DATA frames of a gRPC stream among any frames of others report exactly the envelopes they complete, in order, capped and flagged if and only if longer |
| `Http2GrpcMessages.EnvelopeIsDescribed` | crates/lens-proto-http2/src/lib.rs:668-688 | What an envelope is reported as: side, path, length, stream, compression and the payload up to the limit |
| `Http2GrpcMessages.CallEnds` | crates/lens-proto-http2/src/lib.rs:328-350 | The last DATA frame of a side is an error if and only if it ends inside an envelope; a server that ends without trailers is reported so and its stream dropped |
| `Http2Wire.WrittenReadsBack` | crates/lens-proto-http2/src/lib.rs:452-487 | A frame written with its nine-byte header is read back as it was, and exactly its bytes are consumed |
| `Http2Wire.WrittenFramesAreHandled` | crates/lens-proto-http2/src/lib.rs:74-95 | Written frames are handled one by one, in order |
| `Http2Wire.ConnectionStarts` | crates/lens-proto-http2/src/lib.rs:430-487 | The client preface and written frames, cut in any way into pushes, are handled as those frames in order |
| `Grpc.Push` | crates/lens-proto-http2/src/lib.rs:590-647 | The envelope loop over a DATA payload computes the specified messages, parser state and error |
| `Grpc.FeedKeepsLimit` | crates/lens-proto-http2/src/lib.rs:590-658 | A payload never holds more than the limit of its DATA frame, and an error holds nothing |
| `GrpcEnvelopes.FeedCut` | crates/lens-proto-http2/src/lib.rs:590-647 | Cutting a payload changes nothing unless its first part is in error |
| `GrpcEnvelopes.EnvelopesCutAnywhere` | crates/lens-proto-http2/src/lib.rs:584-688 | Under one limit, any cut of any list of envelopes yields one message per completed envelope in order, capped and flagged if and only if longer |
| `GrpcEnvelopes.IncompleteIffInside` | crates/lens-proto-http2/src/lib.rs:649-651 | has_incomplete holds exactly inside an envelope |
| `GrpcEnvelopes.FlagUsesFirstLimit` | crates/lens-proto-http2/src/lib.rs:590-688 | For a payload cut over any frames, each with its own limit: one message, flagged by the limit at the start; the whole payload is kept if and only if every part fits its own limit, and the flag tells the truth if and only if both agree |
| `GrpcEnvelopes.FlagMisleads` | crates/lens-proto-http2/src/lib.rs:668-688 | Two limits under which a whole payload is called truncated |
| `RedisFrames.ValueStable` | crates/lens-proto-redis/src/lib.rs:115-161 | A complete or invalid value stays so, with the same bytes consumed, whatever follows |
| `RedisFrames.StrictPrefixIncomplete` | crates/lens-proto-redis/src/lib.rs:115-161 | Every strict prefix of a complete frame is incomplete |
| `RedisFrames.ParsePrinted` | crates/lens-proto-redis/src/lib.rs:115-316 | Parsing a printed value within the nesting, item and length limits returns it and consumes exactly the printed bytes |
| `RedisFrames.ParsedIsWellFormed` | crates/lens-proto-redis/src/lib.rs:115-316 | Every value the parser returns is within the printer's domain |
| `RedisFrames.ReprintParses` | crates/lens-proto-redis/src/lib.rs:115-316 | Printing a parsed value and parsing it again returns the same value |
| `RedisDecoder.PushCut` | crates/lens-proto-redis/src/lib.rs:36-65 | Two pushes are one push whenever the first is clean; if the single push is clean, only then; if the first is refused for any reason but the size limit, if and only if the second is empty or is refused at once for the same reason; an empty second push is always invisible |
| `RedisDecoder.Fragmentation` | crates/lens-proto-redis/src/lib.rs:36-65 | Any fragmentation whose pushes before the last one are clean is one push of all bytes |
| `RedisDecoder.RefusalSeesTheCut` | crates/lens-proto-redis/src/lib.rs:272-292 | A concrete stream whose cut after a refusal changes the outcome |
| `RedisDecoder.ReadValue` | crates/lens-proto-redis/src/lib.rs:115-161 | The parser, by type byte, computes the recursive specification |
| `RedisDecoder.ReadAggregate` | crates/lens-proto-redis/src/lib.rs:202-235 | An aggregate is its count line and its items one level deeper |
| `RedisDecoder.DrainPrefix` | crates/lens-proto-redis/src/lib.rs:36-65 | One push of part of a frame stream reports the completed frames and stops inside the next one |
| `RedisDecoder.FramesCutAnywhere` | crates/lens-proto-redis/src/lib.rs:36-65 | Any cut of a stream of frames of at most max_body + 64 KiB reports one message per frame in order, no error, and empties the buffer |
| `RedisDecoder.ParseItemsLoop` | crates/lens-proto-redis/src/lib.rs:237-270 | The item loop of an aggregate computes the recursive specification |
| `RedisDecoder.StreamDecoder.DecodeAvailable` | crates/lens-proto-redis/src/lib.rs:36-65 | The in-place loop reports and leaves exactly what the specification says |
| `RedisDecoder.StreamDecoder.Push` | crates/lens-proto-redis/src/lib.rs:73-76 | push as specified |
| `RedisDecoder.StreamDecoder.Finish` | crates/lens-proto-redis/src/lib.rs:78-87 | finish as specified |
| `RedisMessages.EscapedReadsBack` | crates/lens-proto-redis/src/lib.rs:475-488 | Escaped text is printable and reads back as the bytes it shows |
| `RedisMessages.RenderBytes` | crates/lens-proto-redis/src/lib.rs:475-488 | The escaping loop computes the specification |
| `RedisMessages.TruncatedIsLongest` | crates/lens-proto-redis/src/lib.rs:490-499 | Truncated text is valid text, and no longer piece within the limit is |
| `RedisMessages.TruncateUtf8` | crates/lens-proto-redis/src/lib.rs:490-499 | The boundary loop computes the specification |
| `RedisMessages.CapturedFillsTheRoom` | crates/lens-proto-redis/src/lib.rs:343-350 | Arguments share one cap: each is kept from its start, together they are the first max_body bytes of all of them, nothing is kept after one that was cut, and the flag is set if and only if they do not fit |
| `RedisMessages.BuildRequest` | crates/lens-proto-redis/src/lib.rs:325-360 | The request loop computes the specification |
| `RedisMessages.CommandIsReported` | crates/lens-proto-redis/src/lib.rs:325-408 | A command is reported under its name in upper case, with its escaped arguments in order, capped and flagged, in the headers and the start line |
| `RedisMessages.RenderedShows` | crates/lens-proto-redis/src/lib.rs:443-473 | Every rendering reads back, escape by escape and item by item, as the value it shows |
| `RedisMessages.ResponseIsReported` | crates/lens-proto-redis/src/lib.rs:362-381 | A response is reported as the first max_body bytes of a text that shows it, flagged if and only if there are more; all but pushed values end a request |
| `RedisMessages.CommandsCutAnywhere` | crates/lens-proto-redis/src/lib.rs:36-65 | Any list of commands on the wire, cut in any way, is reported as exactly those commands in order |
| `PostgresPhases.PushCut` | crates/lens-proto-postgres/src/lib.rs:37-84 | When both parts fit the buffer together, two pushes are one push, also across a desynchronization or an accepted encryption request |
| `PostgresPhases.Fragmentation` | crates/lens-proto-postgres/src/lib.rs:37-84 | Any fragmentation of bytes that fit the buffer reports the same messages and reason and reaches the same decoder as one push |
| `PostgresPhases.RunBounded` | crates/lens-proto-postgres/src/lib.rs:37-84 | No run lets a buffer exceed 16 MiB + 5 bytes |
| `PostgresPhases.ReachableOpaqueAbsorbs` | crates/lens-proto-postgres/src/lib.rs:37-172 | Every reachable opaque decoder holds nothing, never changes again and reports nothing |
| `PostgresPhases.ClosedListReadsBack` | crates/lens-proto-postgres/src/lib.rs:652-663 | A list of strings with its closing terminator reads back whole |
| `PostgresPhases.OpenListReadsBack` | crates/lens-proto-postgres/src/lib.rs:652-663 | Without the closing terminator a list reads back if and only if its last value is not empty; otherwise that value is lost |
| `PostgresPhases.ParameterStatusNeedsValue` | crates/lens-proto-postgres/src/lib.rs:427-440 | A parameter status is accepted if and only if its value is not empty |
| `PostgresOmission.BindOmitsValues` | crates/lens-proto-postgres/src/lib.rs:291-410 | A Bind message depends on no byte after its parameter formats and count but the length |
| `PostgresOmission.ValuesAreOmitted` | crates/lens-proto-postgres/src/lib.rs:278-577 | No message depends on credential, row, COPY, function, key or notification bytes beyond their length |
| `PostgresOmission.SecretsAreReplaced` | crates/lens-proto-postgres/src/lib.rs:247-276 | Startup pairs that differ only in secret values give the same headers |
| `PostgresConversation.OmissionTwoRuns` | crates/lens-proto-postgres/src/lib.rs:37-172 | From any two decoders at corresponding points, conversations of both sides equal except in omitted bytes, cut and interleaved alike in any way, give identical reports call by call and end at corresponding points: same phase, and buffers that hold the same frames up to omitted bytes |
| `PostgresConversation.SecretsNeverShow` | crates/lens-proto-postgres/src/lib.rs:37-172 | From the start of a connection, through encryption requests and their answers, startup and typed traffic of both sides: secret and omitted bytes never show, in any report, phase or final report |
| `PostgresOmission.ServerValuesNeverShow` | crates/lens-proto-postgres/src/lib.rs:150-172 | The server side of a typed conversation: row, key, notification and COPY bytes never show under any fragmentation |
| `PostgresDecoder.ReadCStrings` | crates/lens-proto-postgres/src/lib.rs:652-663 | The string list loop computes the recursive specification |
| `PostgresDecoder.ReadErrorFields` | crates/lens-proto-postgres/src/lib.rs:665-676 | The error field loop computes the recursive specification |
| `PostgresDecoder.ReadColumns` | crates/lens-proto-postgres/src/lib.rs:579-607 | The column loop reads every column and keeps the first 32 names |
| `PostgresDecoder.ReadStartup` | crates/lens-proto-postgres/src/lib.rs:247-276 | Startup parameters are read two by two with secret values replaced |
| `PostgresDecoder.ReadErrorMessage` | crates/lens-proto-postgres/src/lib.rs:472-503 | The known error fields become headers, capped and flagged |
| `PostgresDecoder.ReadTyped` | crates/lens-proto-postgres/src/lib.rs:278-289 | A typed frame is decoded as specified, its lists read by the loops |
| `PostgresDecoder.StreamDecoder.StepStartup` | crates/lens-proto-postgres/src/lib.rs:86-123 | In-place startup step as specified |
| `PostgresDecoder.StreamDecoder.StepEncryptionResponse` | crates/lens-proto-postgres/src/lib.rs:125-148 | In-place encryption response step as specified |
| `PostgresDecoder.StreamDecoder.StepTyped` | crates/lens-proto-postgres/src/lib.rs:150-172 | In-place typed step as specified |
| `PostgresDecoder.StreamDecoder.Push` | crates/lens-proto-postgres/src/lib.rs:37-84 | The in-place loop, its size check and its going dark report and leave exactly what the specification says |
| `PostgresDecoder.StreamDecoder.Finish` | crates/lens-proto-postgres/src/lib.rs:191-205 | finish as specified |
| `PostgresMessages.QueryDecodes` | crates/lens-proto-postgres/src/lib.rs:293-302 | A query frame is reported with the first max_body bytes of its text, flagged if and only if longer |
| `PostgresMessages.ParseDecodes` | crates/lens-proto-postgres/src/lib.rs:303-316 | A Parse frame: the statement name in the start line and the first max_body bytes of the SQL in the body, flagged if and only if longer, whatever follows |
| `PostgresMessages.BindDecodes` | crates/lens-proto-postgres/src/lib.rs:317-349 | A Bind frame: portal, statement and parameter count, for any formats and values |
| `PostgresMessages.ExecuteDecodes` | crates/lens-proto-postgres/src/lib.rs:350-369 | An Execute frame: portal and row limit, as a request |
| `PostgresMessages.ClientLabelsDecode` | crates/lens-proto-postgres/src/lib.rs:370-402 | Client frames reported by name alone |
| `PostgresMessages.ServerLabelsDecode` | crates/lens-proto-postgres/src/lib.rs:445-575 | Server frames reported by name alone, and which of them end a response |
| `PostgresMessages.AuthenticationDecodes` | crates/lens-proto-postgres/src/lib.rs:414-426 | An authentication frame is reported by the name of its code |
| `PostgresMessages.CommandCompleteDecodes` | crates/lens-proto-postgres/src/lib.rs:462-471 | A completed command is reported with its text and ends a response |
| `PostgresMessages.DataRowDecodes` | crates/lens-proto-postgres/src/lib.rs:506-518 | A data row is reported by its number of columns |
| `PostgresMessages.ReadyDecodes` | crates/lens-proto-postgres/src/lib.rs:452-461 | Readiness is reported with its status |
| `PostgresMessages.ParameterStatusDecodes` | crates/lens-proto-postgres/src/lib.rs:427-444 | A parameter is reported by name and value, secret values replaced, and desynchronizes if and only if the value is empty |
| `PostgresMessages.ErrorsDecode` | crates/lens-proto-postgres/src/lib.rs:472-504 | An error or notice: its known fields in order under their names, each up to max_body bytes, flagged if and only if one is longer; an error ends a response |
| `PostgresMessages.RowDescriptionDecodes` | crates/lens-proto-postgres/src/lib.rs:579-607 | A row description: the number of columns and the names of the first 32, in order, with commas |
| `PostgresMessages.StartupDecodes` | crates/lens-proto-postgres/src/lib.rs:247-276 | A startup frame: version and every parameter in order, secret values, in any case, replaced |
| `PostgresMessages.FramesDecode` | crates/lens-proto-postgres/src/lib.rs:150-172 | Typed frames are reported one by one, in order, and nothing is left |
| `PostgresMessages.TypedSideDecodes` | crates/lens-proto-postgres/src/lib.rs:37-84 | Either side of an established connection, however its frames are cut: one message per frame, in order |
| `PostgresMessages.ClientDecodes` | crates/lens-proto-postgres/src/lib.rs:37-123 | A client from its start: the startup message and then one message per frame, however the bytes are cut |
| `PostgresMessages.EncryptionIsAsked` | crates/lens-proto-postgres/src/lib.rs:86-123 | A request for encryption is reported and its answer awaited |
| `PostgresMessages.EncryptionIsRefused` | crates/lens-proto-postgres/src/lib.rs:125-148 | A refusal is reported and the conversation starts over |
| `PostgresMessages.EncryptionIsAccepted` | crates/lens-proto-postgres/src/lib.rs:125-148 | An acceptance is reported and nothing after it is read |
| `PostgresMessages.CancelGoesDark` | crates/lens-proto-postgres/src/lib.rs:86-123 | A cancellation is reported without its key and nothing after it is read |
| `SqlScanner.TokensCover` | crates/lens-redact/src/lib.rs:245-349 | The tokens cover the text exactly, and redaction is the concatenation of their masks |
| `SqlRedaction.NoNewDelimiter` | crates/lens-redact/src/lib.rs:364-377 | Redaction never makes a dollar-quote delimiter occur that did not occur before |
| `SqlRedaction.NextOfRedacted` | crates/lens-redact/src/lib.rs:245-349 | The token at the start of redacted text is the mask of the token at the start of the original |
| `SqlRedaction.RescanRedacted` | crates/lens-redact/src/lib.rs:245-377 | Scanning redacted text yields exactly the masked tokens |
| `SqlRedaction.RedactIsIdempotent` | crates/lens-redact/src/lib.rs:245-349 | Redacting redacted text changes nothing |
| `SqlRedaction.RedactHidesExactlyTheMasked` | crates/lens-redact/src/lib.rs:245-349 | Two texts redact to the same text if and only if their masked tokens are the same |
| `SqlRedactor.FindQuoteEnd` | crates/lens-redact/src/lib.rs:250-285 | The quote loop finds the end of a quoted run, doubled quotes inside it |
| `SqlRedactor.FindNumberEnd` | crates/lens-redact/src/lib.rs:329-341 | The number loop finds the end of a number token |
| `SqlRedactor.FindDelimiterEnd` | crates/lens-redact/src/lib.rs:364-377 | The tag loop finds a dollar-quote delimiter or none |
| `SqlRedactor.NextMasked` | crates/lens-redact/src/lib.rs:249-346 | One pass over valid text appends the mask of the next token, or a whole character, and stops at a character boundary |
| `SqlRedactor.RedactSqlLiterals` | crates/lens-redact/src/lib.rs:245-349 | The index loop returns the specified redaction of any valid text, and says it changed something if and only if a token was masked |
| `SqlGrammar.PieceIsRead` | crates/lens-redact/src/lib.rs:245-349 | Each piece of SQL, written apart from the scanner (quoted text and names with quotes doubled, comments, dollar quotes, numbers, other bytes), is read as exactly one token that covers it |
| `SqlGrammar.PieceIsMasked` | crates/lens-redact/src/lib.rs:245-349 | The mask of that token is what the piece may show: quoted text, comments, dollar quotes and numbers show nothing of their contents |
| `SqlGrammar.WrittenIsRead` | crates/lens-redact/src/lib.rs:245-349 | Any well-written list of pieces scans as those pieces in order |
| `SqlGrammar.SecretsDoNotShow` | crates/lens-redact/src/lib.rs:245-349 | Two well-written texts whose pieces may show the same redact to the same text |
| `SqlGrammar.LiteralsDoNotShow` | crates/lens-redact/src/lib.rs:250-285 | For any two texts, however many apostrophes they hold, the literals quoting them redact alike in any place that does not begin with an apostrophe |
| `SqlGrammar.EveryTextIsWritten` | crates/lens-redact/src/lib.rs:245-349 | Every text is some well-written list of pieces |
| `StoreRetention.OthersKeepFlows` | crates/lens-store/src/lib.rs:300-456 | Only an opened flow changes the queue of flows or the eviction count |
| `StoreRetention.RetainsTheLastOpened` | crates/lens-store/src/lib.rs:331-397 | After any run the store holds the last max_flows flows opened, oldest first, and retained + evicted = opened up to 64-bit saturation, also when ids repeat |
| `StoreRetention.MessageIdsIncrease` | crates/lens-store/src/lib.rs:505-558 | Up to 2^64 - 1 messages, every flow's ids are those of its messages and strictly increase, and the counter is the number of messages reported |
| `StoreRetention.SaturatedIdsRepeat` | crates/lens-store/src/lib.rs:505-506 | At the top of the counter the bound is sharp: the next message repeats the last id |
| `StoreRetention.TidyUnlessStraying` | crates/lens-store/src/lib.rs:300-456 | From tables that mention only stored flows, an event keeps them so if and only if it is not a known protocol detected for a flow that is not stored |
| `StoreRetention.TidyThroughout` | crates/lens-store/src/lib.rs:300-456 | The tables mention only stored flows throughout a run if and only if no event of the run strays |
| `StoreRetention.StrayingHappens` | crates/lens-store/src/lib.rs:404-427 | A one-event run that leaves a decoder behind |
| `StoreLatency.QueueIsUnmatched` | crates/lens-store/src/lib.rs:484-504 | The waiting queue of a key is exactly its requests that no response took and no close or eviction dropped |
| `StoreLatency.TakesTheEarliest` | crates/lens-store/src/lib.rs:484-504 | A response takes a request if and only if it is the earliest unmatched request of its own key |
| `StoreLatency.NeverTakenTwice` | crates/lens-store/src/lib.rs:484-504 | No request is matched twice |
| `StoreLatency.LatencyIsElapsed` | crates/lens-store/src/lib.rs:484-504 | A latency is the time since the matched request, absent if and only if none waits, and exact under a monotone clock |
| `StoreLatency.ProjectKeeps` | crates/lens-store/src/lib.rs:473-504 | The waiting times and latencies of a key are those of its own sub-trace |
| `StoreLatency.RunAgrees` | crates/lens-store/src/lib.rs:300-324 | Over any run the pending table and the recorded latencies are those of the trace of requests, responses, closes and evictions |
| `StoreLatency.KeysAreIndependent` | crates/lens-store/src/lib.rs:473-504 | Two runs with the same sub-trace for a key record the same latencies for it, whatever else they do |
| `StoreLatency.TraceIsMonotone` | crates/lens-store/src/lib.rs:300-324 | A clock that never goes back gives a trace that never goes back |
| `StoreConservation.FlowsKeepTheirMessages` | crates/lens-store/src/lib.rs:458-569 | When ids are not reused and no decoder strays, each stored flow holds exactly the records made for it, in order |
| `StoreConservation.RecordsAreForOpened` | crates/lens-store/src/lib.rs:300-332 | Without stray decoders, records are made only for flows that were opened |
| `StorePlugins.AnnotationsAreBounded` | crates/lens-store/src/lib.rs:559-566 | Whatever plugins report, no flow ever keeps more than 32 annotations |
| `StorePlugins.RevealChangesOnlyRecords` | crates/lens-store/src/lib.rs:509-551 | Over every run, revealing or another redactor for storage changes only the text and mark of stored records: plugins see and report the same |
| `StoreSecrecy.OnlyRedactedIsStored` | crates/lens-store/src/lib.rs:505-558 | Two runs whose data lead, message by message, to equal redaction outcomes, flags and pairing headers (and equal plugin redactions, if there are plugins) store the same flows and records, ids, evictions and waiting requests |
| `StoreSecrecy.SameDataSameStore` | crates/lens-store/src/lib.rs:505-558 | On the same data, decoders that report such messages leave the same store altogether |
| `StoreSecrecy.OnlyPluginRedactionIsShown` | crates/lens-store/src/lib.rs:509-566 | What plugins report, and everything but the text and mark of records, depends on a message only through the redactor for plugins, its flag and its pairing headers |
| `StoreFlows.FlowsTellTheRun` | crates/lens-store/src/lib.rs:300-569 | After any run without reused ids, every field of every stored flow is what happened since it was opened says: addresses, last protocol, identity, state, failure and loss, byte totals, the redacted record of every message with its mark, the first 32 plugin annotations, plugin failures |
| `StoreFlows.DecodersSeeTheData` | crates/lens-store/src/lib.rs:300-427 | After any run without reused ids, the decoder of a flow that was not evicted is the one its protocol last called for, given exactly the data observed since, in order |
| `StoreFlows.NameCallsForDecoder` | crates/lens-store/src/lib.rs:331-427 | A protocol name calls for a new decoder of the protocol that goes by it, and for none otherwise |
| `StoreActor.Actor.FindFlow` | crates/lens-store/src/lib.rs:572-576 | The search loop finds the first flow with an id |
| `StoreActor.Actor.Pair` | crates/lens-store/src/lib.rs:484-504 | In-place latency bookkeeping for one message |
| `StoreActor.Actor.StoreReport` | crates/lens-store/src/lib.rs:458-569 | In-place storing of a decoder report, message by message: latency, id, redacted record and its mark, gRPC label, plugin annotations and failures |
| `StoreActor.Actor.ShutFlow` | crates/lens-store/src/lib.rs:311-324 | A closing flow ends its decoder client side first, then server side, then drops its waiting requests |
| `StoreActor.Actor.Open` | crates/lens-store/src/lib.rs:331-397 | Eviction of the oldest flow when full, then the new flow and its decoder |
| `StoreActor.Actor.Apply` | crates/lens-store/src/lib.rs:300-456 | One observation changes the actor as specified |
| `StoreActor.Actor.Consume` | crates/lens-store/src/lib.rs:294-298 | The actor loop ends in the state of the specified run, holding the last flows opened |
| `LeafCache.CacheIsLru` | crates/lens-tls/src/lib.rs:264-302 | After any calls the queue is the tail of the recency order of served hosts and the table holds exactly the queued hosts |
| `LeafCache.CachedIffRecentlyUsed` | crates/lens-tls/src/lib.rs:664-689 | A host is cached if and only if it was served and fewer than capacity hosts were served since; no duplicates, never above capacity |
| `LeafCache.RecentSplits` | crates/lens-tls/src/lib.rs:664-689 | In the recency order, exactly the hosts used since stand after a host |
| `LeafCache.ServesTheIssued` | crates/lens-tls/src/lib.rs:264-302 | A cached host is served the configuration issued last for it |
| `LeafCache.CallsServe` | crates/lens-tls/src/lib.rs:264-302 | A call that ends in an error changes nothing; any other leaves its host most recent with the returned configuration |
| `LeafCache.Leaves.Get` | crates/lens-tls/src/lib.rs:673-678 | In-place lookup that moves a hit to the back of the queue |
| `LeafCache.Leaves.Put` | crates/lens-tls/src/lib.rs:680-688 | In-place insertion that evicts the front of a full queue |
| `LeafCache.Leaves.ServerConfig` | crates/lens-tls/src/lib.rs:264-302 | A call is a hit, a failed issuance or an insertion, as specified |
| `LeafHosts.WrittenHostIsNormalized` | crates/lens-tls/src/lib.rs:641-647 | Spaces and brackets around a host and dots after its name disappear, and its name is taken in lower case; a host without a name is refused |
| `LeafHosts.EveryTextIsAHost` | crates/lens-tls/src/lib.rs:641-647 | Every text is such a host |
| `LeafHosts.SpellingsShareAnEntry` | crates/lens-tls/src/lib.rs:641-647 | Two spellings share an entry if and only if their names differ at most in case |
| `LeafHosts.DotAfterBracketKeepsIt` | crates/lens-tls/src/lib.rs:641-647 | A dot after a closing bracket keeps the bracket in the name, for every bracketed name |
| `LeafHosts.SpellingsLeaveTheSameCache` | crates/lens-tls/src/lib.rs:264-302 | Runs of requests that differ only in spelling leave the same cache |
| `ProxyRuntime.CountersBalance` | crates/lens-proxy/src/lib.rs:539-636 | Over every interleaving, completed + failed + uncounted tasks = accepted + given-up tasks + joined late panics - abandoned tasks |
| `ProxyRuntime.DrainedStopIsExact` | crates/lens-proxy/src/lib.rs:604-613 | A drained stop has completed + failed = accepted + panics after counting, hence = accepted if and only if there were none |
| `ProxyRuntime.LatePanicCountsTwice` | crates/lens-proxy/src/lib.rs:604-613 | A run in which one connection is counted as completed and as failed |
| `ProxyRuntime.TimedOutStopIsBounded` | crates/lens-proxy/src/lib.rs:615-624 | A timed-out stop exceeds accepted by the unfinished tasks that were not abandoned: accepted <= completed + failed <= accepted + unfinished without late panics |
| `ProxyRuntime.BoundsAreReached` | crates/lens-proxy/src/lib.rs:615-624 | Both ends of the bound are reached with one connection |
| `ProxyRuntime.Server.Perform` | crates/lens-proxy/src/lib.rs:547-622 | One step updates counters, task set and phase in place as specified |
| `ProxyRuntime.Server.RunUntil` | crates/lens-proxy/src/lib.rs:539-636 | A run under any schedule ends with totals that satisfy the two stop laws |
| `ProxyCounters.CountersCountTheirSteps` | crates/lens-proxy/src/lib.rs:547-624 | After every schedule, accepted and completed count their own steps, and failed counts failed connections, joined panics and the tasks given up on |
| `ProxyCounters.OneOutcomeEach` | crates/lens-proxy/src/lib.rs:574-590 | Over every schedule, each accepted connection is counted as completed or failed at most once, and not before its forwarding ended |

## Left out

- HPACK internals, lossy UTF-8 decoding, base64, rustls, rcgen and wasmtime: parameters or absent.
- Redis redaction, form and query redaction, and the regular expressions of JSON redaction: no property here reads them.
- The wording of error texts: reasons are tags. The summaries and exported JSON of the store are absent.
- The service map of the store; the redactors and the plugins themselves are parameters.
- Sockets, timeouts, TLS handshakes and event emission of the proxy: only the task and counter steps remain.
- Command line, terminal interface, platform probes, trust stores and installers.
- Http1Fragmentation.PushCut: after a first push refused for one of the three size limits, only a clean single push and an empty second push are decided; the bytes that follow may still complete the oversized head, line or trailers.
- RedisDecoder.PushCut: after a first push refused by the frame size limit, the same holds.
- PostgresConversation.SecretsNeverShow: both runs are cut at the same places; bytes after an accepted encryption request are not read at all.
- Http2Decoder.StreamDecoder.ReadNextFrame: an oversized frame's buffered payload is skipped at once, which the specification does as a step of its own; the two are proved equal.
- SqlScanner.TokensCover: text outside the other tokens is one token per byte, where the code copies whole characters; RedactSqlLiterals shows that copying characters gives the same result.
- StoreActor.Actor.StoreReport: the wall clock and the run identifier of a record are not stored.
- ProxyRuntime.CountersBalance: counters are unbounded, where the code uses 64-bit atomics that wrap; byte totals are not counted.
- LeafCache.CacheIsLru: needs a capacity above zero, which the loader demands (crates/lens-tls/src/lib.rs:178).

Check the project with `dafny verify dfyconfig.toml`.
