/** Frames as bytes (section 4.1 of RFC 9113): what is written is what is handled, in order. */
module Http2Wire {
  import opened ByteStrings
  import opened Streaming
  import opened Http2
  import opened Http2HeaderBlocks
  import opened Http2Fragmentation

  predicate Writable(f: Frame) {
    |f.payload| <= MAX_OBSERVED_FRAME_PAYLOAD && f.streamId < 0x8000_0000
  }

  function Encode24(n: nat): (b: Bytes)
    requires n < 0x100_0000
    ensures |b| == 3 && b[0] as int * 65536 + b[1] as int * 256 + b[2] == n
  {
    [n / 65536, n / 256 % 256, n % 256]
  }

  function Write(f: Frame): (b: Bytes)
    requires Writable(f)
    ensures |b| == FRAME_HEADER_BYTES + |f.payload|
  {
    Encode24(|f.payload|) + [f.kind, f.flags] + Encode32(f.streamId) + f.payload
  }

  predicate AllWritable(fs: seq<Frame>) {
    forall i :: 0 <= i < |fs| ==> Writable(fs[i])
  }

  function WriteAll(fs: seq<Frame>): Bytes
    requires AllWritable(fs)
  {
    if fs == [] then [] else Write(fs[0]) + WriteAll(fs[1..])
  }

  lemma TopBitIsClear(n: nat)
    requires n < 0x8000_0000
    ensures Encode32(n)[0] < 128
  {
    var b := Encode32(n);
    assert Be32(b) == n;
  }

  lemma WrittenReadsBack(f: Frame, rest: Bytes)
    requires Writable(f)
    ensures var b := Write(f) + rest;
            && FrameLength(b) == |f.payload| && ReadFrame(b) == f
            && b[FRAME_HEADER_BYTES + |f.payload|..] == rest
  {
    hide Encode32, Encode24, Be32;
    var b := Write(f) + rest;
    assert b[..3] == Encode24(|f.payload|);
    assert b[0] == b[..3][0] && b[1] == b[..3][1] && b[2] == b[..3][2];
    assert b[5..9] == Encode32(f.streamId);
    TopBitIsClear(f.streamId);
    assert b[5] == b[5..9][0] && b[5] % 128 == b[5];
    assert [b[5] % 128, b[6], b[7], b[8]] == b[5..9];
    assert b[FRAME_HEADER_BYTES..FRAME_HEADER_BYTES + |f.payload|] == f.payload;
  }

  /** A direction past its preface with nothing to skip. */
  predicate AtFrame(c: Core, d: Direction) {
    !SideOf(c, d).expectPreface && SideOf(c, d).skip == 0
  }

  lemma FrameKeepsPlace(env: Env, maxBody: nat, c: Core, d: Direction, f: Frame)
    requires AtFrame(c, d)
    ensures AtFrame(Settle(HandleFrame(env, maxBody, c, d, f), d).0, d)
  {
    hide BlockSoFar, HandleData, HeaderFragment, Extend, HasFlag;
    DataKeepsSides(maxBody, c, d, f);
    if f.kind == FRAME_HEADERS {
      match HeaderFragment(f)
      case BadFragment(_) =>
      case Fragment(bytes) =>
        BlockKeepsPlace(env, c, d, f, Extend(HeaderBlock(f.streamId, HasFlag(f.flags, FLAG_END_STREAM), [], false), bytes));
    } else if f.kind == FRAME_CONTINUATION {
      match SideOf(c, d).continuation
      case None =>
      case Some(block) => BlockKeepsPlace(env, WithContinuation(c, d, None), d, f, Extend(block, f.payload));
    }
  }

  lemma BlockKeepsPlace(env: Env, c: Core, d: Direction, f: Frame, block: HeaderBlock)
    requires AtFrame(c, d)
    ensures AtFrame(BlockSoFar(env, c, d, f, block).core, d)
  {
    hide ApplyHeaders, HasFlag;
    var c1 := GiveToHpack(c, d, block.bytes);
    var raw := env.hpack(SideOf(c1, d).history);
    if raw.Some? { ApplyKeepsSides(c1, d, block.streamId, block.endStream, Lossy(env, raw.value)); }
  }

  lemma OneFrame(env: Env, maxBody: nat, c: Core, d: Direction, f: Frame, rest: Bytes)
    requires AtFrame(c, d) && Writable(f)
    ensures var (c', r) := Settle(HandleFrame(env, maxBody, c, d, f), d);
            DrainFrames(env, maxBody, d, c, Write(f) + rest) == Prepend(r, DrainFrames(env, maxBody, d, c', rest))
  {
    hide HandleFrame, Settle, ReadFrame, Write, DrainFrames, PREFACE;
    WrittenReadsBack(f, rest);
    DrainUnfolds(env, maxBody, d, c, Write(f) + rest);
  }

  /** Frames written one after the other are handled one after the other, and nothing is left. */
  lemma {:induction false} WrittenFramesAreHandled(env: Env, maxBody: nat, c: Core, d: Direction, fs: seq<Frame>)
    requires AtFrame(c, d) && AllWritable(fs)
    ensures var (c', r) := HandleAll(env, maxBody, c, d, fs);
            DrainFrames(env, maxBody, d, c, WriteAll(fs)) == Drained(c', [], r, false)
    decreases |fs|
  {
    hide HandleFrame, Settle, Write, DrainFrames, Writable;
    if fs == [] {
      DrainUnfolds(env, maxBody, d, c, []);
    } else {
      OneFrame(env, maxBody, c, d, fs[0], WriteAll(fs[1..]));
      FrameKeepsPlace(env, maxBody, c, d, fs[0]);
      WrittenFramesAreHandled(env, maxBody, Settle(HandleFrame(env, maxBody, c, d, fs[0]), d).0, d, fs[1..]);
    }
  }

  /** A client's preface followed by frames, from the start of a connection and however it is cut. */
  lemma ConnectionStarts(env: Env, maxBody: nat, fs: seq<Frame>, fragments: seq<Bytes>)
    requires AllWritable(fs) && fragments != [] && Flatten(fragments) == PREFACE + WriteAll(fs)
    requires OkAtEveryCut(Pusher(env, maxBody, ClientToServer), GoodStart(ClientToServer), Initial, fragments)
    ensures var started := InitialCore.(client := InitialCore.client.(expectPreface := false));
            var (c, r) := HandleAll(env, maxBody, started, ClientToServer, fs);
            Feed(Pusher(env, maxBody, ClientToServer), Initial, fragments) == (Decoder(c, [], []), r)
  {
    hide HandleFrame, Settle, WriteAll, HandleAll;
    Fragmentation(env, maxBody, ClientToServer, Initial, fragments);
    var started := InitialCore.(client := InitialCore.client.(expectPreface := false));
    var b := PREFACE + WriteAll(fs);
    PrefaceRead(env, maxBody, WriteAll(fs));
    WrittenFramesAreHandled(env, maxBody, started, ClientToServer, fs);
    assert [] + b == b;
    JoinAssociative(HandleAll(env, maxBody, started, ClientToServer, fs).1, Quiet(), Quiet());
  }

  lemma PrefaceRead(env: Env, maxBody: nat, rest: Bytes)
    ensures DrainFrames(env, maxBody, ClientToServer, InitialCore, PREFACE + rest)
            == Prepend(Quiet(), DrainFrames(env, maxBody, ClientToServer, InitialCore.(client := InitialCore.client.(expectPreface := false)), rest))
  {
    hide DrainFrames, PREFACE, StepFrame;
    PrefaceLength();
    var b := PREFACE + rest;
    assert b[..24] == PREFACE && PREFACE[..24] == PREFACE && b[24..] == rest;
    DrainUnfolds(env, maxBody, ClientToServer, InitialCore, b);
  }
}
