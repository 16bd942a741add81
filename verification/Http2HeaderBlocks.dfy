/** Header blocks split over HEADERS and CONTINUATION frames (sections 4.3, 6.2 and 6.10 of RFC 9113). */
module Http2HeaderBlocks {
  import opened ByteStrings
  import opened Streaming
  import opened Http2
  import opened Http2Fragmentation

  /** Frames handled one after the other. */
  function HandleAll(env: Env, maxBody: nat, c: Core, d: Direction, frames: seq<Frame>): (Core, Report)
    decreases frames
  {
    if frames == [] then (c, Quiet())
    else
      var (c1, r1) := Settle(HandleFrame(env, maxBody, c, d, frames[0]), d);
      var (c2, r2) := HandleAll(env, maxBody, c1, d, frames[1..]);
      (c2, Join(r1, r2))
  }

  // ------------------------------------------------------------------- fragments

  /** A HEADERS payload with padding, and with priority fields when `priority` is given. */
  function PaddedPayload(padding: Bytes, priority: Option<Bytes>, part: Bytes): Bytes
    requires |padding| < 256 && (priority.Some? ==> |priority.value| == 5)
  {
    [|padding|] + (if priority.Some? then priority.value else []) + part + padding
  }

  /** Padding and priority never reach the block. */
  lemma PaddingIsInvisible(f: Frame, padding: Bytes, priority: Option<Bytes>, part: Bytes)
    requires |padding| < 256 && (priority.Some? ==> |priority.value| == 5)
    requires HasFlag(f.flags, FLAG_PADDED) && (HasFlag(f.flags, FLAG_PRIORITY) <==> priority.Some?)
    requires f.payload == PaddedPayload(padding, priority, part)
    ensures HeaderFragment(f) == Fragment(part)
  {
    hide HasFlag;
    var start := if priority.Some? then 6 else 1;
    assert |f.payload| == start + |part| + |padding|;
    assert f.payload[start..|f.payload| - |padding|] == part;
  }

  lemma PriorityIsInvisible(f: Frame, priority: Bytes, part: Bytes)
    requires |priority| == 5 && !HasFlag(f.flags, FLAG_PADDED) && HasFlag(f.flags, FLAG_PRIORITY)
    requires f.payload == priority + part
    ensures HeaderFragment(f) == Fragment(part)
  {
    hide HasFlag;
    assert f.payload[5..] == part;
  }

  // ----------------------------------------------------------------------- blocks

  /** Adding two fragments is adding their concatenation, also past the 64 KiB bound. */
  lemma ExtendAppend(block: HeaderBlock, x: Bytes, y: Bytes)
    requires block.exceeded ==> |block.bytes| >= MAX_HEADER_BLOCK
    ensures Extend(Extend(block, x), y) == Extend(block, x + y)
    ensures Extend(block, x).exceeded ==> |Extend(block, x).bytes| >= MAX_HEADER_BLOCK
  {
    var k := Min(Monus(MAX_HEADER_BLOCK, |block.bytes|), |x|);
    var n := Min(Monus(MAX_HEADER_BLOCK, |block.bytes| + k), |y|);
    assert (x + y)[..k + n] == x[..k] + y[..n];
  }

  lemma ShortBlockIsWhole(id: nat, endStream: bool, bytes: Bytes)
    ensures var b := Extend(HeaderBlock(id, endStream, [], false), bytes);
            (b.exceeded <==> |bytes| > MAX_HEADER_BLOCK) && (|bytes| <= MAX_HEADER_BLOCK ==> b.bytes == bytes)
  {
    if |bytes| <= MAX_HEADER_BLOCK { assert bytes[..|bytes|] == bytes; }
  }

  /** Continuations of stream `id` of which exactly the last one ends the block. */
  predicate Continues(frames: seq<Frame>, id: nat, ended: bool) {
    forall i :: 0 <= i < |frames| ==>
      && frames[i].kind == FRAME_CONTINUATION && frames[i].streamId == id
      && (HasFlag(frames[i].flags, FLAG_END_HEADERS) <==> ended && i == |frames| - 1)
  }

  function Payloads(frames: seq<Frame>): Bytes {
    if frames == [] then [] else frames[0].payload + Payloads(frames[1..])
  }

  predicate Open(c: Core, d: Direction) {
    SideOf(c, d).continuation.None?
  }

  lemma ContinuationSteps(env: Env, maxBody: nat, c: Core, d: Direction, f: Frame, block: HeaderBlock)
    requires Open(c, d) && f.kind == FRAME_CONTINUATION && f.streamId == block.streamId
    ensures HandleFrame(env, maxBody, WithContinuation(c, d, Some(block)), d, f)
            == BlockSoFar(env, c, d, f, Extend(block, f.payload))
  {
    hide BlockSoFar, Extend;
    assert WithContinuation(WithContinuation(c, d, Some(block)), d, None) == c;
  }

  lemma {:induction false} ContinuationsComplete(env: Env, maxBody: nat, c: Core, d: Direction, block: HeaderBlock, frames: seq<Frame>)
    requires Open(c, d) && frames != [] && Continues(frames, block.streamId, true)
    requires block.exceeded ==> |block.bytes| >= MAX_HEADER_BLOCK
    ensures HandleAll(env, maxBody, WithContinuation(c, d, Some(block)), d, frames)
            == Settle(CompleteBlock(env, c, d, Extend(block, Payloads(frames))), d)
    decreases frames
  {
    hide HandleFrame, CompleteBlock, Extend, HasFlag, Open;
    var f := frames[0];
    var block' := Extend(block, f.payload);
    ContinuationSteps(env, maxBody, c, d, f, block);
    ExtendKeepsStream(block, f.payload);
    if |frames| == 1 {
      assert Payloads(frames) == f.payload + [] == f.payload;
      var (c', r) := Settle(CompleteBlock(env, c, d, block'), d);
      JoinAssociative(r, r, r);
    } else {
      ExtendAppend(block, f.payload, Payloads(frames[1..]));
      ContinuationsComplete(env, maxBody, c, d, block', frames[1..]);
      var (c', r) := Settle(CompleteBlock(env, c, d, Extend(block, Payloads(frames))), d);
      JoinAssociative(r, r, r);
    }
  }

  lemma ExtendKeepsStream(block: HeaderBlock, x: Bytes)
    ensures Extend(block, x).streamId == block.streamId && Extend(block, x).endStream == block.endStream
  {
  }

  /** A HEADERS frame that starts a block with the given fragment. */
  predicate Starts(f: Frame, id: nat, part: Bytes, ended: bool) {
    && f.kind == FRAME_HEADERS && f.streamId == id && id != 0 && HeaderFragment(f) == Fragment(part)
    && (HasFlag(f.flags, FLAG_END_HEADERS) <==> ended)
  }

  lemma StartSteps(env: Env, maxBody: nat, c: Core, d: Direction, f: Frame, id: nat, part: Bytes, ended: bool)
    requires Open(c, d) && Starts(f, id, part, ended)
    ensures var block := Extend(HeaderBlock(id, HasFlag(f.flags, FLAG_END_STREAM), [], false), part);
            HandleFrame(env, maxBody, c, d, f)
            == if ended then CompleteBlock(env, c, d, block) else Ok(WithContinuation(c, d, Some(block)), [])
  {
    hide CompleteBlock, Extend, HasFlag, HeaderFragment;
  }

  /** However a block is split, padded or prioritised, the decoder ends as if one HEADERS frame had carried
      all of it: same HPACK input, same streams, same messages, same error. */
  lemma SplitBlockIsOneBlock(env: Env, maxBody: nat, c: Core, d: Direction, first: Frame, part: Bytes, more: seq<Frame>, whole: Frame)
    requires Open(c, d) && more != []
    requires Starts(first, first.streamId, part, false) && Continues(more, first.streamId, true)
    requires Starts(whole, first.streamId, part + Payloads(more), true)
    requires HasFlag(whole.flags, FLAG_END_STREAM) == HasFlag(first.flags, FLAG_END_STREAM)
    ensures HandleAll(env, maxBody, c, d, [first] + more) == Settle(HandleFrame(env, maxBody, c, d, whole), d)
  {
    hide HandleFrame, CompleteBlock, HasFlag, HeaderFragment, Extend;
    var id, endStream := first.streamId, HasFlag(first.flags, FLAG_END_STREAM);
    var empty := HeaderBlock(id, endStream, [], false);
    var block := Extend(empty, part);
    StartSteps(env, maxBody, c, d, first, id, part, false);
    StartSteps(env, maxBody, c, d, whole, id, part + Payloads(more), true);
    ExtendAppend(empty, part, Payloads(more));
    ExtendKeepsStream(empty, part);
    ContinuationsComplete(env, maxBody, c, d, block, more);
    assert ([first] + more)[1..] == more;
    var (c', r) := Settle(CompleteBlock(env, c, d, Extend(block, Payloads(more))), d);
    JoinAssociative(r, r, r);
  }

  /** HPACK is given the whole block when it fits 64 KiB, and nothing otherwise. */
  lemma HpackSeesTheBlock(env: Env, maxBody: nat, c: Core, d: Direction, f: Frame, id: nat, bytes: Bytes)
    requires Open(c, d) && Starts(f, id, bytes, true)
    ensures var h := HandleFrame(env, maxBody, c, d, f);
            SideOf(h.core, d).history == SideOf(c, d).history + if |bytes| <= MAX_HEADER_BLOCK then [bytes] else []
    ensures |bytes| > MAX_HEADER_BLOCK ==> HandleFrame(env, maxBody, c, d, f) == Err(c, BlockTooLong)
  {
    hide ApplyHeaders, HasFlag, HeaderFragment, Lossy, DecodedSize;
    StartSteps(env, maxBody, c, d, f, id, bytes, true);
    ShortBlockIsWhole(id, HasFlag(f.flags, FLAG_END_STREAM), bytes);
    assert SideOf(c, d).history + [] == SideOf(c, d).history;
    var c1 := GiveToHpack(c, d, bytes);
    var raw := env.hpack(SideOf(c1, d).history);
    if raw.Some? {
      ApplyKeepsSides(c1, d, id, HasFlag(f.flags, FLAG_END_STREAM), Lossy(env, raw.value));
    }
  }

  lemma {:induction false} ContinuationsWait(env: Env, maxBody: nat, c: Core, d: Direction, block: HeaderBlock, frames: seq<Frame>)
    requires Open(c, d) && Continues(frames, block.streamId, false)
    requires block.exceeded ==> |block.bytes| >= MAX_HEADER_BLOCK
    ensures HandleAll(env, maxBody, WithContinuation(c, d, Some(block)), d, frames)
            == (WithContinuation(c, d, Some(Extend(block, Payloads(frames)))), Quiet())
    decreases frames
  {
    hide HandleFrame, CompleteBlock, HasFlag, Open;
    if frames == [] {
      assert block.bytes + [] == block.bytes;
      assert Extend(block, []) == block;
    } else {
      ContinuationSteps(env, maxBody, c, d, frames[0], block);
      ExtendAppend(block, frames[0].payload, Payloads(frames[1..]));
      ContinuationsWait(env, maxBody, c, d, Extend(block, frames[0].payload), frames[1..]);
      JoinAssociative(Quiet<DecodedMessage, Reason>(), Quiet(), Quiet());
    }
  }

  lemma {:induction false} HandleAllAppend(env: Env, maxBody: nat, c: Core, d: Direction, frames: seq<Frame>, last: Frame)
    ensures var (c1, r1) := HandleAll(env, maxBody, c, d, frames);
            var (c2, r2) := Settle(HandleFrame(env, maxBody, c1, d, last), d);
            HandleAll(env, maxBody, c, d, frames + [last]) == (c2, Join(r1, r2))
    decreases frames
  {
    hide HandleFrame, Settle;
    if frames == [] {
      assert frames + [last] == [last];
      var (c2, r2) := Settle(HandleFrame(env, maxBody, c, d, last), d);
      JoinAssociative(r2, r2, r2);
    } else {
      var (c1, r1) := Settle(HandleFrame(env, maxBody, c, d, frames[0]), d);
      HandleAllAppend(env, maxBody, c1, d, frames[1..], last);
      assert (frames + [last])[1..] == frames[1..] + [last];
      var (c2, r2) := HandleAll(env, maxBody, c1, d, frames[1..]);
      JoinAssociative(r1, r2, Settle(HandleFrame(env, maxBody, c2, d, last), d).1);
    }
  }

  /** A block interrupted by any other frame leaves no trace: HPACK, streams and budget are as before it
      started, and the interrupting frame itself is dropped. */
  lemma InterruptedBlockVanishes(env: Env, maxBody: nat, c: Core, d: Direction, first: Frame, part: Bytes, more: seq<Frame>, other: Frame)
    requires Open(c, d) && Starts(first, first.streamId, part, false) && Continues(more, first.streamId, false)
    requires other.kind != FRAME_CONTINUATION
    ensures HandleAll(env, maxBody, c, d, [first] + more + [other]) == (c, Batch([], Some(BlockInterrupted)))
  {
    hide HandleFrame, HasFlag, HeaderFragment, Extend;
    var empty := HeaderBlock(first.streamId, HasFlag(first.flags, FLAG_END_STREAM), [], false);
    var block := Extend(empty, part);
    StartSteps(env, maxBody, c, d, first, first.streamId, part, false);
    ExtendAppend(empty, part, []);
    ExtendKeepsStream(empty, part);
    ContinuationsWait(env, maxBody, c, d, block, more);
    assert ([first] + more)[1..] == more;
    JoinAssociative(Quiet<DecodedMessage, Reason>(), Quiet(), Quiet());
    var waiting := WithContinuation(c, d, Some(Extend(block, Payloads(more))));
    assert HandleAll(env, maxBody, c, d, [first] + more) == (waiting, Quiet());
    HandleAllAppend(env, maxBody, c, d, [first] + more, other);
    Interrupts(env, maxBody, c, d, Extend(block, Payloads(more)), other);
  }

  lemma Interrupts(env: Env, maxBody: nat, c: Core, d: Direction, block: HeaderBlock, other: Frame)
    requires Open(c, d) && other.kind != FRAME_CONTINUATION
    ensures Settle(HandleFrame(env, maxBody, WithContinuation(c, d, Some(block)), d, other), d)
            == (c, Batch([], Some(BlockInterrupted)))
  {
  }
}
