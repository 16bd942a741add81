/** The contract behind every streaming decoder: a step over (control, buffer), the loop that
    repeats it until it needs more bytes, and the theorem that cutting the input changes nothing. */
module Streaming {
  import opened ByteStrings

  datatype Direction = ClientToServer | ServerToClient

  type Header = (Bytes, Bytes)

  datatype DecodedMessage = DecodedMessage(
    direction: Direction,
    startLine: Bytes,
    headers: seq<Header>,
    body: Bytes,
    truncated: bool)

  /** What one call reports: messages in order, and the last desynchronization reason. */
  datatype Batch<+M, +R> = Batch(messages: seq<M>, desynchronized: Option<R>)

  function Quiet<M, R>(): Batch<M, R> {
    Batch([], None)
  }

  /** Two reports in sequence: messages append and the later reason overwrites the earlier one. */
  function Join<M, R>(a: Batch<M, R>, b: Batch<M, R>): Batch<M, R> {
    Batch(a.messages + b.messages, if b.desynchronized.Some? then b.desynchronized else a.desynchronized)
  }

  lemma JoinAssociative<M, R>(a: Batch<M, R>, b: Batch<M, R>, c: Batch<M, R>)
    ensures Join(Join(a, b), c) == Join(a, Join(b, c))
    ensures Join(Quiet(), a) == a && Join(a, Quiet()) == a
  {
    assert a.messages + b.messages + c.messages == a.messages + (b.messages + c.messages);
    assert [] + a.messages == a.messages == a.messages + [];
  }

  datatype Outcome<+C, +M, +R> =
    | NeedMore(control: C, rest: Bytes)
    | Advance(control: C, rest: Bytes, emitted: Batch<M, R>)
    | Halt(control: C, emitted: Batch<M, R>)

  /** The state a loop leaves behind; a halted loop drops the buffer. */
  datatype Drained<+C, +M, +R> = Drained(control: C, rest: Bytes, batch: Batch<M, R>, halted: bool)

  ghost predicate ProductiveAt<C, M, R>(step: (C, Bytes) -> Outcome<C, M, R>, c: C, b: Bytes) {
    step(c, b).Advance? ==> |step(c, b).rest| < |b|
  }

  ghost predicate Productive<C(!new), M, R>(step: (C, Bytes) -> Outcome<C, M, R>) {
    forall c, b :: ProductiveAt(step, c, b)
  }

  /** Repeats `step` until it needs more bytes or halts. */
  function Drain<C(!new), M, R>(step: (C, Bytes) -> Outcome<C, M, R>, c: C, buffer: Bytes): Drained<C, M, R>
    requires Productive(step)
    decreases |buffer|
  {
    match step(c, buffer)
    case NeedMore(c', rest) => Drained(c', rest, Quiet(), false)
    case Halt(c', e) => Drained(c', [], e, true)
    case Advance(c', rest, e) =>
      assert ProductiveAt(step, c, buffer);
      Prepend(e, Drain(step, c', rest))
  }

  function Prepend<C, M, R>(e: Batch<M, R>, d: Drained<C, M, R>): Drained<C, M, R> {
    d.(batch := Join(e, d.batch))
  }

  /** What more input does to one step: nothing, once the step has decided. */
  ghost predicate StableAt<C, M, R>(step: (C, Bytes) -> Outcome<C, M, R>, c: C, x: Bytes, y: Bytes) {
    match step(c, x)
    case NeedMore(c', rest) => step(c, x + y) == step(c', rest + y)
    case Advance(c', rest, e) => step(c, x + y) == Advance(c', rest + y, e)
    case Halt(_, _) => true
  }

  ghost predicate Stable<C(!new), M, R>(step: (C, Bytes) -> Outcome<C, M, R>) {
    forall c, x, y :: StableAt(step, c, x, y)
  }

  /** Cutting a buffer in two changes neither the control state, the remainder nor the report,
      as long as the first part does not halt the loop. */
  lemma {:induction false} Cut<C(!new), M, R>(step: (C, Bytes) -> Outcome<C, M, R>, c: C, x: Bytes, y: Bytes)
    requires Productive(step) && Stable(step)
    requires !Drain(step, c, x).halted
    ensures var first := Drain(step, c, x);
            Drain(step, c, x + y) == Prepend(first.batch, Drain(step, first.control, first.rest + y))
    decreases |x|
  {
    assert StableAt(step, c, x, y) && ProductiveAt(step, c, x);
    match step(c, x)
    case NeedMore(c', rest) =>
      JoinAssociative(Drain(step, c', rest + y).batch, Quiet(), Quiet());
      assert ProductiveAt(step, c, x + y) && ProductiveAt(step, c', rest + y);
    case Advance(c', rest, e) =>
      Cut(step, c', rest, y);
      var first := Drain(step, c', rest);
      JoinAssociative(e, first.batch, Drain(step, first.control, first.rest + y).batch);
  }

  /** A step that halts still halts, in the same way, whatever follows. */
  ghost predicate FirmAt<C, M, R>(step: (C, Bytes) -> Outcome<C, M, R>, c: C, x: Bytes, y: Bytes) {
    step(c, x).Halt? ==> step(c, x + y) == step(c, x)
  }

  ghost predicate Firm<C(!new), M, R>(step: (C, Bytes) -> Outcome<C, M, R>) {
    forall c, x, y :: FirmAt(step, c, x, y)
  }

  /** Bytes after the point where a firm loop halts are never looked at. */
  lemma {:induction false} CutHalted<C(!new), M, R>(step: (C, Bytes) -> Outcome<C, M, R>, c: C, x: Bytes, y: Bytes)
    requires Productive(step) && Stable(step) && Firm(step)
    requires Drain(step, c, x).halted
    ensures Drain(step, c, x + y) == Drain(step, c, x)
    decreases |x|
  {
    assert StableAt(step, c, x, y) && FirmAt(step, c, x, y) && ProductiveAt(step, c, x);
    match step(c, x)
    case NeedMore(_, _) =>
    case Halt(_, _) =>
    case Advance(c', rest, _) => CutHalted(step, c', rest, y);
  }

  /** A step that reports a reason exactly when it halts. */
  ghost predicate CandidAt<C, M, R>(step: (C, Bytes) -> Outcome<C, M, R>, c: C, b: Bytes) {
    match step(c, b)
    case NeedMore(_, _) => true
    case Advance(_, _, e) => e.desynchronized.None?
    case Halt(_, e) => e.desynchronized.Some?
  }

  ghost predicate Candid<C(!new), M, R>(step: (C, Bytes) -> Outcome<C, M, R>) {
    forall c, b :: CandidAt(step, c, b)
  }

  lemma {:induction false} HaltedIffReported<C(!new), M, R>(step: (C, Bytes) -> Outcome<C, M, R>, c: C, b: Bytes)
    requires Productive(step) && Candid(step)
    ensures Drain(step, c, b).halted <==> Drain(step, c, b).batch.desynchronized.Some?
    decreases |b|
  {
    assert CandidAt(step, c, b) && ProductiveAt(step, c, b);
    match step(c, b)
    case NeedMore(_, _) =>
    case Halt(_, _) =>
    case Advance(c', rest, _) => HaltedIffReported(step, c', rest);
  }

  lemma {:induction false} HaltedDropsTheRest<C(!new), M, R>(step: (C, Bytes) -> Outcome<C, M, R>, c: C, b: Bytes)
    requires Productive(step)
    ensures Drain(step, c, b).halted ==> Drain(step, c, b).rest == []
    decreases |b|
  {
    assert ProductiveAt(step, c, b);
    match step(c, b)
    case NeedMore(_, _) =>
    case Halt(_, _) =>
    case Advance(c', rest, _) => HaltedDropsTheRest(step, c', rest);
  }

  /** A step that halts for a reason in `final` still halts, in the same way, whatever follows. */
  ghost predicate FinalAt<C, M, R>(step: (C, Bytes) -> Outcome<C, M, R>, final: R -> bool, c: C, x: Bytes, y: Bytes) {
    var r := step(c, x);
    r.Halt? && r.emitted.desynchronized.Some? && final(r.emitted.desynchronized.value) ==> step(c, x + y) == r
  }

  ghost predicate Final<C(!new), M, R>(step: (C, Bytes) -> Outcome<C, M, R>, final: R -> bool) {
    forall c, x, y :: FinalAt(step, final, c, x, y)
  }

  /** Bytes after the point where a loop halts for a final reason are never looked at. */
  lemma {:induction false} CutFinal<C(!new), M, R>(step: (C, Bytes) -> Outcome<C, M, R>, final: R -> bool, c: C, x: Bytes, y: Bytes)
    requires Productive(step) && Stable(step) && Candid(step) && Final(step, final)
    requires var reason := Drain(step, c, x).batch.desynchronized; reason.Some? && final(reason.value)
    ensures Drain(step, c, x + y) == Drain(step, c, x)
    decreases |x|
  {
    assert StableAt(step, c, x, y) && FinalAt(step, final, c, x, y) && CandidAt(step, c, x) && ProductiveAt(step, c, x);
    match step(c, x)
    case NeedMore(_, _) =>
    case Halt(_, _) =>
    case Advance(c', rest, _) => CutFinal(step, final, c', rest, y);
  }

  // -------------------------------------------------------- pushing fragments

  function Flatten(fragments: seq<Bytes>): Bytes {
    if fragments == [] then [] else fragments[0] + Flatten(fragments[1..])
  }

  lemma {:induction false} FlattenGrows(fragments: seq<Bytes>, last: Bytes)
    ensures Flatten(fragments + [last]) == Flatten(fragments) + last
    decreases |fragments|
  {
    if fragments == [] {
      assert fragments + [last] == [last] && [last][1..] == [] && last + [] == last;
    } else {
      FlattenGrows(fragments[1..], last);
      assert (fragments + [last])[1..] == fragments[1..] + [last];
    }
  }

  /** Pushes the fragments in order and joins the reports. */
  function Feed<S, M, R>(push: (S, Bytes) -> (S, Batch<M, R>), s: S, fragments: seq<Bytes>): (S, Batch<M, R>)
    decreases fragments
  {
    if fragments == [] then (s, Quiet())
    else
      var (s1, r1) := push(s, fragments[0]);
      var (s2, r2) := Feed(push, s1, fragments[1..]);
      (s2, Join(r1, r2))
  }

  ghost predicate CutsAt<S, M, R>(push: (S, Bytes) -> (S, Batch<M, R>), s: S, a: Bytes, b: Bytes) {
    var (s1, r1) := push(s, a);
    var (s2, r2) := push(s1, b);
    push(s, a + b) == (s2, Join(r1, r2))
  }

  /** `ok` holds at every cut between the fragments, as the run reaches it. */
  ghost predicate OkAtEveryCut<S, M, R>(push: (S, Bytes) -> (S, Batch<M, R>), ok: (S, Bytes, Bytes) -> bool, s: S, fragments: seq<Bytes>)
    decreases fragments
  {
    |fragments| <= 1 || (ok(s, fragments[0], Flatten(fragments[1..]))
                         && OkAtEveryCut(push, ok, push(s, fragments[0]).0, fragments[1..]))
  }

  /** A push that may be cut in two wherever `ok` allows it may be cut into any number of pieces. */
  lemma {:induction false} FeedIsOnePush<S(!new), M, R>(push: (S, Bytes) -> (S, Batch<M, R>), ok: (S, Bytes, Bytes) -> bool, s: S, fragments: seq<Bytes>)
    requires forall s, a, b :: ok(s, a, b) ==> CutsAt(push, s, a, b)
    requires fragments != [] && OkAtEveryCut(push, ok, s, fragments)
    ensures Feed(push, s, fragments) == push(s, Flatten(fragments))
    decreases fragments
  {
    var (s1, r1) := push(s, fragments[0]);
    if |fragments| == 1 {
      assert fragments[0] + [] == fragments[0];
      JoinAssociative(r1, r1, r1);
    } else {
      FeedIsOnePush(push, ok, s1, fragments[1..]);
      assert CutsAt(push, s, fragments[0], Flatten(fragments[1..]));
    }
  }
}
