/** What each of the proxy's counters counts, over every interleaving of its steps. */
module ProxyCounters {
  import opened ProxyRuntime

  /** The sum, over the steps taken, of what each weighs in the state it is taken in. */
  function Tally(steps: seq<Step>, weigh: (Runtime, Step) -> nat): nat {
    if steps == [] then 0
    else
      var before, s := steps[..|steps| - 1], steps[|steps| - 1];
      Tally(before, weigh) + if Enabled(After(before), s) then weigh(After(before), s) else 0
  }

  function Accepts(): (Runtime, Step) -> nat {
    (r: Runtime, s: Step) => One(s.Accept?)
  }

  function Completes(): (Runtime, Step) -> nat {
    (r: Runtime, s: Step) => One(s.Complete?)
  }

  /** Connections that ended with an error. */
  function Fails(): (Runtime, Step) -> nat {
    (r: Runtime, s: Step) => One(s.Fail?)
  }

  /** Panicked tasks that were joined. */
  function JoinsPanicked(): (Runtime, Step) -> nat {
    (r: Runtime, s: Step) => One(s.Join? && (At(r, s.flow, Panicked(false)) || At(r, s.flow, Panicked(true))))
  }

  /** Tasks still in the set when the grace period ran out. */
  function GivesUpOn(): (Runtime, Step) -> nat {
    (r: Runtime, s: Step) => if s.GiveUp? then |r.tasks| else 0
  }

  lemma StepCounts(r: Runtime, s: Step)
    requires Enabled(r, s)
    ensures var n := Do(r, s);
            && n.accepted == r.accepted + Accepts()(r, s)
            && n.completed == r.completed + Completes()(r, s)
            && n.failed == r.failed + Fails()(r, s) + JoinsPanicked()(r, s) + GivesUpOn()(r, s)
  {
  }

  /** After every schedule, `accepted` and `completed` count their own steps, and `failed` counts failed
      connections, joined panics and the tasks given up on. */
  lemma {:induction false} CountersCountTheirSteps(steps: seq<Step>)
    ensures var r := After(steps);
            && r.accepted == Tally(steps, Accepts())
            && r.completed == Tally(steps, Completes())
            && r.failed == Tally(steps, Fails()) + Tally(steps, JoinsPanicked()) + Tally(steps, GivesUpOn())
    decreases |steps|
  {
    hide Do, Enabled, Accepts, Completes, Fails, JoinsPanicked, GivesUpOn;
    if steps != [] {
      var before, s := steps[..|steps| - 1], steps[|steps| - 1];
      CountersCountTheirSteps(before);
      if Enabled(After(before), s) { StepCounts(After(before), s); }
    }
  }

  // ------------------------------------------------------------------------ one flow

  /** One connection's outcomes: it completed or it failed. */
  function Settles(flow: nat): (Runtime, Step) -> nat {
    (r: Runtime, s: Step) => One((s.Complete? || s.Fail?) && s.flow == flow)
  }

  /** A connection still being forwarded has no outcome yet, nor has one not accepted; none has two. */
  predicate Settled(r: Runtime, flow: nat, n: nat) {
    && n <= 1
    && (At(r, flow, Working) || flow > r.accepted || flow == 0 ==> n == 0)
    && (At(r, flow, Counted) || At(r, flow, Returned) || At(r, flow, Panicked(true)) ==> n == 1)
    && (At(r, flow, Panicked(false)) ==> n == 0)
  }

  /** Over every schedule, each accepted connection is counted as completed or failed at most once. */
  lemma {:induction false} OneOutcomeEach(steps: seq<Step>, flow: nat)
    ensures var r := After(steps);
            Settled(r, flow, Tally(steps, Settles(flow)))
    decreases |steps|
  {
    hide Do, Enabled, Settles;
    if steps != [] {
      var before, s := steps[..|steps| - 1], steps[|steps| - 1];
      OneOutcomeEach(before, flow);
      RunIsOrderly(before);
      if Enabled(After(before), s) { OutcomeOf(After(before), s, flow, Tally(before, Settles(flow))); }
    }
  }

  lemma OutcomeOf(r: Runtime, s: Step, flow: nat, n: nat)
    requires Enabled(r, s) && Orderly(r) && Settled(r, flow, n)
    ensures Settled(Do(r, s), flow, n + Settles(flow)(r, s))
  {
  }
}
