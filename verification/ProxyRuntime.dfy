/** The proxy's accept loop, its connection tasks and their counters, as steps that may interleave freely. */
module ProxyRuntime {

  /** A connection task: forwarding, counted as completed or failed, returned, or panicked before or
      after it was counted. */
  datatype Stage = Working | Counted | Returned | Panicked(late: bool)

  datatype Phase =
    | Serving
    | Draining
    | Aborting(unfinished: nat)
    | Drained
    | TimedOut(unfinished: nat)

  datatype Runtime = Runtime(phase: Phase, accepted: nat, completed: nat, failed: nat, tasks: map<nat, Stage>)

  const STARTED: Runtime := Runtime(Serving, 0, 0, 0, map[])

  datatype Step =
    | Accept
    | Complete(flow: nat)
    | Fail(flow: nat)
    | Return(flow: nat)
    | Panic(flow: nat)
    | Join(flow: nat)
    | ShutDown
    | FinishDrain
    | GiveUp
    | Reap(flow: nat)
    | FinishAbort

  predicate Active(p: Phase) {
    p.Serving? || p.Draining? || p.Aborting?
  }

  predicate At(r: Runtime, flow: nat, stage: Stage) {
    flow in r.tasks && r.tasks[flow] == stage
  }

  predicate Enabled(r: Runtime, s: Step) {
    match s
    case Accept => r.phase.Serving?
    case Complete(flow) => Active(r.phase) && At(r, flow, Working)
    case Fail(flow) => Active(r.phase) && At(r, flow, Working)
    case Return(flow) => Active(r.phase) && At(r, flow, Counted)
    case Panic(flow) => Active(r.phase) && (At(r, flow, Working) || At(r, flow, Counted))
    case Join(flow) => (r.phase.Serving? || r.phase.Draining?) && flow in r.tasks && (r.tasks[flow].Returned? || r.tasks[flow].Panicked?)
    case ShutDown => r.phase.Serving?
    case FinishDrain => r.phase.Draining? && r.tasks == map[]
    case GiveUp => r.phase.Draining?
    case Reap(flow) => r.phase.Aborting? && flow in r.tasks
    case FinishAbort => r.phase.Aborting? && r.tasks == map[]
  }

  function Moved(r: Runtime, flow: nat, stage: Stage): Runtime {
    r.(tasks := r.tasks[flow := stage])
  }

  function Do(r: Runtime, s: Step): Runtime
    requires Enabled(r, s)
  {
    match s
    case Accept => Moved(r, r.accepted + 1, Working).(accepted := r.accepted + 1)
    case Complete(flow) => Moved(r, flow, Counted).(completed := r.completed + 1)
    case Fail(flow) => Moved(r, flow, Counted).(failed := r.failed + 1)
    case Return(flow) => Moved(r, flow, Returned)
    case Panic(flow) => Moved(r, flow, Panicked(r.tasks[flow].Counted?))
    case Join(flow) => r.(tasks := r.tasks - {flow}, failed := if r.tasks[flow].Panicked? then r.failed + 1 else r.failed)
    case ShutDown => r.(phase := Draining)
    case FinishDrain => r.(phase := Drained)
    case GiveUp => r.(phase := Aborting(|r.tasks|), failed := r.failed + |r.tasks|)
    case Reap(flow) => r.(tasks := r.tasks - {flow})
    case FinishAbort => r.(phase := TimedOut(r.phase.unfinished))
  }

  /** A step that is not possible is not taken. */
  function Next(r: Runtime, s: Step): Runtime {
    if Enabled(r, s) then Do(r, s) else r
  }

  /** The runtime after any interleaving of steps from a fresh start. */
  function After(steps: seq<Step>): Runtime {
    if steps == [] then STARTED else Next(After(steps[..|steps| - 1]), steps[|steps| - 1])
  }

  // ------------------------------------------------------------------ bookkeeping

  const UNCOUNTED: set<Stage> := {Working, Panicked(false)}

  function Matching(tasks: map<nat, Stage>, stages: set<Stage>): set<nat> {
    set f | f in tasks && tasks[f] in stages
  }

  /** Tasks that no counter has seen. */
  function Uncounted(r: Runtime): set<nat> {
    Matching(r.tasks, UNCOUNTED)
  }

  predicate PanicsLate(r: Runtime, s: Step) {
    Enabled(r, s) && s.Panic? && At(r, s.flow, Counted)
  }

  predicate JoinsLate(r: Runtime, s: Step) {
    Enabled(r, s) && s.Join? && At(r, s.flow, Panicked(true))
  }

  predicate Abandons(r: Runtime, s: Step) {
    Enabled(r, s) && s.Reap? && s.flow in Uncounted(r)
  }

  function LateTasks(r: Runtime): set<nat> {
    Matching(r.tasks, {Panicked(true)})
  }

  function One(b: bool): nat {
    if b then 1 else 0
  }

  /** How many tasks panicked after they had been counted. */
  function LatePanics(steps: seq<Step>): nat {
    if steps == [] then 0
    else
      var before := steps[..|steps| - 1];
      LatePanics(before) + One(PanicsLate(After(before), steps[|steps| - 1]))
  }

  /** Late panics that were joined, and so counted a second time. */
  function JoinedLate(steps: seq<Step>): nat {
    if steps == [] then 0
    else
      var before := steps[..|steps| - 1];
      JoinedLate(before) + One(JoinsLate(After(before), steps[|steps| - 1]))
  }

  /** Tasks that were aborted before they could be counted. */
  function Abandoned(steps: seq<Step>): nat {
    if steps == [] then 0
    else
      var before := steps[..|steps| - 1];
      Abandoned(before) + One(Abandons(After(before), steps[|steps| - 1]))
  }

  function Surplus(p: Phase): nat {
    if p.Aborting? || p.TimedOut? then p.unfinished else 0
  }

  // --------------------------------------------------------------------- invariants

  /** Flow ids are handed out in order, and a stopped runtime has no task left. */
  predicate Orderly(r: Runtime) {
    && (forall f :: f in r.tasks ==> 1 <= f <= r.accepted)
    && (!Active(r.phase) ==> r.tasks == map[])
  }

  lemma StepIsOrderly(r: Runtime, s: Step)
    requires Orderly(r)
    ensures Orderly(Next(r, s))
  {
  }

  lemma {:induction false} RunIsOrderly(steps: seq<Step>)
    ensures Orderly(After(steps))
    decreases |steps|
  {
    hide Orderly, Next;
    if steps == [] {
      StartIsOrderly();
    } else {
      RunIsOrderly(steps[..|steps| - 1]);
      StepIsOrderly(After(steps[..|steps| - 1]), steps[|steps| - 1]);
    }
  }

  lemma StartIsOrderly()
    ensures Orderly(STARTED)
  {
  }

  lemma Resize(a: set<nat>, x: nat, keep: bool)
    ensures |if keep then a - {x} + {x} else a - {x}| == |a| - One(x in a) + One(keep)
  {
    var rest := a - {x};
    if x in a { assert a == rest + {x}; } else { assert a == rest; }
  }

  lemma MatchingMoves(tasks: map<nat, Stage>, stages: set<Stage>, flow: nat, stage: Stage)
    ensures |Matching(tasks[flow := stage], stages)| == |Matching(tasks, stages)| - One(flow in Matching(tasks, stages)) + One(stage in stages)
  {
    var was := Matching(tasks, stages);
    Resize(was, flow, stage in stages);
    assert Matching(tasks[flow := stage], stages) == if stage in stages then was - {flow} + {flow} else was - {flow};
  }

  lemma MatchingDrops(tasks: map<nat, Stage>, stages: set<Stage>, flow: nat)
    ensures |Matching(tasks - {flow}, stages)| == |Matching(tasks, stages)| - One(flow in Matching(tasks, stages))
  {
    var was := Matching(tasks, stages);
    Resize(was, flow, false);
    assert Matching(tasks - {flow}, stages) == was - {flow};
  }

  lemma MoveCounts(r: Runtime, flow: nat, stage: Stage)
    ensures |Uncounted(Moved(r, flow, stage))| == |Uncounted(r)| - One(flow in Uncounted(r)) + One(stage in UNCOUNTED)
    ensures |LateTasks(Moved(r, flow, stage))| == |LateTasks(r)| - One(flow in LateTasks(r)) + One(stage == Panicked(true))
  {
    hide Matching;
    MatchingMoves(r.tasks, UNCOUNTED, flow, stage);
    MatchingMoves(r.tasks, {Panicked(true)}, flow, stage);
  }

  lemma DropCounts(r: Runtime, flow: nat)
    ensures var next := r.(tasks := r.tasks - {flow});
            && |Uncounted(next)| == |Uncounted(r)| - One(flow in Uncounted(r))
            && |LateTasks(next)| == |LateTasks(r)| - One(flow in LateTasks(r))
  {
    hide Matching;
    MatchingDrops(r.tasks, UNCOUNTED, flow);
    MatchingDrops(r.tasks, {Panicked(true)}, flow);
  }

  lemma TasksDecide(r: Runtime, q: Runtime)
    requires r.tasks == q.tasks
    ensures Uncounted(r) == Uncounted(q) && LateTasks(r) == LateTasks(q)
  {
  }

  lemma InUncounted(r: Runtime, flow: nat)
    ensures flow in Uncounted(r) <==> At(r, flow, Working) || At(r, flow, Panicked(false))
    ensures flow in LateTasks(r) <==> At(r, flow, Panicked(true))
  {
  }

  /** How a step changes the tasks no counter has seen, and the late panics waiting to be joined. */
  lemma StepMoves(r: Runtime, s: Step)
    requires Enabled(r, s) && Orderly(r)
    ensures |Uncounted(Do(r, s))| == |Uncounted(r)| + One(s.Accept?) - One(s.Complete? || s.Fail?)
                                     - One((s.Join? || s.Reap?) && s.flow in Uncounted(r))
    ensures |LateTasks(Do(r, s))| == |LateTasks(r)| + One(PanicsLate(r, s))
                                     - One((s.Join? || s.Reap?) && At(r, s.flow, Panicked(true)))
  {
    hide Uncounted, LateTasks, Moved;
    var next := Do(r, s);
    match s
    case Accept =>
      MoveCounts(r, r.accepted + 1, Working);
      InUncounted(r, r.accepted + 1);
      TasksDecide(next, Moved(r, r.accepted + 1, Working));
    case Complete(flow) => MoveCounts(r, flow, Counted); InUncounted(r, flow); TasksDecide(next, Moved(r, flow, Counted));
    case Fail(flow) => MoveCounts(r, flow, Counted); InUncounted(r, flow); TasksDecide(next, Moved(r, flow, Counted));
    case Return(flow) => MoveCounts(r, flow, Returned); InUncounted(r, flow);
    case Panic(flow) => MoveCounts(r, flow, Panicked(r.tasks[flow].Counted?)); InUncounted(r, flow);
    case Join(flow) => DropCounts(r, flow); InUncounted(r, flow); TasksDecide(next, r.(tasks := r.tasks - {flow}));
    case Reap(flow) => DropCounts(r, flow); InUncounted(r, flow);
    case _ => TasksDecide(next, r);
  }

  function Balance(r: Runtime): int {
    r.completed + r.failed + |Uncounted(r)| - r.accepted - Surplus(r.phase)
  }

  /** What one step adds to the balance: a joined late panic counts again, an abandoned task never counts. */
  lemma StepBalances(r: Runtime, s: Step)
    requires Orderly(r)
    ensures Balance(Next(r, s)) == Balance(r) + One(JoinsLate(r, s)) - One(Abandons(r, s))
  {
    hide Uncounted, LateTasks;
    if Enabled(r, s) {
      StepMoves(r, s);
      if s.Join? { InUncounted(r, s.flow); }
    }
  }

  /** Over every interleaving, counters and uncounted tasks account for every accepted connection. */
  lemma {:induction false} CountersBalance(steps: seq<Step>)
    ensures Balance(After(steps)) == JoinedLate(steps) - Abandoned(steps)
    decreases |steps|
  {
    hide Balance, Next, Orderly, JoinsLate, Abandons;
    if steps == [] {
      StartBalances();
    } else {
      var before := steps[..|steps| - 1];
      CountersBalance(before);
      RunIsOrderly(before);
      StepBalances(After(before), steps[|steps| - 1]);
    }
  }

  lemma StartBalances()
    ensures Balance(STARTED) == 0
  {
    assert Uncounted(STARTED) == {};
  }

  predicate Joining(p: Phase) {
    p.Serving? || p.Draining? || p.Drained?
  }

  /** Late panics are either still in the task set or joined, until the runtime gives up. */
  lemma {:induction false} LatePanicsAreJoined(steps: seq<Step>)
    ensures JoinedLate(steps) + |LateTasks(After(steps))| <= LatePanics(steps)
    ensures Joining(After(steps).phase) ==> JoinedLate(steps) + |LateTasks(After(steps))| == LatePanics(steps)
    decreases |steps|
  {
    hide LateTasks, Orderly;
    if steps == [] {
      NoLateTasks();
    } else {
      var before, s := steps[..|steps| - 1], steps[|steps| - 1];
      LatePanicsAreJoined(before);
      RunIsOrderly(before);
      if Enabled(After(before), s) { StepMoves(After(before), s); }
    }
  }

  lemma NoLateTasks()
    ensures LateTasks(STARTED) == {}
  {
  }

  /** A task set given up on holds every task that is later reaped. */
  lemma {:induction false} AbandonedAreUnfinished(steps: seq<Step>)
    ensures var r := After(steps);
            Abandoned(steps) + (if r.phase.Aborting? then |r.tasks| else 0) <= Surplus(r.phase)
    decreases |steps|
  {
    if steps != [] {
      var before, s := steps[..|steps| - 1], steps[|steps| - 1];
      AbandonedAreUnfinished(before);
      if Enabled(After(before), s) && After(before).phase.Aborting? { TasksShrink(After(before), s); }
    }
  }

  lemma TasksShrink(r: Runtime, s: Step)
    requires Enabled(r, s) && r.phase.Aborting?
    ensures |Do(r, s).tasks| == |r.tasks| - One(s.Reap?)
  {
    var next := Do(r, s);
    assert |next.tasks| == |next.tasks.Keys| && |r.tasks| == |r.tasks.Keys|;
    assert next.tasks.Keys == if s.Reap? then r.tasks.Keys - {s.flow} else r.tasks.Keys;
  }

  // ----------------------------------------------------------------------- theorems

  /** A drained stop has counted every accepted connection once, and those that panicked after being
      counted once more; it is exact if and only if there were none of those. */
  lemma DrainedStopIsExact(steps: seq<Step>)
    requires After(steps).phase.Drained?
    ensures var r := After(steps);
            && r.completed + r.failed == r.accepted + LatePanics(steps)
            && (r.completed + r.failed == r.accepted <==> LatePanics(steps) == 0)
  {
    hide After, LatePanics, JoinedLate, Abandoned;
    CountersBalance(steps);
    LatePanicsAreJoined(steps);
    AbandonedAreUnfinished(steps);
    RunIsOrderly(steps);
    assert Uncounted(After(steps)) == {} && LateTasks(After(steps)) == {};
  }

  /** A timed-out stop counts every unfinished task as failed, even one already counted: the total
      exceeds the accepted connections by the unfinished tasks that were not abandoned. */
  lemma TimedOutStopIsBounded(steps: seq<Step>)
    requires After(steps).phase.TimedOut?
    ensures var r := After(steps);
            && r.completed + r.failed == r.accepted + JoinedLate(steps) + (r.phase.unfinished - Abandoned(steps))
            && r.accepted <= r.completed + r.failed
            && (LatePanics(steps) == 0 ==> r.completed + r.failed <= r.accepted + r.phase.unfinished)
  {
    hide After, LatePanics, JoinedLate, Abandoned;
    CountersBalance(steps);
    LatePanicsAreJoined(steps);
    AbandonedAreUnfinished(steps);
    RunIsOrderly(steps);
    assert Uncounted(After(steps)) == {};
  }

  function From(r: Runtime, steps: seq<Step>): Runtime
    decreases |steps|
  {
    if steps == [] then r else From(Next(r, steps[0]), steps[1..])
  }

  lemma {:induction false} FromAfter(done: seq<Step>, steps: seq<Step>)
    ensures From(After(done), steps) == After(done + steps)
    decreases |steps|
  {
    hide Next;
    if steps == [] {
      assert done + [] == done;
    } else {
      var first := done + [steps[0]];
      assert first[..|first| - 1] == done;
      FromAfter(first, steps[1..]);
      assert first + steps[1..] == done + steps;
    }
  }

  /** Both ends of the bound are reached with one connection: aborted unseen, or counted but not joined. */
  lemma BoundsAreReached()
    ensures After([Accept, ShutDown, GiveUp, Reap(1), FinishAbort]) == Runtime(TimedOut(1), 1, 0, 1, map[])
    ensures After([Accept, Complete(1), ShutDown, GiveUp, Reap(1), FinishAbort]) == Runtime(TimedOut(1), 1, 1, 1, map[])
  {
    hide After;
    var one := Next(STARTED, Accept);
    assert one.tasks == map[1 := Working] && |one.tasks| == 1;
    AbortOne(one);
    AbortOne(Next(one, Complete(1)));
    var rest := [ShutDown, GiveUp, Reap(1), FinishAbort];
    Begin();
    FromAfter([], [Accept] + rest);
    FromAfter([], [Accept, Complete(1)] + rest);
    assert [] + ([Accept] + rest) == [Accept, ShutDown, GiveUp, Reap(1), FinishAbort];
    assert [] + ([Accept, Complete(1)] + rest) == [Accept, Complete(1), ShutDown, GiveUp, Reap(1), FinishAbort];
    assert ([Accept] + rest)[1..] == rest;
    assert ([Accept, Complete(1)] + rest)[1..] == [Complete(1)] + rest && ([Complete(1)] + rest)[1..] == rest;
  }

  /** A panic after counting does happen to the totals: one connection, counted twice. */
  lemma LatePanicCountsTwice()
    ensures After([Accept, Complete(1), Panic(1), Join(1), ShutDown, FinishDrain]) == Runtime(Drained, 1, 1, 1, map[])
  {
    hide After;
    var s1 := Next(STARTED, Accept);
    var s2 := Next(s1, Complete(1));
    var s3 := Next(s2, Panic(1));
    var s4 := Next(s3, Join(1));
    assert s4.tasks == map[];
    var steps := [Accept, Complete(1), Panic(1), Join(1), ShutDown, FinishDrain];
    assert From(s4, [ShutDown, FinishDrain]) == Runtime(Drained, 1, 1, 1, map[]) by { DrainNow(s4); }
    Begin();
    FromAfter([], steps);
    assert [] + steps == steps;
    assert steps[1..] == [Complete(1), Panic(1), Join(1), ShutDown, FinishDrain];
    assert steps[1..][1..] == [Panic(1), Join(1), ShutDown, FinishDrain];
    assert steps[1..][1..][1..] == [Join(1), ShutDown, FinishDrain];
    assert steps[1..][1..][1..][1..] == [ShutDown, FinishDrain];
    assert From(s3, [Join(1), ShutDown, FinishDrain]) == From(s4, [ShutDown, FinishDrain]);
    assert From(s2, [Panic(1), Join(1), ShutDown, FinishDrain]) == From(s3, [Join(1), ShutDown, FinishDrain]);
    assert From(s1, steps[1..]) == From(s2, [Panic(1), Join(1), ShutDown, FinishDrain]);
  }

  lemma DrainNow(r: Runtime)
    requires r.phase.Serving? && r.tasks == map[]
    ensures From(r, [ShutDown, FinishDrain]) == r.(phase := Drained)
  {
    assert [ShutDown, FinishDrain][1..] == [FinishDrain] && [FinishDrain][1..] == [];
    assert From(Next(r, ShutDown), [FinishDrain]) == Next(Next(r, ShutDown), FinishDrain);
  }

  lemma Begin()
    ensures After([]) == STARTED
  {
  }

  lemma AbortOne(r: Runtime)
    requires r.phase.Serving? && 1 in r.tasks && r.tasks.Keys == {1}
    ensures From(r, [ShutDown, GiveUp, Reap(1), FinishAbort]) ==
              Runtime(TimedOut(1), r.accepted, r.completed, r.failed + 1, map[])
  {
    var stopping := Next(r, ShutDown);
    var aborting := Next(stopping, GiveUp);
    assert |r.tasks| == |r.tasks.Keys| == 1;
    var reaped := Next(aborting, Reap(1));
    assert reaped.tasks == map[];
    var rest := [ShutDown, GiveUp, Reap(1), FinishAbort];
    assert rest[1..] == [GiveUp, Reap(1), FinishAbort] && rest[1..][1..] == [Reap(1), FinishAbort];
    assert rest[1..][1..][1..] == [FinishAbort] && [FinishAbort][1..] == [];
    assert From(reaped, [FinishAbort]) == Next(reaped, FinishAbort);
    assert From(aborting, [Reap(1), FinishAbort]) == From(reaped, [FinishAbort]);
    assert From(stopping, [GiveUp, Reap(1), FinishAbort]) == From(aborting, [Reap(1), FinishAbort]);
  }

  // -------------------------------------------------------------------- the runtime

  /** The counters and the task set that the steps update in place. */
  class Server {
    var phase: Phase
    var accepted: nat
    var completed: nat
    var failed: nat
    var tasks: map<nat, Stage>

    function Contents(): Runtime
      reads this
    {
      Runtime(phase, accepted, completed, failed, tasks)
    }

    constructor ()
      ensures Contents() == STARTED
    {
      phase, accepted, completed, failed, tasks := Serving, 0, 0, 0, map[];
    }

    method Perform(s: Step)
      requires Enabled(Contents(), s)
      modifies this
      ensures Contents() == Do(old(Contents()), s)
    {
      match s
      case Accept =>
        accepted := accepted + 1;
        tasks := tasks[accepted := Working];
      case Complete(flow) =>
        completed := completed + 1;
        tasks := tasks[flow := Counted];
      case Fail(flow) =>
        failed := failed + 1;
        tasks := tasks[flow := Counted];
      case Return(flow) => tasks := tasks[flow := Returned];
      case Panic(flow) => tasks := tasks[flow := Panicked(tasks[flow].Counted?)];
      case Join(flow) =>
        if tasks[flow].Panicked? {
          failed := failed + 1;
        }
        tasks := tasks - {flow};
      case ShutDown => phase := Draining;
      case FinishDrain => phase := Drained;
      case GiveUp =>
        phase := Aborting(|tasks|);
        failed := failed + |tasks|;
      case Reap(flow) => tasks := tasks - {flow};
      case FinishAbort => phase := TimedOut(phase.unfinished);
    }

    /** A whole run under some schedule, and the totals it ends with. */
    method RunUntil(schedule: seq<Step>)
      requires Contents() == STARTED
      modifies this
      ensures Contents() == After(schedule)
      ensures phase.Drained? ==> completed + failed == accepted + LatePanics(schedule)
      ensures phase.TimedOut? && LatePanics(schedule) == 0 ==> accepted <= completed + failed <= accepted + phase.unfinished
    {
      hide Do, Enabled;
      for i := 0 to |schedule|
        invariant Contents() == After(schedule[..i])
      {
        assert schedule[..i + 1][..i] == schedule[..i];
        if Enabled(Contents(), schedule[i]) {
          Perform(schedule[i]);
        }
      }
      assert schedule[..|schedule|] == schedule;
      if phase.Drained? { DrainedStopIsExact(schedule); }
      if phase.TimedOut? { TimedOutStopIsBounded(schedule); }
    }
  }
}
