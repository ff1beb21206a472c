/**
 When the batch worker answers and when it ends: what every run of a failed worker and of a healthy one
 comes to, and which configurations can come to a worker that does neither.
 */
module BatchLiveness {
  import opened BatchProtocol
  import opened Options

  // A failed worker.

  /** A failed worker whose timer has elapsed: it repeats its timer branch, which does nothing. */
  ghost predicate Spinning(s: State) {
    s.phase == Selecting && s.failed.Some? && s.timer == Elapsed
  }

  /** It does so over requests that it has not answered. */
  ghost predicate Stalled(s: State) {
    Spinning(s) && s.chan != []
  }

  /** Handles of a failed worker change nothing of its own. */
  lemma {:induction false} HandlesOfFailed(s: State, step: Step)
    requires HandleStepEnabled(s, step) && s.rxClosed
    ensures var t := HandleStep(s, step);
            && t.phase == s.phase && t.failed == s.failed && t.timer == s.timer
            && t.chan == s.chan && t.running == s.running
            && t.pendingWeight == s.pendingWeight && t.limits == s.limits
  {
    match step
    case PollStep(_, _) =>
    case _ =>
  }

  lemma {:induction false} NextSpins(s: State, step: Step)
    requires Inv(s) && Spinning(s) && step != CancelStep
    ensures Spinning(Next(s, step)) && Next(s, step).chan == s.chan
  {
    if HandleStepEnabled(s, step) {
      HandlesOfFailed(s, step);
    } else if WorkerStepEnabled(s, step) {
      assert step.FinishStep? || step.TimerStep?;
    }
  }

  /** A spinning worker takes nothing from its channel and does not end until it is cancelled. */
  lemma {:induction false} SpinsForGood(s: State, steps: seq<Step>)
    requires Inv(s) && Spinning(s) && CancelStep !in steps
    ensures Spinning(After(s, steps)) && After(s, steps).chan == s.chan
    decreases |steps|
  {
    if steps != [] {
      NextKeeps(s, steps[0]);
      NextSpins(s, steps[0]);
      SpinsForGood(Next(s, steps[0]), steps[1..]);
    }
  }

  /** A stalled worker answers nobody until it is cancelled. */
  lemma {:induction false} StalledForGood(s: State, steps: seq<Step>)
    requires Inv(s) && Stalled(s) && CancelStep !in steps
    ensures Stalled(After(s, steps)) && After(s, steps).chan == s.chan
    ensures forall i :: 0 <= i < |s.chan| ==>
              s.chan[i].id in After(s, steps).status && After(s, steps).status[s.chan[i].id].Queued?
  {
    SpinsForGood(s, steps);
    RunKeeps(s, steps);
    var t := After(s, steps);
    forall i | 0 <= i < |s.chan|
      ensures s.chan[i].id in t.status && t.status[s.chan[i].id].Queued?
    {
      assert QueuedAt(t.status, t.chan, i);
    }
  }

  /**
   A failed worker with no items pending arms the timer for each request that it fails, and another
   request may still be queued when that timer elapses.
   */
  predicate MayStall(s: State) {
    && s.phase == Selecting && s.failed.Some? && s.pendingWeight == 0 && 1 <= s.limits.maxBatches
    && (|s.chan| > 1 || (|s.chan| == 1 && s.timer != Off))
  }

  /** It may spin even if nobody is queued then. */
  predicate MaySpin(s: State) {
    && s.phase == Selecting && s.failed.Some?
    && (s.timer != Off || (s.pendingWeight == 0 && 1 <= s.limits.maxBatches && s.chan != []))
  }

  /** The steps that make such a worker spin. */
  function SpinSteps(s: State): seq<Step> {
    match s.timer
    case Elapsed => []
    case Armed => [ElapseStep]
    case Off =>
      (if s.running < s.limits.maxBatches then [] else [FinishStep(None)]) + [ReceiveStep, ElapseStep]
  }

  lemma {:induction false} AfterAppend(s: State, a: seq<Step>, b: seq<Step>)
    requires Inv(s)
    ensures After(s, a + b) == After(After(s, a), b)
    decreases |a|
  {
    if a == [] {
      assert a + b == b;
    } else {
      NextKeeps(s, a[0]);
      assert (a + b)[0] == a[0] && (a + b)[1..] == a[1..] + b;
      AfterAppend(Next(s, a[0]), a[1..], b);
    }
  }

  lemma {:induction false} AfterOne(s: State, step: Step)
    requires Inv(s)
    ensures After(s, [step]) == Next(s, step)
  {
    NextKeeps(s, step);
    assert After(Next(s, step), [step][1..]) == Next(s, step);
  }

  lemma {:induction false} SpinWithRoom(s: State)
    requires Inv(s) && MaySpin(s) && s.timer == Off && s.running < s.limits.maxBatches
    ensures Spinning(After(s, [ReceiveStep, ElapseStep]))
    ensures After(s, [ReceiveStep, ElapseStep]).chan == s.chan[1..]
  {
    AfterOne(s, ReceiveStep);
    var r := Next(s, ReceiveStep);
    AfterOne(r, ElapseStep);
    AfterAppend(s, [ReceiveStep], [ElapseStep]);
    assert [ReceiveStep] + [ElapseStep] == [ReceiveStep, ElapseStep];
  }

  lemma {:induction false} SpinWithoutRoom(s: State)
    requires Inv(s) && MaySpin(s) && s.timer == Off && s.running == s.limits.maxBatches
    ensures var steps := [FinishStep(None)] + [ReceiveStep, ElapseStep];
            Spinning(After(s, steps)) && After(s, steps).chan == s.chan[1..]
  {
    AfterOne(s, FinishStep(None));
    AfterAppend(s, [FinishStep(None)], [ReceiveStep, ElapseStep]);
    SpinWithRoom(Next(s, FinishStep(None)));
  }

  lemma {:induction false} SpinReached(s: State)
    requires Inv(s) && MaySpin(s)
    ensures CancelStep !in SpinSteps(s) && Spinning(After(s, SpinSteps(s)))
    ensures After(s, SpinSteps(s)).chan == if s.timer == Off then s.chan[1..] else s.chan
  {
    if s.timer == Armed {
      AfterOne(s, ElapseStep);
    } else if s.timer == Off {
      if s.running < s.limits.maxBatches {
        SpinWithRoom(s);
        assert SpinSteps(s) == [ReceiveStep, ElapseStep];
      } else {
        SpinWithoutRoom(s);
      }
    }
  }

  lemma {:induction false} StallReached(s: State)
    requires Inv(s) && MayStall(s)
    ensures CancelStep !in SpinSteps(s) && Stalled(After(s, SpinSteps(s)))
  {
    SpinReached(s);
  }

  /** A failed worker that cannot stall now never can. */
  lemma {:induction false} NextNeverStalls(s: State, step: Step)
    requires Inv(s) && s.failed.Some? && !MayStall(s)
    ensures Next(s, step).failed.Some? && !MayStall(Next(s, step))
  {
    if HandleStepEnabled(s, step) {
      HandlesOfFailed(s, step);
    } else if WorkerStepEnabled(s, step) {
      WorkerNeverStalls(s, step);
    }
  }

  lemma {:induction false} WorkerNeverStalls(s: State, step: Step)
    requires Inv(s) && s.failed.Some? && !MayStall(s) && WorkerStepEnabled(s, step)
    ensures WorkerStep(s, step).failed.Some? && !MayStall(WorkerStep(s, step))
  {
    match step
    case CancelStep => CancelKeeps(s);
    case ExitStep => ExitKeeps(s);
    case _ =>
  }

  lemma {:induction false} NeverStalls(s: State, steps: seq<Step>)
    requires Inv(s) && s.failed.Some? && !MayStall(s)
    ensures After(s, steps).failed.Some? && !MayStall(After(s, steps))
    ensures !Stalled(After(s, steps))
    decreases |steps|
  {
    if steps != [] {
      NextKeeps(s, steps[0]);
      NextNeverStalls(s, steps[0]);
      NeverStalls(Next(s, steps[0]), steps[1..]);
    }
  }

  ghost predicate ReachesStall(s: State, steps: seq<Step>)
    requires Inv(s)
  {
    CancelStep !in steps && Stalled(After(s, steps))
  }

  /** A failed worker can stall exactly if it may stall now. */
  lemma {:induction false} StallExact(s: State)
    requires Inv(s) && s.failed.Some?
    ensures (exists steps :: ReachesStall(s, steps)) <==> MayStall(s)
  {
    if MayStall(s) {
      StallReached(s);
      assert ReachesStall(s, SpinSteps(s));
    } else {
      forall steps
        ensures !ReachesStall(s, steps)
      {
        NeverStalls(s, steps);
      }
    }
  }

  /** How many steps of the worker are taken. */
  ghost function WorkerSteps(s: State, steps: seq<Step>): nat
    requires Inv(s)
    decreases |steps|
  {
    if steps == [] then 0
    else
      NextKeeps(s, steps[0]);
      (if WorkerStepEnabled(s, steps[0]) then 1 else 0)
      + WorkerSteps(Next(s, steps[0]), steps[1..])
  }

  /** What a failed worker has left to do before it has answered everybody. */
  function Backlog(s: State): nat {
    |s.chan| + s.running
  }

  /** Every step of such a worker brings it closer to having answered everybody. */
  lemma {:induction false} NextDrains(s: State, step: Step)
    requires Inv(s) && s.failed.Some? && !MayStall(s) && s.chan != []
    ensures Backlog(Next(s, step)) + (if WorkerStepEnabled(s, step) then 1 else 0) <= Backlog(s)
  {
    if HandleStepEnabled(s, step) {
      HandlesOfFailed(s, step);
    } else if WorkerStepEnabled(s, step) {
      WorkerDrains(s, step);
    }
  }

  lemma {:induction false} WorkerDrains(s: State, step: Step)
    requires Inv(s) && s.failed.Some? && !MayStall(s) && s.chan != []
    requires WorkerStepEnabled(s, step)
    ensures Backlog(WorkerStep(s, step)) < Backlog(s)
  {
    match step
    case CancelStep => CancelKeeps(s);
    case _ =>
  }

  /** As long as it has not, and its limit is not zero, there is a step for it to take. */
  lemma {:induction false} CanDrain(s: State)
    requires Inv(s) && s.failed.Some? && !MayStall(s) && s.chan != []
    ensures (WorkerStepEnabled(s, ReceiveStep) || WorkerStepEnabled(s, FinishStep(None)))
       <==> 1 <= s.limits.maxBatches
  {
  }

  lemma {:induction false} Drains(s: State, steps: seq<Step>)
    requires Inv(s) && s.failed.Some? && !MayStall(s)
    ensures After(s, steps).chan == []
         || WorkerSteps(s, steps) + Backlog(After(s, steps)) <= Backlog(s)
    decreases |steps|
  {
    if steps != [] {
      var next := Next(s, steps[0]);
      NextKeeps(s, steps[0]);
      NextNeverStalls(s, steps[0]);
      Drains(next, steps[1..]);
      if s.chan == [] {
        StaysEmpty(s, steps);
      } else {
        NextDrains(s, steps[0]);
      }
    }
  }

  lemma {:induction false} NextStaysEmpty(s: State, step: Step)
    requires Inv(s) && s.failed.Some? && s.chan == []
    ensures Next(s, step).failed.Some? && Next(s, step).chan == []
  {
    if HandleStepEnabled(s, step) {
      HandlesOfFailed(s, step);
    } else if WorkerStepEnabled(s, step) && step.CancelStep? {
      CancelKeeps(s);
    }
  }

  /** A closed channel that is empty stays so. */
  lemma {:induction false} StaysEmpty(s: State, steps: seq<Step>)
    requires Inv(s) && s.failed.Some? && s.chan == []
    ensures After(s, steps).chan == []
    decreases |steps|
  {
    if steps != [] {
      NextKeeps(s, steps[0]);
      NextStaysEmpty(s, steps[0]);
      StaysEmpty(Next(s, steps[0]), steps[1..]);
    }
  }

  /**
   A failed worker that cannot stall has told the error to everybody who was queued once it has taken
   as many steps as there are requests queued and batches running, in whatever order.
   */
  lemma {:induction false} AnswersInTime(s: State, steps: seq<Step>)
    requires Inv(s) && s.failed.Some? && !MayStall(s)
    requires Backlog(s) <= WorkerSteps(s, steps)
    ensures AllFailed(s.status, After(s, steps).status, s.slot.value)
  {
    Drains(s, steps);
    RunKeeps(s, steps);
    EmptiedIsAllFailed(s, After(s, steps));
  }

  // When a failed worker ends.

  /** A failed worker that cannot spin now never can. */
  lemma {:induction false} NextNeverSpins(s: State, step: Step)
    requires Inv(s) && s.failed.Some? && !MaySpin(s)
    ensures Next(s, step).failed.Some? && !MaySpin(Next(s, step))
    ensures Next(s, step).limits == s.limits
  {
    if HandleStepEnabled(s, step) {
      HandlesOfFailed(s, step);
    } else if WorkerStepEnabled(s, step) {
      WorkerNeverSpins(s, step);
    }
  }

  lemma {:induction false} WorkerNeverSpins(s: State, step: Step)
    requires Inv(s) && s.failed.Some? && !MaySpin(s) && WorkerStepEnabled(s, step)
    ensures WorkerStep(s, step).failed.Some? && !MaySpin(WorkerStep(s, step))
    ensures WorkerStep(s, step).limits == s.limits
  {
    match step
    case CancelStep => CancelKeeps(s);
    case ExitStep => ExitKeeps(s);
    case _ =>
  }

  lemma {:induction false} NeverSpins(s: State, steps: seq<Step>)
    requires Inv(s) && s.failed.Some? && !MaySpin(s)
    ensures After(s, steps).failed.Some? && !MaySpin(After(s, steps))
    ensures After(s, steps).limits == s.limits && !Spinning(After(s, steps))
    decreases |steps|
  {
    if steps != [] {
      NextKeeps(s, steps[0]);
      NextNeverSpins(s, steps[0]);
      NeverSpins(Next(s, steps[0]), steps[1..]);
    }
  }

  ghost predicate ReachesSpin(s: State, steps: seq<Step>)
    requires Inv(s)
  {
    CancelStep !in steps && Spinning(After(s, steps))
  }

  /** A failed worker can spin exactly if it may spin now. */
  lemma {:induction false} SpinExact(s: State)
    requires Inv(s) && s.failed.Some?
    ensures (exists steps :: ReachesSpin(s, steps)) <==> MaySpin(s)
  {
    if MaySpin(s) {
      SpinReached(s);
      assert ReachesSpin(s, SpinSteps(s));
    } else {
      forall steps
        ensures !ReachesSpin(s, steps)
      {
        NeverSpins(s, steps);
      }
    }
  }

  /** Every step of a failed worker that may not spin is one of few. */
  lemma {:induction false} WorkerEnds(s: State, step: Step)
    requires Inv(s) && s.failed.Some? && s.phase == Selecting && !MaySpin(s)
    requires WorkerStepEnabled(s, step)
    ensures WorkerStep(s, step).phase.Done? || Backlog(WorkerStep(s, step)) < Backlog(s)
  {
    match step
    case CancelStep => CancelKeeps(s);
    case _ =>
  }

  /**
   A failed worker that may not spin has ended once it has taken one step more than there are requests
   queued and batches running.
   */
  lemma {:induction false} EndsInTime(s: State, steps: seq<Step>)
    requires Inv(s) && s.failed.Some? && !MaySpin(s) && Backlog(s) < WorkerSteps(s, steps)
    ensures After(s, steps).phase.Done?
    decreases |steps|
  {
    if s.phase.Done? {
      DoneStays(s, steps);
    } else {
      var step, next, rest := steps[0], Next(s, steps[0]), steps[1..];
      NextKeeps(s, step);
      NextNeverSpins(s, step);
      if HandleStepEnabled(s, step) {
        HandlesOfFailed(s, step);
        EndsInTime(next, rest);
      } else if WorkerStepEnabled(s, step) {
        WorkerEnds(s, step);
        if next.phase.Done? {
          DoneStays(next, rest);
        } else {
          EndsInTime(next, rest);
        }
      } else {
        EndsInTime(next, rest);
      }
    }
  }

  /** Until then there is a step for it to take, exactly if its limit is not zero. */
  lemma {:induction false} CanEnd(s: State)
    requires Inv(s) && s.failed.Some? && s.phase == Selecting && !MaySpin(s)
    ensures (|| WorkerStepEnabled(s, ReceiveStep) || WorkerStepEnabled(s, FinishStep(None))
             || WorkerStepEnabled(s, ExitStep))
       <==> 1 <= s.limits.maxBatches
  {
  }

  /** No run without a cancellation ends the worker. */
  ghost predicate NeverEnds(s: State)
    requires Inv(s)
  {
    forall steps :: CancelStep !in steps ==> !After(s, steps).phase.Done?
  }

  ghost predicate ReachesTrap(s: State, steps: seq<Step>)
    requires Inv(s)
  {
    RunKeeps(s, steps);
    CancelStep !in steps && NeverEnds(After(s, steps))
  }

  lemma {:induction false} EndReached(s: State) returns (steps: seq<Step>)
    requires Inv(s) && s.failed.Some? && !MaySpin(s) && 1 <= s.limits.maxBatches
    ensures CancelStep !in steps && After(s, steps).phase.Done?
    decreases Backlog(s), if s.phase.Done? then 0 else 1
  {
    if s.phase.Done? {
      steps := [];
    } else {
      CanEnd(s);
      var step := if WorkerStepEnabled(s, ReceiveStep) then ReceiveStep
                  else if WorkerStepEnabled(s, FinishStep(None)) then FinishStep(None) else ExitStep;
      NextKeeps(s, step);
      NextNeverSpins(s, step);
      WorkerEnds(s, step);
      var rest := [];
      if !Next(s, step).phase.Done? {
        rest := EndReached(Next(s, step));
      }
      AfterAppend(s, [step], rest);
      AfterOne(s, step);
      steps := [step] + rest;
    }
  }

  /** Without batches no step of a failed worker is enabled but a cancellation. */
  lemma {:induction false} NoBatchesNeverEnds(s: State, steps: seq<Step>)
    requires Inv(s) && s.failed.Some? && s.phase == Selecting && s.limits.maxBatches == 0
    requires CancelStep !in steps
    ensures After(s, steps).phase == Selecting
    decreases |steps|
  {
    if steps != [] {
      NextKeeps(s, steps[0]);
      if HandleStepEnabled(s, steps[0]) {
        HandlesOfFailed(s, steps[0]);
      }
      NoBatchesNeverEnds(Next(s, steps[0]), steps[1..]);
    }
  }

  /** A failed worker can fail to end exactly if it may spin, or has no batches. */
  lemma {:induction false} EndExact(s: State)
    requires Inv(s) && s.failed.Some? && s.phase == Selecting
    ensures (exists steps :: ReachesTrap(s, steps)) <==> MaySpin(s) || s.limits.maxBatches == 0
  {
    if MaySpin(s) {
      SpinReached(s);
      var t := After(s, SpinSteps(s));
      RunKeeps(s, SpinSteps(s));
      forall steps | CancelStep !in steps
        ensures !After(t, steps).phase.Done?
      {
        SpinsForGood(t, steps);
      }
      assert ReachesTrap(s, SpinSteps(s));
    } else if s.limits.maxBatches == 0 {
      forall steps | CancelStep !in steps
        ensures !After(s, steps).phase.Done?
      {
        NoBatchesNeverEnds(s, steps);
      }
      assert After(s, []) == s;
      assert ReachesTrap(s, []);
    } else {
      forall steps
        ensures !ReachesTrap(s, steps)
      {
        NeverSpins(s, steps);
        RunKeeps(s, steps);
        var more := EndReached(After(s, steps));
      }
    }
  }

  // How a healthy worker answers.

  /** The request is the one that the worker holds, or is received after `place - 1` others. */
  ghost predicate Awaits(s: State, id: Id, place: nat) {
    if place == 0 then s.phase.Processing? && s.phase.msg.id == id
    else place <= |s.chan| && s.chan[place - 1].id == id
  }

  ghost predicate Answered(s: State, id: Id) {
    id in s.status && s.status[id] == Resolved(Response)
  }

  /** The most steps that a worker takes before it answers the request, unless it fails. */
  function Work(s: State, place: nat): nat {
    6 * place + s.running
    + (if s.phase.Processing? then 5 else if s.phase.Flushing? then 2 else 0)
    + match s.timer
      case Off => 0
      case Armed => if s.phase.Flushing? then 1 else 4
      case Elapsed => if s.phase.Flushing? then 0 else 3
  }

  lemma {:induction false} HandleStepWaits(s: State, step: Step, id: Id, place: nat)
    requires HandleStepEnabled(s, step) && s.failed.None? && Awaits(s, id, place)
    ensures Awaits(HandleStep(s, step), id, place)
    ensures Work(HandleStep(s, step), place) == Work(s, place)
  {
    match step
    case PollStep(_, _) =>
    case _ =>
  }

  /** The place after a step of the worker that takes the next message, or some other. */
  function NextPlace(step: Step, place: nat): nat {
    if step.ReceiveStep? && place > 0 then place - 1 else place
  }

  lemma {:induction false} WorkerStepWorks(s: State, step: Step, id: Id, place: nat)
    requires Inv(s) && WorkerStepEnabled(s, step) && Awaits(s, id, place)
    requires s.failed.None? && WorkerStep(s, step).failed.None?
    ensures !Answered(WorkerStep(s, step), id) ==>
              && Awaits(WorkerStep(s, step), id, NextPlace(step, place))
              && Work(WorkerStep(s, step), NextPlace(step, place)) < Work(s, place)
  {
    match step
    case ExitStep => ExitKeeps(s);
    case CancelStep => CancelKeeps(s);
    case _ =>
  }

  /** A worker that has not failed after that many of its steps has answered the request. */
  lemma {:induction false} HealthyAnswers(s: State, steps: seq<Step>, id: Id, place: nat)
    requires Inv(s) && Awaits(s, id, place) && After(s, steps).failed.None?
    requires Work(s, place) <= WorkerSteps(s, steps)
    ensures Answered(After(s, steps), id)
    decreases |steps|
  {
    if steps != [] {
      var step, next, rest := steps[0], Next(s, steps[0]), steps[1..];
      NextKeeps(s, step);
      RunKeeps(next, rest);
      if HandleStepEnabled(s, step) {
        HandleStepWaits(s, step, id, place);
        HealthyAnswers(next, rest, id, place);
      } else if WorkerStepEnabled(s, step) {
        WorkerStepWorks(s, step, id, place);
        if Answered(next, id) {
          assert Settles(next.status, After(next, rest).status, next.slot, id);
        } else {
          HealthyAnswers(next, rest, id, NextPlace(step, place));
        }
      } else {
        HealthyAnswers(next, rest, id, place);
      }
    }
  }

  /** Every request that is not resolved waits at some place. */
  lemma {:induction false} HasPlace(s: State, id: Id) returns (place: nat)
    requires Inv(s) && id in s.status && !s.status[id].Resolved?
    ensures place <= |s.chan| && Awaits(s, id, place)
  {
    assert Located(s.status, s.chan, InWorker(s), id);
    if s.status[id].Queued? {
      var i :| 0 <= i < |s.chan| && s.chan[i].id == id;
      place := i + 1;
    } else {
      place := 0;
    }
  }

  /** Without a failure, everybody who waits now gets a response from the service in time. */
  lemma {:induction false} HealthyInTime(s: State, steps: seq<Step>, id: Id)
    requires Inv(s) && id in s.status && !s.status[id].Resolved? && After(s, steps).failed.None?
    requires 6 * |s.chan| + s.running + 9 <= WorkerSteps(s, steps)
    ensures Answered(After(s, steps), id)
  {
    var place := HasPlace(s, id);
    HealthyAnswers(s, steps, id, place);
  }

  /** Until then there is a step for it to take, exactly if its limit is not zero. */
  lemma {:induction false} HealthyCanWork(s: State, id: Id, place: nat)
    requires Inv(s) && Awaits(s, id, place) && s.failed.None?
    ensures (|| WorkerStepEnabled(s, PassStep) || WorkerStepEnabled(s, TimerStep)
             || WorkerStepEnabled(s, ReceiveStep) || WorkerStepEnabled(s, FinishStep(None)))
       <==> 1 <= s.limits.maxBatches
  {
  }

  // Which handles there are.

  /** The handles after clones and drops; a handle that is not there cannot be cloned. */
  ghost function HandlesBy(handles: set<Handle>, step: Step): set<Handle> {
    match step
    case CloneStep(h, copy) => if h in handles then handles + {copy} else handles
    case DropStep(h) => handles - {h}
    case _ => handles
  }

  ghost function HandlesAfter(handles: set<Handle>, steps: seq<Step>): set<Handle>
    decreases |steps|
  {
    if steps == [] then handles else HandlesAfter(HandlesBy(handles, steps[0]), steps[1..])
  }

  lemma {:induction false} WorkerLeavesHandles(s: State, step: Step)
    requires Inv(s) && WorkerStepEnabled(s, step)
    ensures WorkerStep(s, step).handles == s.handles
  {
    if step.ExitStep? {
      StopLeaves(Fail(s, Closed), false);
    } else if step.CancelStep? {
      StopLeaves(Abandon(Fail(s, Closed)), true);
    }
  }

  lemma {:induction false} HandleStepHandles(s: State, step: Step)
    requires Inv(s) && HandleStepEnabled(s, step)
    ensures HandleStep(s, step).handles == HandlesBy(s.handles, step)
  {
  }

  lemma {:induction false} NextHandles(s: State, step: Step)
    requires Inv(s)
    ensures Next(s, step).handles == HandlesBy(s.handles, step)
  {
    if HandleStepEnabled(s, step) {
      HandleStepHandles(s, step);
    } else if WorkerStepEnabled(s, step) {
      WorkerLeavesHandles(s, step);
    }
  }

  /** In any run the handles are those that clones add and drops leave, whatever the worker does. */
  lemma {:induction false} HandlesExact(s: State, steps: seq<Step>)
    requires Inv(s)
    ensures After(s, steps).handles == HandlesAfter(s.handles, steps)
    decreases |steps|
  {
    if steps != [] {
      NextKeeps(s, steps[0]);
      NextHandles(s, steps[0]);
      HandlesExact(Next(s, steps[0]), steps[1..]);
    }
  }

  // Which error is published.

  /** The error that a step of the worker comes with. */
  ghost function ErrorOf(step: Step): Option<Error> {
    match step
    case FinishStep(result) => result
    case FailStep(error) => Some(error)
    case ExitStep => Some(Closed)
    case CancelStep => Some(Closed)
    case _ => None
  }

  /** The error of the first step with one that is taken. */
  ghost function FirstError(s: State, steps: seq<Step>): Option<Error>
    requires Inv(s)
    decreases |steps|
  {
    if steps == [] then None
    else if WorkerStepEnabled(s, steps[0]) && ErrorOf(steps[0]).Some? then ErrorOf(steps[0])
    else
      NextKeeps(s, steps[0]);
      FirstError(Next(s, steps[0]), steps[1..])
  }

  lemma {:induction false} EndPublishes(s: State)
    requires Inv(s) && s.failed.None?
    ensures Exit(s).slot == Some(Closed) && Cancel(s).slot == Some(Closed)
  {
    StopLeaves(Fail(s, Closed), false);
    StopLeaves(Abandon(Fail(s, Closed)), true);
  }

  lemma {:induction false} WorkerPublishes(s: State, step: Step)
    requires Inv(s) && s.failed.None? && WorkerStepEnabled(s, step)
    ensures WorkerStep(s, step).slot == ErrorOf(step)
  {
    EndPublishes(s);
  }

  lemma {:induction false} NextPublishes(s: State, step: Step)
    requires Inv(s) && s.failed.None?
    ensures Next(s, step).slot == if WorkerStepEnabled(s, step) then ErrorOf(step) else None
  {
    if HandleStepEnabled(s, step) {
      HandlesNeverFail(s, step);
    } else if WorkerStepEnabled(s, step) {
      WorkerPublishes(s, step);
    }
  }

  /** In any run of a healthy worker the error that is published is the first that comes up. */
  lemma {:induction false} PublishesFirst(s: State, steps: seq<Step>)
    requires Inv(s) && s.failed.None?
    ensures After(s, steps).slot == FirstError(s, steps)
    decreases |steps|
  {
    if steps != [] {
      var next := Next(s, steps[0]);
      NextKeeps(s, steps[0]);
      NextPublishes(s, steps[0]);
      if next.slot.Some? {
        RunKeeps(next, steps[1..]);
      } else {
        PublishesFirst(next, steps[1..]);
      }
    }
  }

  // Which batches are flushed.

  /** A flush comes only after items that fill a batch. */
  ghost predicate FullAt(calls: seq<ServiceCall>, max: nat, i: int) {
    0 <= i < |calls| && calls[i].Flush? ==> max <= OpenWeight(calls[..i])
  }

  ghost predicate FlushesFull(s: State) {
    && s.timer != Elapsed && (s.phase.Flushing? ==> s.limits.maxWeight <= OpenWeight(s.calls))
    && forall i {:trigger FullAt(s.calls, s.limits.maxWeight, i)} ::
         FullAt(s.calls, s.limits.maxWeight, i)
  }

  lemma {:induction false} FullAppend(calls: seq<ServiceCall>, c: ServiceCall, max: nat)
    requires forall i {:trigger FullAt(calls, max, i)} :: FullAt(calls, max, i)
    requires c.Flush? ==> max <= OpenWeight(calls)
    ensures forall i {:trigger FullAt(calls + [c], max, i)} :: FullAt(calls + [c], max, i)
  {
    forall i
      ensures FullAt(calls + [c], max, i)
    {
      assert FullAt(calls, max, i);
      if 0 <= i <= |calls| {
        assert (calls + [c])[..i] == calls[..i];
        assert calls[..|calls|] == calls;
      }
    }
  }

  lemma {:induction false} PassFlushesFull(s: State)
    requires Inv(s) && FlushesFull(s) && WorkerStepEnabled(s, PassStep)
    ensures FlushesFull(WorkerStep(s, PassStep))
  {
    if s.phase.Processing? {
      PassItemHistory(s);
      FullAppend(s.calls, Item(s.phase.msg.id, s.phase.msg.weight), s.limits.maxWeight);
    } else {
      FullAppend(s.calls, Flush, s.limits.maxWeight);
    }
  }

  lemma {:induction false} EndFlushesFull(s: State)
    requires Inv(s) && FlushesFull(s)
    ensures FlushesFull(Exit(s)) && FlushesFull(Cancel(s))
  {
    StopLeaves(Fail(s, Closed), false);
    StopLeaves(Abandon(Fail(s, Closed)), true);
  }

  lemma {:induction false} WorkerFlushesFull(s: State, step: Step)
    requires Inv(s) && FlushesFull(s) && WorkerStepEnabled(s, step) && !step.ElapseStep?
    ensures FlushesFull(WorkerStep(s, step))
  {
    if step.PassStep? {
      PassFlushesFull(s);
    } else if step.ExitStep? || step.CancelStep? {
      EndFlushesFull(s);
    }
  }

  lemma {:induction false} HandleFlushesFull(s: State, step: Step)
    requires Inv(s) && FlushesFull(s) && HandleStepEnabled(s, step)
    ensures FlushesFull(HandleStep(s, step))
  {
  }

  lemma {:induction false} NextFlushesFull(s: State, step: Step)
    requires Inv(s) && FlushesFull(s) && !step.ElapseStep?
    ensures FlushesFull(Next(s, step))
  {
    if HandleStepEnabled(s, step) {
      HandleFlushesFull(s, step);
    } else if WorkerStepEnabled(s, step) {
      WorkerFlushesFull(s, step);
    }
  }

  lemma {:induction false} AfterFlushesFull(s: State, steps: seq<Step>)
    requires Inv(s) && FlushesFull(s) && ElapseStep !in steps
    ensures FlushesFull(After(s, steps))
    decreases |steps|
  {
    if steps != [] {
      NextKeeps(s, steps[0]);
      NextFlushesFull(s, steps[0]);
      AfterFlushesFull(Next(s, steps[0]), steps[1..]);
    }
  }

  /** As long as no timer elapses, a new worker flushes exactly when the batch is full. */
  lemma {:induction false} FlushesExact(limits: Limits, steps: seq<Step>)
    requires 1 <= limits.maxWeight && ElapseStep !in steps
    ensures Inv(Initial(limits))
    ensures var s := After(Initial(limits), steps);
            && (forall i :: 0 <= i < |s.calls| && s.calls[i].Flush? ==>
                  limits.maxWeight <= OpenWeight(s.calls[..i]))
            && (s.failed.None? ==> (s.phase.Flushing? <==> limits.maxWeight <= OpenWeight(s.calls)))
  {
    InitialOk(limits);
    AfterFlushesFull(Initial(limits), steps);
    var s := After(Initial(limits), steps);
    RunKeeps(Initial(limits), steps);
    forall i | 0 <= i < |s.calls| && s.calls[i].Flush?
      ensures limits.maxWeight <= OpenWeight(s.calls[..i])
    {
      assert FullAt(s.calls, s.limits.maxWeight, i);
    }
  }

  // Which batches run.

  ghost function Flushes(calls: seq<ServiceCall>): nat {
    if calls == [] then 0
    else Flushes(calls[..|calls| - 1]) + if calls[|calls| - 1].Flush? then 1 else 0
  }

  ghost predicate Finishes(s: State, step: Step) {
    step.FinishStep? && WorkerStepEnabled(s, step)
  }

  /** How many batches finish in the run. */
  ghost function Finished(s: State, steps: seq<Step>): nat
    requires Inv(s)
    decreases |steps|
  {
    if steps == [] then 0
    else
      NextKeeps(s, steps[0]);
      (if Finishes(s, steps[0]) then 1 else 0) + Finished(Next(s, steps[0]), steps[1..])
  }

  lemma {:induction false} PassRuns(s: State)
    requires Inv(s) && WorkerStepEnabled(s, PassStep)
    ensures var t := WorkerStep(s, PassStep);
            t.running + Flushes(s.calls) == s.running + Flushes(t.calls)
  {
    var t := WorkerStep(s, PassStep);
    assert t.calls[..|t.calls| - 1] == s.calls;
  }

  lemma {:induction false} HandleRuns(s: State, step: Step)
    requires Inv(s) && HandleStepEnabled(s, step)
    ensures HandleStep(s, step).running == s.running && HandleStep(s, step).calls == s.calls
  {
  }

  lemma {:induction false} WorkerRuns(s: State, step: Step)
    requires Inv(s) && WorkerStepEnabled(s, step)
    ensures var t := WorkerStep(s, step);
            t.phase.Done? || t.running + (if step.FinishStep? then 1 else 0) + Flushes(s.calls)
                             == s.running + Flushes(t.calls)
  {
    if step.PassStep? {
      PassRuns(s);
    }
  }

  lemma {:induction false} NextRuns(s: State, step: Step)
    requires Inv(s)
    ensures var t := Next(s, step);
            t.phase.Done? || t.running + (if Finishes(s, step) then 1 else 0) + Flushes(s.calls)
                             == s.running + Flushes(t.calls)
  {
    if HandleStepEnabled(s, step) {
      HandleRuns(s, step);
    } else if WorkerStepEnabled(s, step) {
      WorkerRuns(s, step);
    }
  }

  /** In any run, until the worker is gone, those batches run that were flushed and did not finish. */
  lemma {:induction false} RunningExact(s: State, steps: seq<Step>)
    requires Inv(s) && !After(s, steps).phase.Done?
    ensures After(s, steps).running + Finished(s, steps) + Flushes(s.calls)
         == s.running + Flushes(After(s, steps).calls)
    decreases |steps|
  {
    if steps != [] {
      var next, rest := Next(s, steps[0]), steps[1..];
      NextKeeps(s, steps[0]);
      NextRuns(s, steps[0]);
      if next.phase.Done? {
        DoneStays(next, rest);
      } else {
        RunningExact(next, rest);
      }
    }
  }

  /** Wherever a worker is, a cancellation ends it, and everybody is answered. */
  lemma {:induction false} CancelEnds(s: State, id: Id)
    requires Inv(s) && !s.phase.Done?
    ensures After(s, [CancelStep]).phase == Done(true)
    ensures id in s.status ==>
              id in After(s, [CancelStep]).status && After(s, [CancelStep]).status[id].Resolved?
  {
    AfterOne(s, CancelStep);
    CancelKeeps(s);
    if id in s.status {
      assert Settles(s.status, Cancel(s).status, s.slot, id);
      AllResolved(Cancel(s), id);
    }
  }

  // How a healthy worker ends.

  /** No service error and no cancellation. */
  predicate ErrorFree(step: Step) {
    !step.CancelStep? && !step.FailStep? && (step.FinishStep? ==> step.result.None?)
  }

  ghost predicate AllErrorFree(steps: seq<Step>) {
    forall i :: 0 <= i < |steps| ==> ErrorFree(steps[i])
  }

  /** Without an error the worker gets on with its work, or ends because there are no handles. */
  lemma {:induction false} HealthyStep(s: State, step: Step)
    requires Inv(s) && s.failed.None? && WorkerStepEnabled(s, step) && ErrorFree(step)
    ensures var t := WorkerStep(s, step);
            && t.handles == s.handles && t.limits == s.limits
            && if step.ExitStep? then s.handles == {} && t.phase == Done(false)
               else t.failed.None? && !t.phase.Done? && Work(t, |t.chan|) < Work(s, |s.chan|)
  {
    if step.ExitStep? {
      ExitKeeps(s);
      StopLeaves(Fail(s, Closed), false);
    }
  }

  lemma {:induction false} StopLeaves(s: State, cancelled: bool)
    requires s.failed.Some?
    ensures Stop(s, cancelled).handles == s.handles && Stop(s, cancelled).limits == s.limits
    ensures Stop(s, cancelled).slot == s.slot && Stop(s, cancelled).calls == s.calls
    decreases |s.chan|
  {
    if s.chan != [] {
      StopLeaves(FailHead(s), cancelled);
    }
  }

  lemma {:induction false} NoHandleSteps(s: State, step: Step)
    requires Inv(s) && s.handles == {}
    ensures !HandleStepEnabled(s, step)
  {
  }

  /**
   A worker without handles has ended, if no error came in between, once it has taken one step more
   than it has work left; and everybody is answered.
   */
  lemma {:induction false} HealthyEndsInTime(s: State, steps: seq<Step>)
    requires Inv(s) && s.failed.None? && s.handles == {} && AllErrorFree(steps)
    requires 6 * |s.chan| + s.running + 9 < WorkerSteps(s, steps)
    ensures After(s, steps).phase == Done(false)
    ensures forall id :: id in After(s, steps).status ==> After(s, steps).status[id].Resolved?
  {
    HealthyEnds(s, steps);
    RunKeeps(s, steps);
    forall id | id in After(s, steps).status
      ensures After(s, steps).status[id].Resolved?
    {
      AllResolved(After(s, steps), id);
    }
  }

  lemma {:induction false} HealthyEnds(s: State, steps: seq<Step>)
    requires Inv(s) && s.failed.None? && s.handles == {} && AllErrorFree(steps)
    requires Work(s, |s.chan|) < WorkerSteps(s, steps)
    ensures After(s, steps).phase == Done(false)
    decreases |steps|
  {
    var step, next, rest := steps[0], Next(s, steps[0]), steps[1..];
    NextKeeps(s, step);
    NoHandleSteps(s, step);
    if WorkerStepEnabled(s, step) {
      HealthyStep(s, step);
      if step.ExitStep? {
        DoneStays(next, rest);
      } else {
        HealthyEnds(next, rest);
      }
    } else {
      HealthyEnds(next, rest);
    }
  }

  lemma {:induction false} NextStaysDone(s: State, step: Step)
    requires Inv(s) && s.phase.Done?
    ensures Next(s, step).phase == s.phase && (s.handles == {} ==> Next(s, step).handles == {})
  {
    if HandleStepEnabled(s, step) {
      HandlesOfFailed(s, step);
    }
  }

  lemma {:induction false} DoneStays(s: State, steps: seq<Step>)
    requires Inv(s) && s.phase.Done?
    ensures After(s, steps).phase == s.phase
    ensures s.handles == {} ==> After(s, steps).handles == {}
    decreases |steps|
  {
    if steps != [] {
      NextKeeps(s, steps[0]);
      NextStaysDone(s, steps[0]);
      DoneStays(Next(s, steps[0]), steps[1..]);
    }
  }

  /** Without an error a worker ends only once there are no handles. */
  lemma {:induction false} EndsOnlyWithoutHandles(s: State, steps: seq<Step>)
    requires Inv(s) && s.failed.None? && AllErrorFree(steps) && After(s, steps).phase.Done?
    ensures After(s, steps).handles == {} && After(s, steps).phase == Done(false)
    decreases |steps|
  {
    if steps != [] {
      var step, next, rest := steps[0], Next(s, steps[0]), steps[1..];
      NextKeeps(s, step);
      if HandleStepEnabled(s, step) {
        HandlesNeverFail(s, step);
        EndsOnlyWithoutHandles(next, rest);
      } else if WorkerStepEnabled(s, step) {
        HealthyStep(s, step);
        if step.ExitStep? {
          DoneStays(next, rest);
        } else {
          EndsOnlyWithoutHandles(next, rest);
        }
      } else {
        EndsOnlyWithoutHandles(next, rest);
      }
    }
  }

  ghost predicate EndsWithoutError(s: State, steps: seq<Step>)
    requires Inv(s)
  {
    AllErrorFree(steps) && After(s, steps).phase == Done(false)
  }

  /** The step that a worker without handles can take. */
  function HealthyChoice(s: State): Step {
    if s.phase.Processing? || s.phase.Flushing? then PassStep
    else if s.timer == Elapsed then TimerStep
    else if s.running == s.limits.maxBatches then FinishStep(None)
    else if s.chan != [] then ReceiveStep
    else ExitStep
  }

  lemma {:induction false} HealthyChoiceWorks(s: State)
    requires Inv(s) && s.failed.None? && s.handles == {} && 1 <= s.limits.maxBatches
    ensures var step, next := HealthyChoice(s), Next(s, HealthyChoice(s));
            && ErrorFree(step) && Inv(next) && After(s, [step]) == next
            && if step.ExitStep? then next.phase == Done(false)
               else && next.failed.None? && next.handles == {} && next.limits == s.limits
                    && Work(next, |next.chan|) < Work(s, |s.chan|)
  {
    var step := HealthyChoice(s);
    NoHandleSteps(s, step);
    NextKeeps(s, step);
    HealthyStep(s, step);
    AfterOne(s, step);
  }

  lemma {:induction false} HealthyEndReached(s: State) returns (steps: seq<Step>)
    requires Inv(s) && s.failed.None? && s.handles == {} && 1 <= s.limits.maxBatches
    ensures EndsWithoutError(s, steps)
    decreases Work(s, |s.chan|)
  {
    var step := HealthyChoice(s);
    HealthyChoiceWorks(s);
    var rest := [];
    if !step.ExitStep? {
      rest := HealthyEndReached(Next(s, step));
    }
    AfterAppend(s, [step], rest);
    steps := [step] + rest;
  }

  /** Without batches a worker never ends without an error. */
  lemma {:induction false} HealthyNeverEnds(s: State, steps: seq<Step>)
    requires Inv(s) && s.failed.None? && s.limits.maxBatches == 0 && AllErrorFree(steps)
    ensures !After(s, steps).phase.Done?
    decreases |steps|
  {
    if steps != [] {
      NextKeeps(s, steps[0]);
      if HandleStepEnabled(s, steps[0]) {
        HandlesNeverFail(s, steps[0]);
      }
      HealthyNeverEnds(Next(s, steps[0]), steps[1..]);
    }
  }

  /** A worker without handles can end without an error exactly if its limit is not zero. */
  lemma {:induction false} HealthyEndExact(s: State)
    requires Inv(s) && s.failed.None? && s.handles == {}
    ensures (exists steps :: EndsWithoutError(s, steps)) <==> 1 <= s.limits.maxBatches
  {
    if 1 <= s.limits.maxBatches {
      var steps := HealthyEndReached(s);
    } else {
      forall steps
        ensures !EndsWithoutError(s, steps)
      {
        if AllErrorFree(steps) {
          HealthyNeverEnds(s, steps);
        }
      }
    }
  }

  // Which configurations can stall.

  /** With a single permit a worker never fails with another request queued behind. */
  ghost predicate Lone(s: State) {
    s.limits.total <= 1 && (s.failed.Some? ==> !MayStall(s))
  }

  lemma {:induction false} FailsLone(s: State, step: Step)
    requires Inv(s) && s.limits.total <= 1 && s.failed.None? && WorkerStepEnabled(s, step)
    ensures WorkerStep(s, step).limits == s.limits && !MayStall(WorkerStep(s, step))
  {
    match step
    case ExitStep => ExitKeeps(s);
    case CancelStep => CancelKeeps(s);
    case _ =>
  }

  lemma {:induction false} HandlesNeverFail(s: State, step: Step)
    requires HandleStepEnabled(s, step)
    ensures HandleStep(s, step).failed == s.failed && HandleStep(s, step).limits == s.limits
  {
    match step
    case PollStep(_, _) =>
    case _ =>
  }

  lemma {:induction false} NextLone(s: State, step: Step)
    requires Inv(s) && Lone(s)
    ensures Lone(Next(s, step))
  {
    if s.failed.Some? {
      NextNeverStalls(s, step);
      NextKeeps(s, step);
    } else if HandleStepEnabled(s, step) {
      HandlesNeverFail(s, step);
    } else if WorkerStepEnabled(s, step) {
      FailsLone(s, step);
    }
  }

  lemma {:induction false} AfterLone(s: State, steps: seq<Step>)
    requires Inv(s) && Lone(s)
    ensures !Stalled(After(s, steps))
    decreases |steps|
  {
    if steps != [] {
      NextKeeps(s, steps[0]);
      NextLone(s, steps[0]);
      AfterLone(Next(s, steps[0]), steps[1..]);
    }
  }

  /** Without batches the timer never runs. */
  lemma {:induction false} NoBatches(s: State)
    requires Inv(s) && s.limits.maxBatches == 0
    ensures !Spinning(s)
  {
  }

  ghost predicate Idle(s: State) {
    Inv(s) && s.handles == {0} && s.failed.None? && s.phase == Selecting
  }

  lemma {:induction false} PollOne(s: State)
    requires Idle(s) && s.holders == {} && s.free > 0
    ensures Next(s, PollStep(0, false)) == s.(holders := {0}, free := s.free - 1)
  {
    assert {} + {0} == {0};
  }

  lemma {:induction false} SendOne(s: State, m: Message)
    requires Idle(s) && s.holders == {0} && m.id !in s.status && 1 <= m.weight
    ensures Next(s, CallStep(0, m))
         == s.(holders := {}, chan := s.chan + [m], status := s.status[m.id := Queued])
  {
    assert {0} - {0} == {};
  }

  lemma {:induction false} QueueOne(s: State, m: Message)
    requires Idle(s) && s.holders == {} && s.free > 0 && m.id !in s.status && 1 <= m.weight
    ensures After(s, [PollStep(0, false), CallStep(0, m)])
         == s.(free := s.free - 1, chan := s.chan + [m], status := s.status[m.id := Queued])
  {
    var p := Next(s, PollStep(0, false));
    NextKeeps(s, PollStep(0, false));
    PollOne(s);
    SendOne(p, m);
    AfterOne(s, PollStep(0, false));
    AfterOne(p, CallStep(0, m));
    AfterAppend(s, [PollStep(0, false)], [CallStep(0, m)]);
    assert [PollStep(0, false)] + [CallStep(0, m)] == [PollStep(0, false), CallStep(0, m)];
  }

  /** A worker fails for the first of two requests, which arms the timer of a batch with no items. */
  lemma {:induction false} FailsOnFirst(s: State, error: Error)
    requires Inv(s) && CanReceive(s) && s.failed.None? && s.pendingWeight == 0 && |s.chan| > 1
    ensures MayStall(After(s, [ReceiveStep, FailStep(error)]))
  {
    AfterOne(s, ReceiveStep);
    AfterOne(Next(s, ReceiveStep), FailStep(error));
    AfterAppend(s, [ReceiveStep], [FailStep(error)]);
    assert [ReceiveStep] + [FailStep(error)] == [ReceiveStep, FailStep(error)];
  }

  /** After the interleaving, the number of requests are in the channel. */
  ghost predicate ReachesQueue(s: State, steps: seq<Step>, n: nat)
    requires Inv(s)
  {
    |After(s, steps).chan| == n
  }

  lemma {:induction false} QueueMany(limits: Limits, n: nat) returns (steps: seq<Step>)
    requires 1 <= limits.maxWeight && n <= limits.total
    ensures Inv(Initial(limits)) && ReachesQueue(Initial(limits), steps, n) && CancelStep !in steps
    ensures var s := After(Initial(limits), steps);
            && Idle(s) && s.holders == {} && s.free == limits.total - n
            && s.timer == Off && s.running == s.pendingWeight == 0 && s.limits == limits
            && forall id :: id in s.status ==> id < n
  {
    InitialOk(limits);
    steps := [];
    for k := 0 to n
      invariant CancelStep !in steps
      invariant var s := After(Initial(limits), steps);
                && Idle(s) && s.holders == {} && s.free == limits.total - k && |s.chan| == k
                && s.timer == Off && s.running == s.pendingWeight == 0 && s.limits == limits
                && forall id :: id in s.status ==> id < k
    {
      var next := [PollStep(0, false), CallStep(0, Message(k, 1))];
      QueueOne(After(Initial(limits), steps), Message(k, 1));
      AfterAppend(Initial(limits), steps, next);
      steps := steps + next;
    }
  }

  /** A run to where the worker may stall can be continued until it stalls. */
  lemma {:induction false} StallFrom(s: State, a: seq<Step>) returns (steps: seq<Step>)
    requires Inv(s) && CancelStep !in a && MayStall(After(s, a))
    ensures ReachesStall(s, steps)
  {
    RunKeeps(s, a);
    StallReached(After(s, a));
    AfterAppend(s, a, SpinSteps(After(s, a)));
    steps := a + SpinSteps(After(s, a));
  }

  lemma {:induction false} NewStalls(limits: Limits) returns (steps: seq<Step>)
    requires 1 <= limits.maxWeight && 1 <= limits.maxBatches && 2 <= limits.total
    ensures Inv(Initial(limits)) && ReachesStall(Initial(limits), steps)
  {
    var s := Initial(limits);
    var a := QueueMany(limits, 2);
    var c := [ReceiveStep, FailStep(Service(0))];
    FailsOnFirst(After(s, a), Service(0));
    AfterAppend(s, a, c);
    steps := StallFrom(s, a + c);
  }

  /** A worker fails for a request, which arms the timer of a batch with no items. */
  lemma {:induction false} FailsArmed(s: State, error: Error)
    requires Inv(s) && CanReceive(s) && s.failed.None? && s.pendingWeight == 0 && s.chan != []
    ensures MaySpin(After(s, [ReceiveStep, FailStep(error)]))
  {
    AfterOne(s, ReceiveStep);
    AfterOne(Next(s, ReceiveStep), FailStep(error));
    AfterAppend(s, [ReceiveStep], [FailStep(error)]);
    assert [ReceiveStep] + [FailStep(error)] == [ReceiveStep, FailStep(error)];
  }

  lemma {:induction false} NewSpins(limits: Limits) returns (steps: seq<Step>)
    requires 1 <= limits.maxWeight && 1 <= limits.maxBatches && 1 <= limits.total
    ensures Inv(Initial(limits)) && ReachesSpin(Initial(limits), steps)
  {
    var s := Initial(limits);
    var a := QueueMany(limits, 1);
    var b := [ReceiveStep, FailStep(Service(0))];
    FailsArmed(After(s, a), Service(0));
    AfterAppend(s, a, b);
    var u := After(s, a + b);
    SpinReached(u);
    AfterAppend(s, a + b, SpinSteps(u));
    steps := a + b + SpinSteps(u);
  }

  /** Without permits there is never a request, so the timer never runs. */
  ghost predicate Bare(s: State) {
    s.limits.total == 0 && s.timer == Off && (s.phase == Selecting || s.phase.Done?)
  }

  lemma {:induction false} NextBare(s: State, step: Step)
    requires Inv(s) && Bare(s)
    ensures Bare(Next(s, step))
  {
    if HandleStepEnabled(s, step) {
      assert !step.CallStep?;
    } else if WorkerStepEnabled(s, step) {
      match step
      case CancelStep => CancelKeeps(s);
      case ExitStep => ExitKeeps(s);
      case _ =>
    }
  }

  lemma {:induction false} AfterBare(s: State, steps: seq<Step>)
    requires Inv(s) && Bare(s)
    ensures !Spinning(After(s, steps))
    decreases |steps|
  {
    if steps != [] {
      NextKeeps(s, steps[0]);
      NextBare(s, steps[0]);
      AfterBare(Next(s, steps[0]), steps[1..]);
    }
  }

  /** Some run of a new worker makes it spin exactly if it has batches and a permit. */
  lemma {:induction false} ConfigurationSpins(limits: Limits)
    requires 1 <= limits.maxWeight
    ensures Inv(Initial(limits))
    ensures (exists steps :: ReachesSpin(Initial(limits), steps))
       <==> 1 <= limits.maxBatches && 1 <= limits.total
  {
    InitialOk(limits);
    if 1 <= limits.maxBatches && 1 <= limits.total {
      var steps := NewSpins(limits);
    } else {
      forall steps
        ensures !ReachesSpin(Initial(limits), steps)
      {
        if limits.maxBatches == 0 {
          RunKeeps(Initial(limits), steps);
          NoBatches(After(Initial(limits), steps));
        } else {
          AfterBare(Initial(limits), steps);
        }
      }
    }
  }

  /** Some run of a new worker stalls exactly if it has batches and more than one permit. */
  lemma {:induction false} ConfigurationStalls(limits: Limits)
    requires 1 <= limits.maxWeight
    ensures Inv(Initial(limits))
    ensures (exists steps :: ReachesStall(Initial(limits), steps))
       <==> 1 <= limits.maxBatches && 2 <= limits.total
  {
    InitialOk(limits);
    if 1 <= limits.maxBatches && 2 <= limits.total {
      var steps := NewStalls(limits);
    } else {
      forall steps
        ensures !ReachesStall(Initial(limits), steps)
      {
        RunKeeps(Initial(limits), steps);
        if limits.maxBatches == 0 {
          NoBatches(After(Initial(limits), steps));
        } else {
          AfterLone(Initial(limits), steps);
        }
      }
    }
  }

  // How many requests can wait at once.

  /** A number of requests can wait at once exactly if there are as many permits. */
  lemma {:induction false} QueueExact(limits: Limits, n: nat)
    requires 1 <= limits.maxWeight
    ensures Inv(Initial(limits))
    ensures (exists steps :: ReachesQueue(Initial(limits), steps, n)) <==> n <= limits.total
  {
    InitialOk(limits);
    if n <= limits.total {
      var steps := QueueMany(limits, n);
    }
    forall steps | ReachesQueue(Initial(limits), steps, n)
      ensures n <= limits.total
    {
      Bounded(limits, steps);
    }
  }

  /**
   A configured worker has permits for all its batches: as many requests can wait at once as fit
   into them, but for at least one batch and at most 64, of at least one item each. The number of
   batches that run at once has no such bounds.
   */
  lemma {:induction false} ConfigurationQueues(
      maxItemsWeight: nat, maxBatches: nat, items: nat, batches: nat, n: nat)
    requires items == maxItemsWeight > 0 || (items == 1 && maxItemsWeight == 0)
    requires if batches == 1 then maxBatches <= 1
             else if batches == 64 then maxBatches >= 64
             else 1 < batches == maxBatches < 64
    ensures var s := Initial(LimitsFor(maxItemsWeight, maxBatches));
            && Inv(s) && s.limits.maxWeight == items && s.limits.maxBatches == maxBatches
            && ((exists steps :: ReachesQueue(s, steps, n)) <==> n <= items * batches)
  {
    QueueExact(LimitsFor(maxItemsWeight, maxBatches), n);
  }
}
