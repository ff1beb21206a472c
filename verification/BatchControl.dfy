/**
 The batch worker and its handles as the objects that they are: fields that the methods update. Each
 handler keeps the invariant and what was settled, and takes the step of the protocol that it is named
 after.
 */
module BatchControl {
  import opened Options
  import opened P = BatchProtocol

  class BatchSystem {
    // The handles and what they share.
    var handles: set<Handle>
    var holders: set<Handle>   // the handles that have a permit
    var chan: seq<Message>
    var rxClosed: bool
    var free: nat
    var semClosed: bool
    var slot: Option<Error>

    // The worker.
    var phase: Phase
    var pendingWeight: nat
    var timer: Timer
    var running: nat
    var failed: Option<Error>
    const limits: Limits

    // The history of requests, and of calls to the inner service.
    ghost var status: map<Id, Status>
    ghost var calls: seq<ServiceCall>

    ghost function Snapshot(): State
      reads this
    {
      State(handles, holders, chan, rxClosed, free, semClosed, slot, phase, pendingWeight, timer,
            running, failed, status, calls, limits)
    }

    ghost predicate Valid()
      reads this
    {
      Inv(Snapshot())
    }

    /** Nothing that was settled changes. */
    twostate predicate Keeps()
      reads this
    {
      Kept(old(Snapshot()), Snapshot())
    }

    constructor (maxItemsWeight: nat, maxBatches: nat)
      ensures Valid() && Snapshot() == Initial(LimitsFor(maxItemsWeight, maxBatches))
    {
      limits := LimitsFor(maxItemsWeight, maxBatches);
      handles, holders, chan, rxClosed := {0}, {}, [], false;
      free, semClosed, slot := LimitsFor(maxItemsWeight, maxBatches).total, false, None;
      phase, pendingWeight, timer, running, failed := Selecting, 0, Off, 0, None;
      status, calls := map[], [];
      new;
      InitialOk(limits);
    }

    // Handles.

    method ReleasePermit(h: Handle)
      modifies `holders, `free
      ensures Snapshot() == P.Release(old(Snapshot()), h)
    {
      if h in holders {
        holders, free := holders - {h}, free + 1;
      }
    }

    method TryAcquire(h: Handle, contended: bool) returns (r: Readiness)
      modifies `holders, `free
      ensures (Snapshot(), r) == P.PollReady(old(Snapshot()), h, contended)
    {
      if phase.Done? {
        return if phase.cancelled then Cancelled else NotReady(GetWorkerError());
      }
      if rxClosed {
        return NotReady(GetWorkerError());
      }
      ReleasePermit(h);
      if semClosed {
        return NotReady(GetWorkerError());
      }
      if free == 0 || contended {
        return Pending;
      }
      holders, free := holders + {h}, free - 1;
      r := Ready;
    }

    method PollReady(h: Handle, contended: bool) returns (r: Readiness)
      requires Valid() && h in handles
      modifies `holders, `free
      ensures Valid() && Keeps() && holders - {h} == old(holders) - {h}
      ensures rxClosed ==> holders == old(holders) && !r.Ready? && !r.Pending?
      ensures !rxClosed ==>
                && (r.Ready? <==> (old(free) > 0 || h in old(holders)) && !contended)
                && (r.Ready? <==> h in holders) && (!r.Ready? ==> r.Pending?)
      ensures (Snapshot(), r) == P.PollReady(old(Snapshot()), h, contended)
    {
      PollReadyKeeps(Snapshot(), h, contended);
      PollReadyExact(Snapshot(), h, contended);
      r := TryAcquire(h, contended);
    }


    function GetWorkerError(): Error
      reads `slot
    {
      if slot.Some? then slot.value else Closed
    }

    method Send(h: Handle, m: Message)
      modifies `holders, `free, `chan, `status
      ensures Snapshot() == P.Call(old(Snapshot()), h, m)
    {
      holders := holders - {h};
      if rxClosed {
        free := free + 1;
        status := status[m.id := Resolved(Failed(GetWorkerError()))];
      } else {
        chan := chan + [m];
        status := status[m.id := Queued];
      }
    }

    method Call(h: Handle, m: Message)
      requires Valid() && h in holders && m.id !in status && 1 <= m.weight
      modifies `holders, `free, `chan, `status
      ensures Valid() && Keeps() && h !in holders && m.id in status
      ensures !rxClosed ==> chan == old(chan) + [m] && free == old(free) && status[m.id].Queued?
      ensures rxClosed ==>
                && chan == old(chan) && free == old(free) + 1
                && status[m.id] == Resolved(Failed(GetWorkerError()))
      ensures Snapshot() == P.Call(old(Snapshot()), h, m)
    {
      CallKeeps(Snapshot(), h, m);
      Send(h, m);
    }


    method CloneHandle(copy: Handle)
      requires Valid() && copy !in handles
      modifies `handles
      ensures Valid() && Keeps() && copy in handles && copy !in holders
      ensures Snapshot() == P.CloneHandle(old(Snapshot()), copy)
    {
      handles := handles + {copy};
    }

    method DropHandle(h: Handle)
      requires Valid() && h in handles
      modifies `handles, `holders, `free
      ensures Valid() && Keeps() && h !in handles
      ensures free == old(free) + if h in old(holders) then 1 else 0
      ensures Snapshot() == P.DropHandle(old(Snapshot()), h)
    {
      DropHandleKeeps(Snapshot(), h);
      ReleasePermit(h);
      handles := handles - {h};
    }

    // The worker.

    method SetFailed(error: Error)
      modifies `slot, `failed, `rxClosed, `semClosed, `timer
      ensures Snapshot() == P.Fail(old(Snapshot()), error)
    {
      if slot.Some? {
        return;
      }
      slot := Some(error);
      rxClosed := true;
      semClosed := true;
      timer := Off;
      failed := Some(error);
    }

    method FinishBatch(result: Option<Error>)
      requires Valid() && phase == Selecting && running > 0
      modifies `running, `slot, `failed, `rxClosed, `semClosed, `timer
      ensures Valid() && Keeps() && running == old(running) - 1
      ensures slot == if old(slot).None? then result else old(slot)
      ensures Snapshot() == P.FinishBatch(old(Snapshot()), result)
    {
      FinishBatchKeeps(Snapshot(), result);
      running := running - 1;
      if result.Some? {
        SetFailed(result.value);
      }
    }

    /** The deadline of the pending batch passes. */
    method ElapseTimer()
      requires Valid() && timer == Armed
      modifies `timer
      ensures Valid() && Keeps()
      ensures Snapshot() == old(Snapshot()).(timer := Elapsed)
    {
      WorkerStepKeeps(Snapshot(), ElapseStep);
      timer := Elapsed;
    }

    method OnTimer()
      requires Valid() && phase == Selecting && timer == Elapsed
      modifies `phase
      ensures Valid() && Keeps()
      ensures phase == if failed.None? then Flushing(false) else Selecting
      ensures Snapshot() == P.OnTimer(old(Snapshot()))
    {
      WorkerStepKeeps(Snapshot(), TimerStep);
      if failed.None? {
        phase := Flushing(false);
      }
    }

    method FailHead()
      requires chan != [] && failed.Some?
      modifies `chan, `free, `status
      ensures Snapshot() == P.FailHead(old(Snapshot()))
    {
      status := status[chan[0].id := Resolved(Failed(failed.value))];
      chan := chan[1..];
      free := free + 1;
    }

    method Receive()
      requires Valid() && CanReceive(Snapshot()) && chan != []
      modifies `chan, `free, `status, `timer, `phase
      ensures Valid() && Keeps() && chan == old(chan)[1..] && old(chan)[0].id in status
      ensures failed.None? ==>
                && phase == Processing(old(chan)[0], pendingWeight == 0)
                && status[old(chan)[0].id].Taken?
      ensures failed.Some? ==>
                && status[old(chan)[0].id] == Resolved(Failed(slot.value))
                && timer == if pendingWeight == 0 then Armed else old(timer)
      ensures Snapshot() == P.Receive(old(Snapshot()))
    {
      ReceiveKeeps(Snapshot());
      var isNewBatch := pendingWeight == 0;
      if failed.Some? {
        FailHead();
        if pendingWeight < limits.maxWeight && isNewBatch {
          timer := Armed;
        }
      } else {
        phase := Processing(chan[0], isNewBatch);
        status := status[chan[0].id := Taken];
        chan := chan[1..];
      }
    }

    method Submit()
      requires phase.Processing?
      modifies `phase, `pendingWeight, `timer, `free, `status, `calls
      ensures Snapshot() == P.PassItem(old(Snapshot()))
    {
      var msg, isNewBatch := phase.msg, phase.isNewBatch;
      pendingWeight := pendingWeight + msg.weight;
      calls := calls + [Item(msg.id, msg.weight)];
      status := status[msg.id := Resolved(Response)];
      if pendingWeight >= limits.maxWeight {
        phase := Flushing(true);
      } else {
        if isNewBatch {
          timer := Armed;
        }
        phase, free := Selecting, free + 1;
      }
    }

    method PassItem()
      requires Valid() && phase.Processing?
      modifies `phase, `pendingWeight, `timer, `free, `status, `calls
      ensures Valid() && Keeps()
      ensures var m := old(phase).msg;
              && calls == old(calls) + [Item(m.id, m.weight)]
              && m.id in status && status[m.id] == Resolved(Response)
      ensures phase == if limits.maxWeight <= pendingWeight then Flushing(true) else Selecting
      ensures Snapshot() == P.PassItem(old(Snapshot()))
    {
      PassItemKeeps(Snapshot());
      Submit();
    }


    method Refuse(error: Error)
      requires phase.Processing?
      modifies `phase, `timer, `free, `status, `slot, `failed, `rxClosed, `semClosed
      ensures Snapshot() == P.FailItem(old(Snapshot()), error)
    {
      var msg, isNewBatch := phase.msg, phase.isNewBatch;
      SetFailed(error);
      status := status[msg.id := Resolved(Failed(error))];
      if pendingWeight < limits.maxWeight && isNewBatch {
        timer := Armed;
      }
      phase, free := Selecting, free + 1;
    }

    method FailItem(error: Error)
      requires Valid() && phase.Processing?
      modifies `phase, `timer, `free, `status, `slot, `failed, `rxClosed, `semClosed
      ensures Valid() && Keeps() && slot == Some(error) && old(phase).msg.id in status
      ensures status[old(phase).msg.id] == Resolved(Failed(error))
      ensures Snapshot() == P.FailItem(old(Snapshot()), error)
    {
      FailItemKeeps(Snapshot(), error);
      Refuse(error);
    }


    method StartBatch()
      requires phase.Flushing?
      modifies `phase, `pendingWeight, `timer, `free, `running, `calls
      ensures Snapshot() == P.PassFlush(old(Snapshot()))
    {
      calls := calls + [Flush];
      running := running + 1;
      pendingWeight, timer := 0, Off;
      free := free + if phase.holdsPermit then 1 else 0;
      phase := Selecting;
    }

    method PassFlush()
      requires Valid() && phase.Flushing?
      modifies `phase, `pendingWeight, `timer, `free, `running, `calls
      ensures Valid() && Keeps() && calls == old(calls) + [Flush]
      ensures running == old(running) + 1 && pendingWeight == 0 && timer == Off
      ensures Snapshot() == P.PassFlush(old(Snapshot()))
    {
      PassFlushKeeps(Snapshot());
      StartBatch();
    }


    method FailFlush(error: Error)
      requires Valid() && phase.Flushing?
      modifies `phase, `timer, `free, `slot, `failed, `rxClosed, `semClosed
      ensures Valid() && Keeps() && slot == Some(error) && phase == Selecting
      ensures Snapshot() == P.FailFlush(old(Snapshot()), error)
    {
      FailFlushKeeps(Snapshot(), error);
      SetFailed(error);
      free := free + if phase.holdsPermit then 1 else 0;
      phase := Selecting;
    }

    /** Dropping the worker: what is left in the channel fails with the error. */
    method Stop(cancelled: bool)
      requires Valid() && phase == Selecting && failed.Some?
      modifies `phase, `running, `timer, `chan, `status, `free
      ensures Valid() && Keeps() && chan == [] && phase == Done(cancelled)
      ensures AllFailed(old(status), status, slot.value)
      ensures Snapshot() == P.Stop(old(Snapshot()), cancelled)
    {
      StopKeeps(Snapshot(), cancelled);
      while chan != []
        invariant failed.Some? && FailAll(Snapshot()) == FailAll(old(Snapshot()))
        decreases |chan|
      {
        FailHead();
      }
      running, timer := 0, Off;
      phase := Done(cancelled);
    }

    method Exit()
      requires Valid() && phase == Selecting && chan == []
      modifies `phase, `running, `timer, `chan, `status, `free, `slot, `failed, `rxClosed, `semClosed
      ensures Valid() && Keeps() && phase == Done(false)
      ensures forall id :: id in status ==> status[id].Resolved?
      ensures Snapshot() == P.Exit(old(Snapshot()))
    {
      ExitKeeps(Snapshot());
      SetFailed(Closed);
      Stop(false);
    }

    method Abandon()
      modifies `phase, `free, `status
      ensures Snapshot() == P.Abandon(old(Snapshot()))
    {
      if phase.Processing? {
        status := status[phase.msg.id := Resolved(Disconnected)];
        free := free + 1;
      } else if phase.Flushing? && phase.holdsPermit {
        free := free + 1;
      }
      phase := Selecting;
    }

    method Cancel()
      requires Valid() && !phase.Done?
      modifies `phase, `running, `timer, `chan, `status, `free, `slot, `failed, `rxClosed, `semClosed
      ensures Valid() && Keeps() && phase == Done(true)
      ensures AllFailed(old(status), status, GetWorkerError())
      ensures old(phase).Processing? ==>
                && old(phase).msg.id in status
                && status[old(phase).msg.id] == Resolved(Disconnected)
      ensures Snapshot() == P.Cancel(old(Snapshot()))
    {
      CancelKeeps(Snapshot());
      AbandonKeeps(Snapshot());
      SetFailed(Closed);
      Abandon();
      Stop(true);
    }

    // Interleavings.

    method DoHandleStep(step: Step)
      requires Valid() && HandleStepEnabled(Snapshot(), step)
      modifies `handles, `holders, `free, `chan, `status
      ensures Valid() && Snapshot() == HandleStep(old(Snapshot()), step)
    {
      HandleStepKeeps(Snapshot(), step);
      match step
      case PollStep(h, contended) => var r := PollReady(h, contended);
      case CallStep(h, m) => Call(h, m);
      case CloneStep(_, copy) => CloneHandle(copy);
      case DropStep(h) => DropHandle(h);
    }

    method DoWorkerStep(step: Step)
      requires Valid() && WorkerStepEnabled(Snapshot(), step)
      modifies this
      ensures Valid() && Snapshot() == WorkerStep(old(Snapshot()), step)
    {
      WorkerStepKeeps(Snapshot(), step);
      match step
      case FinishStep(result) => FinishBatch(result);
      case ElapseStep => ElapseTimer();
      case TimerStep => OnTimer();
      case ReceiveStep => Receive();
      case PassStep =>
        if phase.Processing? {
          PassItem();
        } else {
          PassFlush();
        }
      case FailStep(error) =>
        if phase.Processing? {
          FailItem(error);
        } else {
          FailFlush(error);
        }
      case ExitStep => Exit();
      case CancelStep => Cancel();
    }

    /** Any interleaving of steps ends where the protocol says. */
    method Run(steps: seq<Step>)
      requires Valid() && Possible(Snapshot(), steps)
      modifies this
      ensures Valid() && Snapshot() == After(old(Snapshot()), steps)
    {
      for i := 0 to |steps|
        invariant Valid() && Possible(Snapshot(), steps[i..])
        invariant After(Snapshot(), steps[i..]) == After(old(Snapshot()), steps)
      {
        assert steps[i..][0] == steps[i] && steps[i..][1..] == steps[i + 1..];
        if IsHandleStep(steps[i]) {
          DoHandleStep(steps[i]);
        } else {
          DoWorkerStep(steps[i]);
        }
      }
    }
  }
}
