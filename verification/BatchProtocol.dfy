/**
 A batch worker and the handles that callers use: a channel bounded by a semaphore, a worker that
 passes items and flushes to an inner service, a batch timer, running batches, and an error that is
 published once. A state is a value, and every function from states to states is one atomic step of
 a handle, of the worker, or of the environment; between any two steps of one party, the others may
 take any number of theirs.
 */
module BatchProtocol {
  import opened Options

  const QUEUE_BATCH_LIMIT: nat := 64

  type Id = nat
  type Handle = nat

  datatype Error = Service(code: nat) | Closed

  /** A request on its way to the worker. It carries the permit that its caller had. */
  datatype Message = Message(id: Id, weight: nat)

  /** What the worker is waiting for. */
  datatype Phase =
    | Selecting
    | Processing(msg: Message, isNewBatch: bool)  // for the service, before it passes on an item
    | Flushing(holdsPermit: bool)                 // for the service, before it passes on a flush
    | Done(cancelled: bool)

  datatype Timer = Off | Armed | Elapsed

  /** A call that reached the inner service. */
  datatype ServiceCall = Item(id: Id, weight: nat) | Flush

  datatype Outcome =
    | Response              // the future that the inner service returned
    | Failed(error: Error)  // an error from the worker, or from a send that failed
    | Disconnected          // the worker went away while it held the request: a closed error

  datatype Status = Queued | Taken | Resolved(outcome: Outcome)

  datatype Readiness = Ready | Pending | NotReady(error: Error) | Cancelled

  function Clamp(n: nat, lo: nat, hi: nat): (r: nat)
    requires lo <= hi
    ensures lo <= r <= hi && (lo <= n <= hi ==> r == n) && (n <= lo ==> r == lo) && (hi <= n ==> r == hi)
  {
    if n < lo then lo else if n > hi then hi else n
  }

  // The calls that reach the service.

  /** The weight of the items since the last flush. */
  function OpenWeight(calls: seq<ServiceCall>): nat {
    if calls == [] then 0
    else
      var n := |calls| - 1;
      match calls[n]
      case Flush => 0
      case Item(_, weight) => OpenWeight(calls[..n]) + weight
  }

  ghost function Submitted(calls: seq<ServiceCall>): set<Id> {
    if calls == [] then {}
    else
      var n := |calls| - 1;
      Submitted(calls[..n]) + if calls[n].Item? then {calls[n].id} else {}
  }

  /**
   An item is passed on only once, and only to a batch that is not full; a flush only to a batch
   with items.
   */
  ghost predicate WellBatched(calls: seq<ServiceCall>, max: nat) {
    calls == [] ||
    var n := |calls| - 1;
    && WellBatched(calls[..n], max)
    && if calls[n].Flush? then 0 < OpenWeight(calls[..n])
       else OpenWeight(calls[..n]) < max && calls[n].id !in Submitted(calls[..n])
  }

  /** Every flushed batch ends with an item, before which it weighed less than the maximum. */
  lemma {:induction false} FlushedBatch(calls: seq<ServiceCall>, max: nat, i: nat)
    requires WellBatched(calls, max) && i < |calls| && calls[i].Flush?
    ensures 0 < i && calls[i - 1].Item? && OpenWeight(calls[..i - 1]) < max
    ensures OpenWeight(calls[..i]) < max + calls[i - 1].weight
  {
    var n := |calls| - 1;
    if i < n {
      FlushedBatch(calls[..n], max, i);
      assert calls[..n][..i - 1] == calls[..i - 1] && calls[..n][..i] == calls[..i];
    } else {
      assert calls[..n][..n - 1] == calls[..n - 1];
    }
  }

  lemma {:induction false} CallsStep(calls: seq<ServiceCall>, c: ServiceCall, max: nat)
    requires WellBatched(calls, max)
    requires if c.Flush? then 0 < OpenWeight(calls)
             else OpenWeight(calls) < max && c.id !in Submitted(calls)
    ensures WellBatched(calls + [c], max)
    ensures OpenWeight(calls + [c]) == if c.Flush? then 0 else OpenWeight(calls) + c.weight
    ensures Submitted(calls + [c]) == Submitted(calls) + if c.Item? then {c.id} else {}
  {
    assert (calls + [c])[..|calls|] == calls;
  }

  // Where requests are.

  ghost predicate QueuedAt(status: map<Id, Status>, chan: seq<Message>, i: int) {
    0 <= i < |chan| ==> chan[i].id in status && status[chan[i].id].Queued?
  }

  ghost predicate InChannel(chan: seq<Message>, id: Id) {
    exists i :: 0 <= i < |chan| && chan[i].id == id
  }

  ghost predicate Located(
      status: map<Id, Status>, chan: seq<Message>, taken: Option<Message>, id: Id)
    requires id in status
  {
    match status[id]
    case Queued => InChannel(chan, id)
    case Taken => taken.Some? && taken.value.id == id
    case Resolved(_) => true
  }

  ghost predicate Apart(chan: seq<Message>, i: int, j: int) {
    0 <= i < j < |chan| ==> chan[i].id != chan[j].id
  }

  /** A request is in the channel once, or with the worker, or resolved, and only one of them. */
  ghost predicate Tracked(status: map<Id, Status>, chan: seq<Message>, taken: Option<Message>) {
    && (forall i {:trigger QueuedAt(status, chan, i)} :: QueuedAt(status, chan, i))
    && (forall i, j {:trigger Apart(chan, i, j)} :: Apart(chan, i, j))
    && (taken.Some? ==> taken.value.id in status && status[taken.value.id].Taken?)
    && (forall id {:trigger Located(status, chan, taken, id)} ::
          id in status ==> Located(status, chan, taken, id))
  }

  /** What a resolved request was told: its service future, the published error, or closed. */
  ghost predicate Told(status: map<Id, Status>, calls: seq<ServiceCall>, slot: Option<Error>, id: Id)
    requires id in status
  {
    match status[id]
    case Resolved(Response) => id in Submitted(calls)
    case Resolved(Failed(error)) => slot == Some(error) && id !in Submitted(calls)
    case _ => id !in Submitted(calls)
  }

  ghost predicate AllTold(status: map<Id, Status>, calls: seq<ServiceCall>, slot: Option<Error>) {
    && Submitted(calls) <= status.Keys
    && forall id {:trigger Told(status, calls, slot, id)} ::
         id in status ==> Told(status, calls, slot, id)
  }

  lemma {:induction false} TrackSend(
      status: map<Id, Status>, chan: seq<Message>, taken: Option<Message>, m: Message)
    requires Tracked(status, chan, taken) && m.id !in status
    ensures Tracked(status[m.id := Queued], chan + [m], taken)
  {
    var s, c := status[m.id := Queued], chan + [m];
    forall i
      ensures QueuedAt(s, c, i)
    {
      assert QueuedAt(status, chan, i);
    }
    forall i, j
      ensures Apart(c, i, j)
    {
      assert QueuedAt(status, chan, i) && Apart(chan, i, j);
    }
    forall id | id in s
      ensures Located(s, c, taken, id)
    {
      if id == m.id {
        assert c[|chan|].id == id;
      } else {
        assert Located(status, chan, taken, id);
        if status[id].Queued? {
          var i :| 0 <= i < |chan| && chan[i].id == id;
          assert c[i].id == id;
        }
      }
    }
  }

  lemma {:induction false} TrackHead(
      status: map<Id, Status>, chan: seq<Message>, to: Status, taken: Option<Message>)
    requires Tracked(status, chan, None) && chan != [] && !to.Queued?
    requires if to.Taken? then taken == Some(chan[0]) else taken == None
    ensures chan[0].id in status && Tracked(status[chan[0].id := to], chan[1..], taken)
  {
    assert QueuedAt(status, chan, 0);
    var s, c := status[chan[0].id := to], chan[1..];
    forall i
      ensures QueuedAt(s, c, i)
    {
      assert QueuedAt(status, chan, i + 1) && Apart(chan, 0, i + 1);
    }
    forall i, j
      ensures Apart(c, i, j)
    {
      assert Apart(chan, i + 1, j + 1);
    }
    forall id | id in s
      ensures Located(s, c, taken, id)
    {
      assert Located(status, chan, None, id);
      if id != chan[0].id && status[id].Queued? {
        var i :| 0 <= i < |chan| && chan[i].id == id;
        assert c[i - 1].id == id;
      }
    }
  }

  lemma {:induction false} TrackResolve(
      status: map<Id, Status>, chan: seq<Message>, m: Message, o: Outcome)
    requires Tracked(status, chan, Some(m))
    ensures m.id in status && Tracked(status[m.id := Resolved(o)], chan, None)
  {
    var s := status[m.id := Resolved(o)];
    forall i
      ensures QueuedAt(s, chan, i)
    {
      assert QueuedAt(status, chan, i);
    }
    forall id | id in s
      ensures Located(s, chan, None, id)
    {
      assert Located(status, chan, Some(m), id);
    }
  }

  lemma {:induction false} TrackRefuse(
      status: map<Id, Status>, chan: seq<Message>, taken: Option<Message>, id: Id, o: Outcome)
    requires Tracked(status, chan, taken) && id !in status
    ensures Tracked(status[id := Resolved(o)], chan, taken)
  {
    var s := status[id := Resolved(o)];
    forall i
      ensures QueuedAt(s, chan, i)
    {
      assert QueuedAt(status, chan, i);
    }
    forall k | k in s
      ensures Located(s, chan, taken, k)
    {
      if k != id {
        assert Located(status, chan, taken, k);
      }
    }
  }

  /** Telling one more request keeps what the others were told. */
  lemma {:induction false} TellOne(
      status: map<Id, Status>, calls: seq<ServiceCall>, slot: Option<Error>, id: Id, to: Status)
    requires AllTold(status, calls, slot)
    requires id in status ==> !status[id].Resolved?
    requires to.Resolved? && to.outcome.Failed? ==> slot == Some(to.outcome.error)
    requires to != Resolved(Response)
    ensures AllTold(status[id := to], calls, slot)
  {
    var s := status[id := to];
    forall k | k in s
      ensures Told(s, calls, slot, k)
    {
      if k in status {
        assert Told(status, calls, slot, k);
      }
    }
  }

  lemma {:induction false} TellResponse(
      status: map<Id, Status>, calls: seq<ServiceCall>, slot: Option<Error>, id: Id, weight: nat)
    requires AllTold(status, calls, slot) && id in status && !status[id].Resolved?
    ensures id !in Submitted(calls)
    ensures Submitted(calls + [Item(id, weight)]) == Submitted(calls) + {id} ==>
              AllTold(status[id := Resolved(Response)], calls + [Item(id, weight)], slot)
  {
    var s, c := status[id := Resolved(Response)], calls + [Item(id, weight)];
    assert Told(status, calls, slot, id);
    if Submitted(c) == Submitted(calls) + {id} {
      forall k | k in s
        ensures Told(s, c, slot, k)
      {
        assert k != id ==> Told(status, calls, slot, k);
      }
    }
  }

  lemma {:induction false} TellFlush(
      status: map<Id, Status>, calls: seq<ServiceCall>, slot: Option<Error>)
    requires AllTold(status, calls, slot)
    requires Submitted(calls + [Flush]) == Submitted(calls)
    ensures AllTold(status, calls + [Flush], slot)
  {
    forall k | k in status
      ensures Told(status, calls + [Flush], slot, k)
    {
      assert Told(status, calls, slot, k);
    }
  }

  /** Before an error is published, nobody has been told one. */
  lemma {:induction false} TellNothing(
      status: map<Id, Status>, calls: seq<ServiceCall>, error: Error)
    requires AllTold(status, calls, None)
    ensures AllTold(status, calls, Some(error))
  {
    forall k | k in status
      ensures Told(status, calls, Some(error), k)
    {
      assert Told(status, calls, None, k);
    }
  }

  // The state.

  /** The worker's limits, and the number of permits of the semaphore. */
  datatype Limits = Limits(maxWeight: nat, maxBatches: nat, total: nat)

  function LimitsFor(maxItemsWeight: nat, maxBatches: nat): Limits {
    var weight := if maxItemsWeight < 1 then 1 else maxItemsWeight;
    Limits(weight, maxBatches, weight * Clamp(maxBatches, 1, QUEUE_BATCH_LIMIT))
  }

  datatype State = State(
    handles: set<Handle>,
    holders: set<Handle>,       // the handles that have a permit
    chan: seq<Message>,
    rxClosed: bool,
    free: nat,                  // permits that nobody holds
    semClosed: bool,
    slot: Option<Error>,
    phase: Phase,
    pendingWeight: nat,
    timer: Timer,
    running: nat,
    failed: Option<Error>,
    status: map<Id, Status>,    // the history of requests
    calls: seq<ServiceCall>,    // the history of calls to the inner service
    limits: Limits)

  function Initial(limits: Limits): State {
    State({0}, {}, [], false, limits.total, false, None, Selecting, 0, Off, 0, None, map[], [], limits)
  }

  // Steps of the handles.

  function WorkerError(s: State): Error {
    if s.slot.Some? then s.slot.value else Closed
  }

  /** Gives back the permit of a handle, if it has one. */
  function Release(s: State, h: Handle): State {
    if h in s.holders then s.(holders := s.holders - {h}, free := s.free + 1) else s
  }

  /**
   Gives back the permit of a handle, if it has one, and tries to get another. Under contention the
   free permits go to tasks that were waiting before.
   */
  function PollReady(s: State, h: Handle, contended: bool): (State, Readiness) {
    if s.phase.Done? then
      (s, if s.phase.cancelled then Cancelled else NotReady(WorkerError(s)))
    else if s.rxClosed then (s, NotReady(WorkerError(s)))
    else
      var r := Release(s, h);
      if r.semClosed then (r, NotReady(WorkerError(r)))
      else if r.free == 0 || contended then (r, Pending)
      else (r.(holders := r.holders + {h}, free := r.free - 1), Ready)
  }

  /** Sends a request with the handle's permit; on a closed channel it fails with the error. */
  function Call(s: State, h: Handle, m: Message): State {
    var r := s.(holders := s.holders - {h});
    if s.rxClosed then
      r.(free := r.free + 1, status := r.status[m.id := Resolved(Failed(WorkerError(r)))])
    else r.(chan := r.chan + [m], status := r.status[m.id := Queued])
  }

  function CloneHandle(s: State, copy: Handle): State {
    s.(handles := s.handles + {copy})
  }

  function DropHandle(s: State, h: Handle): State {
    Release(s, h).(handles := s.handles - {h})
  }

  // Steps of the worker.

  /** Publishes an error, unless there is one already, and closes the channel. */
  function Fail(s: State, error: Error): State {
    if s.slot.Some? then s
    else s.(slot := Some(error), failed := Some(error), rxClosed := true, semClosed := true,
            timer := Off)
  }

  /** A running batch finishes; if it failed, so does the worker. */
  function FinishBatch(s: State, result: Option<Error>): State
    requires s.running > 0
  {
    var r := s.(running := s.running - 1);
    if result.Some? then Fail(r, result.value) else r
  }

  /** The timer branch: flushes the pending batch, but not on a failed worker. */
  function OnTimer(s: State): State {
    if s.failed.Some? then s else s.(phase := Flushing(false))
  }

  /** Fails the oldest request in the channel. */
  function FailHead(s: State): State
    requires s.chan != [] && s.failed.Some?
  {
    s.(chan := s.chan[1..], free := s.free + 1,
       status := s.status[s.chan[0].id := Resolved(Failed(s.failed.value))])
  }

  /** After a message that started a batch the timer runs, unless a full batch was to be flushed. */
  function StartTimer(s: State, isNewBatch: bool): State {
    if s.pendingWeight < s.limits.maxWeight && isNewBatch then s.(timer := Armed) else s
  }

  /** The receive branch: takes a message, and fails it at once if the worker has failed. */
  function Receive(s: State): State
    requires s.chan != []
  {
    if s.failed.Some? then StartTimer(FailHead(s), s.pendingWeight == 0)
    else
      s.(chan := s.chan[1..], status := s.status[s.chan[0].id := Taken],
         phase := Processing(s.chan[0], s.pendingWeight == 0))
  }

  /** The service becomes ready for the item; a batch that is now full is flushed next. */
  function PassItem(s: State): State
    requires s.phase.Processing?
  {
    var msg := s.phase.msg;
    var r := s.(pendingWeight := s.pendingWeight + msg.weight,
                calls := s.calls + [Item(msg.id, msg.weight)],
                status := s.status[msg.id := Resolved(Response)]);
    if r.pendingWeight >= r.limits.maxWeight then r.(phase := Flushing(true))
    else StartTimer(r, s.phase.isNewBatch).(phase := Selecting, free := r.free + 1)
  }

  /** The service fails while the worker waits to pass on an item. */
  function FailItem(s: State, error: Error): State
    requires s.phase.Processing?
  {
    var r := Fail(s, error);
    StartTimer(r, s.phase.isNewBatch)
      .(phase := Selecting, free := r.free + 1,
        status := r.status[s.phase.msg.id := Resolved(Failed(error))])
  }

  function PermitInFlush(s: State): nat {
    if s.phase.Flushing? && s.phase.holdsPermit then 1 else 0
  }

  /** The service becomes ready for the flush: the batch runs, and there is no pending one. */
  function PassFlush(s: State): State {
    s.(calls := s.calls + [Flush], running := s.running + 1, pendingWeight := 0, timer := Off,
       free := s.free + PermitInFlush(s), phase := Selecting)
  }

  /** The service fails while the worker waits to pass on a flush. */
  function FailFlush(s: State, error: Error): State {
    Fail(s, error).(free := s.free + PermitInFlush(s), phase := Selecting)
  }

  /** Fails everything that is left in the channel. */
  function FailAll(s: State): State
    requires s.failed.Some?
    decreases |s.chan|
  {
    if s.chan == [] then s else FailAll(FailHead(s))
  }

  /** Dropping the worker: what is left in the channel fails with the error. */
  function Stop(s: State, cancelled: bool): State
    requires s.failed.Some?
  {
    FailAll(s).(running := 0, timer := Off, phase := Done(cancelled))
  }

  /** The receive branch on an empty channel that is closed, or that nobody can send on. */
  function Exit(s: State): State
    requires s.slot == s.failed
  {
    Stop(Fail(s, Closed), false)
  }

  /** What the worker holds goes with it: the caller of a held request finds the channel closed. */
  function Abandon(s: State): State {
    match s.phase
    case Processing(msg, _) =>
      s.(phase := Selecting, free := s.free + 1, status := s.status[msg.id := Resolved(Disconnected)])
    case _ => s.(phase := Selecting, free := s.free + PermitInFlush(s))
  }

  /** The worker is cancelled, at whatever it waits for. */
  function Cancel(s: State): State
    requires s.slot == s.failed
  {
    Stop(Abandon(Fail(s, Closed)), true)
  }

  // What holds in every reachable state.

  /** The permits that the worker holds with a message. */
  function WorkerPermits(s: State): nat {
    if s.phase.Processing? then 1 else PermitInFlush(s)
  }

  /** Permits are conserved. */
  ghost predicate PermitsOk(s: State) {
    s.holders <= s.handles && s.free + |s.holders| + |s.chan| + WorkerPermits(s) == s.limits.total
  }

  /** The error is published with the worker's own, and closes the channel and the semaphore. */
  ghost predicate ErrorOk(s: State) {
    && s.slot == s.failed && s.rxClosed == s.semClosed == s.failed.Some?
    && (s.phase.Done? ==> s.failed.Some? && s.chan == [])
    && (s.phase.Processing? || s.phase.Flushing? ==> s.failed.None?)
  }

  /** A timer runs only while there is room for the batch that it will flush. */
  ghost predicate BatchesOk(s: State) {
    && s.running <= s.limits.maxBatches
    && (s.timer != Off || s.phase.Processing? || s.phase.Flushing? ==>
          s.running < s.limits.maxBatches)
  }

  ghost predicate HasWeight(chan: seq<Message>, i: int) {
    0 <= i < |chan| ==> 1 <= chan[i].weight
  }

  /** The pending batch: it has a timer exactly if it has items, and is flushed when full. */
  ghost predicate PendingOk(s: State) {
    && (forall i {:trigger HasWeight(s.chan, i)} :: HasWeight(s.chan, i))
    && (s.phase.Processing? ==> 1 <= s.phase.msg.weight)
    && (s.failed.Some? && s.pendingWeight > 0 ==> s.timer == Off)
    && s.pendingWeight == OpenWeight(s.calls)
    && (s.failed.None? && s.phase.Flushing? ==> 0 < s.pendingWeight)
    && (s.failed.None? && !s.phase.Flushing? ==>
          s.pendingWeight < s.limits.maxWeight && (0 < s.pendingWeight <==> s.timer != Off))
    && (s.phase.Processing? ==> s.phase.isNewBatch == (s.pendingWeight == 0))
  }

  function InWorker(s: State): Option<Message> {
    if s.phase.Processing? then Some(s.phase.msg) else None
  }

  ghost predicate HistoryOk(s: State) {
    && Tracked(s.status, s.chan, InWorker(s))
    && AllTold(s.status, s.calls, s.slot)
    && WellBatched(s.calls, s.limits.maxWeight)
  }

  ghost predicate Inv(s: State) {
    && 1 <= s.limits.maxWeight
    && PermitsOk(s) && ErrorOk(s) && BatchesOk(s) && PendingOk(s) && HistoryOk(s)
  }

  /** A request stays resolved as it was, and after an error a queued one can only be told that. */
  ghost predicate Settles(
      status: map<Id, Status>, status': map<Id, Status>, slot: Option<Error>, id: Id)
  {
    id in status ==>
      && id in status'
      && (status[id].Resolved? ==> status'[id] == status[id])
      && (status[id].Queued? && slot.Some? ==>
            status'[id] == Queued || status'[id] == Resolved(Failed(slot.value)))
  }

  /**
   What never changes once it is so: a resolved request, a published error, a call that reached the
   service; and no call reaches it after the error.
   */
  ghost predicate Kept(s: State, t: State) {
    && (forall id {:trigger Settles(s.status, t.status, s.slot, id)} ::
          Settles(s.status, t.status, s.slot, id))
    && (s.slot.Some? ==> t.slot == s.slot && t.calls == s.calls)
    && s.calls <= t.calls
    && t.limits == s.limits
  }

  lemma {:induction false} KeptJoin(r: State, s: State, t: State)
    requires Kept(r, s) && Kept(s, t)
    ensures Kept(r, t)
  {
    forall id
      ensures Settles(r.status, t.status, r.slot, id)
    {
      assert Settles(r.status, s.status, r.slot, id) && Settles(s.status, t.status, s.slot, id);
    }
  }

  // What each step keeps.

  lemma {:induction false} InitialOk(limits: Limits)
    requires 1 <= limits.maxWeight
    ensures Inv(Initial(limits))
  {
  }

  lemma {:induction false} MovedPermits(s: State, t: State)
    requires Inv(s) && t == s.(holders := t.holders, free := t.free) && PermitsOk(t)
    ensures Inv(t) && Kept(s, t)
  {
  }

  lemma {:induction false} ReleaseKeeps(s: State, h: Handle)
    requires Inv(s)
    ensures Inv(Release(s, h)) && Kept(s, Release(s, h)) && h !in Release(s, h).holders
  {
    if h in s.holders {
      assert |s.holders - {h}| == |s.holders| - 1;
      MovedPermits(s, Release(s, h));
    }
  }

  lemma {:induction false} PollReadyKeeps(s: State, h: Handle, contended: bool)
    requires Inv(s) && h in s.handles
    ensures Inv(PollReady(s, h, contended).0) && Kept(s, PollReady(s, h, contended).0)
  {
    PollPermits(s, h, contended);
    MovedPermits(s, PollReady(s, h, contended).0);
  }

  lemma {:induction false} PollPermits(s: State, h: Handle, contended: bool)
    requires PermitsOk(s) && h in s.handles
    ensures PermitsOk(PollReady(s, h, contended).0)
  {
    var r := Release(s, h);
    assert h in s.holders ==> |s.holders - {h}| == |s.holders| - 1;
    assert |r.holders + {h}| == |r.holders| + 1;
  }

  /**
   A handle is ready exactly if a permit is free, its own included, and no other task gets it first;
   then it holds one. A closed channel gives the published error and leaves the permit.
   */
  lemma {:induction false} PollReadyExact(s: State, h: Handle, contended: bool)
    requires Inv(s) && h in s.handles
    ensures var (t, r) := PollReady(s, h, contended);
            && (s.rxClosed ==> t == s && r == if s.phase == Done(true) then Cancelled
                                              else NotReady(s.slot.value))
            && (!s.rxClosed ==>
                  && (r.Ready? <==> h in t.holders)
                  && (r.Ready? <==> (s.free > 0 || h in s.holders) && !contended)
                  && (!r.Ready? ==> r == Pending)
                  && t.holders - {h} == s.holders - {h})
  {
  }

  lemma {:induction false} CallKeeps(s: State, h: Handle, m: Message)
    requires Inv(s) && h in s.holders && m.id !in s.status && 1 <= m.weight
    ensures Inv(Call(s, h, m)) && Kept(s, Call(s, h, m))
  {
    assert |s.holders - {h}| == |s.holders| - 1;
    if s.rxClosed {
      var o := Failed(WorkerError(s));
      TrackRefuse(s.status, s.chan, InWorker(s), m.id, o);
      TellOne(s.status, s.calls, s.slot, m.id, Resolved(o));
    } else {
      TrackSend(s.status, s.chan, InWorker(s), m);
      TellOne(s.status, s.calls, s.slot, m.id, Queued);
      forall i
        ensures HasWeight(s.chan + [m], i)
      {
        assert HasWeight(s.chan, i);
      }
    }
  }

  lemma {:induction false} DropHandleKeeps(s: State, h: Handle)
    requires Inv(s) && h in s.handles
    ensures Inv(DropHandle(s, h)) && Kept(s, DropHandle(s, h))
  {
    ReleaseKeeps(s, h);
  }

  /** The history of a failed worker: nobody has been told an error before it is published. */
  lemma {:induction false} FailTells(s: State, error: Error)
    requires ErrorOk(s) && AllTold(s.status, s.calls, s.slot)
    ensures AllTold(s.status, s.calls, Fail(s, error).slot)
    ensures Fail(s, error).slot.Some? && Kept(s, Fail(s, error))
  {
    if s.slot.None? {
      TellNothing(s.status, s.calls, error);
    }
  }

  lemma {:induction false} FinishBatchKeeps(s: State, result: Option<Error>)
    requires Inv(s) && s.phase == Selecting && s.running > 0
    ensures Inv(FinishBatch(s, result)) && Kept(s, FinishBatch(s, result))
  {
    if result.Some? {
      FailTells(s.(running := s.running - 1), result.value);
    }
  }

  lemma {:induction false} FailHeadKeeps(s: State)
    requires Inv(s) && s.phase == Selecting && s.failed.Some? && s.chan != []
    ensures Inv(FailHead(s)) && Kept(s, FailHead(s))
  {
    var to := Resolved(Failed(s.failed.value));
    TrackHead(s.status, s.chan, to, None);
    assert QueuedAt(s.status, s.chan, 0);
    TellOne(s.status, s.calls, s.slot, s.chan[0].id, to);
    forall i
      ensures HasWeight(s.chan[1..], i)
    {
      assert HasWeight(s.chan, i + 1);
    }
  }

  lemma {:induction false} ReceiveKeeps(s: State)
    requires Inv(s) && s.phase == Selecting && s.timer != Elapsed
    requires s.running < s.limits.maxBatches && s.chan != []
    ensures Inv(Receive(s)) && Kept(s, Receive(s))
  {
    if s.failed.Some? {
      FailHeadKeeps(s);
    } else {
      TrackHead(s.status, s.chan, Taken, Some(s.chan[0]));
      assert QueuedAt(s.status, s.chan, 0);
      TellOne(s.status, s.calls, s.slot, s.chan[0].id, Taken);
      assert HasWeight(s.chan, 0);
      forall i
        ensures HasWeight(s.chan[1..], i)
      {
        assert HasWeight(s.chan, i + 1);
      }
    }
  }

  lemma {:induction false} ItemHistory(
      status: map<Id, Status>, chan: seq<Message>, calls: seq<ServiceCall>, slot: Option<Error>,
      m: Message, max: nat)
    requires Tracked(status, chan, Some(m)) && AllTold(status, calls, slot)
    requires WellBatched(calls, max) && OpenWeight(calls) < max
    ensures Tracked(status[m.id := Resolved(Response)], chan, None)
    ensures var calls' := calls + [Item(m.id, m.weight)];
            && AllTold(status[m.id := Resolved(Response)], calls', slot)
            && WellBatched(calls', max) && OpenWeight(calls') == OpenWeight(calls) + m.weight
  {
    TrackResolve(status, chan, m, Response);
    TellResponse(status, calls, slot, m.id, m.weight);
    CallsStep(calls, Item(m.id, m.weight), max);
  }

  lemma {:induction false} PassItemHistory(s: State)
    requires Inv(s) && s.phase.Processing?
    ensures HistoryOk(PassItem(s))
    ensures OpenWeight(PassItem(s).calls) == OpenWeight(s.calls) + s.phase.msg.weight
  {
    ItemHistory(s.status, s.chan, s.calls, s.slot, s.phase.msg, s.limits.maxWeight);
  }

  lemma {:induction false} PassItemSettles(s: State)
    requires Inv(s) && s.phase.Processing?
    ensures Kept(s, PassItem(s))
  {
    TrackResolve(s.status, s.chan, s.phase.msg, Response);
  }

  lemma {:induction false} PassItemKeeps(s: State)
    requires Inv(s) && s.phase.Processing?
    ensures Inv(PassItem(s)) && Kept(s, PassItem(s))
  {
    PassItemHistory(s);
    PassItemSettles(s);
  }

  lemma {:induction false} FailItemKeeps(s: State, error: Error)
    requires Inv(s) && s.phase.Processing?
    ensures Inv(FailItem(s, error)) && Kept(s, FailItem(s, error))
    ensures FailItem(s, error).slot.Some? && s.phase.msg.id in FailItem(s, error).status
    ensures FailItem(s, error).status[s.phase.msg.id]
         == Resolved(Failed(FailItem(s, error).slot.value))
  {
    FailTells(s, error);
    var msg := s.phase.msg;
    TrackResolve(s.status, s.chan, msg, Failed(error));
    TellOne(s.status, s.calls, Some(error), msg.id, Resolved(Failed(error)));
  }

  lemma {:induction false} PassFlushKeeps(s: State)
    requires Inv(s) && s.phase.Flushing?
    ensures Inv(PassFlush(s)) && Kept(s, PassFlush(s))
  {
    CallsStep(s.calls, Flush, s.limits.maxWeight);
    TellFlush(s.status, s.calls, s.slot);
  }

  lemma {:induction false} FailFlushKeeps(s: State, error: Error)
    requires Inv(s) && s.phase.Flushing?
    ensures Inv(FailFlush(s, error)) && Kept(s, FailFlush(s, error))
  {
    FailTells(s, error);
  }

  lemma {:induction false} FailAllKeeps(s: State)
    requires Inv(s) && s.phase == Selecting && s.failed.Some?
    ensures Inv(FailAll(s)) && Kept(s, FailAll(s))
    ensures FailAll(s).phase == Selecting && FailAll(s).failed.Some? && FailAll(s).chan == []
    decreases |s.chan|
  {
    if s.chan != [] {
      FailHeadKeeps(s);
      FailAllKeeps(FailHead(s));
      KeptJoin(s, FailHead(s), FailAll(s));
    }
  }

  /** Every request that was queued is told the error. */
  ghost predicate AllFailed(status: map<Id, Status>, status': map<Id, Status>, error: Error) {
    forall id :: id in status && status[id].Queued? ==>
      id in status' && status'[id] == Resolved(Failed(error))
  }

  /** On an empty channel nobody is queued, so those who were have been told the error. */
  lemma {:induction false} EmptiedIsAllFailed(s: State, t: State)
    requires s.slot.Some? && Kept(s, t) && Tracked(t.status, t.chan, InWorker(t)) && t.chan == []
    ensures AllFailed(s.status, t.status, s.slot.value)
  {
    forall id | id in s.status && s.status[id].Queued?
      ensures id in t.status && t.status[id] == Resolved(Failed(s.slot.value))
    {
      assert Settles(s.status, t.status, s.slot, id);
      assert Located(t.status, t.chan, InWorker(t), id);
    }
  }

  lemma {:induction false} StopKeeps(s: State, cancelled: bool)
    requires Inv(s) && s.phase == Selecting && s.failed.Some?
    ensures Inv(Stop(s, cancelled)) && Kept(s, Stop(s, cancelled))
    ensures AllFailed(s.status, Stop(s, cancelled).status, s.slot.value)
  {
    FailAllKeeps(s);
    EmptiedIsAllFailed(s, Stop(s, cancelled));
  }

  lemma {:induction false} ExitKeeps(s: State)
    requires Inv(s) && s.phase == Selecting && s.chan == []
    ensures Inv(Exit(s)) && Kept(s, Exit(s)) && Exit(s).phase == Done(false)
    ensures forall id :: id in Exit(s).status ==> Exit(s).status[id].Resolved?
  {
    FailTells(s, Closed);
    StopKeeps(Fail(s, Closed), false);
    KeptJoin(s, Fail(s, Closed), Exit(s));
    forall id | id in Exit(s).status
      ensures Exit(s).status[id].Resolved?
    {
      AllResolved(Exit(s), id);
    }
  }

  lemma {:induction false} AbandonKeeps(s: State)
    requires Inv(s) && !s.phase.Done?
    ensures var r := Abandon(Fail(s, Closed)); Inv(r) && Kept(s, r) && r.phase == Selecting
  {
    FailTells(s, Closed);
    if s.phase.Processing? {
      var f := Fail(s, Closed);
      TrackResolve(s.status, s.chan, s.phase.msg, Disconnected);
      TellOne(s.status, s.calls, f.slot, s.phase.msg.id, Resolved(Disconnected));
    }
  }

  /**
   A worker that is cancelled tells the error to everybody who was queued, and the one whose request
   it held finds the channel closed.
   */
  lemma {:induction false} CancelKeeps(s: State)
    requires Inv(s) && !s.phase.Done?
    ensures Inv(Cancel(s)) && Kept(s, Cancel(s)) && Cancel(s).phase == Done(true)
    ensures AllFailed(s.status, Cancel(s).status, WorkerError(Cancel(s)))
    ensures s.phase.Processing? ==>
              && s.phase.msg.id in Cancel(s).status
              && Cancel(s).status[s.phase.msg.id] == Resolved(Disconnected)
  {
    var r := Abandon(Fail(s, Closed));
    AbandonKeeps(s);
    StopKeeps(r, true);
    KeptJoin(s, r, Cancel(s));
    if s.phase.Processing? {
      assert Settles(r.status, Cancel(s).status, r.slot, s.phase.msg.id);
    }
    forall id | id in s.status && s.status[id].Queued?
      ensures id in r.status && r.status[id].Queued?
    {
    }
  }

  // Interleavings.

  datatype Step =
    | PollStep(h: Handle, contended: bool)
    | CallStep(h: Handle, m: Message)
    | CloneStep(h: Handle, copy: Handle)
    | DropStep(h: Handle)
    | FinishStep(result: Option<Error>)
    | ElapseStep
    | TimerStep
    | ReceiveStep
    | PassStep
    | FailStep(error: Error)
    | ExitStep
    | CancelStep

  predicate IsHandleStep(step: Step) {
    step.PollStep? || step.CallStep? || step.CloneStep? || step.DropStep?
  }

  /** A step of a handle that can be taken now; every call is a new request. */
  predicate HandleStepEnabled(s: State, step: Step) {
    match step
    case PollStep(h, _) => h in s.handles
    case CallStep(h, m) => h in s.holders && 1 <= m.weight && m.id !in s.status
    case CloneStep(h, copy) => h in s.handles && copy !in s.handles
    case DropStep(h) => h in s.handles
    case _ => false
  }

  /** A step of the worker that can be taken now; an elapsed timer goes before a message. */
  predicate WorkerStepEnabled(s: State, step: Step) {
    match step
    case FinishStep(_) => s.phase == Selecting && s.running > 0
    case ElapseStep => s.timer == Armed
    case TimerStep => s.phase == Selecting && s.timer == Elapsed
    case ReceiveStep => CanReceive(s) && s.chan != []
    case PassStep => s.phase.Processing? || s.phase.Flushing?
    case FailStep(_) => s.phase.Processing? || s.phase.Flushing?
    case ExitStep => CanReceive(s) && s.chan == [] && (s.rxClosed || s.handles == {})
    case CancelStep => !s.phase.Done?
    case _ => false
  }

  predicate CanReceive(s: State) {
    s.phase == Selecting && s.timer != Elapsed && s.running < s.limits.maxBatches
  }

  function HandleStep(s: State, step: Step): State
    requires HandleStepEnabled(s, step)
  {
    match step
    case PollStep(h, contended) => PollReady(s, h, contended).0
    case CallStep(h, m) => Call(s, h, m)
    case CloneStep(_, copy) => CloneHandle(s, copy)
    case DropStep(h) => DropHandle(s, h)
  }

  function WorkerStep(s: State, step: Step): State
    requires s.slot == s.failed && WorkerStepEnabled(s, step)
  {
    match step
    case FinishStep(result) => FinishBatch(s, result)
    case ElapseStep => s.(timer := Elapsed)
    case TimerStep => OnTimer(s)
    case ReceiveStep => Receive(s)
    case PassStep => if s.phase.Processing? then PassItem(s) else PassFlush(s)
    case FailStep(error) => if s.phase.Processing? then FailItem(s, error) else FailFlush(s, error)
    case ExitStep => Exit(s)
    case CancelStep => Cancel(s)
  }

  /** A step that cannot be taken is skipped. */
  function Next(s: State, step: Step): State
    requires s.slot == s.failed
  {
    if HandleStepEnabled(s, step) then HandleStep(s, step)
    else if WorkerStepEnabled(s, step) then WorkerStep(s, step)
    else s
  }

  lemma {:induction false} HandleStepKeeps(s: State, step: Step)
    requires Inv(s) && HandleStepEnabled(s, step)
    ensures Inv(HandleStep(s, step)) && Kept(s, HandleStep(s, step))
  {
    match step
    case PollStep(h, contended) => PollReadyKeeps(s, h, contended);
    case CallStep(h, m) => CallKeeps(s, h, m);
    case CloneStep(_, _) =>
    case DropStep(h) => DropHandleKeeps(s, h);
  }

  lemma {:induction false} WorkerStepKeeps(s: State, step: Step)
    requires Inv(s) && WorkerStepEnabled(s, step)
    ensures Inv(WorkerStep(s, step)) && Kept(s, WorkerStep(s, step))
  {
    match step
    case FinishStep(result) => FinishBatchKeeps(s, result);
    case ElapseStep =>
    case TimerStep =>
    case ReceiveStep => ReceiveKeeps(s);
    case PassStep =>
      if s.phase.Processing? {
        PassItemKeeps(s);
      } else {
        PassFlushKeeps(s);
      }
    case FailStep(error) =>
      if s.phase.Processing? {
        FailItemKeeps(s, error);
      } else {
        FailFlushKeeps(s, error);
      }
    case ExitStep => ExitKeeps(s);
    case CancelStep => CancelKeeps(s);
  }

  lemma {:induction false} NextKeeps(s: State, step: Step)
    requires Inv(s)
    ensures Inv(Next(s, step)) && Kept(s, Next(s, step))
  {
    if HandleStepEnabled(s, step) {
      HandleStepKeeps(s, step);
    } else if WorkerStepEnabled(s, step) {
      WorkerStepKeeps(s, step);
    }
  }

  /** The state after any interleaving of steps. */
  ghost function After(s: State, steps: seq<Step>): (r: State)
    requires Inv(s)
    ensures Inv(r)
    decreases |steps|
  {
    if steps == [] then s
    else
      NextKeeps(s, steps[0]);
      After(Next(s, steps[0]), steps[1..])
  }

  /** Every step of the interleaving can be taken when its turn comes. */
  ghost predicate Possible(s: State, steps: seq<Step>)
    requires Inv(s)
    decreases |steps|
  {
    steps == [] ||
    (NextKeeps(s, steps[0]);
     && (HandleStepEnabled(s, steps[0]) || WorkerStepEnabled(s, steps[0]))
     && Possible(Next(s, steps[0]), steps[1..]))
  }

  /** In any interleaving the invariant holds, and what was settled stays settled. */
  lemma {:induction false} RunKeeps(s: State, steps: seq<Step>)
    requires Inv(s)
    ensures Inv(After(s, steps)) && Kept(s, After(s, steps))
    decreases |steps|
  {
    if steps != [] {
      NextKeeps(s, steps[0]);
      RunKeeps(Next(s, steps[0]), steps[1..]);
      KeptJoin(s, Next(s, steps[0]), After(s, steps));
    }
  }

  /** One of the branches of the select is enabled. */
  ghost predicate SomeBranch(s: State) {
    s.running > 0 || s.timer != Off || s.running < s.limits.maxBatches
  }

  /** The channel is bounded, the batches are, and a select can wait for something. */
  lemma {:induction false} Bounded(limits: Limits, steps: seq<Step>)
    requires 1 <= limits.maxWeight
    ensures Inv(Initial(limits))
    ensures var s := After(Initial(limits), steps);
            && s.free + |s.holders| + |s.chan| + WorkerPermits(s) == limits.total
            && |s.chan| <= limits.total && s.running <= limits.maxBatches
            && (s.phase.Flushing? ==> s.running < limits.maxBatches)
            && (SomeBranch(s) <==> 1 <= limits.maxBatches)
            && WellBatched(s.calls, limits.maxWeight)
  {
    InitialOk(limits);
    RunKeeps(Initial(limits), steps);
  }

  /** Once the worker is gone, no request is left waiting. */
  lemma {:induction false} AllResolved(s: State, id: Id)
    requires Inv(s) && s.phase.Done? && id in s.status
    ensures s.status[id].Resolved?
    ensures s.status[id].outcome in {Response, Failed(s.slot.value), Disconnected}
  {
    assert Located(s.status, s.chan, InWorker(s), id);
    assert Told(s.status, s.calls, s.slot, id);
  }
}
