/** The waiter and ownership protocol of src/lib.rs as a state machine. One
    request is one call of `acquire_blocking`, `try_acquire`, `acquire` or
    `acquire_timeout`. Each action is one atomic step of the code: a mutex
    section, a successful counter update, a kernel call, or an event. */
module WaiterProtocol {
  import opened LockOrder
  import opened WaitSlots

  datatype Policy = Reject | Queue

  /** The entry point that made the request. */
  datatype Api = Blocking | Trying | Waiter | Timed

  datatype Config = Config(path: Path, mgr: nat, policy: Policy, api: Api)

  /** Who has the guard while its file is open and no one is dropping it. */
  datatype Place = InWorker | InSlot | InReceiver | InCaller

  /** How the request ended: never ran, an error without an event (`try_acquire`
      before its kernel call), an error or contention event, or a release. */
  datatype Outcome = Rejected | Silent | Reported | Released

  /** Progress through the acquisition and the life of its guard. */
  datatype Phase =
    | Fresh
    | Opening                     // opening the file, checking the order
    | Reserving
    | InKernel                    // inside the descriptor-lock call
    | Refused(contended: bool)    // the call failed, reservation still there
    | Reporting(contended: bool)  // about to emit Failed or Contended
    | Granted                     // owned by the kernel, Acquired not yet emitted
    | Holding(place: Place)
    | Unlocking                   // file taken by release or drop
    | Unlocked                    // kernel lock gone, reservation still there
    | Unreserved                  // about to emit Released
    | Ended(outcome: Outcome)

  datatype Worker =
    | NoWorker
    | Spawning                    // permit taken, thread not started
    | Running                     // inside the acquisition closure
    | Returned                    // permit dropped, result in hand
    | Committed(toWake: Option<Waker>)  // published, notify_all still to come
    | Waking(toWake: Option<Waker>)     // notified, wake still to come
    | Discarding                  // receiver gone, dropping the result
    | Exited

  datatype Receiver =
    | NoReceiver
    | Pending(parked: bool, polled: Option<nat>, woken: bool)
    | Expired                     // wait_timeout returned None in acquire_timeout
    | Announced                   // TimedOut emitted, callback still armed
    | Suppressed                  // callback disarmed, drop still to come
    | Leaving                     // drop has called back, its section still to come
    | Took                        // result taken, joining the worker
    | Delivered
    | Dropping                    // dropping a result that was in the slot
    | Gone

  /** Events emitted for one request; Cancelled is counted by the waiter's handle. */
  datatype Tally = Tally(waiting: nat, acquired: nat, contended: nat, released: nat,
                         timedOut: nat, failed: nat)

  /** Runs of the acquisition closure, descriptor-lock calls it made, calls that met
      another owner, and the ends its result came to. */
  datatype Ledger = Ledger(runs: nat, calls: nat, contentions: nat,
                           deliveries: nat, workerDrops: nat, receiverDrops: nat)

  datatype Req = Req(cfg: Config, phase: Phase, worker: Worker, slot: Slot<bool>,
                     receiver: Receiver, handle: Handle, seen: Tally, ledger: Ledger)

  datatype Manager = Manager(limit: nat, active: int, reserved: set<Path>)

  datatype State = State(reqs: seq<Req>, managers: seq<Manager>, kernel: map<Path, nat>)

  datatype Action =
    // limiter and thread creation
    | Admit | RejectAtCap | Spawn | SpawnFails
    // acquisition
    | Begin | OpenFails | Opened | Reserve | ReserveRefused | Grant | KernelError | Contend
    | DropReservation | Report | Announce
    // worker
    | ReturnPermit | Settle | Notify | Wake | FinishDiscard
    // receiver
    | Poll(waker: Waker, willWake: bool) | CheckOrPark | Unpark | TimeOut | EmitTimedOut
    | Suppress | StartDrop | Leave | FinishDrop | Join
    // guard
    | Release | Unlock | Unreserve | EmitReleased

  /** The part of a step that touches shared state. */
  datatype Effect =
    | NoEffect
    | TakePermit | DropPermit
    | AddReservation | RemoveReservation
    | TakeKernel | DropKernel

  const NO_EVENTS := Tally(0, 0, 0, 0, 0, 0)
  const NO_RUNS := Ledger(0, 0, 0, 0, 0, 0)

  /** Before there is a waiter there is no callback. */
  const NO_HANDLE := Handle(false, false, 0)

  function NewReq(cfg: Config): Req {
    Req(cfg, Fresh, NoWorker, NewSlot(), NoReceiver, NO_HANDLE, NO_EVENTS, NO_RUNS)
  }

  predicate Direct(q: Req) {
    q.cfg.api == Blocking || q.cfg.api == Trying
  }

  // ----- the local part of a step

  predicate LocalEnabled(q: Req, a: Action) {
    match a
    case Admit => !Direct(q) && q.phase == Fresh && q.worker == NoWorker
    case RejectAtCap => !Direct(q) && q.phase == Fresh && q.worker == NoWorker
    case Spawn => q.worker == Spawning
    case SpawnFails => q.worker == Spawning
    case Begin => q.phase == Fresh && (Direct(q) || q.worker == Running)
    case OpenFails => q.phase == Opening
    case Opened => q.phase == Opening
    case Reserve => q.phase == Reserving
    case ReserveRefused => q.phase == Reserving && q.cfg.policy == Reject
    case Grant => q.phase == InKernel
    case KernelError => q.phase == InKernel
    case Contend => q.phase == InKernel && q.cfg.api == Trying
    case DropReservation => q.phase.Refused?
    case Report => q.phase.Reporting?
    case Announce => q.phase == Granted
    case ReturnPermit => q.worker == Running && (q.phase == Holding(InWorker) || q.phase.Ended?)
    case Settle => q.worker == Returned
    case Notify => q.worker.Committed?
    case Wake => q.worker.Waking?
    case FinishDiscard => q.worker == Discarding && q.phase.Ended?
    case Poll(w, ww) =>
      q.cfg.api == Waiter && q.receiver.Pending? && !q.receiver.parked && WillWakeSound(q.slot, w, ww)
    case CheckOrPark => q.receiver.Pending? && !q.receiver.parked
    case Unpark => q.receiver.Pending? && q.receiver.parked
    case TimeOut => q.cfg.api == Timed && q.receiver.Pending? && q.slot.result.None?
    case EmitTimedOut => q.receiver == Expired
    case Suppress => q.receiver == Announced
    case StartDrop =>
      (q.cfg.api == Waiter && q.receiver.Pending? && !q.receiver.parked) || q.receiver == Suppressed
    case Leave => q.receiver == Leaving
    case FinishDrop => q.receiver == Dropping && q.phase.Ended?
    case Join => q.receiver == Took && q.worker == Exited
    case Release => q.phase == Holding(InCaller)
    case Unlock => q.phase == Unlocking
    case Unreserve => q.phase == Unlocked
    case EmitReleased => q.phase == Unreserved
  }

  /** The guard moves with the result; an error result has no guard to move. */
  function Moved(p: Phase, to: Place): Phase {
    if p.Holding? then Holding(to) else p
  }

  function Dropped(p: Phase): Phase {
    if p.Holding? then Unlocking else p
  }

  function Taking(q: Req): Req {
    q.(slot := AfterTake(q.slot), phase := Moved(q.phase, InReceiver),
       receiver := Took, handle := AfterFinish(q.handle))
  }

  function LocalNext(q: Req, a: Action): Req
    requires LocalEnabled(q, a)
  {
    match a
    case Admit => q.(worker := Spawning)
    case RejectAtCap => q.(phase := Ended(Rejected))
    case Spawn =>
      q.(worker := Running, receiver := Pending(false, None, false), handle := NewHandle())
    case SpawnFails => q.(worker := NoWorker, phase := Ended(Rejected))
    case Begin =>
      q.(phase := Opening, ledger := q.ledger.(runs := q.ledger.runs + 1),
         seen := if q.cfg.api == Trying then q.seen
                 else q.seen.(waiting := q.seen.waiting + 1))
    case OpenFails =>
      q.(phase := if q.cfg.api == Trying then Ended(Silent) else Reporting(false))
    case Opened => q.(phase := Reserving)
    case Reserve =>
      q.(phase := InKernel, ledger := q.ledger.(calls := q.ledger.calls + 1))
    case ReserveRefused =>
      q.(phase := if q.cfg.api == Trying then Ended(Silent) else Reporting(false))
    case Grant => q.(phase := Granted)
    case KernelError => q.(phase := Refused(false))
    case Contend =>
      q.(phase := Refused(true), ledger := q.ledger.(contentions := q.ledger.contentions + 1))
    case DropReservation => q.(phase := Reporting(q.phase.contended))
    case Report =>
      q.(phase := Ended(Reported),
         seen := if q.phase.contended then q.seen.(contended := q.seen.contended + 1)
                 else q.seen.(failed := q.seen.failed + 1))
    case Announce =>
      q.(phase := Holding(if q.worker == Running then InWorker else InCaller),
         seen := q.seen.(acquired := q.seen.acquired + 1))
    case ReturnPermit => q.(worker := Returned)
    case Settle =>
      (match SettleWaiterCompletion(q.slot.receiverAlive)
       case PublishResult =>
         q.(slot := AfterSettle(q.slot, q.phase.Holding?), phase := Moved(q.phase, InSlot),
            worker := Committed(q.slot.waker))
       case ReleaseDetached =>
         q.(phase := Dropped(q.phase), worker := Discarding,
            ledger := q.ledger.(workerDrops := q.ledger.workerDrops + 1)))
    case Notify =>
      q.(worker := Waking(q.worker.toWake),
         receiver := if q.receiver.Pending? then q.receiver.(parked := false) else q.receiver)
    case Wake =>
      q.(worker := Exited,
         receiver := if q.receiver.Pending? && q.worker.toWake.Some?
                        && q.receiver.polled == Some(q.worker.toWake.value.task)
                     then q.receiver.(woken := true) else q.receiver)
    case FinishDiscard => q.(worker := Exited)
    case Poll(w, ww) =>
      if q.slot.result.Some? then Taking(q)
      else q.(slot := AfterPoll(q.slot, w, ww), receiver := Pending(false, Some(w.task), false))
    case CheckOrPark =>
      if q.slot.result.Some? then Taking(q)
      else q.(receiver := q.receiver.(parked := true))
    case Unpark => q.(receiver := q.receiver.(parked := false))
    case TimeOut => q.(receiver := Expired)
    case EmitTimedOut =>
      q.(receiver := Announced, seen := q.seen.(timedOut := q.seen.timedOut + 1))
    case Suppress => q.(receiver := Suppressed, handle := AfterSuppress(q.handle))
    case StartDrop => q.(receiver := Leaving, handle := AfterDropCallback(q.handle))
    case Leave =>
      if q.slot.result.Some?
      then q.(slot := AfterAbandon(q.slot), phase := Dropped(q.phase), receiver := Dropping,
              ledger := q.ledger.(receiverDrops := q.ledger.receiverDrops + 1))
      else q.(slot := AfterAbandon(q.slot), receiver := Gone)
    case FinishDrop => q.(receiver := Gone)
    case Join =>
      q.(phase := Moved(q.phase, InCaller), receiver := Delivered,
         ledger := q.ledger.(deliveries := q.ledger.deliveries + 1))
    case Release => q.(phase := Unlocking)
    case Unlock => q.(phase := Unlocked)
    case Unreserve => q.(phase := Unreserved)
    case EmitReleased =>
      q.(phase := Ended(Released), seen := q.seen.(released := q.seen.released + 1))
  }

  // ----- the shared part of a step

  function EffectOf(q: Req, a: Action): Effect {
    match a
    case Admit => TakePermit
    case SpawnFails => DropPermit
    case ReturnPermit => DropPermit
    case Reserve => if q.cfg.policy == Reject then AddReservation else NoEffect
    case DropReservation => if q.cfg.policy == Reject then RemoveReservation else NoEffect
    case Unreserve => if q.cfg.policy == Reject then RemoveReservation else NoEffect
    case Grant => TakeKernel
    case Unlock => DropKernel
    case _ => NoEffect
  }

  predicate Shaped(s: State) {
    forall i :: 0 <= i < |s.reqs| ==> s.reqs[i].cfg.mgr < |s.managers|
  }

  predicate SharedEnabled(s: State, q: Req, a: Action)
    requires q.cfg.mgr < |s.managers|
  {
    var m := s.managers[q.cfg.mgr];
    match a
    case Admit => m.active < m.limit
    case RejectAtCap => m.active >= m.limit
    case Reserve => q.cfg.policy == Reject ==> q.cfg.path !in m.reserved
    case ReserveRefused => q.cfg.path in m.reserved
    case Grant => q.cfg.path !in s.kernel
    case Contend => q.cfg.path in s.kernel
    case _ => true
  }

  function Perform(s: State, r: nat, e: Effect): State
    requires r < |s.reqs| && Shaped(s)
  {
    var cfg := s.reqs[r].cfg;
    var m := s.managers[cfg.mgr];
    match e
    case NoEffect => s
    case TakePermit => s.(managers := s.managers[cfg.mgr := m.(active := m.active + 1)])
    case DropPermit => s.(managers := s.managers[cfg.mgr := m.(active := m.active - 1)])
    case AddReservation =>
      s.(managers := s.managers[cfg.mgr := m.(reserved := m.reserved + {cfg.path})])
    case RemoveReservation =>
      s.(managers := s.managers[cfg.mgr := m.(reserved := m.reserved - {cfg.path})])
    case TakeKernel => s.(kernel := s.kernel[cfg.path := r])
    case DropKernel => s.(kernel := s.kernel - {cfg.path})
  }

  predicate Enabled(s: State, r: nat, a: Action) {
    Shaped(s) && r < |s.reqs| && LocalEnabled(s.reqs[r], a) && SharedEnabled(s, s.reqs[r], a)
  }

  function Next(s: State, r: nat, a: Action): State
    requires Enabled(s, r, a)
  {
    Perform(s, r, EffectOf(s.reqs[r], a)).(reqs := s.reqs[r := LocalNext(s.reqs[r], a)])
  }

  // ----- runs

  predicate Initial(s: State) {
    && Shaped(s)
    && s.kernel == map[]
    && (forall i :: 0 <= i < |s.reqs| ==> s.reqs[i] == NewReq(s.reqs[i].cfg))
    && (forall m :: 0 <= m < |s.managers| ==>
          s.managers[m].limit >= 1 && s.managers[m].active == 0 && s.managers[m].reserved == {})
  }

  predicate StepOf(s: State, r: nat, a: Action, t: State) {
    Enabled(s, r, a) && t == Next(s, r, a)
  }

  ghost predicate Stepped(s: State, t: State) {
    exists r: nat, a :: StepOf(s, r, a, t)
  }

  ghost predicate SteppedAt(states: seq<State>, k: nat) {
    k + 1 < |states| && Stepped(states[k], states[k + 1])
  }

  /** The states of a run: each follows from the one before by some step. */
  ghost predicate Run(states: seq<State>) {
    states != [] && forall k :: 0 <= k < |states| - 1 ==> SteppedAt(states, k)
  }

  ghost predicate Reachable(t: State) {
    exists states :: Run(states) && Initial(states[0]) && states[|states| - 1] == t
  }

  // ----- what a request has of each shared resource

  predicate HoldsPermit(q: Req) {
    q.worker == Spawning || q.worker == Running
  }

  /** The kernel lock belongs to this request's open descriptor. */
  predicate Owns(q: Req) {
    q.phase == Granted || q.phase.Holding? || q.phase == Unlocking
  }

  predicate HoldsReservation(q: Req) {
    q.cfg.policy == Reject &&
    (q.phase == InKernel || q.phase.Refused? || Owns(q) || q.phase == Unlocked)
  }

  /** A guard that exists and has not been taken by a release or drop. */
  predicate LiveGuard(q: Req) {
    q.phase.Holding?
  }
}
