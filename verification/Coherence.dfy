/** The inductive invariant of the protocol. `Coherent` relates the parts of one
    request; `Agrees` relates all requests to the kernel table, the reservation
    sets and the waiter counters. */
module ProtocolCoherence {
  import opened LockOrder
  import opened WaitSlots
  import opened WaiterProtocol

  // ----- one request

  /** The closure has returned this result and it is at this place. */
  predicate ResultAt(q: Req, granted: bool, place: Place) {
    q.phase == if granted then Holding(place) else Ended(Reported)
  }

  predicate Undecided(r: Receiver) {
    r.Pending? || r == Expired || r == Announced || r == Suppressed || r == Leaving
  }

  predicate Releasing(p: Phase) {
    p == Unlocking || p == Unlocked || p == Unreserved
  }

  predicate Acquiring(p: Phase) {
    p == Fresh || p == Opening || p == Reserving || p == InKernel || p.Refused? || p.Reporting?
    || p == Granted
  }

  /** After the worker published: the result is in the slot, in the receiver's
      hands, with the caller, or being dropped by the receiver. */
  predicate AfterPublication(q: Req) {
    match q.receiver
    case Pending(_, _, _) => q.slot.result.Some? && ResultAt(q, q.slot.result.value, InSlot)
    case Expired => q.slot.result.Some? && ResultAt(q, q.slot.result.value, InSlot)
    case Announced => q.slot.result.Some? && ResultAt(q, q.slot.result.value, InSlot)
    case Suppressed => q.slot.result.Some? && ResultAt(q, q.slot.result.value, InSlot)
    case Leaving => q.slot.result.Some? && ResultAt(q, q.slot.result.value, InSlot)
    case Took => q.slot.result.None? && (ResultAt(q, true, InReceiver) || ResultAt(q, false, InReceiver))
    case Delivered =>
      && q.worker == Exited && q.slot.result.None?
      && (q.phase == Holding(InCaller) || Releasing(q.phase)
          || q.phase == Ended(Released) || q.phase == Ended(Reported))
    case Dropping =>
      && q.slot.result.None?
      && (Releasing(q.phase) || q.phase == Ended(Released) || q.phase == Ended(Reported))
    case Gone => q.slot.result.None? && (q.phase == Ended(Released) || q.phase == Ended(Reported))
    case NoReceiver => false
  }

  predicate WorkerFits(q: Req) {
    match q.worker
    case NoWorker =>
      q.receiver == NoReceiver && q.slot == NewSlot() && (q.phase == Fresh || q.phase == Ended(Rejected))
    case Spawning => q.receiver == NoReceiver && q.slot == NewSlot() && q.phase == Fresh
    case Running =>
      && q.slot.result.None? && (Undecided(q.receiver) || q.receiver == Gone)
      && (Acquiring(q.phase) || q.phase == Holding(InWorker) || q.phase == Ended(Reported))
    case Returned =>
      && q.slot.result.None? && (Undecided(q.receiver) || q.receiver == Gone)
      && (q.phase == Holding(InWorker) || q.phase == Ended(Reported))
    case Committed(_) => AfterPublication(q)
    case Waking(_) => AfterPublication(q)
    case Discarding =>
      && q.slot.result.None? && q.receiver == Gone
      && (Releasing(q.phase) || q.phase == Ended(Released) || q.phase == Ended(Reported))
    case Exited => AfterPublication(q)
  }

  predicate DirectFits(q: Req) {
    && q.worker == NoWorker && q.receiver == NoReceiver && q.slot == NewSlot()
    && (q.phase.Holding? ==> q.phase.place == InCaller)
    && q.phase != Ended(Rejected)
  }

  predicate PhaseFits(q: Req) {
    && (q.phase.Refused? && q.phase.contended ==> q.cfg.api == Trying)
    && (q.phase.Reporting? && q.phase.contended ==> q.cfg.api == Trying)
    && (q.phase == Ended(Silent) ==> q.cfg.api == Trying)
  }

  predicate SlotFits(q: Req) {
    && (q.slot.receiverAlive <==> q.receiver != Dropping && q.receiver != Gone)
    && (q.receiver == Expired || q.receiver == Announced || q.receiver == Suppressed ==> q.cfg.api == Timed)
  }

  /** The callback is armed until the waiter completes, is suppressed or is dropped;
      it has run exactly when a drop met it armed. */
  predicate HandleFits(q: Req) {
    && (q.handle.onCancel ==> q.receiver.Pending? || q.receiver == Expired || q.receiver == Announced)
    && (q.receiver.Pending? ==> q.handle.onCancel)
    && (q.handle.completed <==> q.receiver == Took || q.receiver == Delivered)
    && q.handle.cancelEvents == One(Departed(q) && q.cfg.api == Waiter)
  }

  /** A parked thread is still to be notified; a waker of the last polling task is
      in the slot, in the worker's hands, or already used. */
  predicate WakeUpDue(q: Req) {
    q.receiver.Pending? ==>
      && (q.receiver.parked ==> q.worker == Running || q.worker == Returned || q.worker.Committed?)
      && (q.receiver.polled.Some? ==>
            var task := q.receiver.polled.value;
            match q.worker
            case Running => q.slot.waker.Some? && q.slot.waker.value.task == task
            case Returned => q.slot.waker.Some? && q.slot.waker.value.task == task
            case Committed(w) => w.Some? && w.value.task == task
            case Waking(w) => w.Some? && w.value.task == task
            case Exited => q.receiver.woken
            case _ => false)
  }

  function One(b: bool): nat { if b then 1 else 0 }

  /** The guard has been announced. */
  predicate GuardAnnounced(q: Req) {
    q.phase.Holding? || Releasing(q.phase) || q.phase == Ended(Released)
  }

  predicate Begun(q: Req) {
    q.phase != Fresh && q.phase != Ended(Rejected)
  }

  predicate Departed(q: Req) {
    q.receiver == Leaving || q.receiver == Dropping || q.receiver == Gone
  }

  predicate FailuresFit(q: Req) {
    && q.seen.failed == One(q.phase == Ended(Reported) && q.ledger.contentions == 0)
    && q.seen.contended == One(q.phase == Ended(Reported) && q.ledger.contentions > 0)
  }

  predicate TallyFits(q: Req) {
    && q.seen.waiting == One(Begun(q) && q.cfg.api != Trying)
    && q.seen.acquired == One(GuardAnnounced(q))
    && q.seen.released == One(q.phase == Ended(Released))
    && FailuresFit(q)
    && q.seen.timedOut == One((Departed(q) || q.receiver == Announced || q.receiver == Suppressed)
                              && q.cfg.api == Timed)
  }

  /** The phases that only a request which called the kernel gets to. */
  predicate CalledKernel(p: Phase) {
    p == InKernel || p.Refused? || p == Granted || p.Holding? || Releasing(p) || p == Ended(Released)
  }

  /** The phases before the kernel call, or without it. */
  predicate NotCalledKernel(p: Phase) {
    p == Fresh || p == Opening || p == Reserving || p == Ended(Rejected) || p == Ended(Silent)
  }

  predicate CallsFit(q: Req) {
    && q.ledger.calls <= 1
    && (CalledKernel(q.phase) ==> q.ledger.calls == 1)
    && (NotCalledKernel(q.phase) ==> q.ledger.calls == 0)
    && q.ledger.contentions <= q.ledger.calls
    && (q.ledger.contentions > 0 ==> q.cfg.api == Trying)
    && (CalledKernel(q.phase) && !q.phase.Refused? ==> q.ledger.contentions == 0)
    && (q.phase.Refused? ==> q.ledger.contentions == One(q.phase.contended))
    && (q.phase.Reporting? ==> q.ledger.contentions == One(q.phase.contended))
    && (q.cfg.api == Trying && (q.phase.Reporting? || q.phase == Ended(Reported)) ==> q.ledger.calls == 1)
  }

  predicate LedgerFits(q: Req) {
    && q.ledger.runs == One(Begun(q))
    && q.ledger.deliveries == One(q.receiver == Delivered)
    && (q.worker == Discarding ==> q.ledger.workerDrops == 1 && q.ledger.receiverDrops == 0)
    && (q.receiver == Dropping ==> q.ledger.workerDrops == 0 && q.ledger.receiverDrops == 1)
    && (q.receiver == Gone && q.worker != Running && q.worker != Returned ==>
          q.ledger.workerDrops + q.ledger.receiverDrops == 1)
    && (!Departed(q) || q.receiver == Leaving || q.worker == Running || q.worker == Returned ==>
          q.ledger.workerDrops == 0 && q.ledger.receiverDrops == 0)
  }

  predicate Coherent(q: Req) {
    PlacesFit(q) && HandleFits(q) && WakeUpDue(q) && TallyFits(q) && LedgerFits(q) && CallsFit(q)
  }

  lemma NewIsCoherent(cfg: Config)
    ensures Coherent(NewReq(cfg))
  {
  }

  /** Who takes the step: the thread in the acquisition call, the worker around
      that call, the receiver, or the owner of the guard. */
  datatype Actor = Acquirer | WorkerThread | ReceiverThread | GuardOwner

  function ActorOf(a: Action): Actor {
    match a
    case Begin | OpenFails | Opened | Reserve | ReserveRefused | Grant | KernelError | Contend
      | DropReservation | Report | Announce => Acquirer
    case Admit | RejectAtCap | Spawn | SpawnFails | ReturnPermit | Settle | Notify | Wake
      | FinishDiscard => WorkerThread
    case Poll(_, _) | CheckOrPark | Unpark | TimeOut | EmitTimedOut | Suppress | StartDrop | Leave
      | FinishDrop | Join => ReceiverThread
    case Release | Unlock | Unreserve | EmitReleased => GuardOwner
  }

  predicate PlacesFit(q: Req) {
    (if Direct(q) then DirectFits(q) else WorkerFits(q)) && PhaseFits(q) && SlotFits(q)
  }

  /** Every local step keeps a request coherent: first where its parts are, then
      what it has emitted and settled. */
  lemma AcquirerPlaces(q: Req, a: Action)
    requires PlacesFit(q) && LocalEnabled(q, a) && ActorOf(a) == Acquirer
    ensures PlacesFit(LocalNext(q, a))
  {
    assert !Direct(q) ==> q.worker == Running;
  }

  lemma WorkerPlaces(q: Req, a: Action)
    requires PlacesFit(q) && LocalEnabled(q, a) && ActorOf(a) == WorkerThread
    ensures PlacesFit(LocalNext(q, a))
  {
  }

  lemma ReceiverPlaces(q: Req, a: Action)
    requires PlacesFit(q) && LocalEnabled(q, a) && ActorOf(a) == ReceiverThread
    ensures PlacesFit(LocalNext(q, a))
  {
    assert !Direct(q);
  }

  lemma GuardPlaces(q: Req, a: Action)
    requires PlacesFit(q) && LocalEnabled(q, a) && ActorOf(a) == GuardOwner
    ensures PlacesFit(LocalNext(q, a))
  {
  }

  lemma LocalPlaces(q: Req, a: Action)
    requires PlacesFit(q) && LocalEnabled(q, a)
    ensures PlacesFit(LocalNext(q, a))
  {
    match ActorOf(a)
    case Acquirer => AcquirerPlaces(q, a);
    case WorkerThread => WorkerPlaces(q, a);
    case ReceiverThread => ReceiverPlaces(q, a);
    case GuardOwner => GuardPlaces(q, a);
  }

  lemma LocalWakeUp(q: Req, a: Action)
    requires Coherent(q) && LocalEnabled(q, a)
    ensures WakeUpDue(LocalNext(q, a))
  {
    if q.receiver.Pending? || a == Spawn {
      assert WorkerFits(q);
    }
  }

  lemma LocalTally(q: Req, a: Action)
    requires PlacesFit(q) && CallsFit(q) && TallyFits(q) && LocalEnabled(q, a)
    ensures TallyFits(LocalNext(q, a))
  {
    match ActorOf(a)
    case Acquirer => AcquirerTally(q, a);
    case WorkerThread =>
      SpawnIsFirst(q);
      WorkerTally(q, a);
    case ReceiverThread => ReceiverTally(q, a);
    case GuardOwner => GuardTally(q, a);
  }

  lemma AcquirerTally(q: Req, a: Action)
    requires CallsFit(q) && TallyFits(q) && LocalEnabled(q, a) && ActorOf(a) == Acquirer
    ensures TallyFits(LocalNext(q, a))
  {
    AcquirerFailures(q, a);
  }

  lemma AcquirerFailures(q: Req, a: Action)
    requires CallsFit(q) && FailuresFit(q) && LocalEnabled(q, a) && ActorOf(a) == Acquirer
    ensures FailuresFit(LocalNext(q, a))
  {
  }

  lemma SpawnIsFirst(q: Req)
    requires PlacesFit(q)
    ensures q.worker == Spawning ==> q.phase == Fresh && q.receiver == NoReceiver
  {
    assert !Direct(q) ==> WorkerFits(q);
  }

  lemma WorkerTally(q: Req, a: Action)
    requires TallyFits(q) && LocalEnabled(q, a) && ActorOf(a) == WorkerThread
    requires q.worker == Spawning ==> q.phase == Fresh && q.receiver == NoReceiver
    ensures TallyFits(LocalNext(q, a))
  {
  }

  lemma GuardTally(q: Req, a: Action)
    requires TallyFits(q) && LocalEnabled(q, a) && ActorOf(a) == GuardOwner
    ensures TallyFits(LocalNext(q, a))
  {
  }

  lemma ReceiverTally(q: Req, a: Action)
    requires SlotFits(q) && TallyFits(q) && LocalEnabled(q, a) && ActorOf(a) == ReceiverThread
    ensures TallyFits(LocalNext(q, a))
  {
  }

  /** What disarms the callback: completion, suppression, and the drop itself. */
  lemma LocalHandle(q: Req, a: Action)
    requires PlacesFit(q) && HandleFits(q) && LocalEnabled(q, a)
    ensures HandleFits(LocalNext(q, a))
  {
    if Direct(q) {
      assert DirectFits(q);
    } else {
      assert WorkerFits(q);
    }
  }

  lemma LocalLedger(q: Req, a: Action)
    requires PlacesFit(q) && LedgerFits(q) && LocalEnabled(q, a)
    ensures LedgerFits(LocalNext(q, a))
  {
    if Direct(q) {
      assert DirectFits(q);
    } else {
      assert WorkerFits(q);
    }
  }

  lemma LocalCalls(q: Req, a: Action)
    requires PlacesFit(q) && CallsFit(q) && LocalEnabled(q, a)
    ensures CallsFit(LocalNext(q, a))
  {
    match ActorOf(a)
    case Acquirer => AcquirerCalls(q, a);
    case WorkerThread => OtherCalls(q, a);
    case ReceiverThread => OtherCalls(q, a);
    case GuardOwner => OtherCalls(q, a);
  }

  lemma AcquirerCalls(q: Req, a: Action)
    requires CallsFit(q) && LocalEnabled(q, a) && ActorOf(a) == Acquirer
    ensures CallsFit(LocalNext(q, a))
  {
  }

  lemma OtherCalls(q: Req, a: Action)
    requires PlacesFit(q) && CallsFit(q) && LocalEnabled(q, a) && ActorOf(a) != Acquirer
    ensures CallsFit(LocalNext(q, a))
  {
    if Direct(q) {
      assert DirectFits(q);
    } else {
      assert WorkerFits(q);
    }
  }

  lemma LocalStep(q: Req, a: Action)
    requires Coherent(q) && LocalEnabled(q, a)
    ensures Coherent(LocalNext(q, a))
  {
    LocalPlaces(q, a);
    LocalHandle(q, a);
    LocalWakeUp(q, a);
    LocalTally(q, a);
    LocalLedger(q, a);
    LocalCalls(q, a);
  }

  /** What each effect says about the request before and after. */
  predicate Changes(q: Req, e: Effect, n: Req) {
    && n.cfg == q.cfg
    && (match e
        case TakePermit => !HoldsPermit(q) && HoldsPermit(n)
        case DropPermit => HoldsPermit(q) && !HoldsPermit(n)
        case _ => HoldsPermit(n) <==> HoldsPermit(q))
    && (match e
        case TakeKernel => !Owns(q) && Owns(n)
        case DropKernel => Owns(q) && !Owns(n)
        case _ => Owns(n) <==> Owns(q))
    && (match e
        case AddReservation => !HoldsReservation(q) && HoldsReservation(n)
        case RemoveReservation => HoldsReservation(q) && !HoldsReservation(n)
        case _ => HoldsReservation(n) <==> HoldsReservation(q))
  }

  /** The declared effect is exactly the change in what the request has. */
  lemma LocalEffect(q: Req, a: Action)
    requires PlacesFit(q) && LocalEnabled(q, a)
    ensures Changes(q, EffectOf(q, a), LocalNext(q, a))
  {
    if Direct(q) {
      assert DirectFits(q);
    } else {
      assert WorkerFits(q);
    }
  }

  // ----- sums over requests

  function Sum(f: Req -> nat, reqs: seq<Req>): nat {
    if reqs == [] then 0 else f(reqs[0]) + Sum(f, reqs[1..])
  }

  lemma {:induction false} SumUpdate(f: Req -> nat, reqs: seq<Req>, r: nat, q: Req)
    requires r < |reqs|
    ensures Sum(f, reqs[r := q]) + f(reqs[r]) == Sum(f, reqs) + f(q)
  {
    if r == 0 {
      assert reqs[r := q][1..] == reqs[1..];
    } else {
      SumUpdate(f, reqs[1..], r - 1, q);
      assert reqs[r := q][1..] == reqs[1..][r - 1 := q];
    }
  }

  lemma {:induction false} SumZero(f: Req -> nat, reqs: seq<Req>)
    ensures Sum(f, reqs) == 0 <==> forall i :: 0 <= i < |reqs| ==> f(reqs[i]) == 0
  {
    if reqs != [] {
      SumZero(f, reqs[1..]);
      assert forall i :: 0 < i < |reqs| ==> reqs[i] == reqs[1..][i - 1];
      assert forall i :: 0 <= i < |reqs| - 1 ==> reqs[1..][i] == reqs[i + 1];
    }
  }

  function Permit(mgr: nat): Req -> nat {
    (q: Req) => One(q.cfg.mgr == mgr && HoldsPermit(q))
  }

  // ----- all requests and the shared state

  ghost predicate KernelAgrees(s: State) {
    && (forall p :: p in s.kernel ==>
          s.kernel[p] < |s.reqs| && Owns(s.reqs[s.kernel[p]]) && s.reqs[s.kernel[p]].cfg.path == p)
    && (forall i :: 0 <= i < |s.reqs| && Owns(s.reqs[i]) ==>
          s.reqs[i].cfg.path in s.kernel && s.kernel[s.reqs[i].cfg.path] == i)
  }

  ghost predicate Reserver(s: State, i: nat, mgr: nat, p: Path) {
    i < |s.reqs| && HoldsReservation(s.reqs[i]) && s.reqs[i].cfg.mgr == mgr && s.reqs[i].cfg.path == p
  }

  ghost predicate ReservationsAgree(s: State) {
    && (forall mgr, p :: 0 <= mgr < |s.managers| ==>
          (p in s.managers[mgr].reserved <==> exists i :: Reserver(s, i, mgr, p)))
    && (forall i, j, mgr, p :: Reserver(s, i, mgr, p) && Reserver(s, j, mgr, p) ==> i == j)
  }

  ghost predicate PermitsAgree(s: State) {
    forall m :: 0 <= m < |s.managers| ==>
      && s.managers[m].active == Sum(Permit(m), s.reqs)
      && s.managers[m].active <= s.managers[m].limit
      && s.managers[m].limit >= 1
  }

  ghost predicate AllCoherent(s: State) {
    forall i :: 0 <= i < |s.reqs| ==> Coherent(s.reqs[i])
  }

  ghost predicate Invariant(s: State) {
    Shaped(s) && AllCoherent(s) && KernelAgrees(s) && ReservationsAgree(s) && PermitsAgree(s)
  }

  lemma InitialInvariant(s: State)
    requires Initial(s)
    ensures Invariant(s)
  {
    forall i | 0 <= i < |s.reqs| ensures Coherent(s.reqs[i]) {
      NewIsCoherent(s.reqs[i].cfg);
    }
    forall m | 0 <= m < |s.managers| ensures Sum(Permit(m), s.reqs) == 0 {
      SumZero(Permit(m), s.reqs);
    }
  }

  /** The shared table permits the effect. */
  predicate Permitted(s: State, r: nat, e: Effect)
    requires Shaped(s) && r < |s.reqs|
  {
    var cfg := s.reqs[r].cfg;
    match e
    case TakePermit => s.managers[cfg.mgr].active < s.managers[cfg.mgr].limit
    case AddReservation => cfg.path !in s.managers[cfg.mgr].reserved
    case TakeKernel => cfg.path !in s.kernel
    case _ => true
  }

  function Replaced(s: State, r: nat, e: Effect, n: Req): State
    requires Shaped(s) && r < |s.reqs|
  {
    Perform(s, r, e).(reqs := s.reqs[r := n])
  }

  lemma KernelStep(s: State, r: nat, e: Effect, n: Req)
    requires Shaped(s) && r < |s.reqs| && Permitted(s, r, e) && Changes(s.reqs[r], e, n)
    requires KernelAgrees(s)
    ensures KernelAgrees(Replaced(s, r, e, n))
  {
  }

  lemma ReservationStep(s: State, r: nat, e: Effect, n: Req)
    requires Shaped(s) && r < |s.reqs| && Permitted(s, r, e) && Changes(s.reqs[r], e, n)
    requires ReservationsAgree(s)
    ensures ReservationsAgree(Replaced(s, r, e, n))
  {
    var q := s.reqs[r];
    var t := Replaced(s, r, e, n);
    assert forall i, mgr, p {:trigger Reserver(t, i, mgr, p)} :: i != r ==>
             (Reserver(t, i, mgr, p) <==> Reserver(s, i, mgr, p));
    forall mgr, p | 0 <= mgr < |t.managers|
      ensures p in t.managers[mgr].reserved <==> exists i :: Reserver(t, i, mgr, p)
    {
      var mine := mgr == q.cfg.mgr && p == q.cfg.path;
      if mine && e == AddReservation {
        assert Reserver(t, r, mgr, p);
      } else if mine && e == RemoveReservation {
        assert Reserver(s, r, mgr, p);
      } else {
        assert Reserver(t, r, mgr, p) <==> Reserver(s, r, mgr, p);
        assert p in t.managers[mgr].reserved <==> p in s.managers[mgr].reserved;
        if exists i :: Reserver(s, i, mgr, p) {
          var i :| Reserver(s, i, mgr, p);
          assert Reserver(t, i, mgr, p);
        }
      }
    }
    forall i, j, mgr, p | Reserver(t, i, mgr, p) && Reserver(t, j, mgr, p)
      ensures i == j
    {
      if e == AddReservation && mgr == q.cfg.mgr && p == q.cfg.path {
        assert !exists k :: Reserver(s, k, mgr, p);
      } else {
        assert Reserver(s, i, mgr, p) && Reserver(s, j, mgr, p);
      }
    }
  }

  lemma PermitStep(s: State, r: nat, e: Effect, n: Req)
    requires Shaped(s) && r < |s.reqs| && Permitted(s, r, e) && Changes(s.reqs[r], e, n)
    requires PermitsAgree(s)
    ensures PermitsAgree(Replaced(s, r, e, n))
  {
    forall m | 0 <= m < |s.managers|
      ensures Sum(Permit(m), s.reqs[r := n]) + Permit(m)(s.reqs[r])
              == Sum(Permit(m), s.reqs) + Permit(m)(n)
    {
      SumUpdate(Permit(m), s.reqs, r, n);
    }
  }

  lemma StepInvariant(s: State, r: nat, a: Action)
    requires Invariant(s) && Enabled(s, r, a)
    ensures Invariant(Next(s, r, a))
  {
    var e, n := EffectOf(s.reqs[r], a), LocalNext(s.reqs[r], a);
    LocalStep(s.reqs[r], a);
    LocalEffect(s.reqs[r], a);
    assert Next(s, r, a) == Replaced(s, r, e, n);
    KernelStep(s, r, e, n);
    ReservationStep(s, r, e, n);
    PermitStep(s, r, e, n);
  }

  lemma SteppedInvariant(s: State, t: State)
    requires Invariant(s) && Stepped(s, t)
    ensures Invariant(t)
  {
    var r: nat, a :| StepOf(s, r, a, t);
    StepInvariant(s, r, a);
  }

  /** Every run, of any length and over any number of requests, keeps it. */
  lemma {:induction false} RunInvariant(states: seq<State>, k: nat)
    requires Run(states) && Initial(states[0]) && k < |states|
    ensures Invariant(states[k])
  {
    if k == 0 {
      InitialInvariant(states[0]);
    } else {
      RunInvariant(states, k - 1);
      assert SteppedAt(states, k - 1);
      SteppedInvariant(states[k - 1], states[k]);
    }
  }

  lemma ReachableInvariant(t: State)
    requires Reachable(t)
    ensures Invariant(t)
  {
    var states :| Run(states) && Initial(states[0]) && states[|states| - 1] == t;
    RunInvariant(states, |states| - 1);
  }

  lemma ReachableStepped(s: State, t: State)
    requires Reachable(s) && Stepped(s, t)
    ensures Reachable(t)
  {
    var states :| Run(states) && Initial(states[0]) && states[|states| - 1] == s;
    var longer := states + [t];
    forall k | 0 <= k < |longer| - 1
      ensures SteppedAt(longer, k)
    {
      assert k < |states| - 1 ==> SteppedAt(states, k);
    }
    assert Run(longer) && longer[0] == states[0];
  }
}
