/** Draining: when nothing new starts, every step of a worker, guard or departing
    receiver lowers a measure, and the protocol can only stop when everything has
    been given back. */
module ProtocolDrain {
  import opened LockOrder
  import opened WaitSlots
  import opened WaiterProtocol
  import opened ProtocolCoherence

  /** Starting a request. */
  predicate Starts(q: Req, a: Action) {
    a == Admit || a == RejectAtCap || (a == Begin && Direct(q))
  }

  /** Waiting without a result: a pending poll, parking, a spurious wake-up. */
  predicate Idles(q: Req, a: Action) {
    || (a.Poll? && q.slot.result.None?)
    || (a == CheckOrPark && q.slot.result.None?)
    || a == Unpark
  }

  predicate Progresses(q: Req, a: Action) {
    !Starts(q, a) && !Idles(q, a)
  }

  /** Steps that only the environment's failures take. */
  predicate IsFault(a: Action) {
    a == SpawnFails || a == OpenFails || a == KernelError
  }

  function PhaseRank(p: Phase): nat {
    match p
    case Fresh => 14
    case Opening => 13
    case Reserving => 12
    case InKernel => 11
    case Refused(_) => 10
    case Reporting(_) => 9
    case Granted => 10
    case Holding(InWorker) => 9
    case Holding(InSlot) => 8
    case Holding(InReceiver) => 7
    case Holding(InCaller) => 6
    case Unlocking => 5
    case Unlocked => 4
    case Unreserved => 3
    case Ended(_) => 0
  }

  function WorkerRank(w: Worker): nat {
    match w
    case Spawning => 7
    case Running => 6
    case Returned => 5
    case Committed(_) => 4
    case Waking(_) => 3
    case Discarding => 2
    case Exited => 1
    case NoWorker => 0
  }

  function ReceiverRank(r: Receiver): nat {
    match r
    case NoReceiver => 11
    case Pending(_, _, _) => 10
    case Expired => 9
    case Announced => 8
    case Suppressed => 7
    case Leaving => 6
    case Took => 5
    case Dropping => 4
    case Delivered => 0
    case Gone => 0
  }

  function ReqRank(): Req -> nat {
    (q: Req) => PhaseRank(q.phase) + WorkerRank(q.worker) + ReceiverRank(q.receiver)
  }

  function Measure(s: State): nat {
    Sum(ReqRank(), s.reqs)
  }

  lemma LocalDecrease(q: Req, a: Action)
    requires PlacesFit(q) && LocalEnabled(q, a) && Progresses(q, a)
    ensures ReqRank()(LocalNext(q, a)) < ReqRank()(q)
  {
    match ActorOf(a)
    case Acquirer => AcquirerDecrease(q, a);
    case WorkerThread => WorkerDecrease(q, a);
    case ReceiverThread => ReceiverDecrease(q, a);
    case GuardOwner => GuardDecrease(q, a);
  }

  lemma GuardDecrease(q: Req, a: Action)
    requires LocalEnabled(q, a) && ActorOf(a) == GuardOwner
    ensures ReqRank()(LocalNext(q, a)) < ReqRank()(q)
  {
  }

  lemma AcquirerDecrease(q: Req, a: Action)
    requires PlacesFit(q) && LocalEnabled(q, a) && Progresses(q, a) && ActorOf(a) == Acquirer
    ensures ReqRank()(LocalNext(q, a)) < ReqRank()(q)
  {
    assert !Direct(q) ==> q.worker == Running;
  }

  lemma WorkerDecrease(q: Req, a: Action)
    requires PlacesFit(q) && LocalEnabled(q, a) && Progresses(q, a) && ActorOf(a) == WorkerThread
    ensures ReqRank()(LocalNext(q, a)) < ReqRank()(q)
  {
    assert !Direct(q) ==> WorkerFits(q);
  }

  lemma ReceiverDecrease(q: Req, a: Action)
    requires PlacesFit(q) && LocalEnabled(q, a) && Progresses(q, a) && ActorOf(a) == ReceiverThread
    ensures ReqRank()(LocalNext(q, a)) < ReqRank()(q)
  {
    assert !Direct(q) && WorkerFits(q);
  }

  /** Every progress step of any request lowers the measure of the whole state. */
  lemma ProgressDecreases(s: State, r: nat, a: Action)
    requires Invariant(s) && Enabled(s, r, a) && Progresses(s.reqs[r], a)
    ensures Measure(Next(s, r, a)) < Measure(s)
  {
    assert Coherent(s.reqs[r]);
    LocalDecrease(s.reqs[r], a);
    SumUpdate(ReqRank(), s.reqs, r, LocalNext(s.reqs[r], a));
  }

  ghost predicate Advanced(s: State, t: State) {
    exists r: nat, a :: StepOf(s, r, a, t) && Progresses(s.reqs[r], a)
  }

  ghost predicate AdvancedAt(states: seq<State>, k: nat) {
    k + 1 < |states| && Advanced(states[k], states[k + 1])
  }

  /** A step that starts nothing: progress, or waiting without a result. */
  ghost predicate Continued(s: State, t: State) {
    exists r: nat, a :: StepOf(s, r, a, t) && !Starts(s.reqs[r], a)
  }

  ghost predicate ContinuedAt(states: seq<State>, k: nat) {
    k + 1 < |states| && Continued(states[k], states[k + 1])
  }

  /** A run without new requests. */
  ghost predicate QuietRun(states: seq<State>) {
    states != [] && forall k :: 0 <= k < |states| - 1 ==> ContinuedAt(states, k)
  }

  /** How many of the first n steps are progress. */
  ghost function ProgressIn(states: seq<State>, n: nat): nat {
    if n == 0 then 0 else ProgressIn(states, n - 1) + One(AdvancedAt(states, n - 1))
  }

  lemma AdvancedDecreases(s: State, t: State)
    requires Invariant(s) && Advanced(s, t)
    ensures Measure(t) < Measure(s)
  {
    var r: nat, a :| StepOf(s, r, a, t) && Progresses(s.reqs[r], a);
    ProgressDecreases(s, r, a);
  }

  /** Pending polls, parking and spurious wake-ups leave the measure alone. */
  lemma IdlingKeeps(s: State, r: nat, a: Action)
    requires Shaped(s) && Enabled(s, r, a) && Idles(s.reqs[r], a)
    ensures Measure(Next(s, r, a)) == Measure(s)
  {
    SumUpdate(ReqRank(), s.reqs, r, LocalNext(s.reqs[r], a));
  }

  lemma ContinuedKeeps(s: State, t: State)
    requires Invariant(s) && Continued(s, t)
    ensures Stepped(s, t) && Measure(t) + One(Advanced(s, t)) <= Measure(s)
  {
    var r: nat, a :| StepOf(s, r, a, t) && !Starts(s.reqs[r], a);
    if Advanced(s, t) {
      AdvancedDecreases(s, t);
    } else {
      assert !Progresses(s.reqs[r], a);
      IdlingKeeps(s, r, a);
    }
  }

  lemma ReachableContinues(s: State, t: State)
    requires Reachable(s) && Continued(s, t)
    ensures Reachable(t) && Measure(t) + One(Advanced(s, t)) <= Measure(s)
  {
    ReachableInvariant(s);
    ContinuedKeeps(s, t);
    ReachableStepped(s, t);
  }

  /** In a run without new requests, progress is paid for out of the measure: however
      long the run idles, it makes no more progress steps than the measure lost. */
  lemma {:induction false} DrainIsBounded(states: seq<State>, k: nat)
    requires QuietRun(states) && Reachable(states[0]) && k < |states|
    ensures ProgressIn(states, k) + Measure(states[k]) <= Measure(states[0])
    ensures Reachable(states[k])
  {
    if k > 0 {
      DrainIsBounded(states, k - 1);
      assert ContinuedAt(states, k - 1);
      ReachableContinues(states[k - 1], states[k]);
    }
  }

  ghost predicate CanProgress(s: State, i: nat) {
    i < |s.reqs| && exists a :: Enabled(s, i, a) && Progresses(s.reqs[i], a) && !IsFault(a)
  }

  ghost predicate Clean(s: State) {
    && s.kernel == map[]
    && (forall m :: 0 <= m < |s.managers| ==>
          s.managers[m].reserved == {} && s.managers[m].active == 0)
    && (forall i :: 0 <= i < |s.reqs| ==> s.reqs[i].slot.result.None?)
  }

  ghost predicate Stuck(s: State) {
    forall j :: !CanProgress(s, j)
  }

  /** The request never started, or its threads are done with it and its result is
      settled. */
  predicate Finished(q: Req) {
    && (q.phase == Fresh || q.phase.Ended?)
    && (q.worker == NoWorker
        || (q.worker == Exited && (q.receiver == Delivered || q.receiver == Gone)))
  }

  /** A step that a request waiting for nobody else can take. */
  lemma OwnStep(s: State, i: nat) returns (a: Action)
    requires Shaped(s) && i < |s.reqs| && Coherent(s.reqs[i]) && !Finished(s.reqs[i])
    requires s.reqs[i].phase == InKernel ==> s.reqs[i].cfg.path !in s.kernel
    ensures Enabled(s, i, a) && Progresses(s.reqs[i], a) && !IsFault(a)
  {
    var q := s.reqs[i];
    if Direct(q) {
      a := DirectStep(s, i);
    } else {
      a := WaiterStep(s, i);
    }
  }

  lemma DirectStep(s: State, i: nat) returns (a: Action)
    requires Shaped(s) && i < |s.reqs| && PlacesFit(s.reqs[i]) && Direct(s.reqs[i]) && !Finished(s.reqs[i])
    requires s.reqs[i].phase == InKernel ==> s.reqs[i].cfg.path !in s.kernel
    ensures Enabled(s, i, a) && Progresses(s.reqs[i], a) && !IsFault(a)
  {
    var q := s.reqs[i];
    assert DirectFits(q);
    if q.phase == Holding(InCaller) || Releasing(q.phase) {
      a := GuardStep(s, i);
    } else {
      a := AcquisitionStep(s, i);
    }
  }

  lemma WaiterStep(s: State, i: nat) returns (a: Action)
    requires Shaped(s) && i < |s.reqs| && Coherent(s.reqs[i]) && !Direct(s.reqs[i]) && !Finished(s.reqs[i])
    requires s.reqs[i].phase == InKernel ==> s.reqs[i].cfg.path !in s.kernel
    ensures Enabled(s, i, a) && Progresses(s.reqs[i], a) && !IsFault(a)
  {
    var q := s.reqs[i];
    assert WorkerFits(q);
    match q.worker
    case NoWorker => assert false; a := Admit;
    case Spawning => a := Spawn;
    case Running =>
      if Acquiring(q.phase) {
        a := AcquisitionStep(s, i);
      } else {
        a := ReturnPermit;
      }
    case Returned => a := Settle;
    case Committed(_) => a := Notify;
    case Waking(_) => a := Wake;
    case Discarding => a := GuardStep(s, i);
    case Exited => a := ReceiverStep(s, i);
  }

  lemma AcquisitionStep(s: State, i: nat) returns (a: Action)
    requires Shaped(s) && i < |s.reqs| && PlacesFit(s.reqs[i]) && Acquiring(s.reqs[i].phase)
    requires s.reqs[i].worker == Running || (Direct(s.reqs[i]) && s.reqs[i].phase != Fresh)
    requires s.reqs[i].phase == InKernel ==> s.reqs[i].cfg.path !in s.kernel
    ensures Enabled(s, i, a) && Progresses(s.reqs[i], a) && !IsFault(a)
  {
    var q := s.reqs[i];
    match q.phase
    case Fresh => a := Begin;
    case Opening => a := Opened;
    case Reserving =>
      a := if q.cfg.policy == Reject && q.cfg.path in s.managers[q.cfg.mgr].reserved
           then ReserveRefused else Reserve;
    case InKernel => a := Grant;
    case Refused(_) => a := DropReservation;
    case Reporting(_) => a := Report;
    case Granted => a := Announce;
  }

  lemma GuardStep(s: State, i: nat) returns (a: Action)
    requires Shaped(s) && i < |s.reqs| && PlacesFit(s.reqs[i])
    requires s.reqs[i].worker == Discarding || s.reqs[i].receiver == Dropping
             || s.reqs[i].phase == Holding(InCaller) || Releasing(s.reqs[i].phase)
    ensures Enabled(s, i, a) && Progresses(s.reqs[i], a) && !IsFault(a)
  {
    a := ReleaseStep(s.reqs[i]);
  }

  /** The next step of a release or drop; it asks nothing of the shared state. */
  lemma ReleaseStep(q: Req) returns (a: Action)
    requires PlacesFit(q)
    requires q.worker == Discarding || q.receiver == Dropping
             || q.phase == Holding(InCaller) || Releasing(q.phase)
    ensures a in [Release, Unlock, Unreserve, EmitReleased, FinishDiscard, FinishDrop] && LocalEnabled(q, a)
  {
    match q.phase
    case Holding(InCaller) => a := Release;
    case Unlocking => a := Unlock;
    case Unlocked => a := Unreserve;
    case Unreserved => a := EmitReleased;
    case _ =>
      DropIsOver(q);
      a := if q.worker == Discarding then FinishDiscard else FinishDrop;
  }

  lemma DropIsOver(q: Req)
    requires PlacesFit(q) && (q.worker == Discarding || q.receiver == Dropping) && !Releasing(q.phase)
    ensures q.phase.Ended?
  {
    if !Direct(q) {
      assert WorkerFits(q);
    }
  }

  lemma ReceiverStep(s: State, i: nat) returns (a: Action)
    requires Shaped(s) && i < |s.reqs| && PlacesFit(s.reqs[i]) && !Direct(s.reqs[i])
    requires s.reqs[i].worker == Exited && !Finished(s.reqs[i]) && WakeUpDue(s.reqs[i])
    ensures Enabled(s, i, a) && Progresses(s.reqs[i], a) && !IsFault(a)
  {
    var q := s.reqs[i];
    assert WorkerFits(q);
    match q.receiver
    case Pending(_, _, _) => a := CheckOrPark;
    case Expired => a := EmitTimedOut;
    case Announced => a := Suppress;
    case Suppressed => a := StartDrop;
    case Leaving => a := Leave;
    case Took => a := Join;
    case Delivered => a := GuardStep(s, i);
    case Dropping => a := GuardStep(s, i);
    case Gone => assert false; a := Unlock;
  }

  /** While any request is unfinished, some request can take a step that is neither a
      fault nor idling: a blocked one is blocked by an owner that can. */
  lemma SomeoneCanProgress(s: State, i: nat)
    requires Invariant(s) && i < |s.reqs| && !Finished(s.reqs[i])
    ensures exists j :: CanProgress(s, j)
  {
    var q := s.reqs[i];
    var j := if q.phase == InKernel && q.cfg.path in s.kernel then s.kernel[q.cfg.path] else i;
    OwnerIsUnfinished(s.reqs[j]);
    var a := OwnStep(s, j);
    assert CanProgress(s, j);
  }

  lemma OwnerIsUnfinished(q: Req)
    ensures Owns(q) ==> !Finished(q) && q.phase != InKernel
  {
  }

  /** A state in which no such step is left owns nothing, reserves nothing, stores
      no result and counts no active waiter. */
  lemma DrainedIsClean(s: State)
    requires Invariant(s)
    requires Stuck(s)
    ensures Clean(s) && forall i :: 0 <= i < |s.reqs| ==> Finished(s.reqs[i])
  {
    forall i | 0 <= i < |s.reqs|
      ensures Finished(s.reqs[i]) && s.reqs[i].slot.result.None?
      ensures !Owns(s.reqs[i]) && !HoldsPermit(s.reqs[i]) && !HoldsReservation(s.reqs[i])
    {
      if !Finished(s.reqs[i]) {
        SomeoneCanProgress(s, i);
      }
      assert Coherent(s.reqs[i]);
      FinishedIsEmpty(s.reqs[i]);
    }
    assert forall p :: p !in s.kernel;
    forall m | 0 <= m < |s.managers|
      ensures s.managers[m].reserved == {} && s.managers[m].active == 0
    {
      SumZero(Permit(m), s.reqs);
      assert forall i, p :: !Reserver(s, i, m, p);
    }
  }

  lemma FinishedIsEmpty(q: Req)
    requires PlacesFit(q) && Finished(q)
    ensures q.slot.result.None? && !Owns(q) && !HoldsPermit(q) && !HoldsReservation(q)
  {
    if Direct(q) {
      assert DirectFits(q);
    } else {
      assert WorkerFits(q);
    }
  }

  /** From every reachable state: any run without new requests
      makes a bounded number of progress steps, and wherever no more can be made the
      state is clean. */
  lemma Drain(states: seq<State>)
    requires QuietRun(states) && Reachable(states[0])
    ensures ProgressIn(states, |states| - 1) <= Measure(states[0])
    ensures Stuck(states[|states| - 1]) ==> Clean(states[|states| - 1])
  {
    DrainIsBounded(states, |states| - 1);
    if Stuck(states[|states| - 1]) {
      ReachableInvariant(states[|states| - 1]);
      DrainedIsClean(states[|states| - 1]);
    }
  }
}
