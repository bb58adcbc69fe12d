/** What the protocol guarantees in every reachable state, for any number of
    requests, managers, locks and interleavings. */
module ProtocolGuarantees {
  import opened LockOrder
  import opened WaitSlots
  import opened WaiterProtocol
  import opened ProtocolCoherence

  // ----- exclusivity

  predicate Owner(t: State, i: nat, p: Path) {
    i < |t.reqs| && Owns(t.reqs[i]) && t.reqs[i].cfg.path == p
  }

  /** The places where a waiter's lock can be, counted: inside the acquisition or
      returned by it, stored, with the receiver, and dropped by either side. */
  function Hands(q: Req): nat {
    One(q.worker == Running || q.worker == Returned) + One(q.slot.result == Some(true))
    + One(q.receiver == Took || q.receiver == Delivered)
    + One(q.worker == Discarding) + One(q.receiver == Dropping)
  }

  /** The kernel owns a path exactly when one request has an open, locked file for
      it; and if that is a waiter request, exactly one of worker, slot, receiver and
      the two drops has it. */
  lemma GlobalExclusivity(t: State, p: Path)
    requires Reachable(t)
    ensures p in t.kernel <==> exists i :: Owner(t, i, p)
    ensures forall i, j :: Owner(t, i, p) && Owner(t, j, p) ==> i == j
    ensures forall i: nat :: Owner(t, i, p) ==>
              p in t.kernel && t.kernel[p] == i && Hands(t.reqs[i]) == One(!Direct(t.reqs[i]))
  {
    ReachableInvariant(t);
    ExclusiveAt(t, p);
    OwnersHaveOneHand(t, p);
  }

  lemma ExclusiveAt(t: State, p: Path)
    requires KernelAgrees(t)
    ensures p in t.kernel <==> exists i :: Owner(t, i, p)
    ensures forall i: nat :: Owner(t, i, p) ==> p in t.kernel && t.kernel[p] == i
  {
    if p in t.kernel {
      assert Owner(t, t.kernel[p], p);
    }
  }

  lemma OwnersHaveOneHand(t: State, p: Path)
    requires AllCoherent(t)
    ensures forall i: nat :: Owner(t, i, p) ==> Hands(t.reqs[i]) == One(!Direct(t.reqs[i]))
  {
    forall i: nat | Owner(t, i, p)
      ensures Hands(t.reqs[i]) == One(!Direct(t.reqs[i]))
    {
      assert Coherent(t.reqs[i]);
      OneHand(t.reqs[i]);
    }
  }

  lemma OneHand(q: Req)
    requires PlacesFit(q) && Owns(q)
    ensures Hands(q) == One(!Direct(q))
  {
    if Direct(q) {
      assert DirectFits(q);
    } else {
      assert WorkerFits(q);
    }
  }

  /** From the grant of the kernel call until the file is unlocked, wherever the guard
      is, the request owns its path; nobody owns a path in any other phase. */
  predicate HasLockedFile(t: State, i: nat, p: Path) {
    i < |t.reqs| && t.reqs[i].cfg.path == p
    && (t.reqs[i].phase == Granted || t.reqs[i].phase.Holding? || t.reqs[i].phase == Unlocking)
  }

  lemma KernelOwnsExactly(t: State, p: Path)
    requires Reachable(t)
    ensures p in t.kernel <==> exists i: nat :: HasLockedFile(t, i, p)
    ensures forall i: nat :: HasLockedFile(t, i, p) ==> t.kernel[p] == i
  {
    ReachableInvariant(t);
    ExclusiveAt(t, p);
    assert forall i: nat :: HasLockedFile(t, i, p) <==> Owner(t, i, p);
  }

  // ----- conservation of the result

  predicate ClosureReturned(q: Req) {
    q.worker == Returned || q.worker.Committed? || q.worker.Waking? || q.worker == Discarding
    || q.worker == Exited
  }

  /** The result is in the worker's hands, in the slot or in the receiver's hands. */
  predicate InTransit(q: Req) {
    q.worker == Returned || q.slot.result.Some? || q.receiver == Took
  }

  function Settlements(q: Req): nat {
    q.ledger.deliveries + q.ledger.workerDrops + q.ledger.receiverDrops
  }

  /** The closure runs at most once. Once it has returned, its result is either in
      exactly one pair of hands or settled in exactly one way, never both. */
  lemma ResultConservation(t: State, i: nat)
    requires Reachable(t) && i < |t.reqs| && !Direct(t.reqs[i])
    ensures var q := t.reqs[i];
            && q.ledger.runs <= 1
            && (ClosureReturned(q) ==> q.ledger.runs == 1)
            && Settlements(q) + One(InTransit(q)) == One(ClosureReturned(q))
            && (One(q.worker == Returned) + One(q.slot.result.Some?) + One(q.receiver == Took) <= 1)
            && (q.receiver == Delivered <==> q.ledger.deliveries == 1)
  {
    ReachableInvariant(t);
    assert Coherent(t.reqs[i]);
    OnePairOfHands(t.reqs[i]);
  }

  lemma OnePairOfHands(q: Req)
    requires PlacesFit(q) && LedgerFits(q) && !Direct(q)
    ensures q.ledger.runs <= 1 && (ClosureReturned(q) ==> q.ledger.runs == 1)
    ensures Settlements(q) + One(InTransit(q)) == One(ClosureReturned(q))
    ensures One(q.worker == Returned) + One(q.slot.result.Some?) + One(q.receiver == Took) <= 1
  {
    assert WorkerFits(q);
  }

  /** However often it is polled, timed and dropped, a request makes at most one
      descriptor-lock call; and `try_acquire` emits Failed or Contended only when
      that call was made. */
  lemma OneNativeRequest(t: State, i: nat)
    requires Reachable(t) && i < |t.reqs|
    ensures var q := t.reqs[i];
            && q.ledger.runs <= 1 && q.ledger.calls <= q.ledger.runs
            && (q.seen.acquired > 0 ==> q.ledger.calls == 1)
            && (q.cfg.api == Trying && q.seen.failed + q.seen.contended > 0 ==> q.ledger.calls == 1)
  {
    ReachableInvariant(t);
    assert Coherent(t.reqs[i]);
    CallsNeedARun(t.reqs[i]);
  }

  lemma CallsNeedARun(q: Req)
    requires LedgerFits(q) && CallsFit(q)
    ensures q.ledger.calls <= q.ledger.runs <= 1
  {
  }

  /** What decides between the outcomes, in terms of the other requests. A start is
      admitted exactly when fewer permits than the limit are alive. */
  lemma AdmissionExactly(t: State, i: nat)
    requires Reachable(t) && i < |t.reqs| && LocalEnabled(t.reqs[i], Admit)
    ensures t.reqs[i].cfg.mgr < |t.managers|
    ensures var mgr := t.reqs[i].cfg.mgr;
            && (Enabled(t, i, Admit) <==> Sum(Permit(mgr), t.reqs) < t.managers[mgr].limit)
            && (Enabled(t, i, RejectAtCap) <==> !Enabled(t, i, Admit))
  {
    ReachableInvariant(t);
  }

  /** A reservation is refused exactly when an in-flight call or a guard of the same
      manager rejects the same path. */
  lemma RefusalExactly(t: State, i: nat)
    requires Reachable(t) && i < |t.reqs| && t.reqs[i].phase == Reserving
    ensures var q := t.reqs[i];
            && (Enabled(t, i, ReserveRefused) <==>
                  q.cfg.policy == Reject && exists j :: Reserver(t, j, q.cfg.mgr, q.cfg.path))
            && (Enabled(t, i, Reserve) <==> !Enabled(t, i, ReserveRefused))
  {
    ReachableInvariant(t);
    RefusalInSound(t, i);
  }

  lemma RefusalInSound(t: State, i: nat)
    requires Shaped(t) && ReservationsAgree(t) && i < |t.reqs| && t.reqs[i].phase == Reserving
    ensures var q := t.reqs[i];
            && (Enabled(t, i, ReserveRefused) <==>
                  q.cfg.policy == Reject && exists j :: Reserver(t, j, q.cfg.mgr, q.cfg.path))
            && (Enabled(t, i, Reserve) <==> !Enabled(t, i, ReserveRefused))
  {
    var q := t.reqs[i];
    assert q.cfg.path in t.managers[q.cfg.mgr].reserved <==>
           exists j :: Reserver(t, j, q.cfg.mgr, q.cfg.path);
  }

  /** A try is contended exactly when another request owns the path. */
  lemma ContentionExactly(t: State, i: nat)
    requires Reachable(t) && i < |t.reqs| && LocalEnabled(t.reqs[i], Contend)
    ensures Enabled(t, i, Contend) <==> exists j :: j != i && Owner(t, j, t.reqs[i].cfg.path)
    ensures Enabled(t, i, Grant) <==> !Enabled(t, i, Contend)
  {
    ReachableInvariant(t);
    ContentionInSound(t, i);
  }

  lemma ContentionInSound(t: State, i: nat)
    requires Shaped(t) && KernelAgrees(t) && i < |t.reqs| && LocalEnabled(t.reqs[i], Contend)
    ensures Enabled(t, i, Contend) <==> exists j :: j != i && Owner(t, j, t.reqs[i].cfg.path)
    ensures Enabled(t, i, Grant) <==> !Enabled(t, i, Contend)
  {
    var p := t.reqs[i].cfg.path;
    if p in t.kernel {
      assert Owner(t, t.kernel[p], p);
    }
  }

  /** Once the receiver has left, a guard can only be in the hands of the worker
      that will drop it: never in the slot, never with the caller. */
  lemma AbandonedIsNeverDelivered(t: State, i: nat)
    requires Reachable(t) && i < |t.reqs| && !Direct(t.reqs[i]) && !t.reqs[i].slot.receiverAlive
    ensures var q := t.reqs[i];
            && q.ledger.deliveries == 0 && q.slot.result.None?
            && (q.phase.Holding? ==> q.phase.place == InWorker)
  {
    ReachableInvariant(t);
    assert Coherent(t.reqs[i]);
    WithoutReceiver(t.reqs[i]);
  }

  lemma WithoutReceiver(q: Req)
    requires PlacesFit(q) && LedgerFits(q) && !Direct(q) && !q.slot.receiverAlive
    ensures q.ledger.deliveries == 0 && q.slot.result.None?
    ensures q.phase.Holding? ==> q.phase.place == InWorker
  {
    assert q.receiver == Dropping || q.receiver == Gone;
  }

  /** No ownership outlives an abandoned request: when its receiver and worker are
      both gone, what it acquired is released, and it owns and reserves nothing. */
  lemma NoLeakPastAbandonment(t: State, i: nat)
    requires Reachable(t) && i < |t.reqs|
    requires t.reqs[i].receiver == Gone && t.reqs[i].worker == Exited
    ensures var q := t.reqs[i];
            && !Owns(q) && !HoldsReservation(q) && !HoldsPermit(q) && q.slot.result.None?
            && q.seen.acquired == q.seen.released
            && q.ledger.workerDrops + q.ledger.receiverDrops == 1
  {
    ReachableInvariant(t);
    assert Coherent(t.reqs[i]) && WorkerFits(t.reqs[i]);
  }

  /** Abandonment is final: the receiver never comes back. */
  lemma AbandonmentIsFinal(s: State, r: nat, a: Action, i: nat)
    requires Reachable(s) && Enabled(s, r, a) && i < |s.reqs| && !s.reqs[i].slot.receiverAlive
    ensures !Next(s, r, a).reqs[i].slot.receiverAlive
  {
    ReachableInvariant(s);
    assert Coherent(s.reqs[i]);
    if r == i {
      LocalPlaces(s.reqs[i], a);
    }
  }

  // ----- terminal reason

  /** One abandonment reason at most, once, and never together with a delivery. A
      timed-out receiver is dropped only with its callback disarmed, and an armed
      callback has not run. */
  lemma UniqueAbandonmentReason(t: State, i: nat)
    requires Reachable(t) && i < |t.reqs|
    ensures var q := t.reqs[i];
            && q.seen.timedOut + q.handle.cancelEvents <= 1
            && (q.ledger.deliveries > 0 ==> q.seen.timedOut == 0 && q.handle.cancelEvents == 0)
            && (!q.slot.receiverAlive ==> q.seen.timedOut + q.handle.cancelEvents == 1)
            && (q.receiver == Suppressed || Departed(q) ==> !q.handle.onCancel)
            && (q.handle.onCancel ==> q.handle.cancelEvents == 0 && !q.handle.completed)
  {
    ReachableInvariant(t);
    assert Coherent(t.reqs[i]);
    OneReason(t.reqs[i]);
  }

  lemma OneReason(q: Req)
    requires PlacesFit(q) && HandleFits(q) && TallyFits(q) && LedgerFits(q)
    ensures q.seen.timedOut + q.handle.cancelEvents <= 1
    ensures q.ledger.deliveries > 0 ==> q.seen.timedOut == 0 && q.handle.cancelEvents == 0
    ensures !q.slot.receiverAlive ==> q.seen.timedOut + q.handle.cancelEvents == 1
    ensures q.receiver == Suppressed || Departed(q) ==> !q.handle.onCancel
    ensures q.handle.onCancel ==> q.handle.cancelEvents == 0 && !q.handle.completed
  {
    if Direct(q) {
      assert DirectFits(q);
    } else {
      assert q.cfg.api == Waiter || q.cfg.api == Timed;
    }
  }

  /** A deadline is decided only while the worker has not published: it is still in
      the acquisition, or on its way to the slot. */
  lemma DeadlineMeansUnpublished(t: State, i: nat)
    requires Reachable(t) && Enabled(t, i, TimeOut)
    ensures t.reqs[i].worker == Running || t.reqs[i].worker == Returned
    ensures t.reqs[i].phase.Holding? ==> t.reqs[i].phase.place == InWorker
  {
    ReachableInvariant(t);
    EmptySlotIsUnpublished(t.reqs[i]);
  }

  lemma EmptySlotIsUnpublished(q: Req)
    requires PlacesFit(q) && LocalEnabled(q, TimeOut)
    ensures q.worker == Running || q.worker == Returned
    ensures q.phase.Holding? ==> q.phase.place == InWorker
  {
    assert WorkerFits(q);
  }

  predicate PastDeadline(q: Req) {
    q.cfg.api == Timed
    && (q.receiver == Expired || q.receiver == Announced || q.receiver == Suppressed || q.receiver == Leaving)
  }

  /** Between its deadline and its drop a receiver has a result in the slot exactly
      when the worker has settled in the meantime, and a guard exactly when that was
      a success. The drop that finds it becomes the one to release it. */
  lemma LateResultExactly(t: State, i: nat)
    requires Reachable(t) && i < |t.reqs| && PastDeadline(t.reqs[i])
    ensures var q := t.reqs[i];
            && (q.slot.result.Some? <==> q.worker.Committed? || q.worker.Waking? || q.worker == Exited)
            && (q.slot.result == Some(true) <==> q.phase == Holding(InSlot))
    ensures LocalEnabled(t.reqs[i], Leave) ==>
              var q, n := t.reqs[i], LocalNext(t.reqs[i], Leave);
              && n.slot.result.None? && n.ledger.receiverDrops == One(q.slot.result.Some?)
              && (n.phase == Unlocking <==> q.slot.result == Some(true))
  {
    ReachableInvariant(t);
    assert Coherent(t.reqs[i]);
    LateResult(t.reqs[i]);
  }

  lemma LateResult(q: Req)
    requires PlacesFit(q) && LedgerFits(q) && PastDeadline(q)
    ensures q.slot.result.Some? <==> q.worker.Committed? || q.worker.Waking? || q.worker == Exited
    ensures q.slot.result == Some(true) <==> q.phase == Holding(InSlot)
    ensures LocalEnabled(q, Leave) ==>
              var n := LocalNext(q, Leave);
              && n.slot.result.None? && n.ledger.receiverDrops == One(q.slot.result.Some?)
              && (n.phase == Unlocking <==> q.slot.result == Some(true))
  {
    assert WorkerFits(q);
  }

  /** A failed acquisition reports once, after its reservation is gone: Contended
      exactly when its kernel call met another owner, which only a try can, and
      Failed otherwise. */
  lemma FailureReportsWhatItMet(t: State, i: nat)
    requires Reachable(t) && i < |t.reqs|
    ensures var q := t.reqs[i];
            && q.seen.failed + q.seen.contended == One(q.phase == Ended(Reported))
            && (q.phase == Ended(Reported) ==> q.seen.contended == q.ledger.contentions)
            && q.ledger.contentions <= q.ledger.calls <= 1
            && (q.ledger.contentions > 0 ==> q.cfg.api == Trying && q.seen.acquired == 0)
            && (q.seen.failed + q.seen.contended > 0 ==>
                  q.seen.acquired == 0 && !HoldsReservation(q) && !Owns(q))
  {
    ReachableInvariant(t);
    assert Coherent(t.reqs[i]);
    ReportFits(t.reqs[i]);
  }

  lemma ReportFits(q: Req)
    requires TallyFits(q) && CallsFit(q)
    ensures q.seen.failed + q.seen.contended == One(q.phase == Ended(Reported))
    ensures q.phase == Ended(Reported) ==> q.seen.contended == q.ledger.contentions
    ensures q.ledger.contentions > 0 ==> q.seen.acquired == 0
  {
  }

  // ----- reservations

  /** The reservation set of a manager is the set of paths of its in-flight
      rejecting calls and guards, and no two of them share a path. */
  lemma ReservationAgreement(t: State, mgr: nat, p: Path)
    requires Reachable(t) && mgr < |t.managers|
    ensures p in t.managers[mgr].reserved <==> exists i :: Reserver(t, i, mgr, p)
    ensures forall i, j :: Reserver(t, i, mgr, p) && Reserver(t, j, mgr, p) ==> i == j
  {
    ReachableInvariant(t);
  }

  /** From before the kernel call until after the unlock, a rejecting request keeps its
      path reserved; nothing else is reserved. */
  predicate KeepsReserved(t: State, i: nat, mgr: nat, p: Path) {
    i < |t.reqs| && t.reqs[i].cfg.path == p && t.reqs[i].cfg.mgr == mgr && t.reqs[i].cfg.policy == Reject
    && var phase := t.reqs[i].phase;
       phase == InKernel || phase.Refused? || phase == Granted || phase.Holding? || phase == Unlocking || phase == Unlocked
  }

  lemma ReservedExactly(t: State, mgr: nat, p: Path)
    requires Reachable(t) && mgr < |t.managers|
    ensures p in t.managers[mgr].reserved <==> exists i: nat :: KeepsReserved(t, i, mgr, p)
  {
    ReachableInvariant(t);
    ReservedInSound(t, mgr, p);
  }

  lemma ReservedInSound(t: State, mgr: nat, p: Path)
    requires ReservationsAgree(t) && mgr < |t.managers|
    ensures p in t.managers[mgr].reserved <==> exists i: nat :: KeepsReserved(t, i, mgr, p)
  {
    assert forall i: nat :: KeepsReserved(t, i, mgr, p) <==> Reserver(t, i, mgr, p);
    if exists i :: Reserver(t, i, mgr, p) {
      var i :| Reserver(t, i, mgr, p);
      assert KeepsReserved(t, i, mgr, p);
    }
  }

  /** A rejecting request never waits in the kernel for a rejecting request of
      the same manager; so with `Reject` everywhere on one manager, whoever it
      waits for belongs to another manager. */
  lemma RejectNeverWaitsForItsOwnManager(t: State, i: nat)
    requires Reachable(t) && i < |t.reqs|
    requires t.reqs[i].phase == InKernel && t.reqs[i].cfg.policy == Reject
    requires t.reqs[i].cfg.path in t.kernel
    ensures var owner := t.kernel[t.reqs[i].cfg.path];
            && owner < |t.reqs| && owner != i && Owns(t.reqs[owner])
            && (t.reqs[owner].cfg.policy == Reject ==> t.reqs[owner].cfg.mgr != t.reqs[i].cfg.mgr)
  {
    ReachableInvariant(t);
    var q := t.reqs[i];
    var owner := t.kernel[q.cfg.path];
    if t.reqs[owner].cfg.policy == Reject && t.reqs[owner].cfg.mgr == q.cfg.mgr {
      assert Reserver(t, i, q.cfg.mgr, q.cfg.path);
      assert Reserver(t, owner, q.cfg.mgr, q.cfg.path);
    }
  }

  // ----- permits

  /** The counter is the number of live permits, within the cap, and a permit is
      dropped only from a positive counter. */
  lemma PermitAccounting(t: State, mgr: nat)
    requires Reachable(t) && mgr < |t.managers|
    ensures t.managers[mgr].active == Sum(Permit(mgr), t.reqs)
    ensures 0 <= t.managers[mgr].active <= t.managers[mgr].limit
    ensures forall i :: 0 <= i < |t.reqs| && t.reqs[i].cfg.mgr == mgr && HoldsPermit(t.reqs[i]) ==>
              t.managers[mgr].active >= 1
  {
    ReachableInvariant(t);
    SumZero(Permit(mgr), t.reqs);
    forall i | 0 <= i < |t.reqs| && t.reqs[i].cfg.mgr == mgr && HoldsPermit(t.reqs[i])
      ensures t.managers[mgr].active >= 1
    {
      assert Permit(mgr)(t.reqs[i]) == 1;
    }
  }

  lemma {:induction false} SumAppend(f: Req -> nat, reqs: seq<Req>, q: Req)
    ensures Sum(f, reqs + [q]) == Sum(f, reqs) + f(q)
  {
    if reqs != [] {
      SumAppend(f, reqs[1..], q);
      assert (reqs + [q])[1..] == reqs[1..] + [q];
    }
  }

  lemma {:induction false} PermitsCounted(reqs: seq<Req>, mgr: nat)
    ensures |set i: nat | i < |reqs| && reqs[i].cfg.mgr == mgr && HoldsPermit(reqs[i])|
            == Sum(Permit(mgr), reqs)
  {
    if reqs != [] {
      var n := |reqs| - 1;
      PermitsCounted(reqs[..n], mgr);
      SumAppend(Permit(mgr), reqs[..n], reqs[n]);
      assert reqs[..n] + [reqs[n]] == reqs;
      var small := set i: nat | i < n && reqs[..n][i].cfg.mgr == mgr && HoldsPermit(reqs[..n][i]);
      var all := set i: nat | i < |reqs| && reqs[i].cfg.mgr == mgr && HoldsPermit(reqs[i]);
      if reqs[n].cfg.mgr == mgr && HoldsPermit(reqs[n]) {
        assert all == small + {n};
      } else {
        assert all == small;
      }
    }
  }

  /** The cap is on threads: those that are starting or inside their acquisition, however
      long it sleeps, are as many as the counter says and never more than the limit. */
  lemma AcquisitionsAreCapped(t: State, mgr: nat)
    requires Reachable(t) && mgr < |t.managers|
    ensures var inside := set i: nat | i < |t.reqs| && t.reqs[i].cfg.mgr == mgr
                                       && (t.reqs[i].worker == Spawning || t.reqs[i].worker == Running);
            |inside| == t.managers[mgr].active <= t.managers[mgr].limit
  {
    ReachableInvariant(t);
    PermitsCounted(t.reqs, mgr);
    assert (set i: nat | i < |t.reqs| && t.reqs[i].cfg.mgr == mgr && HoldsPermit(t.reqs[i]))
        == (set i: nat | i < |t.reqs| && t.reqs[i].cfg.mgr == mgr
                         && (t.reqs[i].worker == Spawning || t.reqs[i].worker == Running));
  }

  // ----- events

  function AcquiredCount(): Req -> nat { (q: Req) => q.seen.acquired }
  function ReleasedCount(): Req -> nat { (q: Req) => q.seen.released }
  function LiveCount(): Req -> nat { (q: Req) => One(LiveGuard(q)) }
  function ReleasingCount(): Req -> nat { (q: Req) => One(Releasing(q.phase)) }

  lemma {:induction false} SumBalance(reqs: seq<Req>)
    requires forall i :: 0 <= i < |reqs| ==> Coherent(reqs[i])
    ensures Sum(AcquiredCount(), reqs)
            == Sum(ReleasedCount(), reqs) + Sum(LiveCount(), reqs) + Sum(ReleasingCount(), reqs)
  {
    if reqs != [] {
      SumBalance(reqs[1..]);
      assert Coherent(reqs[0]);
    }
  }

  /** Acquired events minus Released events are the guards that exist or are being
      released; with no release in flight, exactly the live guards. */
  lemma EventConservation(t: State)
    requires Reachable(t)
    ensures Sum(AcquiredCount(), t.reqs)
            == Sum(ReleasedCount(), t.reqs) + Sum(LiveCount(), t.reqs) + Sum(ReleasingCount(), t.reqs)
    ensures (forall i :: 0 <= i < |t.reqs| ==> !Releasing(t.reqs[i].phase)) ==>
              Sum(AcquiredCount(), t.reqs) - Sum(ReleasedCount(), t.reqs) == Sum(LiveCount(), t.reqs)
    ensures forall i :: 0 <= i < |t.reqs| ==>
              t.reqs[i].seen.released <= t.reqs[i].seen.acquired <= 1
  {
    ReachableInvariant(t);
    SumBalance(t.reqs);
    SumZero(ReleasingCount(), t.reqs);
  }

  // ----- wake-ups

  /** With a result in the slot, a parked thread is still to be notified and the
      task of the last pending poll has been, or is still to be, woken; and the
      worker that owes the wake-up can take its next step whatever the others do. */
  lemma NoLostWakeUp(t: State, i: nat)
    requires Reachable(t) && i < |t.reqs|
    requires t.reqs[i].receiver.Pending? && t.reqs[i].slot.result.Some?
    ensures var q := t.reqs[i];
            && (q.receiver.parked ==> q.worker.Committed?)
            && (q.receiver.polled.Some? ==>
                  || q.receiver.woken
                  || ((q.worker.Committed? || q.worker.Waking?)
                      && q.worker.toWake.Some? && q.worker.toWake.value.task == q.receiver.polled.value))
            && (q.worker.Committed? ==>
                  && Enabled(t, i, Notify)
                  && LocalNext(q, Notify).worker == Waking(q.worker.toWake)
                  && LocalNext(q, Notify).receiver == q.receiver.(parked := false))
            && (q.worker.Waking? ==>
                  && Enabled(t, i, Wake)
                  && (q.receiver.polled.Some? ==> LocalNext(q, Wake).receiver.woken))
  {
    ReachableInvariant(t);
    assert Coherent(t.reqs[i]);
    assert WorkerFits(t.reqs[i]);
  }
}
