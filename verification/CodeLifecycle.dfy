/** The conjuncts of `waiter_lifecycle_safety` read off the code's own protocol.
    Most hold in every reachable state. Three take a grant, a detached release, or a
    reason and the drop it announces for one atomic step, which the code does not:
    for those, exactly when they hold. */
module CodeLifecycle {
  import opened LockOrder
  import opened WaitSlots
  import opened WaiterProtocol
  import opened ProtocolCoherence
  import opened ProtocolGuarantees
  import L = WaiterLifecycle

  predicate Completed(q: Req) {
    q.worker.Committed? || q.worker.Waking? || q.worker == Discarding || q.worker == Exited
  }

  predicate HandedOver(q: Req) {
    q.receiver == Took || q.receiver == Delivered
  }

  predicate Abandoned(q: Req) {
    !q.slot.receiverAlive
  }

  function Those(t: State, p: Req -> bool): set<nat> {
    set i: nat | i < |t.reqs| && p(t.reqs[i])
  }

  function ActiveOf(t: State, mgr: nat): set<nat> {
    Those(t, (q: Req) => q.cfg.mgr == mgr && HoldsPermit(q))
  }

  /** A result that nobody received was dropped, and its guard reported released. */
  predicate Detached(q: Req) {
    q.ledger.workerDrops + q.ledger.receiverDrops == 1 && q.seen.acquired == q.seen.released
  }

  /** The waiters of a state, sorted into the sets of the finite model: the reasons by
      the events emitted, what became of a result by the ledger. */
  function Project(t: State): L.Life
    requires forall p :: p in t.kernel ==> t.kernel[p] < |t.reqs|
  {
    L.Life(
      Those(t, (q: Req) => q.worker != NoWorker),
      Those(t, (q: Req) => HoldsPermit(q)),
      Those(t, (q: Req) => q.worker != NoWorker && q.slot.receiverAlive && !HandedOver(q)),
      Those(t, (q: Req) => q.slot.result == Some(true)),
      Those(t, (q: Req) => Completed(q)),
      Those(t, (q: Req) => Abandoned(q)),
      Those(t, (q: Req) => q.seen.timedOut > 0),
      Those(t, (q: Req) => q.handle.cancelEvents > 0),
      Those(t, (q: Req) => Detached(q)),
      Those(t, (q: Req) => HandedOver(q)),
      Those(t, (q: Req) => q.ledger.deliveries > 0 && q.seen.released > 0),
      map p | p in t.kernel && !Direct(t.reqs[t.kernel[p]]) :: t.kernel[p],
      map p | p in t.kernel && HandedOver(t.reqs[t.kernel[p]]) :: t.kernel[p])
  }

  /** What the sets need from one request. */
  predicate Nests(q: Req) {
    && (HoldsPermit(q) ==> q.worker != NoWorker && !Completed(q))
    && (HoldsPermit(q) && HandedOver(q) ==> Abandoned(q))
    && (Completed(q) ==> q.worker != NoWorker)
    && (Abandoned(q) ==> q.worker != NoWorker && !HandedOver(q) && q.slot.result.None?)
    && (HandedOver(q) ==> Completed(q))
    && (q.slot.result.Some? ==> Completed(q) && q.slot.receiverAlive && !HandedOver(q))
    && (Detached(q) ==> Completed(q))
    && (q.ledger.deliveries > 0 ==> HandedOver(q))
    && (q.seen.timedOut > 0 ==> q.handle.cancelEvents == 0)
  }

  lemma LocalLifecycle(q: Req)
    requires PlacesFit(q) && HandleFits(q) && TallyFits(q) && LedgerFits(q)
    ensures Nests(q)
  {
    if Direct(q) {
      assert DirectFits(q);
    } else {
      assert WorkerFits(q);
    }
  }

  /** `completed` is the worker's position; it is also what the ledger says: the
      result is stored, taken or settled. */
  lemma CompletedExactly(t: State, i: nat)
    requires Reachable(t) && i < |t.reqs| && !Direct(t.reqs[i])
    ensures var q := t.reqs[i];
            Completed(q) <==> Settlements(q) + One(q.slot.result.Some?) + One(q.receiver == Took) == 1
  {
    ReachableInvariant(t);
    assert Coherent(t.reqs[i]);
    CompletedFits(t.reqs[i]);
  }

  lemma CompletedFits(q: Req)
    requires PlacesFit(q) && LedgerFits(q) && !Direct(q)
    ensures Completed(q) <==> Settlements(q) + One(q.slot.result.Some?) + One(q.receiver == Took) == 1
  {
    assert WorkerFits(q);
  }

  /** In every reachable state the sets nest, the cap of every manager holds, terminal
      reasons are unique and nothing abandoned is delivered. */
  lemma CodeIsWellFormed(t: State)
    requires Reachable(t)
    ensures forall p :: p in t.kernel ==> t.kernel[p] < |t.reqs|
    ensures L.SetsNest(Project(t)) && L.TerminalReasonIsUnique(Project(t))
    ensures Project(t).alive !! Project(t).abandoned && Project(t).ready <= Project(t).alive
    ensures Project(t).active - Project(t).alive <= Project(t).abandoned
    ensures forall mgr :: 0 <= mgr < |t.managers| ==>
              L.WaiterCapIsBounded(ActiveOf(t, mgr), t.managers[mgr].limit)
  {
    ReachableInvariant(t);
    AllNest(t);
    Facts(t);
    forall mgr | 0 <= mgr < |t.managers|
      ensures L.WaiterCapIsBounded(ActiveOf(t, mgr), t.managers[mgr].limit)
    {
      PermitsCounted(t.reqs, mgr);
      assert ActiveOf(t, mgr)
          == set i: nat | i < |t.reqs| && t.reqs[i].cfg.mgr == mgr && HoldsPermit(t.reqs[i]);
    }
  }

  lemma AllNest(t: State)
    requires AllCoherent(t)
    ensures forall i :: 0 <= i < |t.reqs| ==> Nests(t.reqs[i])
  {
    forall i | 0 <= i < |t.reqs|
      ensures Nests(t.reqs[i])
    {
      assert Coherent(t.reqs[i]);
      LocalLifecycle(t.reqs[i]);
    }
  }

  lemma Facts(t: State)
    requires forall p :: p in t.kernel ==> t.kernel[p] < |t.reqs|
    requires forall i :: 0 <= i < |t.reqs| ==> Nests(t.reqs[i])
    ensures L.SetsNest(Project(t))
    ensures Project(t).alive !! Project(t).abandoned && Project(t).ready <= Project(t).alive
    ensures Project(t).active - Project(t).alive <= Project(t).abandoned
  {
  }

  /** The reason has been emitted and the receiver is still on its way out. */
  predicate OnItsWayOut(q: Req) {
    q.receiver == Announced || q.receiver == Suppressed || q.receiver == Leaving
  }

  /** A reason is reported before the drop that it announces: the reasons are
      abandonments exactly when no receiver is between the two. */
  lemma ReasonsExactly(t: State)
    requires Reachable(t)
    ensures forall r :: r in t.kernel ==> t.kernel[r] < |t.reqs|
    ensures L.ReasonsAreAbandonments(Project(t)) <==>
            forall i :: 0 <= i < |t.reqs| ==> !OnItsWayOut(t.reqs[i])
  {
    ReachableInvariant(t);
    AllReasonsFit(t);
    ReasonsAt(t);
  }

  predicate ReasonFits(q: Req) {
    Abandoned(q) || OnItsWayOut(q) <==> q.seen.timedOut > 0 || q.handle.cancelEvents > 0
  }

  lemma AllReasonsFit(t: State)
    requires AllCoherent(t)
    ensures forall i :: 0 <= i < |t.reqs| ==> ReasonFits(t.reqs[i]) && !(Abandoned(t.reqs[i]) && OnItsWayOut(t.reqs[i]))
  {
    forall i | 0 <= i < |t.reqs|
      ensures ReasonFits(t.reqs[i]) && !(Abandoned(t.reqs[i]) && OnItsWayOut(t.reqs[i]))
    {
      assert Coherent(t.reqs[i]);
      LocalReason(t.reqs[i]);
    }
  }

  lemma LocalReason(q: Req)
    requires PlacesFit(q) && HandleFits(q) && TallyFits(q)
    ensures ReasonFits(q) && !(Abandoned(q) && OnItsWayOut(q))
  {
    if Direct(q) {
      assert DirectFits(q);
    } else {
      assert q.cfg.api == Timed || q.cfg.api == Waiter;
    }
  }

  lemma ReasonsAt(t: State)
    requires forall r :: r in t.kernel ==> t.kernel[r] < |t.reqs|
    requires forall i :: 0 <= i < |t.reqs| ==> ReasonFits(t.reqs[i]) && !(Abandoned(t.reqs[i]) && OnItsWayOut(t.reqs[i]))
    ensures L.ReasonsAreAbandonments(Project(t)) <==>
            forall i :: 0 <= i < |t.reqs| ==> !OnItsWayOut(t.reqs[i])
  {
    var l := Project(t);
    assert forall i :: i in l.abandoned <==> 0 <= i < |t.reqs| && Abandoned(t.reqs[i]);
    assert forall i :: i in l.timedOut + l.cancelled <==>
             0 <= i < |t.reqs| && (t.reqs[i].seen.timedOut > 0 || t.reqs[i].handle.cancelEvents > 0);
    if L.ReasonsAreAbandonments(l) {
      forall i | 0 <= i < |t.reqs|
        ensures !OnItsWayOut(t.reqs[i])
      {
        assert i in l.timedOut + l.cancelled ==> i in l.abandoned;
      }
    }
  }

  /** The guard is with the worker, or being dropped by whoever discards it. */
  predicate BetweenHands(q: Req) {
    HoldsPermit(q) || q.worker == Returned || q.worker == Discarding || q.receiver == Dropping
  }

  /** `ownership_is_exclusive` holds at a lock exactly when no waiter owns it
      between hands; the finite model grants and settles in one step and so never
      sees such an owner. */
  lemma OwnershipExactly(t: State, p: Path)
    requires Reachable(t)
    ensures forall r :: r in t.kernel ==> t.kernel[r] < |t.reqs|
    ensures L.OwnershipIsExclusiveAt(Project(t), p) <==>
            !(p in t.kernel && !Direct(t.reqs[t.kernel[p]]) && BetweenHands(t.reqs[t.kernel[p]]))
  {
    ReachableInvariant(t);
    if p in t.kernel {
      assert Coherent(t.reqs[t.kernel[p]]);
      OwnedPlaces(t.reqs[t.kernel[p]]);
    }
    OwnershipAt(t, p);
  }

  lemma OwnershipAt(t: State, p: Path)
    requires forall r :: r in t.kernel ==> t.kernel[r] < |t.reqs|
    requires p in t.kernel ==>
               var q := t.reqs[t.kernel[p]];
               && (Direct(q) ==> !HandedOver(q))
               && (!Direct(q) ==> (!BetweenHands(q) <==> (q.slot.result == Some(true)) != HandedOver(q)))
    ensures L.OwnershipIsExclusiveAt(Project(t), p) <==>
            !(p in t.kernel && !Direct(t.reqs[t.kernel[p]]) && BetweenHands(t.reqs[t.kernel[p]]))
  {
    if p in t.kernel {
      var i := t.kernel[p];
      assert i in Project(t).ready <==> t.reqs[i].slot.result == Some(true);
    }
  }

  lemma OwnedPlaces(q: Req)
    requires PlacesFit(q) && Owns(q)
    ensures Direct(q) ==> !HandedOver(q)
    ensures !Direct(q) ==>
              (!BetweenHands(q) <==> (q.slot.result == Some(true)) != HandedOver(q))
  {
    if Direct(q) {
      assert DirectFits(q);
    } else {
      assert WorkerFits(q);
    }
  }

  /** An abandoned guard is unlocked, or about to be, and not yet reported released. */
  predicate BeingDropped(q: Req) {
    (q.worker == Discarding || q.receiver == Dropping) && Releasing(q.phase)
  }

  /** That nothing abandoned is delivered holds always; that what was abandoned and
      completed is detached holds exactly when no abandoned guard is being dropped. */
  lemma AbandonedExactly(t: State)
    requires Reachable(t)
    ensures forall r :: r in t.kernel ==> t.kernel[r] < |t.reqs|
    ensures Project(t).delivered !! Project(t).abandoned
    ensures L.AbandonedDeliveryIsImpossible(Project(t)) <==>
            forall i :: 0 <= i < |t.reqs| ==> !BeingDropped(t.reqs[i])
  {
    CodeIsWellFormed(t);
    ReachableInvariant(t);
    AllDropsFit(t);
    AbandonedAt(t);
  }

  predicate DropFits(q: Req) {
    && (BeingDropped(q) || Detached(q) ==> Abandoned(q) && Completed(q))
    && (Abandoned(q) && Completed(q) ==> (Detached(q) <==> !BeingDropped(q)))
  }

  lemma LocalDrop(q: Req)
    requires PlacesFit(q) && TallyFits(q) && LedgerFits(q)
    ensures DropFits(q)
  {
    if Direct(q) {
      assert DirectFits(q);
    } else {
      assert WorkerFits(q);
    }
  }

  lemma AllDropsFit(t: State)
    requires AllCoherent(t)
    ensures forall i :: 0 <= i < |t.reqs| ==> DropFits(t.reqs[i])
  {
    forall i | 0 <= i < |t.reqs|
      ensures DropFits(t.reqs[i])
    {
      assert Coherent(t.reqs[i]);
      LocalDrop(t.reqs[i]);
    }
  }

  lemma AbandonedAt(t: State)
    requires forall r :: r in t.kernel ==> t.kernel[r] < |t.reqs|
    requires forall i :: 0 <= i < |t.reqs| ==> DropFits(t.reqs[i])
    requires Project(t).delivered !! Project(t).abandoned
    ensures L.AbandonedDeliveryIsImpossible(Project(t)) <==>
            forall i :: 0 <= i < |t.reqs| ==> !BeingDropped(t.reqs[i])
  {
    var l := Project(t);
    forall i
      ensures i in l.detached * l.abandoned <==>
                i in l.abandoned * l.completed && !BeingDropped(t.reqs[i])
      ensures 0 <= i < |t.reqs| && BeingDropped(t.reqs[i]) ==> i in l.abandoned * l.completed
    {
      assert 0 <= i < |t.reqs| ==> DropFits(t.reqs[i]);
    }
  }
}
