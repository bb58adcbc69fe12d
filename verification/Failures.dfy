/** What a failed call may still do, over whole runs: nothing if it was refused before
    it had a thread, and nothing but report if its acquisition failed. */
module ProtocolFailures {
  import opened LockOrder
  import opened WaitSlots
  import opened WaiterProtocol
  import opened ProtocolCoherence

  /** `acquire` returns an error: the waiter cap is reached, or no thread started. */
  predicate Refuses(a: Action) {
    a == RejectAtCap || a == SpawnFails
  }

  /** The acquisition closure will return an error, or `try_acquire` an error or None. */
  predicate Fails(a: Action) {
    a == OpenFails || a == ReserveRefused || a == KernelError || a == Contend
  }

  /** Refused, with every other field as in a request that never was. */
  predicate Untouched(q: Req) {
    q == NewReq(q.cfg).(phase := Ended(Rejected))
  }

  lemma RefusalLeavesNothing(q: Req, a: Action)
    requires Coherent(q) && LocalEnabled(q, a) && Refuses(a)
    ensures Untouched(LocalNext(q, a))
  {
    assert WorkerFits(q);
    NoWaiterYet(q);
  }

  /** Before a thread runs, nothing has been counted, emitted or armed. */
  lemma NoWaiterYet(q: Req)
    requires Coherent(q) && !Direct(q) && (q.worker == NoWorker || q.worker == Spawning) && q.phase == Fresh
    ensures q == NewReq(q.cfg).(worker := q.worker)
  {
    assert WorkerFits(q);
    assert q.seen == NO_EVENTS;
    assert q.ledger == NO_RUNS by { NothingLedgered(q); }
    assert q.handle == NO_HANDLE;
  }

  lemma NothingLedgered(q: Req)
    requires LedgerFits(q) && CallsFit(q) && q.phase == Fresh && q.receiver == NoReceiver
    ensures q.ledger == NO_RUNS
  {
  }

  lemma UntouchedIsOver(q: Req, a: Action)
    requires Untouched(q)
    ensures !LocalEnabled(q, a)
  {
  }

  /** A step leaves every request but its own alone. */
  lemma OneRequestMoves(s: State, t: State, i: nat)
    requires Stepped(s, t) && i < |s.reqs|
    ensures |t.reqs| == |s.reqs|
    ensures t.reqs[i] == s.reqs[i] || exists a :: LocalEnabled(s.reqs[i], a) && t.reqs[i] == LocalNext(s.reqs[i], a)
  {
    var r: nat, a :| StepOf(s, r, a, t);
    if r == i {
      assert LocalEnabled(s.reqs[i], a) && t.reqs[i] == LocalNext(s.reqs[i], a);
    }
  }

  ghost predicate UntouchedAt(states: seq<State>, j: nat, r: nat) {
    j < |states| && r < |states[j].reqs| && Untouched(states[j].reqs[r])
  }

  lemma {:induction false} UntouchedStays(states: seq<State>, k: nat, j: nat, r: nat)
    requires Run(states) && k <= j < |states| && UntouchedAt(states, k, r)
    ensures UntouchedAt(states, j, r) && states[j].reqs[r] == states[k].reqs[r]
  {
    if k < j {
      UntouchedStays(states, k, j - 1, r);
      assert SteppedAt(states, j - 1);
      OneRequestMoves(states[j - 1], states[j], r);
      if states[j].reqs[r] != states[j - 1].reqs[r] {
        var a :| LocalEnabled(states[j - 1].reqs[r], a) && states[j].reqs[r] == LocalNext(states[j - 1].reqs[r], a);
        UntouchedIsOver(states[j - 1].reqs[r], a);
      }
    }
  }

  /** A refusal is final: in every later state of every run the request is as the
      refusal left it, no step belongs to it, and it has run nothing, emitted nothing
      and holds nothing. */
  lemma RefusalIsFinal(states: seq<State>, k: nat, r: nat, a: Action, j: nat)
    requires Run(states) && Initial(states[0]) && k < j < |states|
    requires StepOf(states[k], r, a, states[k + 1]) && Refuses(a)
    ensures r < |states[j].reqs|
    ensures var q := states[j].reqs[r];
            && q == states[k + 1].reqs[r]
            && (forall b :: !Enabled(states[j], r, b))
            && q.ledger.runs == 0 && q.ledger.calls == 0 && q.seen == NO_EVENTS && q.handle.cancelEvents == 0
            && q.slot.result.None?
            && !HoldsPermit(q) && !HoldsReservation(q) && !Owns(q)
  {
    RefusedOnce(states, k, r, a);
    UntouchedStays(states, k + 1, j, r);
    forall b
      ensures !Enabled(states[j], r, b)
    {
      UntouchedIsOver(states[j].reqs[r], b);
    }
  }

  lemma RefusedOnce(states: seq<State>, k: nat, r: nat, a: Action)
    requires Run(states) && Initial(states[0]) && k + 1 < |states|
    requires StepOf(states[k], r, a, states[k + 1]) && Refuses(a)
    ensures UntouchedAt(states, k + 1, r)
  {
    RunInvariant(states, k);
    assert Coherent(states[k].reqs[r]);
    RefusalLeavesNothing(states[k].reqs[r], a);
  }

  // ----- a failed acquisition

  /** On its way out, after this many kernel calls. */
  predicate Failing(q: Req, calls: nat) {
    && (q.phase.Refused? || q.phase.Reporting? || q.phase == Ended(Silent) || q.phase == Ended(Reported))
    && q.ledger.calls == calls && q.seen.acquired == 0
  }

  predicate CallsKernel(a: Action) {
    a == KernelError || a == Contend
  }

  lemma FailureStarts(q: Req, a: Action)
    requires TallyFits(q) && CallsFit(q) && LocalEnabled(q, a) && Fails(a)
    ensures Failing(LocalNext(q, a), One(CallsKernel(a)))
  {
  }

  lemma FailureContinues(q: Req, a: Action, calls: nat)
    requires PlacesFit(q) && Failing(q, calls) && LocalEnabled(q, a)
    ensures Failing(LocalNext(q, a), calls)
  {
    SpawnIsFirst(q);
  }

  ghost predicate FailingAt(states: seq<State>, j: nat, r: nat, calls: nat) {
    j < |states| && r < |states[j].reqs| && Failing(states[j].reqs[r], calls)
  }

  lemma {:induction false} FailureStays(states: seq<State>, k: nat, j: nat, r: nat, calls: nat)
    requires Run(states) && Initial(states[0]) && k <= j < |states| && FailingAt(states, k, r, calls)
    ensures FailingAt(states, j, r, calls)
  {
    if k < j {
      FailureStays(states, k, j - 1, r, calls);
      assert SteppedAt(states, j - 1);
      OneRequestMoves(states[j - 1], states[j], r);
      RunInvariant(states, j - 1);
      assert Coherent(states[j - 1].reqs[r]);
      if states[j].reqs[r] != states[j - 1].reqs[r] {
        var a :| LocalEnabled(states[j - 1].reqs[r], a) && states[j].reqs[r] == LocalNext(states[j - 1].reqs[r], a);
        FailureContinues(states[j - 1].reqs[r], a, calls);
      }
    }
  }

  /** A failed acquisition stays failed: once its file could not be opened or its order
      or reservation was refused, it never calls the kernel; once the kernel refused it,
      it does not call again; and in no later state of any run does it own the lock,
      announce it, or have a guard for its receiver. */
  lemma FailureIsFinal(states: seq<State>, k: nat, r: nat, a: Action, j: nat)
    requires Run(states) && Initial(states[0]) && k < j < |states|
    requires StepOf(states[k], r, a, states[k + 1]) && Fails(a)
    ensures r < |states[j].reqs|
    ensures var q := states[j].reqs[r];
            && q.ledger.calls == One(a == KernelError || a == Contend)
            && !Owns(q) && q.seen.acquired == 0 && q.slot.result != Some(true)
            && (q.phase.Refused? || q.phase.Reporting? || q.phase == Ended(Silent) || q.phase == Ended(Reported))
  {
    FailedOnce(states, k, r, a);
    FailureStays(states, k + 1, j, r, One(CallsKernel(a)));
    RunInvariant(states, j);
    assert Coherent(states[j].reqs[r]);
    FailingOwnsNothing(states[j].reqs[r], One(CallsKernel(a)));
  }

  lemma FailedOnce(states: seq<State>, k: nat, r: nat, a: Action)
    requires Run(states) && Initial(states[0]) && k + 1 < |states|
    requires StepOf(states[k], r, a, states[k + 1]) && Fails(a)
    ensures FailingAt(states, k + 1, r, One(CallsKernel(a)))
  {
    RunInvariant(states, k);
    assert Coherent(states[k].reqs[r]);
    FailureStarts(states[k].reqs[r], a);
  }

  lemma FailingOwnsNothing(q: Req, calls: nat)
    requires PlacesFit(q) && Failing(q, calls)
    ensures !Owns(q) && q.slot.result != Some(true)
  {
    if !Direct(q) {
      assert WorkerFits(q);
    }
  }
}
