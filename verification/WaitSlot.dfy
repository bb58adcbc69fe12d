/** The result slot that a waiter thread and its receiver share: `WaitState`
    behind one mutex, and the critical sections of `LockWaiter`. */
module WaitSlots {

  datatype Option<+T> = None | Some(value: T)

  /** A task waker. Two handles of one task wake the same task. */
  datatype Waker = Waker(task: nat, handle: nat)

  datatype Slot<+R> = Slot(result: Option<R>, receiverAlive: bool, waker: Option<Waker>)

  datatype Disposition = PublishResult | ReleaseDetached

  function SettleWaiterCompletion(receiverAlive: bool): Disposition {
    if receiverAlive then PublishResult else ReleaseDetached
  }

  function NewSlot<R>(): Slot<R> {
    Slot(None, true, None)
  }

  /** `will_wake` may miss that two handles wake one task; it never invents it. */
  predicate WillWakeSound<R>(s: Slot<R>, w: Waker, willWake: bool) {
    willWake ==> s.waker.Some? && s.waker.value.task == w.task
  }

  // ----- the effect of each critical section on the slot

  function AfterSettle<R>(s: Slot<R>, r: R): Slot<R> {
    match SettleWaiterCompletion(s.receiverAlive)
    case PublishResult => s.(result := Some(r), waker := None)
    case ReleaseDetached => s
  }

  function AfterTake<R>(s: Slot<R>): Slot<R> {
    s.(result := None)
  }

  function AfterPoll<R>(s: Slot<R>, w: Waker, willWake: bool): Slot<R> {
    if s.result.Some? then AfterTake(s)
    else if willWake then s
    else s.(waker := Some(w))
  }

  function AfterAbandon<R>(s: Slot<R>): Slot<R> {
    Slot(None, false, None)
  }

  /** The receiver's own record: `completed`, whether the cancellation callback is
      still armed, and how often it was called. */
  datatype Handle = Handle(completed: bool, onCancel: bool, cancelEvents: nat)

  function NewHandle(): Handle {
    Handle(false, true, 0)
  }

  /** `finish`. */
  function AfterFinish(h: Handle): Handle {
    h.(completed := true, onCancel := false)
  }

  /** `suppress_cancel_event`. */
  function AfterSuppress(h: Handle): Handle {
    h.(onCancel := false)
  }

  /** The first part of `drop`: the callback runs if it is still armed. */
  function AfterDropCallback(h: Handle): Handle {
    if h.completed || !h.onCancel then h
    else h.(onCancel := false, cancelEvents := h.cancelEvents + 1)
  }

  /** What happened while a thread slept on the condition variable: the worker
      may have settled, and the wait may have run out of time. */
  datatype Nap<+R> = Nap(arrival: Option<R>, timedOut: bool, outOfTime: bool)

  /** The first result that arrives in a series of naps. */
  function FirstArrival<R>(naps: seq<Nap<R>>): Option<R> {
    if naps == [] then None
    else if naps[0].arrival.Some? then naps[0].arrival
    else FirstArrival(naps[1..])
  }

  class SharedWait<R> {
    var result: Option<R>
    var receiverAlive: bool
    var waker: Option<Waker>

    function View(): Slot<R>
      reads this
    {
      Slot(result, receiverAlive, waker)
    }

    constructor ()
      ensures View() == NewSlot()
    {
      result, receiverAlive, waker := None, true, None;
    }

    /** The worker's critical section. A live receiver gets the result and the
        worker leaves with the waker; otherwise the result stays in its hands. */
    method Settle(r: R) returns (disposition: Disposition, toWake: Option<Waker>, kept: Option<R>)
      modifies this
      ensures View() == AfterSettle(old(View()), r)
      ensures receiverAlive == old(receiverAlive)
      ensures old(receiverAlive) ==>
                disposition == PublishResult && result == Some(r) && waker.None? && toWake == old(waker) && kept.None?
      ensures !old(receiverAlive) ==>
                && disposition == ReleaseDetached && toWake.None? && kept == Some(r)
                && result == old(result) && waker == old(waker)
    {
      disposition := SettleWaiterCompletion(receiverAlive);
      if disposition == PublishResult {
        result := Some(r);
        toWake, waker, kept := waker, None, None;
      } else {
        toWake, kept := None, Some(r);
      }
    }

    /** `state.result.take()`. */
    method Take() returns (r: Option<R>)
      modifies this
      ensures View() == AfterTake(old(View()))
      ensures r == old(result)
    {
      r := result;
      result := None;
    }

    method Poll(w: Waker, willWake: bool) returns (r: Option<R>)
      requires WillWakeSound(View(), w, willWake)
      modifies this
      ensures View() == AfterPoll(old(View()), w, willWake)
      ensures r == old(result) && result.None? && receiverAlive == old(receiverAlive)
      ensures r.Some? ==> waker == old(waker)
      ensures r.None? ==> waker.Some? && waker.value.task == w.task && (waker == Some(w) || waker == old(waker))
    {
      r := Take();
      if r.None? && !willWake {
        waker := Some(w);
      }
    }

    /** The critical section of `LockWaiter::drop`. */
    method Abandon() returns (r: Option<R>)
      modifies this
      ensures View() == AfterAbandon(old(View()))
      ensures r == old(result) && result.None? && waker.None? && !receiverAlive
    {
      receiverAlive := false;
      waker := None;
      r := Take();
    }

    /** `wait_timeout`: each nap is one sleep on the condition variable during
        which the worker may settle. A timeout is returned only with the mutex
        held and the slot seen empty, so no result is lost to it. */
    method WaitTimeout(naps: seq<Nap<R>>) returns (r: Option<R>, slept: nat)
      requires receiverAlive
      modifies this
      ensures slept <= |naps|
      ensures receiverAlive && result.None?
      ensures old(result).Some? ==> slept == 0 && r == old(result)
      ensures old(result).None? ==> r == FirstArrival(naps[..slept])
      ensures r.None? && slept < |naps| ==>
                naps[slept].outOfTime || (slept > 0 && naps[slept - 1].timedOut)
    {
      slept := 0;
      while true
        invariant slept <= |naps| && receiverAlive
        invariant slept == 0 ==> result == old(result)
        invariant old(result).Some? ==> slept == 0
        invariant slept > 0 ==> result == FirstArrival(naps[..slept])
        decreases |naps| - slept
      {
        if result.Some? {
          r := Take();
          return;
        }
        if slept == |naps| || naps[slept].outOfTime {
          return None, slept;
        }
        var nap := naps[slept];
        FirstArrivalNext(naps, slept);
        if nap.arrival.Some? {
          var _, _, _ := Settle(nap.arrival.value);
        }
        slept := slept + 1;
        if nap.timedOut && result.None? {
          return None, slept;
        }
      }
    }
  }

  datatype PollOutcome<+R> = Ready(result: R) | StillPending | AlreadyCompleted

  /** The receiver's end: `LockWaiter`, with its cancellation callback counted. */
  class LockWaiter<R> {
    const shared: SharedWait<R>
    var completed: bool
    var onCancel: bool
    var cancelEvents: nat

    constructor (shared: SharedWait<R>)
      ensures this.shared == shared && Record() == NewHandle()
    {
      this.shared := shared;
      completed, onCancel, cancelEvents := false, true, 0;
    }

    function Record(): Handle
      reads this
    {
      Handle(completed, onCancel, cancelEvents)
    }

    /** A completed waiter never reports cancellation and never yields again. */
    predicate Valid()
      reads this
    {
      (completed ==> !onCancel) && cancelEvents <= 1 && (cancelEvents == 1 ==> !onCancel)
    }

    method Poll(w: Waker, willWake: bool) returns (outcome: PollOutcome<R>)
      requires Valid() && WillWakeSound(shared.View(), w, willWake)
      modifies this, shared
      ensures Valid()
      ensures old(completed) ==> outcome == AlreadyCompleted && shared.View() == old(shared.View())
      ensures !old(completed) ==>
                && shared.View() == AfterPoll(old(shared.View()), w, willWake)
                && outcome == (if old(shared.result).Some? then Ready(old(shared.result).value) else StillPending)
      ensures Record() == if outcome.Ready? then AfterFinish(old(Record())) else old(Record())
      ensures outcome.Ready? ==> completed && !onCancel && cancelEvents == old(cancelEvents)
    {
      if completed {
        return AlreadyCompleted;
      }
      var r := shared.Poll(w, willWake);
      if r.Some? {
        Finish();
        return Ready(r.value);
      }
      outcome := StillPending;
    }

    /** `wait_timeout`: a stored result at once, else the first that arrives before
        time runs out. */
    method WaitTimeout(naps: seq<Nap<R>>) returns (outcome: PollOutcome<R>, slept: nat)
      requires Valid() && (!completed ==> shared.receiverAlive)
      modifies this, shared
      ensures Valid() && slept <= |naps|
      ensures old(completed) ==> outcome == AlreadyCompleted && shared.View() == old(shared.View())
      ensures !old(completed) ==>
                && shared.receiverAlive && shared.result.None? && !outcome.AlreadyCompleted?
                && var got := if old(shared.result).Some? then old(shared.result) else FirstArrival(naps[..slept]);
                   outcome == if got.Some? then Ready(got.value) else StillPending
      ensures !old(completed) && outcome.StillPending? && slept < |naps| ==>
                naps[slept].outOfTime || (slept > 0 && naps[slept - 1].timedOut)
      ensures Record() == if outcome.Ready? then AfterFinish(old(Record())) else old(Record())
      ensures outcome.Ready? ==> completed && !onCancel && cancelEvents == old(cancelEvents)
    {
      if completed {
        return AlreadyCompleted, 0;
      }
      var r, n := shared.WaitTimeout(naps);
      slept := n;
      if r.Some? {
        Finish();
        return Ready(r.value), slept;
      }
      outcome := StillPending;
    }

    method Finish()
      modifies this`completed, this`onCancel
      ensures Record() == AfterFinish(old(Record()))
    {
      completed, onCancel := true, false;
    }

    method SuppressCancelEvent()
      modifies this`onCancel
      ensures Record() == AfterSuppress(old(Record()))
    {
      onCancel := false;
    }

    /** `drop`: an uncompleted waiter reports cancellation unless that was
        suppressed, closes the slot, and drops whatever result was in it. */
    method Drop() returns (dropped: Option<R>)
      requires Valid()
      modifies this, shared
      ensures Valid() && Record() == AfterDropCallback(old(Record()))
      ensures cancelEvents == old(cancelEvents) + if !old(completed) && old(onCancel) then 1 else 0
      ensures !onCancel && completed == old(completed)
      ensures old(completed) ==> dropped.None? && shared.View() == old(shared.View())
      ensures !old(completed) ==>
                && shared.View() == AfterAbandon(old(shared.View()))
                && dropped == old(shared.result)
    {
      dropped := None;
      if !completed {
        if onCancel {
          onCancel := false;
          cancelEvents := cancelEvents + 1;
        }
        dropped := shared.Abandon();
      }
    }
  }

  /** The earliest of the naps during which a result came. */
  lemma {:induction false} FirstArrivalExactly<R>(naps: seq<Nap<R>>)
    ensures FirstArrival(naps).None? <==> forall k :: 0 <= k < |naps| ==> naps[k].arrival.None?
    ensures FirstArrival(naps).Some? ==>
              exists k :: 0 <= k < |naps| && naps[k].arrival == FirstArrival(naps)
                          && forall j :: 0 <= j < k ==> naps[j].arrival.None?
  {
    if naps != [] && naps[0].arrival.None? {
      var rest := naps[1..];
      FirstArrivalExactly(rest);
      assert forall k :: 0 < k < |naps| ==> naps[k] == rest[k - 1];
      if FirstArrival(naps).Some? {
        var k :| 0 <= k < |rest| && rest[k].arrival == FirstArrival(rest)
                 && forall j :: 0 <= j < k ==> rest[j].arrival.None?;
        assert naps[k + 1].arrival == FirstArrival(naps);
      }
    }
  }

  lemma {:induction false} FirstArrivalNext<R>(naps: seq<Nap<R>>, n: nat)
    requires n < |naps|
    ensures FirstArrival(naps[..n + 1]) ==
            if FirstArrival(naps[..n]).Some? then FirstArrival(naps[..n]) else naps[n].arrival
  {
    if n > 0 {
      FirstArrivalNext(naps[1..], n - 1);
      assert naps[..n + 1][1..] == naps[1..][..n];
      assert naps[..n][1..] == naps[1..][..n - 1];
    }
  }
}
