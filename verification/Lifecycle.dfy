/** formal/waiter_lifecycle.qnt for any finite set of waiters, any cap, any number
    of lock identities and a lock set of any length, with the step that the finite
    model leaves out: a timed-out waiter dropped while its result is published. */
module WaiterLifecycle {

  type Lock = string

  datatype Life = Life(
    started: set<nat>, active: set<nat>, alive: set<nat>, ready: set<nat>, completed: set<nat>,
    abandoned: set<nat>, timedOut: set<nat>, cancelled: set<nat>, detached: set<nat>,
    delivered: set<nat>, released: set<nat>,
    kernelOwner: map<Lock, nat>, publishedOwner: map<Lock, nat>)

  datatype Status = Idle | Acquiring | Complete | Unwound | SetReleased

  /** `held[k]` says whether the k-th lock of the sorted set is held. */
  datatype LockSet = LockSet(status: Status, held: seq<bool>)

  /** `lockOf` names the waiters and the lock each of them waits for. */
  datatype Model = Model(cap: nat, lockOf: map<nat, Lock>, life: Life, locks: LockSet)

  datatype Action =
    | StartQueued(w: nat) | CancelBeforeGrant(w: nat) | TimeoutBeforeGrant(w: nat)
    | NativeGrant(w: nat) | DeliverGuard(w: nat) | CancelReadyResult(w: nat)
    | TimeoutReadyResult(w: nat) | ReleaseGuard(w: nat)
    | AcquireNextOfSet | FinishSet | FailSetAndUnwind | ReleaseSet

  function LifeInit(): Life {
    Life({}, {}, {}, {}, {}, {}, {}, {}, {}, {}, {}, map[], map[])
  }

  predicate Init(m: Model) {
    m.cap >= 1 && m.life == LifeInit() && m.locks.status == Idle
    && (forall k :: 0 <= k < |m.locks.held| ==> !m.locks.held[k])
  }

  predicate Owned(owner: map<Lock, nat>, p: Lock, w: nat) {
    p in owner && owner[p] == w
  }

  predicate WaitsFor(lockOf: map<nat, Lock>, w: nat, p: Lock) {
    w in lockOf && lockOf[w] == p
  }

  /** How many locks of the set are held: the length of the leading run. */
  function HeldCount(held: seq<bool>): (n: nat)
    ensures n <= |held|
  {
    if held == [] || !held[0] then 0 else 1 + HeldCount(held[1..])
  }

  function NoneHeld(n: nat): seq<bool> {
    seq(n, _ => false)
  }

  predicate Enabled(m: Model, a: Action) {
    var l := m.life;
    match a
    case StartQueued(w) => w in m.lockOf && w !in l.started && |l.active| < m.cap
    case CancelBeforeGrant(w) => w in l.active && w in l.alive && w !in l.ready
    case TimeoutBeforeGrant(w) => w in l.active && w in l.alive && w !in l.ready
    case NativeGrant(w) => w in m.lockOf && w in l.active && m.lockOf[w] !in l.kernelOwner
    case DeliverGuard(w) =>
      w in m.lockOf && w in l.ready && w in l.alive && Owned(l.kernelOwner, m.lockOf[w], w)
      && m.lockOf[w] !in l.publishedOwner
    case CancelReadyResult(w) =>
      w in m.lockOf && w in l.ready && w in l.alive && Owned(l.kernelOwner, m.lockOf[w], w)
    case TimeoutReadyResult(w) =>
      w in m.lockOf && w in l.ready && w in l.alive && Owned(l.kernelOwner, m.lockOf[w], w)
    case ReleaseGuard(w) =>
      w in m.lockOf && Owned(l.publishedOwner, m.lockOf[w], w)
      && Owned(l.kernelOwner, m.lockOf[w], w) && w !in l.released
    case AcquireNextOfSet =>
      (m.locks.status == Idle || m.locks.status == Acquiring)
      && HeldCount(m.locks.held) < |m.locks.held|
    case FinishSet => m.locks.status == Acquiring && HeldCount(m.locks.held) == |m.locks.held|
    case FailSetAndUnwind =>
      (m.locks.status == Idle || m.locks.status == Acquiring)
      && HeldCount(m.locks.held) < |m.locks.held|
    case ReleaseSet => m.locks.status == Complete
  }

  function NextLife(m: Model, a: Action): Life
    requires Enabled(m, a)
  {
    var l := m.life;
    match a
    case StartQueued(w) =>
      l.(started := l.started + {w}, active := l.active + {w}, alive := l.alive + {w})
    case CancelBeforeGrant(w) =>
      l.(alive := l.alive - {w}, abandoned := l.abandoned + {w}, cancelled := l.cancelled + {w})
    case TimeoutBeforeGrant(w) =>
      l.(alive := l.alive - {w}, abandoned := l.abandoned + {w}, timedOut := l.timedOut + {w})
    case NativeGrant(w) =>
      if w in l.alive
      then l.(active := l.active - {w}, completed := l.completed + {w}, ready := l.ready + {w},
              kernelOwner := l.kernelOwner[m.lockOf[w] := w])
      else l.(active := l.active - {w}, completed := l.completed + {w}, detached := l.detached + {w})
    case DeliverGuard(w) =>
      l.(ready := l.ready - {w}, alive := l.alive - {w}, delivered := l.delivered + {w},
         publishedOwner := l.publishedOwner[m.lockOf[w] := w])
    case CancelReadyResult(w) =>
      l.(ready := l.ready - {w}, alive := l.alive - {w}, abandoned := l.abandoned + {w},
         cancelled := l.cancelled + {w}, detached := l.detached + {w},
         kernelOwner := l.kernelOwner - {m.lockOf[w]})
    case TimeoutReadyResult(w) =>
      l.(ready := l.ready - {w}, alive := l.alive - {w}, abandoned := l.abandoned + {w},
         timedOut := l.timedOut + {w}, detached := l.detached + {w},
         kernelOwner := l.kernelOwner - {m.lockOf[w]})
    case ReleaseGuard(w) =>
      l.(released := l.released + {w}, kernelOwner := l.kernelOwner - {m.lockOf[w]},
         publishedOwner := l.publishedOwner - {m.lockOf[w]})
    case _ => l
  }

  function NextLocks(s: LockSet, a: Action): LockSet {
    match a
    case AcquireNextOfSet =>
      var n := HeldCount(s.held);
      if n < |s.held| then LockSet(Acquiring, s.held[n := true]) else s
    case FinishSet => s.(status := Complete)
    case FailSetAndUnwind => LockSet(Unwound, NoneHeld(|s.held|))
    case ReleaseSet => LockSet(SetReleased, NoneHeld(|s.held|))
    case _ => s
  }

  function Next(m: Model, a: Action): Model
    requires Enabled(m, a)
  {
    m.(life := NextLife(m, a), locks := NextLocks(m.locks, a))
  }

  ghost predicate Runs(m: Model, actions: seq<Action>, n: Model)
    decreases |actions|
  {
    if actions == [] then m == n
    else Enabled(m, actions[0]) && Runs(Next(m, actions[0]), actions[1..], n)
  }

  // ----- waiter_lifecycle_safety, conjunct by conjunct

  predicate SetsNest(l: Life) {
    && l.active <= l.started && l.alive <= l.started && l.ready <= l.completed
    && l.completed <= l.started && l.abandoned <= l.started
    && l.detached <= l.completed && l.delivered <= l.completed && l.released <= l.delivered
    && l.active !! l.completed && l.ready !! l.abandoned && l.delivered !! l.abandoned
    && l.timedOut !! l.cancelled
  }

  predicate ReasonsAreAbandonments(l: Life) {
    l.timedOut <= l.abandoned && l.cancelled <= l.abandoned
  }

  predicate WaiterSetsAreWellFormed(l: Life) {
    SetsNest(l) && ReasonsAreAbandonments(l)
  }

  predicate WaiterCapIsBounded(active: set<nat>, cap: nat) {
    |active| <= cap
  }

  /** At a lock: free and nothing stored or published for it, or owned by one
      waiter whose result is either stored or published. */
  ghost predicate OwnershipIsExclusiveAt(l: Life, p: Lock) {
    && (p in l.publishedOwner ==> Owned(l.kernelOwner, p, l.publishedOwner[p]))
    && (p in l.kernelOwner ==>
          (l.kernelOwner[p] in l.ready) != (p in l.publishedOwner))
  }

  predicate AbandonedDeliveryIsImpossible(l: Life) {
    l.delivered !! l.abandoned && l.detached * l.abandoned == l.abandoned * l.completed
  }

  predicate TerminalReasonIsUnique(l: Life) {
    l.timedOut !! l.cancelled
  }

  predicate OrderedLockSetIsSafe(s: LockSet) {
    && (forall i, j :: 0 <= i < j < |s.held| && s.held[j] ==> s.held[i])
    && (s.status == Idle ==> forall k :: 0 <= k < |s.held| ==> !s.held[k])
    && (s.status == Acquiring ==> s.held != [] && s.held[0])
    && (s.status == Complete ==> forall k :: 0 <= k < |s.held| ==> s.held[k])
    && (s.status == Unwound || s.status == SetReleased ==>
          forall k :: 0 <= k < |s.held| ==> !s.held[k])
  }

  ghost predicate WaiterLifecycleSafety(m: Model) {
    && WaiterSetsAreWellFormed(m.life)
    && WaiterCapIsBounded(m.life.active, m.cap)
    && (forall p :: OwnershipIsExclusiveAt(m.life, p))
    && AbandonedDeliveryIsImpossible(m.life)
    && TerminalReasonIsUnique(m.life)
    && OrderedLockSetIsSafe(m.locks)
  }

  /** What has to be added to make it inductive: where an owner comes from, and
      that a waiter is alive, abandoned or delivered, as far as it got. */
  ghost predicate PublishedAreWaiters(lockOf: map<nat, Lock>, l: Life) {
    forall p :: p in l.publishedOwner ==>
      l.publishedOwner[p] in l.delivered - l.released && WaitsFor(lockOf, l.publishedOwner[p], p)
  }

  ghost predicate OwnersAreWaiters(lockOf: map<nat, Lock>, l: Life) {
    forall p :: p in l.kernelOwner ==> WaitsFor(lockOf, l.kernelOwner[p], p)
  }

  ghost predicate ReadyOwns(lockOf: map<nat, Lock>, l: Life) {
    forall w :: w in l.ready ==> w in lockOf && Owned(l.kernelOwner, lockOf[w], w)
  }

  predicate FatesAreSettled(l: Life) {
    && l.alive !! l.abandoned && l.alive !! l.delivered
    && l.ready <= l.alive && l.detached <= l.abandoned
    && l.alive <= l.active + l.ready
    && l.started <= l.alive + l.abandoned + l.delivered
    && l.started <= l.active + l.completed
  }

  ghost predicate Inductive(m: Model) {
    && m.cap >= 1 && m.life.started <= m.lockOf.Keys
    && WaiterLifecycleSafety(m) && FatesAreSettled(m.life)
    && PublishedAreWaiters(m.lockOf, m.life) && OwnersAreWaiters(m.lockOf, m.life)
    && ReadyOwns(m.lockOf, m.life)
  }

  lemma {:induction false} HeldCountPrefix(held: seq<bool>)
    ensures forall k :: 0 <= k < HeldCount(held) ==> held[k]
    ensures HeldCount(held) < |held| ==> !held[HeldCount(held)]
  {
    if held != [] && held[0] {
      HeldCountPrefix(held[1..]);
      assert forall k :: 0 < k < |held| ==> held[k] == held[1..][k - 1];
    }
  }

  lemma LockSetStep(m: Model, a: Action)
    requires OrderedLockSetIsSafe(m.locks) && Enabled(m, a)
    ensures OrderedLockSetIsSafe(NextLocks(m.locks, a))
  {
    HeldCountPrefix(m.locks.held);
  }

  lemma CapStep(m: Model, a: Action)
    requires Inductive(m) && Enabled(m, a)
    ensures WaiterCapIsBounded(NextLife(m, a).active, m.cap)
  {
    if a.NativeGrant? {
      assert m.life.active == (m.life.active - {a.w}) + {a.w};
    }
  }

  lemma OwnershipStep(m: Model, a: Action)
    requires Inductive(m) && Enabled(m, a)
    ensures forall p :: OwnershipIsExclusiveAt(NextLife(m, a), p)
  {
    forall p
      ensures OwnershipIsExclusiveAt(NextLife(m, a), p)
    {
      assert OwnershipIsExclusiveAt(m.life, p);
    }
  }

  lemma OwnersStep(m: Model, a: Action)
    requires Inductive(m) && Enabled(m, a)
    ensures OwnersAreWaiters(m.lockOf, NextLife(m, a))
  {
  }

  lemma ReadyStep(m: Model, a: Action)
    requires Inductive(m) && Enabled(m, a)
    ensures ReadyOwns(m.lockOf, NextLife(m, a))
  {
    var l := NextLife(m, a);
    forall w | w in l.ready
      ensures w in m.lockOf && Owned(l.kernelOwner, m.lockOf[w], w)
    {
      if w in m.life.ready && a.ReleaseGuard? {
        assert OwnershipIsExclusiveAt(m.life, m.lockOf[w]);
      }
    }
  }

  lemma PublishedStep(m: Model, a: Action)
    requires Inductive(m) && Enabled(m, a)
    ensures PublishedAreWaiters(m.lockOf, NextLife(m, a))
  {
  }

  lemma WellFormedStep(m: Model, a: Action)
    requires Inductive(m) && Enabled(m, a)
    ensures WaiterSetsAreWellFormed(NextLife(m, a))
  {
  }

  lemma FatesStep(m: Model, a: Action)
    requires Inductive(m) && Enabled(m, a)
    ensures FatesAreSettled(NextLife(m, a))
  {
  }

  lemma AbandonedStep(m: Model, a: Action)
    requires Inductive(m) && Enabled(m, a)
    ensures AbandonedDeliveryIsImpossible(NextLife(m, a))
  {
    var l := NextLife(m, a);
    WellFormedStep(m, a);
    forall w
      ensures w in l.detached * l.abandoned <==> w in l.abandoned * l.completed
    {
      assert w in m.life.detached * m.life.abandoned <==> w in m.life.abandoned * m.life.completed;
    }
  }

  lemma StepIsSafe(m: Model, a: Action)
    requires Inductive(m) && Enabled(m, a)
    ensures Inductive(Next(m, a))
  {
    LockSetStep(m, a);
    CapStep(m, a);
    OwnershipStep(m, a);
    OwnersStep(m, a);
    ReadyStep(m, a);
    PublishedStep(m, a);
    WellFormedStep(m, a);
    FatesStep(m, a);
    AbandonedStep(m, a);
  }

  /** `waiter_lifecycle_safety` in every state of every run, unbounded. */
  lemma {:induction false} LifecycleSafety(m: Model, actions: seq<Action>, n: Model)
    requires (Init(m) || Inductive(m)) && Runs(m, actions, n)
    ensures Inductive(n) && WaiterLifecycleSafety(n)
    decreases |actions|
  {
    if actions != [] {
      StepIsSafe(m, actions[0]);
      LifecycleSafety(Next(m, actions[0]), actions[1..], n);
    }
  }

  // ----- the sets and the history

  predicate Cancelled(actions: seq<Action>, w: nat) {
    CancelBeforeGrant(w) in actions || CancelReadyResult(w) in actions
  }

  predicate TimedOut(actions: seq<Action>, w: nat) {
    TimeoutBeforeGrant(w) in actions || TimeoutReadyResult(w) in actions
  }

  /** What these actions on a waiter add to the sets. */
  predicate Recorded(l: Life, actions: seq<Action>, n: Life, w: nat) {
    && (w in n.started <==> w in l.started || StartQueued(w) in actions)
    && (w in n.completed <==> w in l.completed || NativeGrant(w) in actions)
    && (w in n.delivered <==> w in l.delivered || DeliverGuard(w) in actions)
    && (w in n.released <==> w in l.released || ReleaseGuard(w) in actions)
    && (w in n.cancelled <==> w in l.cancelled || Cancelled(actions, w))
    && (w in n.timedOut <==> w in l.timedOut || TimedOut(actions, w))
    && (w in n.abandoned <==> w in l.abandoned || Cancelled(actions, w) || TimedOut(actions, w))
  }

  lemma OneIsRecorded(m: Model, a: Action, w: nat)
    requires Enabled(m, a)
    ensures Recorded(m.life, [a], NextLife(m, a), w)
  {
  }

  lemma RecordsChain(l: Life, first: seq<Action>, k: Life, rest: seq<Action>, n: Life, w: nat)
    requires Recorded(l, first, k, w) && Recorded(k, rest, n, w)
    ensures Recorded(l, first + rest, n, w)
  {
  }

  lemma {:induction false} RunIsRecorded(m: Model, actions: seq<Action>, n: Model, w: nat)
    requires Runs(m, actions, n)
    ensures Recorded(m.life, actions, n.life, w)
    decreases |actions|
  {
    if actions != [] {
      var next := Next(m, actions[0]);
      RunIsRecorded(next, actions[1..], n, w);
      OneIsRecorded(m, actions[0], w);
      RecordsChain(m.life, [actions[0]], next.life, actions[1..], n.life, w);
      assert actions == [actions[0]] + actions[1..];
    }
  }

  /** The sets are the history: in every run, a waiter is in each exactly by what was
      done to it, and the four that shrink again are what those leave. */
  lemma HistoryExactly(m: Model, actions: seq<Action>, n: Model, w: nat)
    requires Init(m) && Runs(m, actions, n)
    ensures w in n.life.started <==> StartQueued(w) in actions
    ensures w in n.life.completed <==> NativeGrant(w) in actions
    ensures w in n.life.delivered <==> DeliverGuard(w) in actions
    ensures w in n.life.released <==> ReleaseGuard(w) in actions
    ensures w in n.life.cancelled <==> CancelBeforeGrant(w) in actions || CancelReadyResult(w) in actions
    ensures w in n.life.timedOut <==> TimeoutBeforeGrant(w) in actions || TimeoutReadyResult(w) in actions
    ensures w in n.life.abandoned <==> w in n.life.cancelled || w in n.life.timedOut
    ensures w in n.life.active <==> w in n.life.started && w !in n.life.completed
    ensures w in n.life.alive <==> w in n.life.started && w !in n.life.abandoned && w !in n.life.delivered
    ensures w in n.life.ready <==> w in n.life.completed && w !in n.life.abandoned && w !in n.life.delivered
    ensures w in n.life.detached <==> w in n.life.completed && w in n.life.abandoned
  {
    RunIsRecorded(m, actions, n, w);
    LifecycleSafety(m, actions, n);
    SetsFollow(n.life, w);
  }

  lemma SetsFollow(l: Life, w: nat)
    requires WaiterSetsAreWellFormed(l) && AbandonedDeliveryIsImpossible(l) && FatesAreSettled(l)
    ensures w in l.active <==> w in l.started && w !in l.completed
    ensures w in l.alive <==> w in l.started && w !in l.abandoned && w !in l.delivered
    ensures w in l.ready <==> w in l.completed && w !in l.abandoned && w !in l.delivered
    ensures w in l.detached <==> w in l.completed && w in l.abandoned
  {
    assert w in l.detached * l.abandoned <==> w in l.abandoned * l.completed;
  }
}
