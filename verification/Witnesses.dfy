/** Runs that show where the obvious stronger claims fail, each with the claim
    that does hold. */
module ProtocolWitnesses {
  import opened LockOrder
  import opened WaitSlots
  import opened WaiterProtocol
  import opened ProtocolCoherence
  import opened ProtocolGuarantees
  import opened CodeLifecycle
  import L = WaiterLifecycle

  /** One more step of a reachable state. */
  lemma Go(t: State, r: nat, a: Action) returns (n: State)
    requires Reachable(t) && Enabled(t, r, a)
    ensures Reachable(n) && Shaped(n) && n == Next(t, r, a)
  {
    n := Next(t, r, a);
    assert StepOf(t, r, a, n);
    ReachableStepped(t, n);
    ReachableInvariant(n);
  }

  /** The step neither changes nor asks for anything shared. */
  predicate Quiet(q: Req, a: Action) {
    EffectOf(q, a) == NoEffect && a != RejectAtCap && a != ReserveRefused && a != Contend
  }

  /** A step that concerns only its own request. */
  lemma Quietly(t: State, r: nat, a: Action, before: Req, after: Req) returns (n: State)
    requires Reachable(t) && Shaped(t) && r < |t.reqs| && t.reqs[r] == before
    requires LocalEnabled(before, a) && Quiet(before, a) && LocalNext(before, a) == after
    ensures Reachable(n) && Shaped(n) && n == t.(reqs := t.reqs[r := after]) && n.reqs[r] == after
  {
    n := Go(t, r, a);
  }

  function Start(cfgs: seq<Config>): State {
    State(seq(|cfgs|, i requires 0 <= i < |cfgs| => NewReq(cfgs[i])), [Manager(1, 0, {})], map[])
  }

  lemma StartIsReachable(cfgs: seq<Config>)
    requires forall i :: 0 <= i < |cfgs| ==> cfgs[i].mgr == 0
    ensures Reachable(Start(cfgs))
  {
    assert Initial(Start(cfgs)) && Run([Start(cfgs)]);
  }

  /** A queueing request from its start up to the kernel call. */
  lemma RunToKernel(t: State, r: nat) returns (n: State)
    requires Reachable(t) && Shaped(t) && r < |t.reqs|
    requires t.reqs[r].cfg.policy == Queue && t.reqs[r].cfg.api != Trying
    requires t.reqs[r].phase == Fresh && (Direct(t.reqs[r]) || t.reqs[r].worker == Running)
    ensures Reachable(n) && Shaped(n)
    ensures n == t.(reqs := t.reqs[r := AtKernel(t.reqs[r])])
  {
    var q := t.reqs[r];
    var q1 := LocalNext(q, Begin);
    n := Quietly(t, r, Begin, q, q1);
    n := Quietly(n, r, Opened, q1, q1.(phase := Reserving));
    n := Quietly(n, r, Reserve, q1.(phase := Reserving), AtKernel(q));
    assert n.reqs == t.reqs[r := AtKernel(q)];
  }

  function AtKernel(q: Req): Req {
    q.(phase := InKernel,
       ledger := q.ledger.(runs := q.ledger.runs + 1, calls := q.ledger.calls + 1),
       seen := q.seen.(waiting := q.seen.waiting + 1))
  }

  /** The kernel grants a free path. */
  lemma RunToGrant(t: State, r: nat) returns (n: State)
    requires Reachable(t) && Shaped(t) && r < |t.reqs|
    requires t.reqs[r].cfg.policy == Queue && t.reqs[r].cfg.api != Trying
    requires t.reqs[r].phase == Fresh && (Direct(t.reqs[r]) || t.reqs[r].worker == Running)
    requires t.reqs[r].cfg.path !in t.kernel
    ensures Reachable(n) && Shaped(n)
    ensures n == t.(reqs := t.reqs[r := AtKernel(t.reqs[r]).(phase := Granted)],
                    kernel := t.kernel[t.reqs[r].cfg.path := r])
  {
    var q := AtKernel(t.reqs[r]);
    n := RunToKernel(t, r);
    n := RunGrant(n, r, q);
    assert n.reqs == t.reqs[r := q.(phase := Granted)];
  }

  lemma RunGrant(t: State, r: nat, q: Req) returns (n: State)
    requires Reachable(t) && Shaped(t) && r < |t.reqs| && t.reqs[r] == q
    requires q.phase == InKernel && q.cfg.path !in t.kernel
    ensures Reachable(n) && Shaped(n)
    ensures n == t.(reqs := t.reqs[r := q.(phase := Granted)], kernel := t.kernel[q.cfg.path := r])
  {
    n := Go(t, r, Grant);
  }

  /** The worker owns the lock before anything is published: a reachable state in
      which `ownership_is_exclusive` of the finite model is false. */
  lemma WorkerOwnsBeforePublication(p: Path)
    ensures exists t :: Reachable(t) && (forall q :: q in t.kernel ==> t.kernel[q] < |t.reqs|)
                        && !L.OwnershipIsExclusiveAt(Project(t), p)
  {
    var cfgs := [Config(p, 0, Queue, Waiter)];
    StartIsReachable(cfgs);
    var t := Go(Start(cfgs), 0, Admit);
    t := Go(t, 0, Spawn);
    t := RunToGrant(t, 0);
    OwnershipExactly(t, p);
    assert BetweenHands(t.reqs[0]);
  }

  /** A request whose guard is announced and not yet reported released. */
  predicate OpenInLog(t: State, i: nat, p: Path) {
    i < |t.reqs| && t.reqs[i].cfg.path == p
    && t.reqs[i].seen.acquired == 1 && t.reqs[i].seen.released == 0
  }

  /** From its grant, a direct request announces, unlocks, and has still to report
      the release. */
  lemma RunToUnlocked(t: State, r: nat) returns (n: State)
    requires Reachable(t) && Shaped(t) && r < |t.reqs| && Direct(t.reqs[r])
    requires t.reqs[r].phase == Granted && t.reqs[r].worker == NoWorker
    ensures Reachable(n) && Shaped(n)
    ensures n == t.(reqs := t.reqs[r := AtUnlocked(t.reqs[r])], kernel := t.kernel - {t.reqs[r].cfg.path})
  {
    var q := AtUnlocked(t.reqs[r]);
    n := Quietly(t, r, Announce, t.reqs[r], q.(phase := Holding(InCaller)));
    n := RunFromHolding(n, r, q);
    assert n.reqs == t.reqs[r := q];
  }

  lemma RunFromHolding(t: State, r: nat, q: Req) returns (n: State)
    requires Reachable(t) && Shaped(t) && r < |t.reqs| && t.reqs[r] == q.(phase := Holding(InCaller))
    requires q.phase == Unlocked
    ensures Reachable(n) && Shaped(n)
    ensures n == t.(reqs := t.reqs[r := q], kernel := t.kernel - {q.cfg.path})
  {
    n := Quietly(t, r, Release, t.reqs[r], q.(phase := Unlocking));
    n := RunUnlock(n, r, q);
    assert n.reqs == t.reqs[r := q];
  }

  lemma RunUnlock(t: State, r: nat, q: Req) returns (n: State)
    requires Reachable(t) && Shaped(t) && r < |t.reqs| && t.reqs[r] == q.(phase := Unlocking)
    requires q.phase == Unlocked
    ensures Reachable(n) && Shaped(n)
    ensures n == t.(reqs := t.reqs[r := q], kernel := t.kernel - {q.cfg.path})
  {
    NextUnlock(t, r, q);
    n := Go(t, r, Unlock);
  }

  lemma NextUnlock(t: State, r: nat, q: Req)
    requires Shaped(t) && r < |t.reqs| && t.reqs[r] == q.(phase := Unlocking) && q.phase == Unlocked
    ensures Enabled(t, r, Unlock)
    ensures Next(t, r, Unlock) == t.(reqs := t.reqs[r := q], kernel := t.kernel - {q.cfg.path})
  {
  }

  function AtUnlocked(q: Req): Req {
    q.(phase := Unlocked, seen := q.seen.(acquired := q.seen.acquired + 1))
  }

  /** Released is emitted after the unlock, so the event log can show two owners. */
  lemma LogCanShowTwoOwners(p: Path)
    ensures exists t :: Reachable(t) && OpenInLog(t, 0, p) && OpenInLog(t, 1, p)
  {
    var cfg := Config(p, 0, Queue, Blocking);
    StartIsReachable([cfg, cfg]);
    var t := RunToGrant(Start([cfg, cfg]), 0);
    t := RunToUnlocked(t, 0);
    assert t.reqs[0] == AtUnlocked(AtKernel(NewReq(cfg)).(phase := Granted));
    assert t.reqs[1] == NewReq(cfg);
    t := RunToGrant(t, 1);
    t := RunToUnlocked(t, 1);
    assert t.reqs[1] == AtUnlocked(AtKernel(NewReq(cfg)).(phase := Granted));
    assert OpenInLog(t, 0, p) && OpenInLog(t, 1, p);
  }

  /** The kernel lock is gone and the release has still to be reported. */
  predicate Unreported(t: State, i: nat, p: Path) {
    i < |t.reqs| && t.reqs[i].cfg.path == p
    && (t.reqs[i].phase == Unlocked || t.reqs[i].phase == Unreserved)
  }

  lemma OpenFits(t: State, i: nat, p: Path)
    requires AllCoherent(t)
    ensures Unreported(t, i, p) ==> OpenInLog(t, i, p)
    ensures OpenInLog(t, i, p) ==> Unreported(t, i, p) || Owner(t, i, p)
  {
    if i < |t.reqs| {
      assert Coherent(t.reqs[i]);
    }
  }

  lemma OverlapHasUnreported(t: State, i: nat, j: nat, p: Path)
    requires AllCoherent(t) && KernelAgrees(t)
    requires i != j && OpenInLog(t, i, p) && OpenInLog(t, j, p)
    ensures Unreported(t, i, p) || Unreported(t, j, p)
  {
    OpenFits(t, i, p);
    OpenFits(t, j, p);
  }

  /** The log shows two owners of a path exactly while a request on it has unlocked,
      has not reported that, and is not the only one that the log shows. */
  lemma LogOverlapExactly(t: State, p: Path)
    requires Reachable(t)
    ensures (exists i: nat, j: nat :: i != j && OpenInLog(t, i, p) && OpenInLog(t, j, p))
            <==> exists i: nat, j: nat :: i != j && Unreported(t, i, p) && OpenInLog(t, j, p)
  {
    ReachableInvariant(t);
    if exists i: nat, j: nat :: i != j && OpenInLog(t, i, p) && OpenInLog(t, j, p) {
      var i: nat, j: nat :| i != j && OpenInLog(t, i, p) && OpenInLog(t, j, p);
      OverlapHasUnreported(t, i, j, p);
    }
    if exists i: nat, j: nat :: i != j && Unreported(t, i, p) && OpenInLog(t, j, p) {
      var i: nat, j: nat :| i != j && Unreported(t, i, p) && OpenInLog(t, j, p);
      OpenFits(t, i, p);
    }
  }

  /** And never two that own it. */
  lemma LogOverlapIsNotOwnership(t: State, i: nat, j: nat, p: Path)
    requires Reachable(t) && OpenInLog(t, i, p) && OpenInLog(t, j, p) && i != j
    ensures Owns(t.reqs[i]) ==> Unreported(t, j, p)
  {
    ReachableInvariant(t);
    OpenFits(t, j, p);
  }

  /** A granted worker announces, returns and publishes to a live receiver. */
  lemma RunToPublished(t: State, r: nat) returns (n: State)
    requires Reachable(t) && Shaped(t) && r < |t.reqs|
    requires t.reqs[r].phase == Granted && t.reqs[r].worker == Running && t.reqs[r].slot == NewSlot()
    ensures Reachable(n) && Shaped(n)
    ensures |n.reqs| == |t.reqs| && n.reqs[r] == AtPublished(t.reqs[r])
  {
    var q := AtPublished(t.reqs[r]);
    var held := q.(phase := Holding(InWorker), slot := NewSlot());
    n := Quietly(t, r, Announce, t.reqs[r], held.(worker := Running));
    n := Go(n, r, ReturnPermit);
    n := Quietly(n, r, Settle, held.(worker := Returned), q);
  }

  function AtPublished(q: Req): Req {
    q.(phase := Holding(InSlot), worker := Committed(None), slot := NewSlot().(result := Some(true)),
       seen := q.seen.(acquired := q.seen.acquired + 1))
  }

  /** A deadline passes with the slot empty, the worker publishes, and only then is
      the waiter dropped: TimedOut, Acquired and a published result coexist. */
  lemma PublishedAfterDeadline(p: Path)
    ensures exists t :: Reachable(t) && |t.reqs| == 1 && t.reqs[0].receiver == Announced
                        && t.reqs[0].seen.timedOut == 1 && t.reqs[0].seen.acquired == 1
                        && t.reqs[0].slot.result == Some(true)
  {
    var cfg := Config(p, 0, Queue, Timed);
    StartIsReachable([cfg]);
    var t := RunToExpired(cfg);
    t := RunToGrant(t, 0);
    t := RunToPublished(t, 0);
    var q := t.reqs[0];
    t := Quietly(t, 0, EmitTimedOut, q, q.(receiver := Announced, seen := q.seen.(timedOut := 1)));
    assert t.reqs[0].slot.result == Some(true);
  }

  lemma RunToExpired(cfg: Config) returns (n: State)
    requires cfg.api == Timed && cfg.mgr == 0
    requires Reachable(Start([cfg]))
    ensures Reachable(n) && Shaped(n) && n.kernel == map[]
    ensures n.reqs == [NewReq(cfg).(worker := Running, receiver := Expired, handle := NewHandle())]
  {
    n := Go(Start([cfg]), 0, Admit);
    assert n.reqs[0] == NewReq(cfg).(worker := Spawning);
    n := RunFromSpawning(n, cfg);
  }

  lemma RunFromSpawning(t: State, cfg: Config) returns (n: State)
    requires Reachable(t) && Shaped(t) && cfg.api == Timed
    requires |t.reqs| == 1 && t.reqs[0] == NewReq(cfg).(worker := Spawning)
    ensures Reachable(n) && Shaped(n) && n.kernel == t.kernel
    ensures n.reqs == [NewReq(cfg).(worker := Running, receiver := Expired, handle := NewHandle())]
  {
    var q := NewReq(cfg).(worker := Running, receiver := Pending(false, None, false), handle := NewHandle());
    n := Quietly(t, 0, Spawn, t.reqs[0], q);
    n := Quietly(n, 0, TimeOut, q, q.(receiver := Expired));
  }
}
