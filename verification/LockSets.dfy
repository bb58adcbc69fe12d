/** `acquire_blocking`, guard release and `acquire_many_blocking` on one thread, step by
    step on the shared tables, with other threads running in between. */
module LockSets {
  import opened LockOrder
  import opened LockCalls
  import opened SetOrder
  import P = WaiterProtocol

  type Canon = Path -> Path

  /** `StillWaiting`: asleep in the kernel call for the request at this index, with
      the guards before it in hand. */
  datatype SetOutcome =
    | Held(guards: seq<Guard>)
    | CanonicalizationFailed
    | DuplicateIdentity
    | Stopped(index: nat, verdict: Verdict)
    | StillWaiting(index: nat, guards: seq<Guard>)

  function Canonical(rs: seq<Request>, canon: Canon): seq<Request> {
    seq(|rs|, i requires 0 <= i < |rs| => rs[i].(path := canon(rs[i].path)))
  }

  /** One thread, and the two tables that it shares: the reservations of its manager
      and the kernel's locks. `mine` and `myReserved` are what its guards have. */
  class LockThread {
    const key: KeyFn
    const canon: Canon
    const order: HeldOrder
    var reserved: set<Path>
    var owned: set<Path>
    var mine: set<Path>
    var myReserved: set<Path>
    var log: seq<Event>

    predicate Valid()
      reads this
    {
      mine <= owned && myReserved <= reserved
    }

    function State(): Own
      reads this, order
    {
      Own(mine, myReserved, order.held, log)
    }

    function Others(): World
      reads this
    {
      World(owned - mine, reserved - myReserved)
    }

    constructor (key: KeyFn, canon: Canon, order: HeldOrder, others: World)
      ensures this.key == key && this.canon == canon && this.order == order
      ensures Valid() && State() == Own({}, {}, order.held, []) && Others() == others
    {
      this.key, this.canon, this.order := key, canon, order;
      reserved, owned := others.reserved, others.owned;
      mine, myReserved, log := {}, {}, [];
    }

    /** Other threads have run: they may have changed everything but what is ours. */
    method Meet(others: World)
      requires Valid()
      modifies this`owned, this`reserved
      ensures Valid() && Others() == Clear(others, State())
      ensures owned == mine + others.owned && reserved == myReserved + others.reserved
    {
      owned := mine + others.owned;
      reserved := myReserved + others.reserved;
    }

    method Emit(kind: EventKind, path: Path)
      modifies this`log
      ensures log == old(log) + [Event(kind, path)]
    {
      log := log + [Event(kind, path)];
    }

    /** `reserve_if_required`, meeting the others as it takes the mutex. */
    method ReserveIfRequired(r: Request, others: World) returns (ok: bool)
      requires Valid()
      modifies this`owned, this`reserved, this`myReserved
      ensures Valid()
      ensures ok <==> !(r.policy == P.Reject && (r.path in old(myReserved) || r.path in others.reserved))
      ensures State() == if ok then Reserved(old(State()), r) else old(State())
      ensures !ok ==> Others() == Clear(others, State())
    {
      Meet(others);
      if r.policy == P.Reject {
        if r.path in reserved {
          return false;
        }
        reserved, myReserved := reserved + {r.path}, myReserved + {r.path};
      }
      ok := true;
    }

    method RemoveReservation(reservation: bool, path: Path)
      requires Valid() && (reservation ==> path in myReserved)
      modifies this`reserved, this`myReserved
      ensures Valid() && Others() == old(Others())
      ensures myReserved == if reservation then old(myReserved) - {path} else old(myReserved)
    {
      if reservation {
        reserved, myReserved := reserved - {path}, myReserved - {path};
      }
    }

    /** The blocking descriptor-lock call, meeting the others as it is decided. */
    method LockExclusive(path: Path, fails: bool, others: World) returns (verdict: Verdict)
      requires Valid()
      modifies this`owned, this`reserved, this`mine
      ensures Valid()
      ensures verdict == if fails then KernelError
                         else if path in old(mine) || path in others.owned then Blocked else Granted
      ensures mine == if verdict == Granted then old(mine) + {path} else old(mine)
      ensures Others() == Clear(others, old(State()))
    {
      Meet(others);
      if fails {
        return KernelError;
      }
      if path in owned {
        return Blocked;
      }
      owned, mine := owned + {path}, mine + {path};
      return Granted;
    }

    /** `acquire_blocking`: everything but the events is about the canonical path. Which
        verdict comes when, what each leaves this thread with, and what the others. */
    method AcquireBlocking(r: Request, m: Meeting) returns (verdict: Verdict, guard: Guard)
      requires Valid()
      modifies this, order
      ensures Valid()
      ensures var path, rank := canon(r.path), r.lockClass.Rank();
              var inverted := exists e :: e in old(order.held) &&
                                (e.rank > rank || (e.rank == rank && LexLess(key(path), key(e.path))));
              var taken := r.policy == P.Reject && (path in old(myReserved) || path in m.atReserve.reserved);
              var busy := path in old(mine) || path in m.atKernel.owned;
              && (verdict == OpenError <==> m.fault == OpenFault)
              && (verdict == Inversion <==> m.fault != OpenFault && inverted)
              && (verdict == SameProcess <==> m.fault != OpenFault && !inverted && taken)
              && (verdict == KernelError <==> m.fault == KernelFault && !inverted && !taken)
              && (verdict == Blocked <==> m.fault == NoFault && !inverted && !taken && busy)
              && (verdict == Granted <==> m.fault == NoFault && !inverted && !taken && !busy)
      ensures verdict == Granted ==>
                && guard == Guard(canon(r.path), r.lockClass, r.policy == P.Reject)
                && mine == old(mine) + {canon(r.path)}
                && order.held == old(order.held) + [Entry(r.lockClass.Rank(), canon(r.path))]
                && log == old(log) + [Event(Waiting, r.path), Event(Acquired, r.path)]
      ensures verdict != Granted ==>
                && mine == old(mine) && order.held == old(order.held)
                && log == old(log) + if verdict == Blocked then [Event(Waiting, r.path)]
                                     else [Event(Waiting, r.path), Event(Failed, r.path)]
      ensures myReserved == if r.policy == P.Reject && (verdict == Granted || verdict == Blocked)
                            then old(myReserved) + {canon(r.path)} else old(myReserved)
      ensures verdict == Judge(old(State()), r.(path := canon(r.path)), m, key)
      ensures Others() == OthersAfter(old(Others()), old(State()), r.(path := canon(r.path)), m, verdict)
    {
      var resolved := r.(path := canon(r.path));
      guard := GuardFor(resolved);
      Emit(Waiting, r.path);
      verdict := Attempt(resolved, m);
      VerdictsExactly(old(State()), resolved, m, key);
      if verdict == Granted {
        order.Register(EntryOf(resolved));
        Emit(Acquired, r.path);
      } else if verdict != Blocked {
        Emit(Failed, r.path);
      }
    }

    /** The steps between the events: open, check, reserve, lock; a reservation is given
        back before the failure is reported. */
    method Attempt(r: Request, m: Meeting) returns (verdict: Verdict)
      requires Valid()
      modifies this`owned, this`mine, this`reserved, this`myReserved
      ensures Valid()
      ensures verdict == Judge(old(State()), r, m, key)
      ensures mine == if verdict == Granted then old(mine) + {r.path} else old(mine)
      ensures myReserved == if verdict == Granted || verdict == Blocked then Reserved(old(State()), r).reserved
                            else old(myReserved)
      ensures Others() == OthersAfter(old(Others()), old(State()), r, m, verdict)
    {
      if m.fault == OpenFault {
        return OpenError;
      }
      var inOrder := order.CheckLockOrder(r.lockClass.Rank(), r.path, key);
      if !inOrder {
        return Inversion;
      }
      var ok := ReserveIfRequired(r, m.atReserve);
      if !ok {
        return SameProcess;
      }
      verdict := LockExclusive(r.path, m.fault == KernelFault, m.atKernel);
      if verdict == KernelError {
        RemoveReservation(r.policy == P.Reject, r.path);
      }
    }

    /** Explicit release or drop of one guard, meeting the others after its unlock. */
    method Release(g: Guard, others: World)
      requires Valid() && Backed(State(), [g])
      modifies this, order
      ensures Valid() && State() == AfterRelease(old(State()), g)
      ensures mine == old(mine) - {g.path}
      ensures myReserved == if g.reserved then old(myReserved) - {g.path} else old(myReserved)
      ensures order.held == RemoveLast(old(order.held), Entry(g.lockClass.Rank(), g.path))
      ensures log == old(log) + [Event(Released, g.path)]
      ensures Others() == OthersAfterRelease(others, old(State()), g)
    {
      assert [g][0] == g;
      owned, mine := owned - {g.path}, mine - {g.path};
      Meet(others);
      order.Deregister(Entry(g.lockClass.Rank(), g.path));
      RemoveReservation(g.reserved, g.path);
      Emit(Released, g.path);
    }

    /** `unwind_in_reverse`, and the release or drop of a whole set. */
    method UnwindInReverse(guards: seq<Guard>, meets: nat -> World)
      requires Valid() && Backed(State(), guards)
      modifies this, order
      ensures Valid() && State() == Unwind(old(State()), guards)
      ensures Others() == OthersUnwound(old(Others()), old(State()), guards, meets)
    {
      var rest := guards;
      while rest != []
        invariant Valid() && Backed(State(), rest)
        invariant Unwind(State(), rest) == Unwind(old(State()), guards)
        invariant OthersUnwound(Others(), State(), rest, meets)
                  == OthersUnwound(old(Others()), old(State()), guards, meets)
      {
        var n := |rest| - 1;
        var last := rest[n];
        assert Backed(State(), [last]);
        rest := rest[..n];
        Release(last, meets(n));
      }
    }

    /** The first loop of `acquire_many_blocking`. */
    method Canonicalize(requests: seq<Request>, unreadable: set<nat>)
      returns (ok: bool, canonical: seq<Request>)
      ensures ok <==> forall i :: 0 <= i < |requests| ==> i !in unreadable
      ensures ok ==> canonical == Canonical(requests, canon)
    {
      canonical := requests;
      for i := 0 to |requests|
        invariant |canonical| == |requests|
        invariant forall j :: 0 <= j < i ==> j !in unreadable
        invariant forall j :: 0 <= j < |requests| ==>
                    canonical[j] == if j < i then requests[j].(path := canon(requests[j].path)) else requests[j]
      {
        if i in unreadable {
          return false, canonical;
        }
        canonical := canonical[i := canonical[i].(path := canon(canonical[i].path))];
      }
      ok := true;
      assert canonical == Canonical(requests, canon);
    }

    /** The duplicate check of `acquire_many_blocking`. */
    method FindDuplicate(sorted: seq<Request>) returns (found: bool)
      ensures found <==> HasDuplicate(sorted)
    {
      var seen: set<Path> := {};
      for i := 0 to |sorted|
        invariant forall p :: p in seen <==> exists j :: 0 <= j < i && sorted[j].path == p
        invariant forall j, k :: 0 <= j < k < i ==> sorted[j].path != sorted[k].path
      {
        if sorted[i].path in seen {
          return true;
        }
        seen := seen + {sorted[i].path};
      }
      found := false;
    }

    /** Success: every request was granted in sorted order, and each has its guard. */
    ghost predicate HeldAll(start: Own, sorted: seq<Request>, meets: nat -> Meeting,
                            guards: seq<Guard>, end: Own)
    {
      && AllGranted(start, sorted, |sorted|, meets, key)
      && guards == GuardsFor(sorted, |sorted|)
      && end == AfterGrants(start, sorted, |sorted|)
    }

    /** Failure at an index: everything before it was granted and is given back; what
        remains of this thread's part is the trace in the log, with the releases in
        reverse. */
    ghost predicate StoppedAt(start: Own, sorted: seq<Request>, meets: nat -> Meeting,
                              k: nat, verdict: Verdict, end: Own)
    {
      && k < |sorted|
      && AllGranted(start, sorted, k, meets, key)
      && verdict == Judge(AfterGrants(start, sorted, k), sorted[k], meets(k), key)
      && verdict != Granted && verdict != Blocked
      && (verdict == Inversion ==> k == 0)
      && end == start.(log := AfterFailure(AfterGrants(start, sorted, k), sorted[k]).log
                              + ReleaseLog(GuardsFor(sorted, k)))
    }

    /** Asleep at an index, holding everything before it. */
    ghost predicate AsleepAt(start: Own, sorted: seq<Request>, meets: nat -> Meeting,
                             k: nat, guards: seq<Guard>, end: Own)
    {
      && k < |sorted|
      && AllGranted(start, sorted, k, meets, key)
      && Judge(AfterGrants(start, sorted, k), sorted[k], meets(k), key) == Blocked
      && guards == GuardsFor(sorted, k)
      && end == WhileBlocked(AfterGrants(start, sorted, k), sorted[k])
    }

    ghost predicate OutcomeFits(start: Own, sorted: seq<Request>, meets: nat -> Meeting,
                                outcome: SetOutcome, end: Own)
    {
      match outcome
      case Held(guards) => HeldAll(start, sorted, meets, guards, end)
      case Stopped(k, verdict) => StoppedAt(start, sorted, meets, k, verdict, end)
      case StillWaiting(k, guards) => AsleepAt(start, sorted, meets, k, guards, end)
      case _ => false
    }

    /** What the others have then: what they had when last met. */
    ghost predicate OthersFit(before: World, start: Own, sorted: seq<Request>, meets: nat -> Meeting,
                              later: nat -> World, outcome: SetOutcome, after: World)
    {
      match outcome
      case Held(_) =>
        after == OthersAfterGrants(before, start, sorted, |sorted|, meets)
      case Stopped(k, verdict) =>
        k < |sorted| &&
        var v := AfterGrants(start, sorted, k);
        after == OthersUnwound(
                   OthersAfter(OthersAfterGrants(before, start, sorted, k, meets), v, sorted[k], meets(k), verdict),
                   AfterFailure(v, sorted[k]), GuardsFor(sorted, k), later)
      case StillWaiting(k, _) =>
        k < |sorted| && after == Clear(meets(k).atKernel, WhileBlocked(AfterGrants(start, sorted, k), sorted[k]))
      case _ => false
    }

    /** The last loop of `acquire_many_blocking`. */
    method AcquireInOrder(sorted: seq<Request>, meets: nat -> Meeting, later: nat -> World)
      returns (outcome: SetOutcome)
      requires Valid()
      requires forall i :: 0 <= i < |sorted| ==> canon(sorted[i].path) == sorted[i].path
      requires Ordered(sorted, key)
      modifies this, order
      ensures Valid()
      ensures OutcomeFits(old(State()), sorted, meets, outcome, State())
      ensures OthersFit(old(Others()), old(State()), sorted, meets, later, outcome, Others())
    {
      ghost var start, before := State(), Others();
      var guards: seq<Guard> := [];
      for i := 0 to |sorted|
        invariant Valid() && State() == AfterGrants(start, sorted, i)
        invariant Others() == OthersAfterGrants(before, start, sorted, i, meets)
        invariant guards == GuardsFor(sorted, i)
        invariant AllGranted(start, sorted, i, meets, key)
      {
        var verdict, guard := AcquireBlocking(sorted[i], meets(i));
        if verdict == Blocked {
          return StillWaiting(i, guards);
        }
        if verdict != Granted {
          GrantsAreBacked(start, sorted, i, meets, key);
          UnwindInReverse(guards, later);
          StopRestores(start, sorted, i, meets);
          return Stopped(i, verdict);
        }
        guards := guards + [guard];
        GrantExtends(start, sorted, i, meets);
      }
      return Held(guards);
    }

    lemma GrantExtends(start: Own, sorted: seq<Request>, i: nat, meets: nat -> Meeting)
      requires i < |sorted| && AllGranted(start, sorted, i, meets, key)
      requires Judge(AfterGrants(start, sorted, i), sorted[i], meets(i), key) == Granted
      ensures AllGranted(start, sorted, i + 1, meets, key)
      ensures AfterGrants(start, sorted, i + 1) == AfterGrant(AfterGrants(start, sorted, i), sorted[i])
      ensures GuardsFor(sorted, i + 1) == GuardsFor(sorted, i) + [GuardFor(sorted[i])]
    {
      assert GrantedAt(start, sorted, i, meets, key);
    }

    lemma StopRestores(start: Own, sorted: seq<Request>, i: nat, meets: nat -> Meeting)
      requires i < |sorted| && AllGranted(start, sorted, i, meets, key) && Ordered(sorted, key)
      requires var verdict := Judge(AfterGrants(start, sorted, i), sorted[i], meets(i), key);
               verdict != Granted && verdict != Blocked
      ensures var reached := AfterGrants(start, sorted, i);
              StoppedAt(start, sorted, meets, i, Judge(reached, sorted[i], meets(i), key),
                        Unwind(AfterFailure(reached, sorted[i]), GuardsFor(sorted, i)))
    {
      UnwindRestores(start, sorted, i, meets, key,
                     AfterFailure(AfterGrants(start, sorted, i), sorted[i]).log);
      if i > 0 {
        assert GrantedAt(start, sorted, 0, meets, key);
        InversionOnlyAtFirst(start, sorted, i, key);
      }
    }

    /** The guards of a set in hand, and what this thread has because of them. */
    ghost predicate InHand(start: Own, guards: seq<Guard>, end: Own) {
      && end.mine == start.mine + (set g | g in guards :: g.path)
      && end.held == start.held + seq(|guards|, i requires 0 <= i < |guards| =>
                                    Entry(guards[i].lockClass.Rank(), guards[i].path))
      && (forall i, j :: 0 <= i < j < |guards| ==>
            var g, h := guards[i], guards[j];
            g.lockClass.Rank() < h.lockClass.Rank()
            || (g.lockClass.Rank() == h.lockClass.Rank()
                && (key(g.path) == key(h.path) || LexLess(key(g.path), key(h.path)))))
    }

    /** What a success gives for these requests: one guard for each, with its canonical
        path, class and policy, for paths that this thread did not have. */
    ghost predicate AllInHand(start: Own, requests: seq<Request>, guards: seq<Guard>, end: Own) {
      && InHand(start, guards, end)
      && |guards| == |requests|
      && multiset(guards)
         == multiset(seq(|requests|, i requires 0 <= i < |requests| =>
              Guard(canon(requests[i].path), requests[i].lockClass, requests[i].policy == P.Reject)))
      && end.mine == start.mine + (set r | r in requests :: canon(r.path))
      && end.reserved == start.reserved + (set r | r in requests && r.policy == P.Reject :: canon(r.path))
      && (forall r :: r in requests ==> canon(r.path) !in start.mine)
    }

    /** `acquire_many_blocking`: all of the set in ascending order, or nothing of it. In
        terms of the requests: when it fails before it starts, what a success gives, and
        that a failure takes nothing. */
    method AcquireMany(requests: seq<Request>, unreadable: set<nat>, meets: nat -> Meeting, later: nat -> World)
      returns (outcome: SetOutcome)
      requires Valid()
      requires forall p :: canon(canon(p)) == canon(p)
      modifies this, order
      ensures Valid()
      ensures outcome.CanonicalizationFailed? <==> exists i :: 0 <= i < |requests| && i in unreadable
      ensures outcome.DuplicateIdentity? <==>
                !outcome.CanonicalizationFailed?
                && exists i, j :: 0 <= i < j < |requests| && canon(requests[i].path) == canon(requests[j].path)
      ensures match outcome
              case Held(guards) => AllInHand(old(State()), requests, guards, State())
              case StillWaiting(k, guards) => k == |guards| < |requests| && InHand(old(State()), guards, State())
              case _ => State() == old(State()).(log := log)
      ensures outcome.CanonicalizationFailed? || outcome.DuplicateIdentity? ==>
                log == old(log) && Others() == old(Others())
      ensures var sorted := SortRequests(Canonical(requests, canon), key);
              !outcome.CanonicalizationFailed? && !outcome.DuplicateIdentity? ==>
                && OutcomeFits(old(State()), sorted, meets, outcome, State())
                && OthersFit(old(Others()), old(State()), sorted, meets, later, outcome, Others())
                && (outcome.Held? <==>
                      forall k :: 0 <= k < |sorted| ==> Judge(old(State()), sorted[k], meets(k), key) == Granted)
    {
      var ok, canonical := Canonicalize(requests, unreadable);
      if !ok {
        return CanonicalizationFailed;
      }
      var sorted := SortRequests(canonical, key);
      CanonicalSet(requests, canon, sorted);
      var duplicate := FindDuplicate(sorted);
      if duplicate {
        return DuplicateIdentity;
      }
      SortIsOrdered(canonical, key);
      CanonicalPaths(requests, canon, sorted);
      ghost var start := State();
      outcome := AcquireInOrder(sorted, meets, later);
      OutcomeMeans(start, requests, sorted, meets, outcome, State());
    }

    /** What an outcome of the loop says, in terms of the requests. */
    lemma OutcomeMeans(start: Own, requests: seq<Request>, sorted: seq<Request>, meets: nat -> Meeting,
                       outcome: SetOutcome, end: Own)
      requires multiset(sorted) == multiset(Canonical(requests, canon))
      requires Ordered(sorted, key) && !HasDuplicate(sorted)
      requires OutcomeFits(start, sorted, meets, outcome, end)
      ensures match outcome
              case Held(guards) => AllInHand(start, requests, guards, end)
              case StillWaiting(k, guards) => k == |guards| < |requests| && InHand(start, guards, end)
              case _ => end == start.(log := end.log)
      ensures outcome.Held? <==>
                forall k :: 0 <= k < |sorted| ==> Judge(start, sorted[k], meets(k), key) == Granted
    {
      GrantedExactly(start, sorted, |sorted|, meets, key);
      match outcome
      case Held(guards) => HeldMeans(start, requests, sorted, meets, guards, end);
      case Stopped(k, _) => assert !GrantedAt(start, sorted, k, meets, key);
      case StillWaiting(k, _) =>
        CanonicalSet(requests, canon, sorted);
        PrefixMeans(start, sorted, k, meets, key);
        assert !GrantedAt(start, sorted, k, meets, key);
    }

    lemma HeldMeans(start: Own, requests: seq<Request>, sorted: seq<Request>, meets: nat -> Meeting,
                    guards: seq<Guard>, end: Own)
      requires multiset(sorted) == multiset(Canonical(requests, canon)) && Ordered(sorted, key)
      requires HeldAll(start, sorted, meets, guards, end)
      ensures AllInHand(start, requests, guards, end)
    {
      CanonicalSet(requests, canon, sorted);
      PrefixMeans(start, sorted, |sorted|, meets, key);
      assert sorted[..|sorted|] == sorted;
      assert forall r :: r in requests ==> canon(r.path) in PathsOf(sorted);
    }
  }

  /** What a granted prefix of a sorted set says about its guards. */
  lemma PrefixMeans(start: Own, sorted: seq<Request>, n: nat, meets: nat -> Meeting, key: KeyFn)
    requires n <= |sorted| && Ordered(sorted, key) && AllGranted(start, sorted, n, meets, key)
    ensures HasTaken(start, AfterGrants(start, sorted, n), sorted[..n])
    ensures PathsOf(sorted[..n]) == set g | g in GuardsFor(sorted, n) :: g.path
    ensures var gs := GuardsFor(sorted, n);
            AfterGrants(start, sorted, n).held
            == start.held + seq(n, i requires 0 <= i < n => Entry(gs[i].lockClass.Rank(), gs[i].path))
    ensures var gs := GuardsFor(sorted, n);
            forall i, j :: 0 <= i < j < n ==>
              gs[i].lockClass.Rank() < gs[j].lockClass.Rank()
              || (gs[i].lockClass.Rank() == gs[j].lockClass.Rank()
                  && (key(gs[i].path) == key(gs[j].path) || LexLess(key(gs[i].path), key(gs[j].path))))
  {
    GrantsTake(start, sorted, n, meets, key);
    HeldAfterGrants(start, sorted, n);
    GuardPaths(sorted, n);
    forall i, j | 0 <= i < j < n
      ensures AtMost(Spot(sorted[i], key), Spot(sorted[j], key))
      ensures key(sorted[i].path) == key(sorted[j].path) || LexLess(key(sorted[i].path), key(sorted[j].path))
              || LexLess(key(sorted[j].path), key(sorted[i].path))
    {
      LexTrichotomy(key(sorted[i].path), key(sorted[j].path));
    }
  }

  lemma GuardPaths(rs: seq<Request>, n: nat)
    requires n <= |rs|
    ensures PathsOf(rs[..n]) == set g | g in GuardsFor(rs, n) :: g.path
  {
    var gs := GuardsFor(rs, n);
    forall p | p in PathsOf(rs[..n])
      ensures p in set g | g in gs :: g.path
    {
      var i :| 0 <= i < n && rs[..n][i].path == p;
      assert gs[i] in gs;
    }
    forall p | p in set g | g in gs :: g.path
      ensures p in PathsOf(rs[..n])
    {
      var i :| 0 <= i < n && gs[i].path == p;
      assert rs[..n][i] in rs[..n];
    }
  }

  /** A sorted set has the canonical paths of its requests, a guard for each of them,
      and a duplicate exactly when two of them name one file. */
  lemma CanonicalSet(requests: seq<Request>, canon: Canon, sorted: seq<Request>)
    requires multiset(sorted) == multiset(Canonical(requests, canon))
    ensures |sorted| == |requests|
    ensures PathsOf(sorted) == set r | r in requests :: canon(r.path)
    ensures RejectingPathsOf(sorted) == set r | r in requests && r.policy == P.Reject :: canon(r.path)
    ensures multiset(GuardsOf(sorted))
            == multiset(seq(|requests|, i requires 0 <= i < |requests| =>
                 Guard(canon(requests[i].path), requests[i].lockClass, requests[i].policy == P.Reject)))
    ensures HasDuplicate(sorted) <==>
            exists i, j :: 0 <= i < j < |requests| && canon(requests[i].path) == canon(requests[j].path)
  {
    var cs := Canonical(requests, canon);
    assert |multiset(sorted)| == |sorted| && |multiset(cs)| == |cs|;
    SamePaths(sorted, cs);
    CanonicalPathSets(requests, canon);
    GuardsMove(sorted, cs);
    assert GuardsOf(cs)
        == seq(|requests|, i requires 0 <= i < |requests| =>
             Guard(canon(requests[i].path), requests[i].lockClass, requests[i].policy == P.Reject));
    if HasDuplicate(sorted) {
      DuplicateMoves(sorted, cs);
      var i, j :| 0 <= i < j < |cs| && cs[i].path == cs[j].path;
      assert canon(requests[i].path) == canon(requests[j].path);
    }
    if exists i, j :: 0 <= i < j < |requests| && canon(requests[i].path) == canon(requests[j].path) {
      var i, j :| 0 <= i < j < |requests| && canon(requests[i].path) == canon(requests[j].path);
      assert cs[i].path == cs[j].path;
      DuplicateMoves(cs, sorted);
    }
  }

  lemma SamePaths(a: seq<Request>, b: seq<Request>)
    requires multiset(a) == multiset(b)
    ensures PathsOf(a) == PathsOf(b) && RejectingPathsOf(a) == RejectingPathsOf(b)
  {
    assert forall r :: r in a <==> r in multiset(a);
    assert forall r :: r in b <==> r in multiset(b);
  }

  lemma CanonicalPathSets(requests: seq<Request>, canon: Canon)
    ensures PathsOf(Canonical(requests, canon)) == set r | r in requests :: canon(r.path)
    ensures RejectingPathsOf(Canonical(requests, canon))
            == set r | r in requests && r.policy == P.Reject :: canon(r.path)
  {
    var cs := Canonical(requests, canon);
    forall r | r in requests
      ensures r.(path := canon(r.path)) in cs
    {
      var i :| 0 <= i < |requests| && requests[i] == r;
      assert cs[i] in cs;
    }
    forall c | c in cs
      ensures exists r :: r in requests && c == r.(path := canon(r.path))
    {
      var i :| 0 <= i < |cs| && cs[i] == c;
      assert requests[i] in requests;
    }
  }

  lemma CanonicalPaths(rs: seq<Request>, canon: Canon, sorted: seq<Request>)
    requires forall p :: canon(canon(p)) == canon(p)
    requires multiset(sorted) == multiset(Canonical(rs, canon))
    ensures forall i :: 0 <= i < |sorted| ==> canon(sorted[i].path) == sorted[i].path
  {
    forall i | 0 <= i < |sorted|
      ensures canon(sorted[i].path) == sorted[i].path
    {
      SameElements(sorted, Canonical(rs, canon), i);
      var j :| 0 <= j < |rs| && Canonical(rs, canon)[j] == sorted[i];
      assert canon(canon(rs[j].path)) == canon(rs[j].path);
    }
  }
}
