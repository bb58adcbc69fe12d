/** The calls of one thread as moves of the machine in which deadlock is studied: the
    order check that the machine assumes is the one that `acquire_blocking` makes. */
module OrderedCalls {
  import opened LockOrder
  import opened LockCalls
  import T = OrderedThreads
  import P = WaiterProtocol

  /** The thread is between calls, with the list that the call finds. */
  ghost predicate Idle(s: T.System, who: nat, v: Own, key: KeyFn) {
    who < |s.threads| && s.threads[who] == T.Thread(T.Running, v.held) && s.key == key
  }

  /** The thread is in the kernel call, and the table has what the call meets. */
  ghost predicate Calling(s: T.System, who: nat, v: Own, r: Request, m: Meeting) {
    && who < |s.threads| && s.threads[who] == T.Thread(T.Waiting(EntryOf(r)), v.held)
    && (r.path in s.kernel <==> r.path in v.mine || r.path in m.atKernel.owned)
  }

  /** A call whose file opens gets past the order check exactly when the machine lets
      the thread make the request. */
  lemma InversionIsNoMove(v: Own, r: Request, m: Meeting, key: KeyFn, s: T.System, who: nat)
    requires Idle(s, who, v, key) && s.requests(EntryOf(r)) && m.fault != OpenFault
    ensures Judge(v, r, m, key) == Inversion <==> !T.Enabled(s, T.Move(who, T.Request(EntryOf(r))))
    ensures Judge(v, r, m, key) != Inversion ==>
              var next := T.Next(s, T.Move(who, T.Request(EntryOf(r))));
              next.threads[who] == T.Thread(T.Waiting(EntryOf(r)), v.held) && next.kernel == s.kernel
  {
  }

  /** Once in the kernel, it is granted, asleep or failed exactly as the machine's
      thread can be, whatever the others did since the request. */
  lemma KernelCallIsMove(v: Own, r: Request, m: Meeting, key: KeyFn, s: T.System, who: nat)
    requires Calling(s, who, v, r, m)
    requires var verdict := Judge(v, r, m, key);
             verdict == KernelError || verdict == Blocked || verdict == Granted
    ensures T.Blocked(s, who) <==> !T.Enabled(s, T.Move(who, T.Grant))
    ensures m.fault == NoFault ==> (Judge(v, r, m, key) == Blocked <==> T.Blocked(s, who))
    ensures m.fault == NoFault ==> (Judge(v, r, m, key) == Granted <==> T.Enabled(s, T.Move(who, T.Grant)))
    ensures Judge(v, r, m, key) == KernelError ==>
              && T.Enabled(s, T.Move(who, T.Fail))
              && T.Next(s, T.Move(who, T.Fail)).threads[who]
                 == T.Thread(T.Running, AfterFailure(v, r).held)
  {
  }

  /** A grant and the registration that follows it are two moves, which leave the thread
      with the list and the table with the owner that the call leaves. */
  lemma GrantIsTwoMoves(v: Own, r: Request, m: Meeting, key: KeyFn, s: T.System, who: nat)
    requires Calling(s, who, v, r, m) && Judge(v, r, m, key) == Granted
    ensures T.Enabled(s, T.Move(who, T.Grant))
    ensures var granted := T.Next(s, T.Move(who, T.Grant));
            && T.Enabled(granted, T.Move(who, T.Register))
            && var end := T.Next(granted, T.Move(who, T.Register));
               && Idle(end, who, AfterGrant(v, r), s.key)
               && end.kernel == s.kernel[r.path := who]
               && (forall i :: 0 <= i < |s.threads| && i != who ==> end.threads[i] == s.threads[i])
  {
  }

  /** Releasing a guard is the move that unlocks its entry and the one that takes the
      entry off the list. */
  lemma ReleaseIsTwoMoves(v: Own, g: Guard, key: KeyFn, s: T.System, who: nat, i: nat)
    requires Idle(s, who, v, key) && i < |v.held| && v.held[i] == Entry(g.lockClass.Rank(), g.path)
    ensures T.Enabled(s, T.Move(who, T.Unlock(i)))
    ensures var unlocked := T.Next(s, T.Move(who, T.Unlock(i)));
            && T.Enabled(unlocked, T.Move(who, T.Deregister))
            && var end := T.Next(unlocked, T.Move(who, T.Deregister));
               && Idle(end, who, AfterRelease(v, g), key)
               && end.kernel == s.kernel - {g.path}
  {
  }

  /** The order list has only paths that the thread owns. */
  predicate ListIsOwned(v: Own) {
    forall e :: e in v.held ==> e.path in v.mine
  }

  /** One granted call, from idle to idle, is a disciplined run of three moves. */
  lemma GrantIsRun(v: Own, r: Request, m: Meeting, key: KeyFn,
                   from: T.System, moves: seq<T.Move>, s: T.System, who: nat)
    returns (longer: seq<T.Move>, t: T.System)
    requires T.DisciplinedRun(from, moves, s) && Idle(s, who, v, key) && s.requests(EntryOf(r))
    requires Judge(v, r, m, key) == Granted && ListIsOwned(v) && r.path !in s.kernel
    ensures T.DisciplinedRun(from, longer, t) && Idle(t, who, AfterGrant(v, r), key)
    ensures t.kernel == s.kernel[r.path := who] && t.requests == s.requests && |t.threads| == |s.threads|
    ensures ListIsOwned(AfterGrant(v, r))
  {
    longer, t := T.Then(from, moves, s, T.Move(who, T.Request(EntryOf(r))));
    longer, t := T.Then(from, longer, t, T.Move(who, T.Grant));
    assert t.threads[who] == T.Thread(T.Granted(EntryOf(r)), v.held);
    longer, t := T.Then(from, longer, t, T.Move(who, T.Register));
  }

  /** The thread has made these moves, and has the first n requests of the set. */
  ghost predicate SetTaken(v: Own, rs: seq<Request>, n: nat, key: KeyFn,
                           s: T.System, moves: seq<T.Move>, t: T.System, who: nat)
    requires n <= |rs|
  {
    && T.DisciplinedRun(s, moves, t) && Idle(t, who, AfterGrants(v, rs, n), key)
    && (forall p :: p in t.kernel ==> p in s.kernel || p in AfterGrants(v, rs, n).mine)
    && t.requests == s.requests
    && ListIsOwned(AfterGrants(v, rs, n))
  }

  lemma OneMoreOfSet(v: Own, rs: seq<Request>, n: nat, m: Meeting, key: KeyFn,
                     s: T.System, moves: seq<T.Move>, t: T.System, who: nat)
    returns (longer: seq<T.Move>, u: T.System)
    requires n < |rs| && SetTaken(v, rs, n, key, s, moves, t, who)
    requires s.requests(EntryOf(rs[n])) && rs[n].path !in s.kernel
    requires Judge(AfterGrants(v, rs, n), rs[n], m, key) == Granted
    ensures SetTaken(v, rs, n + 1, key, s, longer, u, who)
  {
    GrantedIsFree(AfterGrants(v, rs, n), rs[n], m, key);
    longer, u := GrantIsRun(AfterGrants(v, rs, n), rs[n], m, key, s, moves, t, who);
  }

  /** So a granted set is a disciplined run of the thread: what is proved there about
      programs that can deadlock covers programs that acquire sets. */
  lemma {:induction false} SetIsRun(v: Own, rs: seq<Request>, n: nat, meets: nat -> Meeting, key: KeyFn,
                                    s: T.System, who: nat)
    returns (moves: seq<T.Move>, t: T.System)
    requires n <= |rs| && AllGranted(v, rs, n, meets, key) && ListIsOwned(v) && Idle(s, who, v, key)
    requires forall k :: 0 <= k < n ==> s.requests(EntryOf(rs[k])) && rs[k].path !in s.kernel
    ensures SetTaken(v, rs, n, key, s, moves, t, who)
  {
    if n == 0 {
      moves, t := [], s;
    } else {
      assert GrantedAt(v, rs, n - 1, meets, key);
      moves, t := SetIsRun(v, rs, n - 1, meets, key, s, who);
      moves, t := OneMoreOfSet(v, rs, n - 1, meets(n - 1), key, s, moves, t, who);
    }
  }
}
