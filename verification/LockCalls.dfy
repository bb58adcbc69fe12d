/** What `acquire_blocking` decides and what it and a guard's release change, for one
    thread among others that change the manager's reservations and the kernel's table
    between its accesses to them. File-system and kernel failures are inputs. */
module LockCalls {
  import opened LockOrder
  import P = WaiterProtocol

  datatype Request = Request(path: Path, lockClass: LockClass, policy: P.Policy)

  datatype Guard = Guard(path: Path, lockClass: LockClass, reserved: bool)

  datatype EventKind = Waiting | Acquired | Failed | Released

  datatype Event = Event(kind: EventKind, path: Path)

  /** What goes wrong outside the crate during one acquisition. */
  datatype Fault = NoFault | OpenFault | KernelFault

  /** `Blocked`: the kernel call has not come back. */
  datatype Verdict = OpenError | Inversion | SameProcess | KernelError | Granted | Blocked

  /** What this thread has: paths locked, paths reserved, its order list, its events. */
  datatype Own = Own(mine: set<Path>, reserved: set<Path>, held: seq<Entry>, log: seq<Event>)

  /** What all other threads have of the two tables. */
  datatype World = World(owned: set<Path>, reserved: set<Path>)

  /** What one acquisition meets: the others when it reserves, and when its kernel
      call is decided. */
  datatype Meeting = Meeting(fault: Fault, atReserve: World, atKernel: World)

  // ----- one acquisition and one release

  function Spot(r: Request, key: KeyFn): Position {
    Position(r.lockClass.Rank(), key(r.path))
  }

  function EntryOf(r: Request): Entry {
    Entry(r.lockClass.Rank(), r.path)
  }

  /** The others have nothing that this thread has. */
  function Clear(w: World, v: Own): World {
    World(w.owned - v.mine, w.reserved - v.reserved)
  }

  function Reserved(v: Own, r: Request): Own {
    if r.policy == P.Reject then v.(reserved := v.reserved + {r.path}) else v
  }

  /** The checks in the order the code makes them. The kernel grants a path only while
      nobody owns it, this thread included. */
  function Judge(v: Own, r: Request, m: Meeting, key: KeyFn): Verdict {
    if m.fault == OpenFault then OpenError
    else if !OrderAllows(v.held, Spot(r, key), key) then Inversion
    else if r.policy == P.Reject && (r.path in v.reserved || r.path in m.atReserve.reserved) then SameProcess
    else if m.fault == KernelFault then KernelError
    else if r.path in v.mine || r.path in m.atKernel.owned then Blocked
    else Granted
  }

  /** Each verdict by what the call was given and met. */
  lemma VerdictsExactly(v: Own, r: Request, m: Meeting, key: KeyFn)
    ensures var verdict := Judge(v, r, m, key);
            var inverted := exists e :: e in v.held &&
                              (e.rank > r.lockClass.Rank()
                               || (e.rank == r.lockClass.Rank() && LexLess(key(r.path), key(e.path))));
            var taken := r.policy == P.Reject && (r.path in v.reserved || r.path in m.atReserve.reserved);
            var busy := r.path in v.mine || r.path in m.atKernel.owned;
            && (verdict == OpenError <==> m.fault == OpenFault)
            && (verdict == Inversion <==> m.fault != OpenFault && inverted)
            && (verdict == SameProcess <==> m.fault != OpenFault && !inverted && taken)
            && (verdict == KernelError <==> m.fault == KernelFault && !inverted && !taken)
            && (verdict == Blocked <==> m.fault == NoFault && !inverted && !taken && busy)
            && (verdict == Granted <==> m.fault == NoFault && !inverted && !taken && !busy)
  {
    AllowsExactly(v.held, r.lockClass.Rank(), r.path, key);
    forall e | e in v.held
      ensures LexLess(key(r.path), key(e.path)) <==>
                !(key(e.path) == key(r.path) || LexLess(key(e.path), key(r.path)))
    {
      LexTrichotomy(key(e.path), key(r.path));
    }
  }

  /** What the others have when the acquisition is over, or asleep. */
  function OthersAfter(before: World, v: Own, r: Request, m: Meeting, verdict: Verdict): World {
    match verdict
    case OpenError | Inversion => before
    case SameProcess => Clear(m.atReserve, v)
    case KernelError | Granted | Blocked => Clear(m.atKernel, Reserved(v, r))
  }

  function GuardFor(r: Request): Guard {
    Guard(r.path, r.lockClass, r.policy == P.Reject)
  }

  function AfterGrant(v: Own, r: Request): Own {
    Own(v.mine + {r.path}, Reserved(v, r).reserved, v.held + [EntryOf(r)],
        v.log + [Event(Waiting, r.path), Event(Acquired, r.path)])
  }

  function AfterFailure(v: Own, r: Request): Own {
    v.(log := v.log + [Event(Waiting, r.path), Event(Failed, r.path)])
  }

  /** Asleep in the kernel call: reserved and announced, nothing else. */
  function WhileBlocked(v: Own, r: Request): Own {
    Reserved(v, r).(log := v.log + [Event(Waiting, r.path)])
  }

  function AfterRelease(v: Own, g: Guard): Own {
    Own(v.mine - {g.path},
        if g.reserved then v.reserved - {g.path} else v.reserved,
        RemoveLast(v.held, Entry(g.lockClass.Rank(), g.path)),
        v.log + [Event(Released, g.path)])
  }

  /** What the others have after a release that met them between its unlock and the
      removal of its reservation. */
  function OthersAfterRelease(w: World, v: Own, g: Guard): World {
    Clear(w, v.(mine := v.mine - {g.path}))
  }

  // ----- a sequence of them: the first n requests of a list

  function GuardsFor(rs: seq<Request>, n: nat): seq<Guard>
    requires n <= |rs|
  {
    seq(n, i requires 0 <= i < n => GuardFor(rs[i]))
  }

  function AfterGrants(v: Own, rs: seq<Request>, n: nat): Own
    requires n <= |rs|
  {
    if n == 0 then v else AfterGrant(AfterGrants(v, rs, n - 1), rs[n - 1])
  }

  predicate GrantedAt(v: Own, rs: seq<Request>, k: nat, meets: nat -> Meeting, key: KeyFn) {
    k < |rs| && Judge(AfterGrants(v, rs, k), rs[k], meets(k), key) == Granted
  }

  predicate AllGranted(v: Own, rs: seq<Request>, n: nat, meets: nat -> Meeting, key: KeyFn) {
    forall k :: 0 <= k < n ==> GrantedAt(v, rs, k, meets, key)
  }

  /** What the others have after the first n grants: what the last one met. */
  function OthersAfterGrants(before: World, v: Own, rs: seq<Request>, n: nat, meets: nat -> Meeting): World
    requires n <= |rs|
  {
    if n == 0 then before
    else Clear(meets(n - 1).atKernel, Reserved(AfterGrants(v, rs, n - 1), rs[n - 1]))
  }

  /** Releasing from the back, as popping the vector does. */
  function Unwind(v: Own, gs: seq<Guard>): Own
    decreases |gs|
  {
    if gs == [] then v
    else Unwind(AfterRelease(v, gs[|gs| - 1]), gs[..|gs| - 1])
  }

  function OthersUnwound(before: World, v: Own, gs: seq<Guard>, meets: nat -> World): World
    decreases |gs|
  {
    if gs == [] then before
    else
      var n := |gs| - 1;
      OthersUnwound(OthersAfterRelease(meets(n), v, gs[n]), AfterRelease(v, gs[n]), gs[..n], meets)
  }

  function ReleaseLog(gs: seq<Guard>): seq<Event> {
    if gs == [] then []
    else [Event(Released, gs[|gs| - 1].path)] + ReleaseLog(gs[..|gs| - 1])
  }

  lemma {:induction false} ReleaseLogReversed(gs: seq<Guard>, k: nat)
    requires k < |gs|
    ensures |ReleaseLog(gs)| == |gs| && ReleaseLog(gs)[k] == Event(Released, gs[|gs| - 1 - k].path)
  {
    if |gs| > 1 {
      ReleaseLogReversed(gs[..|gs| - 1], if k == 0 then 0 else k - 1);
    }
  }

  function PathsOf(rs: seq<Request>): set<Path> {
    set r | r in rs :: r.path
  }

  function RejectingPathsOf(rs: seq<Request>): set<Path> {
    set r | r in rs && r.policy == P.Reject :: r.path
  }

  lemma PathsOfMore(rs: seq<Request>, r: Request)
    ensures PathsOf(rs + [r]) == PathsOf(rs) + {r.path}
    ensures RejectingPathsOf(rs + [r]) == RejectingPathsOf(rs) + if r.policy == P.Reject then {r.path} else {}
  {
    var more := rs + [r];
    assert r in more && forall x :: x in more <==> x in rs || x == r;
  }

  /** A thread has, beyond what it had, the paths and reservations of these requests. */
  predicate HasTaken(v: Own, u: Own, rs: seq<Request>) {
    && u.mine == v.mine + PathsOf(rs) && v.mine !! PathsOf(rs)
    && u.reserved == v.reserved + RejectingPathsOf(rs) && v.reserved !! RejectingPathsOf(rs)
  }

  lemma OneMoreTaken(v: Own, u: Own, rs: seq<Request>, r: Request)
    requires HasTaken(v, u, rs) && r.path !in u.mine
    requires r.policy == P.Reject ==> r.path !in u.reserved
    ensures HasTaken(v, AfterGrant(u, r), rs + [r])
  {
    PathsOfMore(rs, r);
  }

  lemma GrantedIsFree(v: Own, r: Request, m: Meeting, key: KeyFn)
    requires Judge(v, r, m, key) == Granted
    ensures r.path !in v.mine && (r.policy == P.Reject ==> r.path !in v.reserved)
  {
  }

  /** What a thread has after the first n grants: the paths and reservations of these
      requests on top of what it had, and nothing twice. */
  lemma {:induction false} GrantsTake(v: Own, rs: seq<Request>, n: nat, meets: nat -> Meeting, key: KeyFn)
    requires n <= |rs| && AllGranted(v, rs, n, meets, key)
    ensures HasTaken(v, AfterGrants(v, rs, n), rs[..n])
  {
    if n > 0 {
      var u, r := AfterGrants(v, rs, n - 1), rs[n - 1];
      GrantsTake(v, rs, n - 1, meets, key);
      assert GrantedAt(v, rs, n - 1, meets, key);
      GrantedIsFree(u, r, meets(n - 1), key);
      OneMoreTaken(v, u, rs[..n - 1], r);
      assert rs[..n] == rs[..n - 1] + [r] && AfterGrants(v, rs, n) == AfterGrant(u, r);
    }
  }

  /** The events of the first n grants, two for each, in order. */
  lemma {:induction false} GrantsReport(v: Own, rs: seq<Request>, n: nat, k: nat)
    requires k < n <= |rs|
    ensures var log := AfterGrants(v, rs, n).log;
            && |log| == |v.log| + 2 * n && v.log <= log
            && log[|v.log| + 2 * k] == Event(Waiting, rs[k].path)
            && log[|v.log| + 2 * k + 1] == Event(Acquired, rs[k].path)
  {
    if n > 1 {
      GrantsReport(v, rs, n - 1, if k < n - 1 then k else 0);
    }
  }

  /** The guards are this thread's, one for each path. */
  predicate Backed(v: Own, gs: seq<Guard>) {
    && (forall i :: 0 <= i < |gs| ==> gs[i].path in v.mine && (gs[i].reserved ==> gs[i].path in v.reserved))
    && (forall i, j :: 0 <= i < j < |gs| ==> gs[i].path != gs[j].path)
  }

  lemma {:induction false} GrantsAreBacked(v: Own, rs: seq<Request>, n: nat, meets: nat -> Meeting, key: KeyFn)
    requires n <= |rs| && AllGranted(v, rs, n, meets, key)
    ensures Backed(AfterGrants(v, rs, n), GuardsFor(rs, n))
  {
    if n > 0 {
      GrantsAreBacked(v, rs, n - 1, meets, key);
      assert GrantedAt(v, rs, n - 1, meets, key);
      var gs, shorter := GuardsFor(rs, n), GuardsFor(rs, n - 1);
      assert forall i :: 0 <= i < n - 1 ==> gs[i] == shorter[i];
    }
  }

  /** One grant and its release leave only their trace in the log, in whatever
      state of the log the release finds the rest. */
  lemma GrantThenRelease(v: Own, r: Request, m: Meeting, key: KeyFn, log: seq<Event>)
    requires Judge(v, r, m, key) == Granted
    ensures AfterRelease(AfterGrant(v, r).(log := log), GuardFor(r))
            == v.(log := log + [Event(Released, r.path)])
  {
    RegisterThenDrop(v.held, EntryOf(r));
  }

  lemma UnwindOne(v: Own, r: Request, m: Meeting, key: KeyFn, rest: seq<Guard>, log: seq<Event>)
    requires Judge(v, r, m, key) == Granted
    ensures Unwind(AfterGrant(v, r).(log := log), rest + [GuardFor(r)])
            == Unwind(v.(log := log + [Event(Released, r.path)]), rest)
    ensures ReleaseLog(rest + [GuardFor(r)]) == [Event(Released, r.path)] + ReleaseLog(rest)
  {
    GrantThenRelease(v, r, m, key, log);
    assert (rest + [GuardFor(r)])[..|rest|] == rest;
  }

  /** Unwinding a granted prefix gives back exactly what this thread took: ownership,
      reservations and the order list are as before, whatever the others did between
      the grants; and the releases are reported in reverse. */
  lemma {:induction false} UnwindRestores(v: Own, rs: seq<Request>, n: nat, meets: nat -> Meeting,
                                          key: KeyFn, log: seq<Event>)
    requires n <= |rs| && AllGranted(v, rs, n, meets, key)
    ensures Unwind(AfterGrants(v, rs, n).(log := log), GuardsFor(rs, n))
            == v.(log := log + ReleaseLog(GuardsFor(rs, n)))
  {
    if n == 0 {
      assert log + [] == log;
    } else {
      var r := rs[n - 1];
      var rest := GuardsFor(rs, n - 1);
      var logged := log + [Event(Released, r.path)];
      assert GuardsFor(rs, n) == rest + [GuardFor(r)];
      assert GrantedAt(v, rs, n - 1, meets, key);
      UnwindOne(AfterGrants(v, rs, n - 1), r, meets(n - 1), key, rest, log);
      UnwindRestores(v, rs, n - 1, meets, key, logged);
      assert log + ([Event(Released, r.path)] + ReleaseLog(rest)) == logged + ReleaseLog(rest);
    }
  }
}
