/** Deadlock freedom of direct acquisition with release on the same thread, for
    any number of threads (of any processes) and any number of locks. Each thread
    runs the order check against its own list before it waits in the kernel. */
module OrderedThreads {
  import opened LockOrder

  datatype Pc =
    | Running
    | Waiting(entry: Entry)    // inside the blocking descriptor-lock call
    | Granted(entry: Entry)    // owned, not yet registered
    | Releasing(entry: Entry)  // unlocked, not yet deregistered

  datatype Thread = Thread(pc: Pc, held: seq<Entry>)

  /** `requests` says which paths the program asks for, and with which class ranks:
      the class comes with each request, so one path may be asked for with several. */
  datatype System =
    System(key: KeyFn, requests: Entry -> bool, threads: seq<Thread>, kernel: map<Path, nat>)

  datatype Action =
    | Request(entry: Entry)  // order check and reservation passed
    | Fail                   // the kernel call returned an error
    | Grant | Register
    | Unlock(index: nat)     // release or drop any guard
    | Deregister

  datatype Move = Move(who: nat, act: Action)

  predicate Enabled(s: System, m: Move) {
    m.who < |s.threads| &&
    var th := s.threads[m.who];
    match m.act
    case Request(e) => th.pc == Running && s.requests(e) && OrderAllows(th.held, At(e, s.key), s.key)
    case Fail => th.pc.Waiting?
    case Grant => th.pc.Waiting? && th.pc.entry.path !in s.kernel
    case Register => th.pc.Granted?
    case Unlock(i) => th.pc == Running && i < |th.held|
    case Deregister => th.pc.Releasing?
  }

  function Next(s: System, m: Move): System
    requires Enabled(s, m)
  {
    var th := s.threads[m.who];
    match m.act
    case Request(e) => s.(threads := s.threads[m.who := th.(pc := Waiting(e))])
    case Fail => s.(threads := s.threads[m.who := th.(pc := Running)])
    case Grant =>
      s.(threads := s.threads[m.who := th.(pc := Granted(th.pc.entry))],
         kernel := s.kernel[th.pc.entry.path := m.who])
    case Register =>
      s.(threads := s.threads[m.who := Thread(Running, th.held + [th.pc.entry])])
    case Unlock(i) =>
      s.(threads := s.threads[m.who := th.(pc := Releasing(th.held[i]))],
         kernel := s.kernel - {th.held[i].path})
    case Deregister =>
      s.(threads := s.threads[m.who := Thread(Running, RemoveLast(th.held, th.pc.entry))])
  }

  ghost predicate Runs(s: System, moves: seq<Move>, t: System)
    decreases |moves|
  {
    if moves == [] then s == t
    else Enabled(s, moves[0]) && Runs(Next(s, moves[0]), moves[1..], t)
  }

  predicate Init(s: System) {
    s.kernel == map[] && forall i :: 0 <= i < |s.threads| ==> s.threads[i] == Thread(Running, [])
  }

  ghost predicate Reachable(t: System) {
    exists s, moves :: Init(s) && Runs(s, moves, t)
  }

  // ----- the invariant

  predicate DistinctPaths(held: seq<Entry>) {
    forall i, j :: 0 <= i < j < |held| ==> held[i].path != held[j].path
  }

  predicate HoldsPath(th: Thread, p: Path) {
    exists e :: e in th.held && e.path == p
  }

  /** The list of a thread: requests of the program, one for each path. */
  predicate ListFits(s: System, th: Thread) {
    && (forall e :: e in th.held ==> s.requests(e))
    && DistinctPaths(th.held)
    && (th.pc.Waiting? ==> s.requests(th.pc.entry) && OrderAllows(th.held, At(th.pc.entry, s.key), s.key))
    && (th.pc.Granted? ==> s.requests(th.pc.entry) && !HoldsPath(th, th.pc.entry.path))
    && (th.pc.Releasing? ==> th.pc.entry in th.held)
  }

  predicate OwnsPath(th: Thread, p: Path) {
    || (th.pc.Granted? && th.pc.entry.path == p)
    || exists e :: e in th.held && e.path == p && th.pc != Releasing(e)
  }

  ghost predicate Inv(s: System) {
    && (forall i :: 0 <= i < |s.threads| ==> ListFits(s, s.threads[i]))
    && (forall p :: p in s.kernel ==> s.kernel[p] < |s.threads|)
    && (forall p, i :: 0 <= i < |s.threads| ==>
          (OwnsPath(s.threads[i], p) <==> p in s.kernel && s.kernel[p] == i))
  }

  lemma RemoveUnique(held: seq<Entry>, e: Entry)
    requires e in held && DistinctPaths(held)
    ensures var r := RemoveLast(held, e);
            && (forall x :: x in r <==> x in held && x != e)
            && DistinctPaths(r)
  {
    var i :| 0 <= i < |held| && held[i] == e;
    RemoveLastAt(held, e, i);
  }

  lemma ThreadStep(s: System, m: Move)
    requires Inv(s) && Enabled(s, m)
    ensures ListFits(Next(s, m), Next(s, m).threads[m.who])
  {
    var th := s.threads[m.who];
    assert ListFits(s, th);
    if m.act == Deregister {
      RemoveUnique(th.held, th.pc.entry);
    } else if m.act == Grant && HoldsPath(th, th.pc.entry.path) {
      assert OwnsPath(th, th.pc.entry.path);
    } else if m.act == Register {
      assert forall i :: 0 <= i < |th.held| ==> th.held[i] in th.held;
    }
  }

  lemma OwnershipStep(s: System, m: Move, p: Path)
    requires Inv(s) && Enabled(s, m)
    ensures var t := Next(s, m);
            OwnsPath(t.threads[m.who], p) <==> p in t.kernel && t.kernel[p] == m.who
  {
    var th := s.threads[m.who];
    var after := Next(s, m).threads[m.who];
    assert ListFits(s, th);
    assert OwnsPath(th, p) <==> p in s.kernel && s.kernel[p] == m.who;
    match m.act
    case Register =>
      assert th.pc.entry in after.held;
      assert forall e :: e in after.held <==> e in th.held || e == th.pc.entry;
    case Unlock(i) =>
      assert th.held[i] in th.held;
      assert forall e :: e in th.held && e.path == th.held[i].path ==> e == th.held[i];
    case Deregister => RemoveUnique(th.held, th.pc.entry);
    case _ =>
  }

  lemma StepInv(s: System, m: Move)
    requires Inv(s) && Enabled(s, m)
    ensures Inv(Next(s, m))
  {
    var t := Next(s, m);
    ThreadStep(s, m);
    forall i | 0 <= i < |t.threads|
      ensures ListFits(t, t.threads[i])
    {
      assert i != m.who ==> ListFits(s, s.threads[i]);
    }
    forall p, i | 0 <= i < |t.threads|
      ensures OwnsPath(t.threads[i], p) <==> p in t.kernel && t.kernel[p] == i
    {
      if i == m.who {
        OwnershipStep(s, m, p);
      } else {
        OthersStep(s, m, p, i);
      }
    }
  }

  lemma OthersStep(s: System, m: Move, p: Path, i: nat)
    requires Inv(s) && Enabled(s, m) && i < |s.threads| && i != m.who
    ensures var t := Next(s, m);
            OwnsPath(t.threads[i], p) <==> p in t.kernel && t.kernel[p] == i
  {
    var t := Next(s, m);
    assert t.threads[i] == s.threads[i];
    assert OwnsPath(s.threads[i], p) <==> p in s.kernel && s.kernel[p] == i;
    if m.act.Unlock? {
      var th := s.threads[m.who];
      var gone := th.held[m.act.index].path;
      assert OwnsPath(th, gone);
      assert gone in s.kernel && s.kernel[gone] == m.who;
    }
  }

  lemma {:induction false} RunInv(s: System, moves: seq<Move>, t: System)
    requires Inv(s) && Runs(s, moves, t)
    ensures Inv(t)
    decreases |moves|
  {
    if moves != [] {
      StepInv(s, moves[0]);
      RunInv(Next(s, moves[0]), moves[1..], t);
    }
  }

  lemma ReachableInv(t: System)
    requires Reachable(t)
    ensures Inv(t)
  {
    var s, moves :| Init(s) && Runs(s, moves, t);
    RunInv(s, moves, t);
  }

  // ----- the wait-for relation

  predicate Blocked(s: System, i: nat) {
    i < |s.threads| && s.threads[i].pc.Waiting? && s.threads[i].pc.entry.path in s.kernel
  }

  function Blocker(s: System, i: nat): nat
    requires Blocked(s, i)
  {
    s.kernel[s.threads[i].pc.entry.path]
  }

  predicate WaitsFor(s: System, i: nat, j: nat) {
    Blocked(s, i) && Blocker(s, i) == j
  }

  /** A chain of threads, each waiting for the next. */
  predicate Chain(s: System, c: seq<nat>) {
    |c| >= 2 && forall k :: 0 <= k < |c| - 1 ==> WaitsFor(s, c[k], c[k + 1])
  }

  predicate Cycle(s: System, c: seq<nat>) {
    Chain(s, c) && c[0] == c[|c| - 1]
  }

  function Wanted(s: System, i: nat): Position
    requires i < |s.threads| && s.threads[i].pc.Waiting?
  {
    At(s.threads[i].pc.entry, s.key)
  }

  /** The request by which the blocker of a thread has the path it waits for. */
  ghost function Grip(s: System, i: nat): (e: Entry)
    requires Inv(s) && Blocked(s, i)
    ensures e.path == s.threads[i].pc.entry.path && s.requests(e)
    ensures Blocker(s, i) < |s.threads|
    ensures s.threads[Blocker(s, i)].pc.Waiting? ==> e in s.threads[Blocker(s, i)].held
  {
    var th := s.threads[Blocker(s, i)];
    var p := s.threads[i].pc.entry.path;
    assert OwnsPath(th, p) && ListFits(s, th);
    if th.pc.Granted? && th.pc.entry.path == p then th.pc.entry
    else
      var e :| e in th.held && e.path == p && th.pc != Releasing(e);
      e
  }

  // ----- one class for each path: a cycle is a tie

  ghost predicate OneClass(requests: Entry -> bool) {
    forall a, b :: requests(a) && requests(b) && a.path == b.path ==> a.rank == b.rank
  }

  /** Along the wait-for relation the wanted positions do not descend. */
  lemma WantedAscends(s: System, i: nat, j: nat)
    requires Inv(s) && OneClass(s.requests)
    requires WaitsFor(s, i, j) && j < |s.threads| && s.threads[j].pc.Waiting?
    ensures AtMost(Wanted(s, i), Wanted(s, j))
  {
    var e := Grip(s, i);
    assert ListFits(s, s.threads[i]) && ListFits(s, s.threads[j]);
    assert e == s.threads[i].pc.entry;
    assert e in s.threads[j].held;
  }

  lemma {:induction false} ChainAscends(s: System, c: seq<nat>, k: nat)
    requires Inv(s) && OneClass(s.requests) && Chain(s, c) && k < |c| - 1
    ensures WaitsFor(s, c[0], c[1]) && WaitsFor(s, c[k], c[k + 1])
    ensures AtMost(Wanted(s, c[0]), Wanted(s, c[k]))
  {
    assert WaitsFor(s, c[0], c[1]) && WaitsFor(s, c[k], c[k + 1]);
    if k == 0 {
      Trichotomy(Wanted(s, c[0]), Wanted(s, c[0]));
    } else {
      ChainAscends(s, c, k - 1);
      assert WaitsFor(s, c[k - 1], c[k]);
      WantedAscends(s, c[k - 1], c[k]);
      Transitive(Wanted(s, c[0]), Wanted(s, c[k - 1]), Wanted(s, c[k]));
    }
  }

  lemma {:induction false} ChainEndAscends(s: System, c: seq<nat>, k: nat)
    requires Inv(s) && OneClass(s.requests) && Chain(s, c) && k < |c| - 1
    ensures WaitsFor(s, c[k], c[k + 1]) && WaitsFor(s, c[|c| - 2], c[|c| - 1])
    ensures AtMost(Wanted(s, c[k]), Wanted(s, c[|c| - 2]))
    decreases |c| - k
  {
    assert WaitsFor(s, c[k], c[k + 1]) && WaitsFor(s, c[|c| - 2], c[|c| - 1]);
    if k == |c| - 2 {
      Trichotomy(Wanted(s, c[k]), Wanted(s, c[k]));
    } else {
      assert WaitsFor(s, c[k + 1], c[k + 2]);
      WantedAscends(s, c[k], c[k + 1]);
      ChainEndAscends(s, c, k + 1);
      Transitive(Wanted(s, c[k]), Wanted(s, c[k + 1]), Wanted(s, c[|c| - 2]));
    }
  }

  /** With one class for each path, all threads of a cycle want the same position,
      whatever the key function. */
  lemma CycleWantsOnePosition(s: System, c: seq<nat>, k: nat)
    requires Reachable(s) && OneClass(s.requests) && Cycle(s, c) && k < |c| - 1
    ensures WaitsFor(s, c[0], c[1]) && WaitsFor(s, c[k], c[k + 1])
    ensures Wanted(s, c[k]) == Wanted(s, c[0])
  {
    ReachableInv(s);
    var last := |c| - 2;
    assert WaitsFor(s, c[0], c[1]) && WaitsFor(s, c[last], c[last + 1]) && WaitsFor(s, c[k], c[k + 1]);
    ChainAscends(s, c, k);
    ChainEndAscends(s, c, k);
    WantedAscends(s, c[last], c[0]);
    Transitive(Wanted(s, c[k]), Wanted(s, c[last]), Wanted(s, c[0]));
    Trichotomy(Wanted(s, c[k]), Wanted(s, c[0]));
  }

  // ----- any classes: what a cycle needs

  /** A request for one path lies within the positions at which the program asks for
      another path. */
  predicate Straddles(key: KeyFn, requests: Entry -> bool, low: Entry, mid: Entry, high: Entry) {
    && requests(low) && requests(mid) && requests(high)
    && low.path == high.path && mid.path != low.path
    && AtMost(At(low, key), At(mid, key)) && AtMost(At(mid, key), At(high, key))
  }

  ghost predicate Overlapping(key: KeyFn, requests: Entry -> bool) {
    exists low, mid, high :: Straddles(key, requests, low, mid, high)
  }

  /** Each of these threads waits for one of them. */
  predicate AllStuck(s: System, stuck: set<nat>) {
    stuck != {} && forall i :: i in stuck ==> Blocked(s, i) && Blocker(s, i) in stuck
  }

  lemma {:induction false} Topmost(places: map<nat, Position>) returns (top: nat)
    requires places != map[]
    ensures top in places && forall i :: i in places ==> AtMost(places[i], places[top])
    decreases |places|
  {
    var first :| first in places;
    var rest := places - {first};
    assert |rest| < |places|;
    if rest == map[] {
      top := first;
      Trichotomy(places[first], places[first]);
    } else {
      var other := Topmost(rest);
      Trichotomy(places[first], places[other]);
      top := if AtMost(places[first], places[other]) then other else first;
      forall i | i in places
        ensures AtMost(places[i], places[top])
      {
        Trichotomy(places[first], places[first]);
        if i != first {
          assert i in rest;
          Transitive(places[i], places[other], places[top]);
        }
      }
    }
  }

  lemma HeldBelowWanted(s: System, th: Thread, e: Entry)
    requires ListFits(s, th) && th.pc.Waiting? && e in th.held
    ensures s.requests(th.pc.entry) && AtMost(At(e, s.key), At(th.pc.entry, s.key))
  {
  }

  /** Of two waits in a row, the first for a lock held at least as high. */
  lemma HighestStraddles(s: System, top: nat, j: nat)
    requires Inv(s) && WaitsFor(s, top, j) && Blocked(s, j) && !WaitsFor(s, j, j)
    requires AtMost(At(Grip(s, j), s.key), At(Grip(s, top), s.key))
    ensures Overlapping(s.key, s.requests)
  {
    var low, mid, high := Grip(s, j), Grip(s, top), s.threads[j].pc.entry;
    HeldBelowWanted(s, s.threads[j], mid);
    assert Straddles(s.key, s.requests, low, mid, high);
  }

  /** Threads that wait only for each other, none of them for itself: the program's
      requests overlap, seen from the highest position held among them. */
  lemma StuckMeansOverlap(s: System, stuck: set<nat>)
    requires Inv(s) && AllStuck(s, stuck) && forall i :: !WaitsFor(s, i, i)
    ensures Overlapping(s.key, s.requests)
  {
    var grips := map i | i in stuck :: At(Grip(s, i), s.key);
    var some :| some in stuck;
    assert some in grips;
    var top := Topmost(grips);
    var j := Blocker(s, top);
    assert AtMost(grips[j], grips[top]);
    assert !WaitsFor(s, j, j);
    HighestStraddles(s, top, j);
  }

  function Members(c: seq<nat>): set<nat> {
    set i | i in c
  }

  lemma CycleIsStuck(s: System, c: seq<nat>)
    requires Cycle(s, c)
    ensures AllStuck(s, Members(c))
  {
    assert c[0] in Members(c);
    forall i | i in Members(c)
      ensures Blocked(s, i) && Blocker(s, i) in Members(c)
    {
      var k :| 0 <= k < |c| && c[k] == i;
      var k' := if k == |c| - 1 then 0 else k;
      assert WaitsFor(s, c[k'], c[k' + 1]);
    }
  }

  /** If the program's requests do not overlap, a wait-for cycle exists exactly when
      some thread waits for a lock that it holds itself. */
  lemma CycleExactlyWhenSelfWait(s: System)
    requires Reachable(s) && !Overlapping(s.key, s.requests)
    ensures (exists c :: Cycle(s, c)) <==> exists i :: WaitsFor(s, i, i)
  {
    ReachableInv(s);
    if exists i :: WaitsFor(s, i, i) {
      var i :| WaitsFor(s, i, i);
      assert Cycle(s, [i, i]);
    } else if exists c :: Cycle(s, c) {
      var c :| Cycle(s, c);
      CycleIsStuck(s, c);
      StuckMeansOverlap(s, Members(c));
    }
  }

  /** The self-wait in terms of the request: it arises exactly when a thread asks
      for a path whose guard it still holds. */
  lemma SelfWaitExactly(s: System, who: nat, e: Entry)
    requires Reachable(s) && Enabled(s, Move(who, Request(e)))
    ensures WaitsFor(Next(s, Move(who, Request(e))), who, who) <==> HoldsPath(s.threads[who], e.path)
  {
    ReachableInv(s);
    assert OwnsPath(s.threads[who], e.path) <==> e.path in s.kernel && s.kernel[e.path] == who;
  }

  // ----- someone can always go on

  /** An owner that is not blocked and has a step other than a fault. */
  ghost predicate CanGoOn(s: System, j: nat) {
    j < |s.threads| && !Blocked(s, j)
    && (exists p :: p in s.kernel && s.kernel[p] == j)
    && (exists a :: Enabled(s, Move(j, a)) && a != Fail)
  }

  /** If the requests do not overlap and no thread waits for itself, then whenever
      some thread is blocked there is a holder that is not, and it has a step to take. */
  lemma SomeHolderCanStep(s: System, i: nat)
    requires Reachable(s) && !Overlapping(s.key, s.requests) && Blocked(s, i)
    requires forall j :: !WaitsFor(s, j, j)
    ensures exists j :: CanGoOn(s, j)
  {
    ReachableInv(s);
    var blocked := set j: nat | j < |s.threads| && Blocked(s, j);
    assert i in blocked;
    if AllStuck(s, blocked) {
      StuckMeansOverlap(s, blocked);
    }
    var k :| k in blocked && Blocker(s, k) !in blocked;
    HolderSteps(s, k);
    assert CanGoOn(s, Blocker(s, k));
  }

  lemma HolderSteps(s: System, k: nat)
    requires Inv(s) && Blocked(s, k) && !Blocked(s, Blocker(s, k))
    ensures CanGoOn(s, Blocker(s, k))
  {
    var j, p := Blocker(s, k), s.threads[k].pc.entry.path;
    var th := s.threads[j];
    assert OwnsPath(th, p);
    match th.pc
    case Running => assert Enabled(s, Move(j, Unlock(0)));
    case Waiting(_) => assert Enabled(s, Move(j, Grant));
    case Granted(_) => assert Enabled(s, Move(j, Register));
    case Releasing(_) => assert Enabled(s, Move(j, Deregister));
  }

  // ----- whole runs

  /** The caller's side: no thread asks for a path whose guard it still holds. */
  predicate Disciplined(s: System, m: Move)
    requires Enabled(s, m)
  {
    m.act.Request? ==> !HoldsPath(s.threads[m.who], m.act.entry.path)
  }

  ghost predicate DisciplinedRun(s: System, moves: seq<Move>, t: System)
    decreases |moves|
  {
    if moves == [] then s == t
    else Enabled(s, moves[0]) && Disciplined(s, moves[0])
         && DisciplinedRun(Next(s, moves[0]), moves[1..], t)
  }

  ghost predicate NoSelfWait(s: System) {
    forall i: nat :: !WaitsFor(s, i, i)
  }

  lemma StepNoSelfWait(s: System, m: Move)
    requires Inv(s) && NoSelfWait(s) && Enabled(s, m) && Disciplined(s, m)
    ensures NoSelfWait(Next(s, m))
  {
    var t := Next(s, m);
    forall i: nat
      ensures !WaitsFor(t, i, i)
    {
      assert !WaitsFor(s, i, i);
      if i == m.who && m.act.Request? {
        var p := m.act.entry.path;
        assert OwnsPath(s.threads[i], p) <==> p in s.kernel && s.kernel[p] == i;
      }
    }
  }

  lemma {:induction false} DisciplinedReaches(s: System, moves: seq<Move>, t: System)
    requires Inv(s) && NoSelfWait(s) && DisciplinedRun(s, moves, t)
    ensures Runs(s, moves, t) && NoSelfWait(t) && t.key == s.key && t.requests == s.requests
    decreases |moves|
  {
    if moves != [] {
      StepInv(s, moves[0]);
      StepNoSelfWait(s, moves[0]);
      DisciplinedReaches(Next(s, moves[0]), moves[1..], t);
    }
  }

  /** Deadlock freedom over whole runs: if the requests do not overlap and no thread
      asks for what it holds, the wait-for relation never has a cycle, and while any
      thread is blocked some holder has a step to take. */
  lemma OrderedThreadsNeverDeadlock(s: System, moves: seq<Move>, t: System)
    requires Init(s) && !Overlapping(s.key, s.requests) && DisciplinedRun(s, moves, t)
    ensures forall c :: !Cycle(t, c)
    ensures (exists i :: Blocked(t, i)) ==> exists j :: CanGoOn(t, j)
  {
    DisciplinedReaches(s, moves, t);
    assert Reachable(t);
    CycleExactlyWhenSelfWait(t);
    if exists i :: Blocked(t, i) {
      var i :| Blocked(t, i);
      SomeHolderCanStep(t, i);
    }
  }

  // ----- exactly which programs can deadlock

  ghost predicate DeadlockRun(key: KeyFn, requests: Entry -> bool, s: System, moves: seq<Move>, t: System) {
    && Init(s) && s.key == key && s.requests == requests
    && DisciplinedRun(s, moves, t) && exists c :: Cycle(t, c)
  }

  /** For every key function and every program: some run in which no thread asks for
      what it holds reaches a wait-for cycle if and only if the program asks for one
      path at a position within those at which it asks for another. */
  lemma DeadlockExactly(key: KeyFn, requests: Entry -> bool)
    ensures (exists s, moves, t :: DeadlockRun(key, requests, s, moves, t))
            <==> Overlapping(key, requests)
  {
    if exists s, moves, t :: DeadlockRun(key, requests, s, moves, t) {
      var s, moves, t :| DeadlockRun(key, requests, s, moves, t);
      if !Overlapping(key, requests) {
        OrderedThreadsNeverDeadlock(s, moves, t);
      }
    }
    if Overlapping(key, requests) {
      var low, mid, high :| Straddles(key, requests, low, mid, high);
      var s, moves, t := CrossedRequests(key, requests, low, mid, high);
      assert DeadlockRun(key, requests, s, moves, t);
    }
  }

  /** When each path has one class: exactly when two paths share rank and key, as two
      spellings do that the key folds together. */
  lemma OneClassDeadlockExactly(key: KeyFn, requests: Entry -> bool)
    requires OneClass(requests)
    ensures (exists s, moves, t :: DeadlockRun(key, requests, s, moves, t))
            <==> exists a, b :: requests(a) && requests(b) && a.path != b.path && At(a, key) == At(b, key)
  {
    DeadlockExactly(key, requests);
    if Overlapping(key, requests) {
      var low, mid, high :| Straddles(key, requests, low, mid, high);
      assert low == high;
      Trichotomy(At(low, key), At(mid, key));
    }
    if exists a, b :: requests(a) && requests(b) && a.path != b.path && At(a, key) == At(b, key) {
      var a, b :| requests(a) && requests(b) && a.path != b.path && At(a, key) == At(b, key);
      Trichotomy(At(a, key), At(b, key));
      assert Straddles(key, requests, a, b, a);
    }
  }

  /** A path with two classes can deadlock with any path of a class between them,
      however faithful the key. */
  lemma TwoClassesDeadlock(key: KeyFn, requests: Entry -> bool, p: Path, low: int, high: int, other: Entry)
    requires requests(Entry(low, p)) && requests(Entry(high, p)) && requests(other)
    requires other.path != p && low < other.rank < high
    ensures exists s, moves, t :: DeadlockRun(key, requests, s, moves, t)
  {
    assert Straddles(key, requests, Entry(low, p), other, Entry(high, p));
    DeadlockExactly(key, requests);
  }

  /** Two threads take the two paths and then ask for each other's. */
  lemma CrossedRequests(key: KeyFn, requests: Entry -> bool, low: Entry, mid: Entry, high: Entry)
    returns (s: System, moves: seq<Move>, t: System)
    requires Straddles(key, requests, low, mid, high)
    ensures DeadlockRun(key, requests, s, moves, t)
  {
    var idle := Thread(Running, []);
    s := System(key, requests, [idle, idle], map[]);
    moves, t := Acquired(s, [], s, 0, mid);
    assert t.threads == [Thread(Running, [mid]), idle];
    moves, t := Acquired(s, moves, t, 1, low);
    assert t == System(key, requests, [Thread(Running, [mid]), Thread(Running, [low])],
                       map[mid.path := 0, low.path := 1]);
    moves, t := CrossedWaits(s, moves, t, low, mid, high);
    assert Cycle(t, [0, 1, 0]);
  }

  lemma CrossedWaits(s: System, moves: seq<Move>, t: System, low: Entry, mid: Entry, high: Entry)
    returns (longer: seq<Move>, u: System)
    requires Straddles(t.key, t.requests, low, mid, high) && DisciplinedRun(s, moves, t)
    requires t.threads == [Thread(Running, [mid]), Thread(Running, [low])]
    ensures DisciplinedRun(s, longer, u)
    ensures u == t.(threads := [Thread(Waiting(high), [mid]), Thread(Waiting(mid), [low])])
  {
    longer, u := Then(s, moves, t, Move(0, Request(high)));
    assert u.threads[1] == Thread(Running, [low]);
    longer, u := Then(s, longer, u, Move(1, Request(mid)));
    assert u.threads == [Thread(Waiting(high), [mid]), Thread(Waiting(mid), [low])];
  }

  lemma Acquired(s: System, moves: seq<Move>, t: System, who: nat, e: Entry)
    returns (longer: seq<Move>, u: System)
    requires DisciplinedRun(s, moves, t) && who < |t.threads| && t.threads[who] == Thread(Running, [])
    requires t.requests(e) && e.path !in t.kernel
    ensures DisciplinedRun(s, longer, u)
    ensures u == t.(threads := t.threads[who := Thread(Running, [e])], kernel := t.kernel[e.path := who])
  {
    longer, u := Then(s, moves, t, Move(who, Request(e)));
    longer, u := Then(s, longer, u, Move(who, Grant));
    assert u.threads[who] == Thread(Granted(e), []);
    longer, u := Then(s, longer, u, Move(who, Register));
    assert u.threads[who] == Thread(Running, [e]);
    assert u.threads == t.threads[who := Thread(Running, [e])];
  }

  lemma Then(s: System, moves: seq<Move>, t: System, m: Move) returns (longer: seq<Move>, u: System)
    requires DisciplinedRun(s, moves, t) && Enabled(t, m) && Disciplined(t, m)
    ensures DisciplinedRun(s, longer, u) && u == Next(t, m)
  {
    longer, u := moves + [m], Next(t, m);
    RunAppend(s, moves, t, m);
  }

  lemma {:induction false} RunAppend(s: System, moves: seq<Move>, t: System, m: Move)
    requires DisciplinedRun(s, moves, t) && Enabled(t, m) && Disciplined(t, m)
    ensures DisciplinedRun(s, moves + [m], Next(t, m))
    decreases |moves|
  {
    if moves == [] {
      assert [m][1..] == [];
    } else {
      RunAppend(Next(s, moves[0]), moves[1..], t, m);
      assert (moves + [m])[1..] == moves[1..] + [m];
    }
  }
}
