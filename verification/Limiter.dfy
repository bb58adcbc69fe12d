/** `WaiterLimiter`: the compare-and-swap loop of `reserve` and the decrement of a
    dropped permit, for any number of racing threads. */
module WaiterLimiting {

  /** A thread outside the limiter, in the loop with the value it last observed,
      or holding a permit. */
  datatype Thread = Outside | Looping(current: int) | Holding

  datatype State = State(limit: nat, active: int, threads: seq<Thread>)

  datatype Action =
    | Load           // active.load
    | Bail           // current >= limit
    | CasSucceeds
    | CasFails       // observed value becomes current; may be spurious
    | DropPermit     // fetch_sub

  datatype Move = Move(who: nat, act: Action)

  predicate Enabled(s: State, m: Move) {
    m.who < |s.threads| &&
    var th := s.threads[m.who];
    match m.act
    case Load => th == Outside
    case Bail => th.Looping? && th.current >= s.limit
    case CasSucceeds => th.Looping? && th.current < s.limit && s.active == th.current
    case CasFails => th.Looping? && th.current < s.limit
    case DropPermit => th == Holding
  }

  function Next(s: State, m: Move): State
    requires Enabled(s, m)
  {
    match m.act
    case Load => s.(threads := s.threads[m.who := Looping(s.active)])
    case Bail => s.(threads := s.threads[m.who := Outside])
    case CasSucceeds => s.(threads := s.threads[m.who := Holding], active := s.active + 1)
    case CasFails => s.(threads := s.threads[m.who := Looping(s.active)])
    case DropPermit => s.(threads := s.threads[m.who := Outside], active := s.active - 1)
  }

  ghost predicate Runs(s: State, moves: seq<Move>, t: State)
    decreases |moves|
  {
    if moves == [] then s == t
    else Enabled(s, moves[0]) && Runs(Next(s, moves[0]), moves[1..], t)
  }

  predicate Init(s: State) {
    s.limit >= 1 && s.active == 0 && forall i :: 0 <= i < |s.threads| ==> s.threads[i] == Outside
  }

  function Permits(threads: seq<Thread>): nat {
    if threads == [] then 0 else (if threads[0] == Holding then 1 else 0) + Permits(threads[1..])
  }

  lemma {:induction false} PermitsUpdate(threads: seq<Thread>, i: nat, th: Thread)
    requires i < |threads|
    ensures Permits(threads[i := th]) + (if threads[i] == Holding then 1 else 0)
            == Permits(threads) + (if th == Holding then 1 else 0)
  {
    if i > 0 {
      PermitsUpdate(threads[1..], i - 1, th);
      assert threads[i := th][1..] == threads[1..][i - 1 := th];
    } else {
      assert threads[i := th][1..] == threads[1..];
    }
  }

  predicate Inv(s: State) {
    s.active == Permits(s.threads) && 0 <= s.active <= s.limit && s.limit >= 1
  }

  lemma {:induction false} NoPermits(threads: seq<Thread>)
    requires forall i :: 0 <= i < |threads| ==> threads[i] == Outside
    ensures Permits(threads) == 0
  {
    if threads != [] {
      NoPermits(threads[1..]);
    }
  }

  lemma StepInv(s: State, m: Move)
    requires Inv(s) && Enabled(s, m)
    ensures Inv(Next(s, m))
  {
    PermitsUpdate(s.threads, m.who, Next(s, m).threads[m.who]);
  }

  /** In every run the counter is the number of permits, within the limit. */
  lemma {:induction false} CounterIsExact(s: State, moves: seq<Move>, t: State)
    requires (Init(s) || Inv(s)) && Runs(s, moves, t)
    ensures t.active == Permits(t.threads) && 0 <= t.active <= t.limit
    ensures Inv(t)
    decreases |moves|
  {
    if Init(s) {
      NoPermits(s.threads);
    }
    if moves != [] {
      StepInv(s, moves[0]);
      CounterIsExact(Next(s, moves[0]), moves[1..], t);
    }
  }

  lemma {:induction false} HoldingIsCounted(threads: seq<Thread>, i: nat)
    requires i < |threads| && threads[i] == Holding
    ensures Permits(threads) >= 1
  {
    if i > 0 {
      HoldingIsCounted(threads[1..], i - 1);
    }
  }

  /** `fetch_sub` never wraps: in every run, whenever some thread can drop a permit
      the counter is positive, and it is positive only when some thread can. */
  lemma DropNeverWraps(s: State, moves: seq<Move>, t: State)
    requires Init(s) && Runs(s, moves, t)
    ensures (exists who: nat :: Enabled(t, Move(who, DropPermit))) <==> t.active >= 1
  {
    CounterIsExact(s, moves, t);
    if exists who: nat :: Enabled(t, Move(who, DropPermit)) {
      var who: nat :| Enabled(t, Move(who, DropPermit));
      HoldingIsCounted(t.threads, who);
    }
    if t.active >= 1 {
      var who := SomeHolder(t.threads);
      assert Enabled(t, Move(who, DropPermit));
    }
  }

  lemma {:induction false} SomeHolder(threads: seq<Thread>) returns (i: nat)
    requires Permits(threads) >= 1
    ensures i < |threads| && threads[i] == Holding
  {
    if threads[0] == Holding {
      i := 0;
    } else {
      i := SomeHolder(threads[1..]);
      i := i + 1;
    }
  }

  predicate UpdatesCounter(a: Action) {
    a == CasSucceeds || a == DropPermit
  }

  /** Between two observations by one thread, the counter can differ only if
      another thread's update went through: a failed swap that is not spurious
      means someone else succeeded. */
  lemma {:induction false} FailedSwapMeansAnotherSucceeded(s: State, moves: seq<Move>, t: State, who: nat)
    requires Runs(s, moves, t) && who < |s.threads|
    requires s.threads[who] == Looping(s.active)
    requires forall k :: 0 <= k < |moves| ==> moves[k].who != who
    ensures |t.threads| == |s.threads| && t.threads[who] == s.threads[who]
    ensures t.active != s.active ==>
              exists k :: 0 <= k < |moves| && UpdatesCounter(moves[k].act) && moves[k].who != who
    decreases |moves|
  {
    if moves != [] && !UpdatesCounter(moves[0].act) {
      FailedSwapMeansAnotherSucceeded(Next(s, moves[0]), moves[1..], t, who);
      if t.active != s.active {
        var k :| 0 <= k < |moves[1..]| && UpdatesCounter(moves[1..][k].act) && moves[1..][k].who != who;
        assert moves[k + 1] == moves[1..][k];
      }
    } else if moves != [] {
      OthersLeaveThread(s, moves, t, who);
      assert UpdatesCounter(moves[0].act);
    }
  }

  lemma {:induction false} OthersLeaveThread(s: State, moves: seq<Move>, t: State, who: nat)
    requires Runs(s, moves, t) && who < |s.threads|
    requires forall k :: 0 <= k < |moves| ==> moves[k].who != who
    ensures |t.threads| == |s.threads| && t.threads[who] == s.threads[who]
    decreases |moves|
  {
    if moves != [] {
      OthersLeaveThread(Next(s, moves[0]), moves[1..], t, who);
    }
  }

  ghost predicate SeenAt(s: State, moves: seq<Move>, who: nat, value: int, k: nat, m: State) {
    && 0 < k <= |moves| && moves[k - 1].who == who
    && (forall j :: k <= j < |moves| ==> moves[j].who != who)
    && Runs(s, moves[..k], m) && m.active == value
  }

  /** The counter had this value right after the thread's last move. */
  ghost predicate Seen(s: State, moves: seq<Move>, who: nat, value: int) {
    exists k: nat, m :: SeenAt(s, moves, who, value, k, m)
  }

  /** The value a thread judges by was the counter's value when it last looked. */
  lemma {:induction false} ObservationsAreReal(s: State, moves: seq<Move>, t: State, who: nat)
    requires Init(s) && Runs(s, moves, t) && who < |t.threads| && t.threads[who].Looping?
    ensures Seen(s, moves, who, t.threads[who].current)
    decreases |moves|
  {
    if moves != [] {
      var n := |moves| - 1;
      var m := Before(s, moves, t);
      var v := t.threads[who].current;
      if moves[n].who == who {
        assert moves[..|moves|] == moves;
        assert SeenAt(s, moves, who, v, |moves|, t);
      } else {
        ObservationsAreReal(s, moves[..n], m, who);
        var k: nat, x :| SeenAt(s, moves[..n], who, v, k, x);
        assert moves[..n][..k] == moves[..k];
        assert SeenAt(s, moves, who, v, k, x);
      }
    }
  }

  lemma {:induction false} RunsAreDeterministic(s: State, moves: seq<Move>, t: State, u: State)
    requires Runs(s, moves, t) && Runs(s, moves, u)
    ensures t == u && t.limit == s.limit
    decreases |moves|
  {
    if moves != [] {
      RunsAreDeterministic(Next(s, moves[0]), moves[1..], t, u);
    }
  }

  lemma SeenOnce(s: State, moves: seq<Move>, who: nat, v: int, w: int)
    requires Seen(s, moves, who, v) && Seen(s, moves, who, w)
    ensures v == w
  {
    var k: nat, m :| SeenAt(s, moves, who, v, k, m);
    var l: nat, n :| SeenAt(s, moves, who, w, l, n);
    assert moves[k - 1].who == who && moves[l - 1].who == who;
    assert k == l;
    RunsAreDeterministic(s, moves[..k], m, n);
  }

  /** A refusal is truthful, and no refusal is spared: a thread in the loop gives up
      exactly when the counter was at the limit when it last looked, and tries to swap
      otherwise. */
  lemma RefusedExactlyAtLimit(s: State, moves: seq<Move>, t: State, who: nat)
    requires Init(s) && Runs(s, moves, t) && who < |t.threads| && t.threads[who].Looping?
    ensures Enabled(t, Move(who, Bail)) <==> Seen(s, moves, who, t.limit)
    ensures Enabled(t, Move(who, Bail)) <==> !Enabled(t, Move(who, CasFails))
  {
    var v := t.threads[who].current;
    ObservationsAreReal(s, moves, t, who);
    var k: nat, m :| SeenAt(s, moves, who, v, k, m);
    CounterIsExact(s, moves[..k], m);
    RunsAreDeterministic(s, moves[..k], m, m);
    RunsAreDeterministic(s, moves, t, t);
    assert v <= t.limit;
    if Seen(s, moves, who, t.limit) {
      SeenOnce(s, moves, who, v, t.limit);
    }
  }

  /** The state before the last move of a run. */
  lemma {:induction false} Before(s: State, moves: seq<Move>, t: State) returns (m: State)
    requires moves != [] && Runs(s, moves, t)
    ensures Runs(s, moves[..|moves| - 1], m) && Enabled(m, moves[|moves| - 1])
    ensures t == Next(m, moves[|moves| - 1])
    decreases |moves|
  {
    if |moves| == 1 {
      m := s;
    } else {
      m := Before(Next(s, moves[0]), moves[1..], t);
      assert moves[1..][..|moves| - 2] == moves[..|moves| - 1][1..];
    }
  }

  /** What the other threads left in the counter before a swap, and whether the
      weak swap fails although the value matches. */
  datatype Interference = Interference(active: nat, spurious: bool)

  class WaiterLimiter {
    const limit: nat
    var active: nat

    constructor (limit: nat)
      ensures this.limit == limit && active == 0
    {
      this.limit := limit;
      active := 0;
    }

    /** `reserve`, with the interference before each swap given as a script; after
        the script no one interferes. It takes one permit from the value that the
        winning swap met, or leaves the counter alone after seeing it at the limit. */
    method Reserve(script: seq<Interference>) returns (ok: bool, swaps: nat, met: nat)
      requires active <= limit
      requires forall k :: 0 <= k < |script| ==> script[k].active <= limit
      modifies this
      ensures active <= limit
      ensures swaps <= |script| + 1
      ensures ok ==> swaps > 0 && met < limit && active == met + 1
      ensures !ok ==> met == limit && active == met
      ensures met == if swaps == 0 || |script| == 0 then old(active)
                     else if swaps <= |script| then script[swaps - 1].active
                     else script[|script| - 1].active
    {
      var current := active;
      swaps, met := 0, active;
      while true
        invariant current == met == active <= limit
        invariant swaps <= |script|
        invariant met == if swaps == 0 then old(active) else script[swaps - 1].active
        decreases |script| + 1 - swaps
      {
        if current >= limit {
          return false, swaps, met;
        }
        var spurious := false;
        if swaps < |script| {
          active := script[swaps].active;
          spurious := script[swaps].spurious;
        }
        met := active;
        swaps := swaps + 1;
        if active == current && !spurious {
          active := current + 1;
          return true, swaps, met;
        }
        current := active;
      }
    }

    /** Dropping a permit. */
    method DropPermit()
      requires active > 0
      modifies this
      ensures active == old(active) - 1
    {
      active := active - 1;
    }
  }
}
