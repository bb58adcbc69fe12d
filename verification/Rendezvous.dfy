/** The retry loop of `open_final_component`: any number of openers of one path,
    with no deletion and no other I/O error. */
module Rendezvous {
  import opened WaitSlots

  /** One opener: about to try the existing file, having seen it missing and about
      to create it exclusively, or done. `round` counts loop iterations. */
  datatype Opener =
    | TryingOpen(round: nat)
    | TryingCreate(round: nat)
    | Done(round: nat, file: nat, created: bool)

  datatype Site = Site(file: Option<nat>, openers: seq<Opener>)

  predicate CanStep(s: Site, i: nat) {
    i < |s.openers| && !s.openers[i].Done?
  }

  /** The next filesystem call of one opener. Exclusive creation makes a file of
      its own: the creator's index names it. */
  function Step(s: Site, i: nat): Site
    requires CanStep(s, i)
  {
    var o := s.openers[i];
    if o.TryingOpen? then
      if s.file.Some? then s.(openers := s.openers[i := Done(o.round, s.file.value, false)])
      else s.(openers := s.openers[i := TryingCreate(o.round)])
    else if s.file.None? then
      s.(file := Some(i), openers := s.openers[i := Done(o.round, i, true)])
    else
      s.(openers := s.openers[i := TryingOpen(o.round + 1)])
  }

  ghost predicate Runs(s: Site, order: seq<nat>, t: Site)
    decreases |order|
  {
    if order == [] then s == t
    else CanStep(s, order[0]) && Runs(Step(s, order[0]), order[1..], t)
  }

  predicate Init(s: Site) {
    forall i :: 0 <= i < |s.openers| ==> s.openers[i] == TryingOpen(1)
  }

  predicate Fits(s: Site, i: nat, o: Opener) {
    match o
    case TryingOpen(r) => r == 1 || (r == 2 && s.file.Some?)
    case TryingCreate(r) => r == 1
    case Done(r, f, created) => 1 <= r <= 2 && s.file == Some(f) && (created ==> f == i)
  }

  predicate Inv(s: Site) {
    forall i :: 0 <= i < |s.openers| ==> Fits(s, i, s.openers[i])
  }

  lemma StepInv(s: Site, i: nat)
    requires Inv(s) && CanStep(s, i)
    ensures Inv(Step(s, i))
  {
    forall j | 0 <= j < |s.openers|
      ensures Fits(Step(s, i), j, Step(s, i).openers[j])
    {
      assert Fits(s, j, s.openers[j]);
    }
  }

  lemma {:induction false} RunInv(s: Site, order: seq<nat>, t: Site)
    requires Inv(s) && Runs(s, order, t)
    ensures Inv(t)
    decreases |order|
  {
    if order != [] {
      StepInv(s, order[0]);
      RunInv(Step(s, order[0]), order[1..], t);
    }
  }

  /** At most one opener creates the file, every opener that is done has that file,
      and each is done within two rounds. */
  lemma OneRendezvous(s: Site, order: seq<nat>, t: Site, i: nat, j: nat)
    requires Init(s) && Runs(s, order, t) && i < |t.openers| && j < |t.openers|
    requires t.openers[i].Done? && t.openers[j].Done?
    ensures t.openers[i].file == t.openers[j].file && t.file == Some(t.openers[i].file)
    ensures t.openers[i].created && t.openers[j].created ==> i == j
    ensures t.openers[i].round <= 2
  {
    RunInv(s, order, t);
    assert Fits(t, i, t.openers[i]) && Fits(t, j, t.openers[j]);
  }

  function Left(o: Opener): nat {
    match o
    case TryingOpen(r) => if r == 1 then 3 else 1
    case TryingCreate(_) => 2
    case Done(_, _, _) => 0
  }

  function TotalLeft(openers: seq<Opener>): nat {
    if openers == [] then 0 else Left(openers[0]) + TotalLeft(openers[1..])
  }

  lemma {:induction false} TotalUpdate(openers: seq<Opener>, i: nat, o: Opener)
    requires i < |openers|
    ensures TotalLeft(openers[i := o]) + Left(openers[i]) == TotalLeft(openers) + Left(o)
  {
    if i == 0 {
      assert openers[i := o][1..] == openers[1..];
    } else {
      TotalUpdate(openers[1..], i - 1, o);
      assert openers[i := o][1..] == openers[1..][i - 1 := o];
    }
  }

  /** The loop cannot go on: a run is no longer than three calls for each opener,
      whatever the interleaving. */
  lemma {:induction false} RunsAreShort(s: Site, order: seq<nat>, t: Site)
    requires Inv(s) && Runs(s, order, t)
    ensures |order| + TotalLeft(t.openers) <= TotalLeft(s.openers)
    decreases |order|
  {
    if order != [] {
      var i := order[0];
      assert Fits(s, i, s.openers[i]);
      StepInv(s, i);
      TotalUpdate(s.openers, i, Step(s, i).openers[i]);
      RunsAreShort(Step(s, i), order[1..], t);
    }
  }

  /** A file that was not there at the start has its creator among the openers. */
  predicate HasCreator(s: Site) {
    s.file.Some? ==> s.file.value < |s.openers| && s.openers[s.file.value].Done?
                     && s.openers[s.file.value].created
  }

  lemma {:induction false} RunKeepsCreator(s: Site, order: seq<nat>, t: Site)
    requires HasCreator(s) && Runs(s, order, t)
    ensures HasCreator(t) && |t.openers| == |s.openers|
    decreases |order|
  {
    if order != [] {
      RunKeepsCreator(Step(s, order[0]), order[1..], t);
    }
  }

  function CallsOf(order: seq<nat>, i: nat): nat {
    if order == [] then 0 else (if order[0] == i then 1 else 0) + CallsOf(order[1..], i)
  }

  /** How many calls lead here: the last round of a loser opens once more. */
  function CallsTo(o: Opener): int {
    match o
    case TryingOpen(r) => 2 * (r - 1)
    case TryingCreate(r) => 2 * r - 1
    case Done(r, _, created) => if created then 2 * r else 2 * r - 1
  }

  lemma {:induction false} RunCounts(s: Site, order: seq<nat>, t: Site, i: nat)
    requires Inv(s) && Runs(s, order, t) && i < |s.openers|
    ensures |t.openers| == |s.openers|
    ensures CallsTo(t.openers[i]) == CallsTo(s.openers[i]) + CallsOf(order, i)
    decreases |order|
  {
    if order != [] {
      assert Fits(s, order[0], s.openers[order[0]]);
      StepInv(s, order[0]);
      RunCounts(Step(s, order[0]), order[1..], t, i);
    }
  }

  /** Each call of an opener is accounted for: one to join a file that is there, two to
      make it, three to join after losing the race to make it. */
  lemma CallsExactly(s: Site, order: seq<nat>, t: Site, i: nat)
    requires Init(s) && Runs(s, order, t) && i < |t.openers| && t.openers[i].Done?
    ensures CallsOf(order, i) == if t.openers[i].created then 2 else if t.openers[i].round == 1 then 1 else 3
    ensures t.openers[i].created ==> t.openers[i].round == 1
    ensures s.file.Some? ==> CallsOf(order, i) == 1
  {
    RunKeepsLength(s, order, t);
    RunCounts(s, order, t, i);
    RunInv(s, order, t);
    assert Fits(t, i, t.openers[i]);
    MadeInFirstRound(s, order, t, i);
  }

  predicate FirstRound(s: Site, o: Opener) {
    (o.Done? && o.created ==> o.round == 1) && (o.TryingCreate? ==> o.round == 1)
  }

  lemma {:induction false} RunKeepsLength(s: Site, order: seq<nat>, t: Site)
    requires Runs(s, order, t)
    ensures |t.openers| == |s.openers|
    decreases |order|
  {
    if order != [] {
      RunKeepsLength(Step(s, order[0]), order[1..], t);
    }
  }

  lemma {:induction false} MadeInFirstRound(s: Site, order: seq<nat>, t: Site, i: nat)
    requires Inv(s) && Runs(s, order, t) && i < |s.openers| == |t.openers| && FirstRound(s, s.openers[i])
    ensures FirstRound(t, t.openers[i])
    ensures s.file.Some? && s.openers[i] == TryingOpen(1) ==>
              t.openers[i] == TryingOpen(1) || (t.openers[i].Done? && !t.openers[i].created && t.openers[i].round == 1)
    ensures s.file.Some? && s.openers[i].Done? ==> t.openers[i] == s.openers[i]
    decreases |order|
  {
    if order != [] {
      assert Fits(s, order[0], s.openers[order[0]]);
      StepInv(s, order[0]);
      RunKeepsLength(Step(s, order[0]), order[1..], t);
      MadeInFirstRound(Step(s, order[0]), order[1..], t, i);
    }
  }

  predicate Finished(t: Site) {
    forall i :: 0 <= i < |t.openers| ==> t.openers[i].Done? && t.file == Some(t.openers[i].file)
  }

  /** Of n openers starting together, whatever the interleaving: there are at most 3n
      calls, and when no opener has a call left all of them have the same file, which
      one of them created if it was not there before. */
  lemma OpenersFinish(s: Site, order: seq<nat>, t: Site)
    requires Init(s) && Runs(s, order, t)
    ensures |order| <= 3 * |s.openers|
    ensures (forall i: nat :: !CanStep(t, i)) ==> Finished(t)
    ensures s.file.None? && t.file.Some? ==> HasCreator(t)
  {
    RunsAreShort(s, order, t);
    StartTotal(s.openers);
    RunInv(s, order, t);
    if s.file.None? {
      RunKeepsCreator(s, order, t);
    }
    if forall i: nat :: !CanStep(t, i) {
      forall i | 0 <= i < |t.openers|
        ensures t.openers[i].Done? && t.file == Some(t.openers[i].file)
      {
        assert !CanStep(t, i) && Fits(t, i, t.openers[i]);
      }
    }
  }

  lemma {:induction false} StartTotal(openers: seq<Opener>)
    requires forall i :: 0 <= i < |openers| ==> openers[i] == TryingOpen(1)
    ensures TotalLeft(openers) == 3 * |openers|
  {
    if openers != [] {
      StartTotal(openers[1..]);
    }
  }

  class Directory {
    var file: Option<nat>

    /** `open_final_component` of one process; `rivals[k]` says that another process
        creates the file between this process's k-th open and its creation. */
    method OpenFinalComponent(mine: nat, theirs: nat, rivals: nat -> bool)
      returns (got: nat, created: bool, rounds: nat)
      modifies this
      ensures file == Some(got)
      ensures old(file).Some? ==> file == old(file) && !created && rounds == 1
      ensures old(file).None? ==>
                && (created <==> !rivals(0))
                && got == (if created then mine else theirs)
                && rounds == (if created then 1 else 2)
    {
      rounds := 0;
      while true
        invariant rounds <= 1
        invariant rounds == 0 ==> file == old(file)
        invariant rounds == 1 ==> old(file).None? && rivals(0) && file == Some(theirs)
        decreases 2 - rounds
      {
        rounds := rounds + 1;
        if file.Some? {
          return file.value, false, rounds;
        }
        if rivals(rounds - 1) {
          file := Some(theirs);
        }
        if file.None? {
          file := Some(mine);
          return mine, true, rounds;
        }
      }
    }
  }
}
