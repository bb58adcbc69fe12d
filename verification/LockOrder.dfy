/** The lock hierarchy of src/lib.rs: class ranks, path sort keys, the strict
    order on (rank, key) positions, and the per-thread list of held locks that
    `check_lock_order` consults. */
module LockOrder {

  type Path = string
  type U16 = n: int | 0 <= n < 0x1_0000

  datatype LockClass = ProjectMutation | Refs | Artifact | Build | Custom(level: U16)
  {
    function Rank(): U16 {
      match this
      case ProjectMutation => 10
      case Refs => 20
      case Artifact => 30
      case Build => 40
      case Custom(level) => level
    }
  }

  /** The named classes ascend, and the custom classes fill the places between, below
      and above them: which numbers coincide with a named class. */
  lemma ClassesAscend(level: U16)
    ensures 0 < ProjectMutation.Rank() < Refs.Rank() < Artifact.Rank() < Build.Rank()
    ensures Custom(level).Rank() == ProjectMutation.Rank() <==> level == 10
    ensures Custom(level).Rank() == Refs.Rank() <==> level == 20
    ensures Custom(level).Rank() == Artifact.Rank() <==> level == 30
    ensures Custom(level).Rank() == Build.Rank() <==> level == 40
    ensures forall other: U16 :: Custom(level).Rank() < Custom(other).Rank() <==> level < other
  {
  }

  /** One element of the thread-local list: the rank and the canonical path. */
  datatype Entry = Entry(rank: int, path: Path)

  /** A place in the hierarchy. Keys are compared only after ranks. */
  datatype Position = Position(rank: int, key: string)

  /** `path_sort_key` is lossy (invalid UTF-8 is replaced, Windows folds case),
      so the key is an arbitrary function throughout. */
  type KeyFn = Path -> string

  function At(e: Entry, key: KeyFn): Position {
    Position(e.rank, key(e.path))
  }

  /** Rust's `String` order: lexicographic, a proper prefix first. */
  predicate LexLess(a: string, b: string) {
    b != [] && (a == [] || a[0] < b[0] || (a[0] == b[0] && LexLess(a[1..], b[1..])))
  }

  predicate Less(p: Position, q: Position) {
    p.rank < q.rank || (p.rank == q.rank && LexLess(p.key, q.key))
  }

  predicate AtMost(p: Position, q: Position) {
    !Less(q, p)
  }

  // ----- the position order is a strict total order

  lemma {:induction false} LexTrichotomy(a: string, b: string)
    ensures a == b <==> !LexLess(a, b) && !LexLess(b, a)
    ensures !(LexLess(a, b) && LexLess(b, a))
  {
    if a != [] && b != [] {
      LexTrichotomy(a[1..], b[1..]);
      assert a == [a[0]] + a[1..] && b == [b[0]] + b[1..];
    }
  }

  lemma {:induction false} LexTransitive(a: string, b: string, c: string)
    requires LexLess(a, b) && LexLess(b, c)
    ensures LexLess(a, c)
  {
    if a != [] && a[0] == b[0] && b[0] == c[0] {
      LexTransitive(a[1..], b[1..], c[1..]);
    }
  }

  /** The first difference, or the end of a text that the other one extends. */
  predicate DecidedAt(a: string, b: string, k: nat) {
    && k <= |a| && k < |b|
    && (forall i :: 0 <= i < k ==> a[i] == b[i])
    && (k == |a| || a[k] < b[k])
  }

  lemma {:induction false} LexLessExactly(a: string, b: string)
    ensures LexLess(a, b) <==> exists k: nat :: DecidedAt(a, b, k)
  {
    if a != [] && b != [] && a[0] == b[0] {
      var c, d := a[1..], b[1..];
      LexLessExactly(c, d);
      if LexLess(c, d) {
        var k: nat :| DecidedAt(c, d, k);
        DecidedShift(a, b, k);
      }
      if exists k: nat :: DecidedAt(a, b, k) {
        var k: nat :| DecidedAt(a, b, k);
        DecidedShift(a, b, k - 1);
      }
    } else if b != [] && (a == [] || a[0] < b[0]) {
      assert DecidedAt(a, b, 0);
    }
  }

  lemma DecidedShift(a: string, b: string, k: nat)
    requires a != [] && b != [] && a[0] == b[0]
    ensures DecidedAt(a, b, k + 1) <==> DecidedAt(a[1..], b[1..], k)
  {
    var c, d := a[1..], b[1..];
    assert forall i :: 0 <= i < |c| ==> c[i] == a[i + 1];
    assert forall i :: 0 <= i < |d| ==> d[i] == b[i + 1];
    if DecidedAt(c, d, k) {
      assert forall i :: 0 < i < k + 1 ==> c[i - 1] == d[i - 1] && a[i] == c[i - 1] && b[i] == d[i - 1];
    }
  }

  lemma Trichotomy(p: Position, q: Position)
    ensures p == q <==> !Less(p, q) && !Less(q, p)
    ensures !(Less(p, q) && Less(q, p))
  {
    LexTrichotomy(p.key, q.key);
  }

  lemma Transitive(p: Position, q: Position, r: Position)
    requires AtMost(p, q) && AtMost(q, r)
    ensures AtMost(p, r)
    ensures p == r ==> p == q
  {
    Trichotomy(p, q);
    Trichotomy(q, r);
    Trichotomy(p, r);
    if Less(p, q) && Less(q, r) {
      if p.rank == q.rank == r.rank {
        LexTransitive(p.key, q.key, r.key);
      }
    }
  }

  // ----- the thread-local list

  /** What the order check promises: the candidate is below nothing that is held. */
  predicate OrderAllows(held: seq<Entry>, candidate: Position, key: KeyFn) {
    forall i :: 0 <= i < |held| ==> AtMost(At(held[i], key), candidate)
  }

  /** Ascending: an entry is no obstacle if its rank is lower, or if the ranks are equal
      and its key does not come later. */
  lemma AllowsExactly(held: seq<Entry>, rank: int, path: Path, key: KeyFn)
    ensures OrderAllows(held, Position(rank, key(path)), key) <==>
            forall e :: e in held ==>
              e.rank < rank
              || (e.rank == rank && (key(e.path) == key(path) || LexLess(key(e.path), key(path))))
  {
    forall i | 0 <= i < |held|
      ensures var e := held[i];
              AtMost(At(e, key), Position(rank, key(path))) <==>
                e.rank < rank
                || (e.rank == rank && (key(e.path) == key(path) || LexLess(key(e.path), key(path))))
    {
      LexTrichotomy(key(held[i].path), key(path));
    }
  }

  /** Removing the last occurrence, as dropping a registration does. */
  function RemoveLast(held: seq<Entry>, e: Entry): seq<Entry> {
    if held == [] then []
    else if held[|held| - 1] == e then held[..|held| - 1]
    else RemoveLast(held[..|held| - 1], e) + [held[|held| - 1]]
  }

  lemma {:induction false} RemoveLastAt(held: seq<Entry>, e: Entry, i: nat)
    requires i < |held| && held[i] == e
    requires forall j :: i < j < |held| ==> held[j] != e
    ensures RemoveLast(held, e) == held[..i] + held[i + 1..]
  {
    var n := |held| - 1;
    if i < n {
      RemoveLastAt(held[..n], e, i);
      assert held[..n][..i] == held[..i];
      assert held[..n][i + 1..] + [held[n]] == held[i + 1..];
    } else {
      assert held[..i] + held[i + 1..] == held[..n];
    }
  }

  lemma {:induction false} RemoveLastAbsent(held: seq<Entry>, e: Entry)
    requires e !in held
    ensures RemoveLast(held, e) == held
  {
    if held != [] {
      RemoveLastAbsent(held[..|held| - 1], e);
    }
  }

  /** Exactly one registration goes, whichever of several equal ones it was. */
  lemma {:induction false} RemoveLastMultiset(held: seq<Entry>, e: Entry)
    ensures multiset(RemoveLast(held, e)) == multiset(held) - multiset{e}
  {
    if held != [] {
      var n := |held| - 1;
      assert held == held[..n] + [held[n]];
      if held[n] != e {
        RemoveLastMultiset(held[..n], e);
      }
    }
  }

  /** Nested registrations unwind exactly: the list is back to what it was. */
  lemma RegisterThenDrop(held: seq<Entry>, e: Entry)
    ensures RemoveLast(held + [e], e) == held
  {
    assert (held + [e])[..|held|] == held;
  }

  /** `HELD_LOCK_ORDER` of one thread. */
  class HeldOrder {
    var held: seq<Entry>

    constructor ()
      ensures held == []
    {
      held := [];
    }

    /** The maximum of the list decides for the whole list: nothing held has a higher
        rank, or the same rank and a later key. */
    method CheckLockOrder(rank: int, path: Path, key: KeyFn) returns (ok: bool)
      ensures ok <==> OrderAllows(held, Position(rank, key(path)), key)
      ensures ok <==> forall e :: e in held ==>
                        e.rank < rank
                        || (e.rank == rank && (key(e.path) == key(path) || LexLess(key(e.path), key(path))))
    {
      var candidate := Position(rank, key(path));
      AllowsExactly(held, rank, path, key);
      if held == [] {
        return true;
      }
      var top := 0;
      Trichotomy(At(held[0], key), At(held[0], key));
      for i := 1 to |held|
        invariant top < |held|
        invariant forall j :: 0 <= j < i ==> AtMost(At(held[j], key), At(held[top], key))
      {
        var before := At(held[top], key);
        Trichotomy(At(held[i], key), before);
        if AtMost(before, At(held[i], key)) {
          forall j | 0 <= j < i + 1
            ensures AtMost(At(held[j], key), At(held[i], key))
          {
            Trichotomy(At(held[i], key), At(held[i], key));
            if j < i {
              Transitive(At(held[j], key), before, At(held[i], key));
            }
          }
          top := i;
        }
      }
      ok := !Less(candidate, At(held[top], key));
      if ok {
        forall j | 0 <= j < |held|
          ensures AtMost(At(held[j], key), candidate)
        {
          Transitive(At(held[j], key), At(held[top], key), candidate);
        }
      }
    }

    method Register(e: Entry)
      modifies this
      ensures held == old(held) + [e]
    {
      held := held + [e];
    }

    /** Dropping a `HeldOrderRegistration`: `rposition`, then `remove`. */
    method Deregister(e: Entry)
      modifies this
      ensures held == RemoveLast(old(held), e)
    {
      var i := |held|;
      while i > 0 && held[i - 1] != e
        invariant 0 <= i <= |held|
        invariant forall j :: i <= j < |held| ==> held[j] != e
      {
        i := i - 1;
      }
      if i > 0 {
        RemoveLastAt(held, e, i - 1);
        held := held[..i - 1] + held[i..];
      } else {
        RemoveLastAbsent(held, e);
      }
    }
  }
}
