/** The deterministic order of `acquire_many_blocking`: what its sort does, when the
    result depends on the input order, and what the order is good for. */
module SetOrder {
  import opened LockOrder
  import opened LockCalls

  // ----- the sort

  function Insert(rs: seq<Request>, r: Request, key: KeyFn): (s: seq<Request>)
    ensures multiset(s) == multiset(rs) + multiset{r}
  {
    if rs == [] || AtMost(Spot(rs[|rs| - 1], key), Spot(r, key)) then
      rs + [r]
    else
      var n := |rs| - 1;
      assert rs == rs[..n] + [rs[n]];
      Insert(rs[..n], r, key) + [rs[n]]
  }

  /** The standard library's stable sort by class rank, then key. */
  function SortRequests(rs: seq<Request>, key: KeyFn): (s: seq<Request>)
    ensures multiset(s) == multiset(rs)
  {
    if rs == [] then []
    else
      var n := |rs| - 1;
      assert rs == rs[..n] + [rs[n]];
      Insert(SortRequests(rs[..n], key), rs[n], key)
  }

  lemma SameElements(a: seq<Request>, b: seq<Request>, i: nat)
    requires multiset(a) == multiset(b) && i < |a|
    ensures exists j :: 0 <= j < |b| && b[j] == a[i]
  {
    assert a[i] in multiset(b);
  }

  predicate Ordered(rs: seq<Request>, key: KeyFn) {
    forall i, j :: 0 <= i < j < |rs| ==> AtMost(Spot(rs[i], key), Spot(rs[j], key))
  }

  lemma {:induction false} InsertOrdered(rs: seq<Request>, r: Request, key: KeyFn)
    requires Ordered(rs, key)
    ensures Ordered(Insert(rs, r, key), key)
  {
    if rs == [] {
    } else if AtMost(Spot(rs[|rs| - 1], key), Spot(r, key)) {
      forall i | 0 <= i < |rs|
        ensures AtMost(Spot(rs[i], key), Spot(r, key))
      {
        Trichotomy(Spot(rs[i], key), Spot(rs[i], key));
        Transitive(Spot(rs[i], key), Spot(rs[|rs| - 1], key), Spot(r, key));
      }
    } else {
      var n := |rs| - 1;
      var s := Insert(rs[..n], r, key);
      InsertOrdered(rs[..n], r, key);
      forall i | 0 <= i < |s|
        ensures AtMost(Spot(s[i], key), Spot(rs[n], key))
      {
        SameElements(s, rs[..n] + [r], i);
        Trichotomy(Spot(rs[n], key), Spot(r, key));
      }
    }
  }

  lemma {:induction false} SortIsOrdered(rs: seq<Request>, key: KeyFn)
    ensures Ordered(SortRequests(rs, key), key)
  {
    if rs != [] {
      SortIsOrdered(rs[..|rs| - 1], key);
      InsertOrdered(SortRequests(rs[..|rs| - 1], key), rs[|rs| - 1], key);
    }
  }

  /** Ascending by rank, and within a rank by key. */
  lemma SortOrdered(rs: seq<Request>, key: KeyFn, i: nat, j: nat)
    requires i < j < |rs|
    ensures var s := SortRequests(rs, key);
            && |s| == |rs| && multiset(s) == multiset(rs)
            && (s[i].lockClass.Rank() < s[j].lockClass.Rank()
                || (s[i].lockClass.Rank() == s[j].lockClass.Rank()
                    && (key(s[i].path) == key(s[j].path) || LexLess(key(s[i].path), key(s[j].path)))))
  {
    var s := SortRequests(rs, key);
    SortIsOrdered(rs, key);
    assert |multiset(s)| == |s| && |multiset(rs)| == |rs|;
    LexTrichotomy(key(s[i].path), key(s[j].path));
  }

  function IfAt(r: Request, x: Position, key: KeyFn): seq<Request> {
    if Spot(r, key) == x then [r] else []
  }

  /** The requests at one position, in their order. */
  function AtSpot(rs: seq<Request>, x: Position, key: KeyFn): seq<Request> {
    if rs == [] then [] else AtSpot(rs[..|rs| - 1], x, key) + IfAt(rs[|rs| - 1], x, key)
  }

  lemma AtSpotAppend(rs: seq<Request>, r: Request, x: Position, key: KeyFn)
    ensures AtSpot(rs + [r], x, key) == AtSpot(rs, x, key) + IfAt(r, x, key)
  {
    assert (rs + [r])[..|rs|] == rs;
  }

  lemma NotBothAt(r: Request, last: Request, x: Position, key: KeyFn)
    requires !AtMost(Spot(last, key), Spot(r, key))
    ensures IfAt(r, x, key) + IfAt(last, x, key) == IfAt(last, x, key) + IfAt(r, x, key)
  {
    Trichotomy(Spot(last, key), Spot(r, key));
  }

  lemma {:induction false} InsertIsStable(rs: seq<Request>, r: Request, x: Position, key: KeyFn)
    ensures AtSpot(Insert(rs, r, key), x, key) == AtSpot(rs, x, key) + IfAt(r, x, key)
  {
    if rs == [] || AtMost(Spot(rs[|rs| - 1], key), Spot(r, key)) {
      AtSpotAppend(rs, r, x, key);
    } else {
      var front, last := rs[..|rs| - 1], rs[|rs| - 1];
      InsertIsStable(front, r, x, key);
      InsertPasses(front, Insert(front, r, key), r, last, x, key);
      assert rs == front + [last];
    }
  }

  lemma InsertPasses(front: seq<Request>, inserted: seq<Request>, r: Request, last: Request,
                     x: Position, key: KeyFn)
    requires AtSpot(inserted, x, key) == AtSpot(front, x, key) + IfAt(r, x, key)
    requires !AtMost(Spot(last, key), Spot(r, key))
    ensures AtSpot(inserted + [last], x, key) == AtSpot(front + [last], x, key) + IfAt(r, x, key)
  {
    AtSpotAppend(inserted, last, x, key);
    AtSpotAppend(front, last, x, key);
    NotBothAt(r, last, x, key);
    Swapped(AtSpot(front, x, key), IfAt(r, x, key), IfAt(last, x, key));
  }

  lemma Swapped(f: seq<Request>, a: seq<Request>, b: seq<Request>)
    requires a + b == b + a
    ensures f + a + b == f + b + a
  {
    assert f + a + b == f + (a + b);
    assert f + b + a == f + (b + a);
  }

  /** Requests that tie stay in the order in which they were given. */
  lemma {:induction false} SortIsStable(rs: seq<Request>, x: Position, key: KeyFn)
    ensures AtSpot(SortRequests(rs, key), x, key) == AtSpot(rs, x, key)
  {
    if rs != [] {
      SortIsStable(rs[..|rs| - 1], x, key);
      InsertIsStable(SortRequests(rs[..|rs| - 1], key), rs[|rs| - 1], x, key);
    }
  }

  predicate HasDuplicate(rs: seq<Request>) {
    exists i, j :: 0 <= i < j < |rs| && rs[i].path == rs[j].path
  }

  lemma TwoOfOne(b: seq<Request>, x: Request)
    requires multiset(b)[x] >= 2
    ensures HasDuplicate(b)
  {
    var i :| 0 <= i < |b| && b[i] == x;
    var rest := b[..i] + b[i + 1..];
    assert b == b[..i] + [b[i]] + b[i + 1..];
    assert multiset(rest)[x] >= 1;
    var k :| 0 <= k < |rest| && rest[k] == x;
    var j := if k < i then k else k + 1;
    assert b[j] == x;
    assert if i < j then b[i].path == b[j].path else b[j].path == b[i].path;
  }

  lemma OneIsTwo(a: seq<Request>, i: nat, j: nat)
    requires i < j < |a| && a[i] == a[j]
    ensures multiset(a)[a[i]] >= 2
  {
    var front, back := a[..j], a[j..];
    assert a == front + back;
    assert front[i] in multiset(front) && back[0] in multiset(back);
  }

  lemma DifferentOnes(b: seq<Request>, x: Request, y: Request)
    requires x in multiset(b) && y in multiset(b) && x != y && x.path == y.path
    ensures HasDuplicate(b)
  {
    var k :| 0 <= k < |b| && b[k] == x;
    var l :| 0 <= l < |b| && b[l] == y;
    assert if k < l then b[k].path == b[l].path else b[l].path == b[k].path;
  }

  /** A permutation has a duplicate exactly when the original has. */
  lemma DuplicateMoves(a: seq<Request>, b: seq<Request>)
    requires multiset(a) == multiset(b) && HasDuplicate(a)
    ensures HasDuplicate(b)
  {
    var i, j :| 0 <= i < j < |a| && a[i].path == a[j].path;
    if a[i] == a[j] {
      OneIsTwo(a, i, j);
      TwoOfOne(b, a[i]);
    } else {
      assert a[i] in multiset(a) && a[j] in multiset(a);
      DifferentOnes(b, a[i], a[j]);
    }
  }

  function GuardsOf(rs: seq<Request>): seq<Guard> {
    GuardsFor(rs, |rs|)
  }

  lemma WithoutOne(rs: seq<Request>, j: nat) returns (rest: seq<Request>)
    requires j < |rs|
    ensures multiset(rs) == multiset(rest) + multiset{rs[j]} && |rest| == |rs| - 1
    ensures multiset(GuardsOf(rs)) == multiset(GuardsOf(rest)) + multiset{GuardFor(rs[j])}
    ensures j == 0 ==> rest == rs[1..]
  {
    var front, back := rs[..j], rs[j + 1..];
    rest := front + back;
    assert rs == front + [rs[j]] + back;
    assert GuardsOf(rs) == GuardsOf(front) + [GuardFor(rs[j])] + GuardsOf(back);
    assert GuardsOf(rest) == GuardsOf(front) + GuardsOf(back);
  }

  /** A permutation of the requests gets a permutation of the guards. */
  lemma {:induction false} GuardsMove(a: seq<Request>, b: seq<Request>)
    requires multiset(a) == multiset(b)
    ensures multiset(GuardsOf(a)) == multiset(GuardsOf(b))
    decreases |a|
  {
    assert |multiset(a)| == |a| && |multiset(b)| == |b|;
    if a != [] {
      SameElements(a, b, 0);
      var j :| 0 <= j < |b| && b[j] == a[0];
      var c := WithoutOne(a, 0);
      var d := WithoutOne(b, j);
      assert multiset(c) == multiset(a) - multiset{a[0]};
      assert multiset(d) == multiset(b) - multiset{a[0]};
      GuardsMove(c, d);
    }
  }

  /** Two different requests at one position of the hierarchy. */
  predicate HasTie(rs: seq<Request>, key: KeyFn) {
    exists i, j :: 0 <= i < j < |rs| && rs[i] != rs[j] && Spot(rs[i], key) == Spot(rs[j], key)
  }

  lemma TieMoves(a: seq<Request>, b: seq<Request>, key: KeyFn)
    requires multiset(a) == multiset(b) && HasTie(a, key)
    ensures HasTie(b, key)
  {
    var i, j :| 0 <= i < j < |a| && a[i] != a[j] && Spot(a[i], key) == Spot(a[j], key);
    SameElements(a, b, i);
    SameElements(a, b, j);
    var k :| 0 <= k < |b| && b[k] == a[i];
    var l :| 0 <= l < |b| && b[l] == a[j];
    assert if k < l then b[k] != b[l] else b[l] != b[k];
  }

  /** Ordered lists of the same requests without ties are the same list. */
  lemma {:induction false} OrderedIsUnique(a: seq<Request>, b: seq<Request>, key: KeyFn)
    requires Ordered(a, key) && Ordered(b, key) && multiset(a) == multiset(b) && !HasTie(a, key)
    ensures a == b
  {
    assert |multiset(a)| == |a| && |multiset(b)| == |b|;
    if a != [] {
      SameFirst(a, b, key);
      Tail(a, key);
      Tail(b, key);
      OrderedIsUnique(a[1..], b[1..], key);
    }
  }

  lemma Tail(a: seq<Request>, key: KeyFn)
    requires a != []
    ensures a == [a[0]] + a[1..] && multiset(a[1..]) == multiset(a) - multiset{a[0]}
    ensures Ordered(a, key) ==> Ordered(a[1..], key)
    ensures HasTie(a[1..], key) ==> HasTie(a, key)
  {
    assert a == [a[0]] + a[1..];
    if HasTie(a[1..], key) {
      TailTie(a[1..], a, key);
    }
  }

  lemma TailTie(r: seq<Request>, a: seq<Request>, key: KeyFn)
    requires |a| == |r| + 1 && a[1..] == r && HasTie(r, key)
    ensures HasTie(a, key)
  {
    var x, y :| 0 <= x < y < |r| && r[x] != r[y] && Spot(r[x], key) == Spot(r[y], key);
    assert a[x + 1] == r[x] && a[y + 1] == r[y];
  }

  lemma SameFirst(a: seq<Request>, b: seq<Request>, key: KeyFn)
    requires Ordered(a, key) && Ordered(b, key) && multiset(a) == multiset(b) && !HasTie(a, key)
    requires a != [] && b != []
    ensures a[0] == b[0]
  {
    SameElements(a, b, 0);
    SameElements(b, a, 0);
    var i :| 0 <= i < |b| && b[i] == a[0];
    var j :| 0 <= j < |a| && a[j] == b[0];
    Trichotomy(Spot(a[0], key), Spot(b[0], key));
  }

  lemma {:induction false} SortFixesOrdered(rs: seq<Request>, key: KeyFn)
    requires Ordered(rs, key)
    ensures SortRequests(rs, key) == rs
  {
    if rs != [] {
      OrderedFront(rs, key);
      SortFixesOrdered(rs[..|rs| - 1], key);
      SortAppends(rs, key);
    }
  }

  lemma OrderedFront(rs: seq<Request>, key: KeyFn)
    requires Ordered(rs, key) && rs != []
    ensures Ordered(rs[..|rs| - 1], key)
    ensures |rs| > 1 ==> AtMost(Spot(rs[|rs| - 2], key), Spot(rs[|rs| - 1], key))
  {
  }

  lemma SortAppends(rs: seq<Request>, key: KeyFn)
    requires rs != [] && SortRequests(rs[..|rs| - 1], key) == rs[..|rs| - 1]
    requires |rs| > 1 ==> AtMost(Spot(rs[|rs| - 2], key), Spot(rs[|rs| - 1], key))
    ensures SortRequests(rs, key) == rs
  {
    assert rs[..|rs| - 1] + [rs[|rs| - 1]] == rs;
  }

  /** Two tied requests of an ordered list may change places. */
  lemma SwapTied(s: seq<Request>, i: nat, j: nat, key: KeyFn) returns (swapped: seq<Request>)
    requires Ordered(s, key) && i < j < |s| && s[i] != s[j] && Spot(s[i], key) == Spot(s[j], key)
    ensures multiset(swapped) == multiset(s) && swapped != s && Ordered(swapped, key)
  {
    swapped := s[i := s[j]][j := s[i]];
    forall k | 0 <= k < |s|
      ensures Spot(swapped[k], key) == Spot(s[k], key)
    {
    }
  }

  ghost predicate OneOrder(rs: seq<Request>, key: KeyFn) {
    forall b :: multiset(b) == multiset(rs) ==> SortRequests(b, key) == SortRequests(rs, key)
  }

  /** The acquisition order depends on the set alone, and not on the order in which
      the requests were given, if and only if no two of them tie on rank and key. */
  lemma OrderIsDeterministicExactly(rs: seq<Request>, key: KeyFn)
    ensures OneOrder(rs, key) <==> !HasTie(rs, key)
  {
    var sorted := SortRequests(rs, key);
    SortIsOrdered(rs, key);
    if HasTie(rs, key) {
      TieMoves(rs, sorted, key);
      var i, j :| 0 <= i < j < |sorted| && sorted[i] != sorted[j] && Spot(sorted[i], key) == Spot(sorted[j], key);
      var swapped := SwapTied(sorted, i, j, key);
      SortFixesOrdered(swapped, key);
      assert SortRequests(swapped, key) != sorted;
    } else {
      forall b | multiset(b) == multiset(rs)
        ensures SortRequests(b, key) == sorted
      {
        SortIsOrdered(b, key);
        if HasTie(sorted, key) {
          TieMoves(sorted, rs, key);
        }
        OrderedIsUnique(sorted, SortRequests(b, key), key);
      }
    }
  }

  // ----- a sorted set does not get in its own way

  lemma {:induction false} HeldAfterGrants(v: Own, rs: seq<Request>, n: nat)
    requires n <= |rs|
    ensures AfterGrants(v, rs, n).held == v.held + seq(n, i requires 0 <= i < n => EntryOf(rs[i]))
  {
    if n > 0 {
      HeldAfterGrants(v, rs, n - 1);
    }
  }

  /** If the smallest request of a sorted set passes the order check, every later
      one passes it too, whatever was acquired before it: an inversion can stop a
      set only before anything is acquired. */
  lemma InversionOnlyAtFirst(v: Own, rs: seq<Request>, k: nat, key: KeyFn)
    requires Ordered(rs, key) && k < |rs|
    requires OrderAllows(v.held, Spot(rs[0], key), key)
    ensures OrderAllows(AfterGrants(v, rs, k).held, Spot(rs[k], key), key)
  {
    HeldAfterGrants(v, rs, k);
    var held := AfterGrants(v, rs, k).held;
    forall i | 0 <= i < |held|
      ensures AtMost(At(held[i], key), Spot(rs[k], key))
    {
      if i < |v.held| {
        Trichotomy(Spot(rs[0], key), Spot(rs[0], key));
        Transitive(At(v.held[i], key), Spot(rs[0], key), Spot(rs[k], key));
      } else {
        assert At(held[i], key) == Spot(rs[i - |v.held|], key);
      }
    }
  }

  lemma {:induction false} TakenByGrants(v: Own, rs: seq<Request>, n: nat, p: Path)
    requires n <= |rs|
    ensures p in AfterGrants(v, rs, n).mine ==> p in v.mine || exists i :: 0 <= i < n && rs[i].path == p
    ensures p in AfterGrants(v, rs, n).reserved ==> p in v.reserved || exists i :: 0 <= i < n && rs[i].path == p
    ensures p in v.mine ==> p in AfterGrants(v, rs, n).mine
    ensures p in v.reserved ==> p in AfterGrants(v, rs, n).reserved
  {
    if n > 0 {
      TakenByGrants(v, rs, n - 1, p);
    }
  }

  /** Without duplicates, a request of the set is refused or put to sleep exactly as if
      the set had acquired nothing before it: what was free at the start still is. */
  lemma SetIsNotInItsOwnWay(v: Own, rs: seq<Request>, k: nat, m: Meeting, key: KeyFn)
    requires Ordered(rs, key) && !HasDuplicate(rs) && k < |rs|
    requires OrderAllows(v.held, Spot(rs[0], key), key)
    ensures OrderAllows(v.held, Spot(rs[k], key), key)
    ensures Judge(AfterGrants(v, rs, k), rs[k], m, key) == Judge(v, rs[k], m, key)
  {
    InversionOnlyAtFirst(v, rs, k, key);
    HeldAfterGrants(v, rs, k);
    var held := AfterGrants(v, rs, k).held;
    assert forall i :: 0 <= i < |v.held| ==> held[i] == v.held[i];
    TakenByGrants(v, rs, k, rs[k].path);
  }

  /** So a prefix of the set is granted exactly when each of its requests would have
      been granted alone. */
  lemma {:induction false} GrantedExactly(v: Own, rs: seq<Request>, n: nat, meets: nat -> Meeting, key: KeyFn)
    requires Ordered(rs, key) && !HasDuplicate(rs) && n <= |rs|
    ensures AllGranted(v, rs, n, meets, key) <==>
            forall k :: 0 <= k < n ==> Judge(v, rs[k], meets(k), key) == Granted
  {
    if n > 0 {
      GrantedExactly(v, rs, n - 1, meets, key);
      var alone := Judge(v, rs[n - 1], meets(n - 1), key);
      if OrderAllows(v.held, Spot(rs[0], key), key) {
        SetIsNotInItsOwnWay(v, rs, n - 1, meets(n - 1), key);
        assert GrantedAt(v, rs, n - 1, meets, key) <==> alone == Granted;
      } else {
        assert !GrantedAt(v, rs, 0, meets, key);
        assert Judge(v, rs[0], meets(0), key) != Granted;
      }
    }
  }
}
