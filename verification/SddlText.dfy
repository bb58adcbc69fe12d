/** The text operations that src/path_security.rs takes from the standard library:
    ASCII case folding, splitting and counting. */
module SddlText {

  function UpperChar(c: char): char {
    if 'a' <= c <= 'z' then c - 'a' + 'A' else c
  }

  /** `to_ascii_uppercase`. */
  function Upper(s: string): (r: string)
    ensures |r| == |s|
    ensures forall i :: 0 <= i < |s| ==> r[i] == UpperChar(s[i])
  {
    seq(|s|, i requires 0 <= i < |s| => UpperChar(s[i]))
  }

  /** `eq_ignore_ascii_case`. */
  predicate SameIgnoringCase(a: string, b: string) {
    Upper(a) == Upper(b)
  }

  /** Letter for letter, where a small letter of the alphabet equals its capital. */
  lemma SameIgnoringCaseExactly(a: string, b: string)
    ensures SameIgnoringCase(a, b) <==>
            && |a| == |b|
            && forall k :: 0 <= k < |a| ==>
                 || a[k] == b[k]
                 || ('a' <= a[k] <= 'z' && b[k] as int == a[k] as int - 32)
                 || ('a' <= b[k] <= 'z' && a[k] as int == b[k] as int - 32)
  {
    assert |Upper(a)| == |a| && |Upper(b)| == |b|;
    forall k | 0 <= k < |a| && k < |b|
      ensures Upper(a)[k] == Upper(b)[k] <==>
                || a[k] == b[k]
                || ('a' <= a[k] <= 'z' && b[k] as int == a[k] as int - 32)
                || ('a' <= b[k] <= 'z' && a[k] as int == b[k] as int - 32)
    {
    }
  }

  function Count(s: string, c: char): nat {
    if s == [] then 0 else (if s[0] == c then 1 else 0) + Count(s[1..], c)
  }

  /** `split`: the pieces between the separators; always at least one. */
  function Split(s: string, c: char): (r: seq<string>)
    ensures |r| >= 1
  {
    if s == [] then [""]
    else if s[0] == c then [""] + Split(s[1..], c)
    else
      var rest := Split(s[1..], c);
      [[s[0]] + rest[0]] + rest[1..]
  }

  /** The part before the first separator, as `split_once` gives it. */
  function Before(s: string, c: char): (r: string)
    requires c in s
    ensures |r| < |s|
  {
    if s[0] == c then "" else [s[0]] + Before(s[1..], c)
  }

  // ----- joining and splitting

  function Join(pieces: seq<string>, c: char): string
    requires |pieces| >= 1
  {
    if |pieces| == 1 then pieces[0] else pieces[0] + [c] + Join(pieces[1..], c)
  }

  lemma {:induction false} SplitPlain(s: string, c: char)
    requires c !in s
    ensures Split(s, c) == [s]
  {
    if s != [] {
      SplitPlain(s[1..], c);
      assert s == [s[0]] + s[1..];
    }
  }

  lemma {:induction false} SplitFirst(a: string, b: string, c: char)
    requires c !in a
    ensures Split(a + [c] + b, c) == [a] + Split(b, c)
  {
    if a == [] {
      assert (a + [c] + b)[0] == c && (a + [c] + b)[1..] == b;
    } else {
      SplitFirst(a[1..], b, c);
      assert a == [a[0]] + a[1..] && (a + [c] + b)[0] == a[0];
      assert (a + [c] + b)[1..] == a[1..] + [c] + b;
    }
  }

  /** Splitting what was joined gives the pieces back. */
  lemma {:induction false} SplitJoin(pieces: seq<string>, c: char)
    requires |pieces| >= 1 && forall i :: 0 <= i < |pieces| ==> c !in pieces[i]
    ensures Split(Join(pieces, c), c) == pieces
  {
    if |pieces| == 1 {
      SplitPlain(pieces[0], c);
    } else {
      SplitJoin(pieces[1..], c);
      SplitFirst(pieces[0], Join(pieces[1..], c), c);
    }
  }

  /** And joining what was split gives the text back. */
  lemma {:induction false} JoinSplit(s: string, c: char)
    ensures Join(Split(s, c), c) == s
  {
    if s != [] {
      JoinSplit(s[1..], c);
      var rest := Split(s[1..], c);
      if s[0] != c {
        if |rest| > 1 {
          assert Split(s, c)[1..] == rest[1..];
        }
      } else {
        assert Split(s, c)[1..] == rest;
      }
    }
  }

  lemma {:induction false} BeforeFirst(a: string, b: string, c: char)
    requires c !in a
    ensures c in a + [c] + b && Before(a + [c] + b, c) == a
  {
    assert (a + [c] + b)[|a|] == c;
    if a != [] {
      assert (a + [c] + b)[0] == a[0];
      assert (a + [c] + b)[1..] == a[1..] + [c] + b;
      BeforeFirst(a[1..], b, c);
    } else {
      assert (a + [c] + b)[0] == c;
    }
  }

  lemma {:induction false} CountConcat(a: string, b: string, c: char)
    ensures Count(a + b, c) == Count(a, c) + Count(b, c)
  {
    if a == [] {
      assert a + b == b;
    } else {
      CountConcat(a[1..], b, c);
      assert (a + b)[1..] == a[1..] + b;
    }
  }

  lemma {:induction false} CountAbsent(s: string, c: char)
    requires c !in s
    ensures Count(s, c) == 0
  {
    if s != [] {
      CountAbsent(s[1..], c);
    }
  }

  // ----- folding commutes with everything that looks at no letter

  predicate CaseFree(c: char) {
    !('a' <= c <= 'z') && !('A' <= c <= 'Z')
  }

  lemma UpperKeeps(s: string, c: char)
    requires CaseFree(c)
    ensures c in Upper(s) <==> c in s
    ensures s != [] ==> Upper(s)[1..] == Upper(s[1..]) && (Upper(s)[0] == c <==> s[0] == c)
  {
    if c in Upper(s) {
      var i :| 0 <= i < |s| && Upper(s)[i] == c;
      assert s[i] == c;
    }
    if c in s {
      var i :| 0 <= i < |s| && s[i] == c;
      assert Upper(s)[i] == c;
    }
  }

  lemma {:induction false} UpperCount(s: string, c: char)
    requires CaseFree(c)
    ensures Count(Upper(s), c) == Count(s, c)
  {
    if s != [] {
      UpperKeeps(s, c);
      UpperCount(s[1..], c);
    }
  }

  function UpperAll(ss: seq<string>): seq<string> {
    seq(|ss|, i requires 0 <= i < |ss| => Upper(ss[i]))
  }

  lemma {:induction false} UpperSplit(s: string, c: char)
    requires CaseFree(c)
    ensures Split(Upper(s), c) == UpperAll(Split(s, c))
  {
    if s != [] {
      UpperKeeps(s, c);
      UpperSplit(s[1..], c);
      var rest := Split(s[1..], c);
      if s[0] != c {
        assert Upper([s[0]] + rest[0]) == [UpperChar(s[0])] + Upper(rest[0]);
      }
    }
  }

  lemma {:induction false} UpperBefore(s: string, c: char)
    requires CaseFree(c) && c in s
    ensures c in Upper(s) && Before(Upper(s), c) == Upper(Before(s, c))
  {
    UpperKeeps(s, c);
    if s[0] != c {
      UpperBefore(s[1..], c);
    }
  }

  lemma UpperConcat(a: string, b: string)
    ensures Upper(a + b) == Upper(a) + Upper(b)
  {
  }
}
