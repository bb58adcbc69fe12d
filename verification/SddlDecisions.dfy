/** What the classifiers decide, without their own vocabulary: the trustees and rights
    written out, for every descriptor rendered from fields; and for every text, what its
    access control entries are. */
module SddlDecisions {
  import opened SddlText
  import opened SddlRights
  import opened SddlClassifier
  import opened WaitSlots

  // ----- the leaves, letter for letter up to case

  predicate NamesUser(trustee: string, sid: string) {
    SameIgnoringCase(trustee, sid)
    || (SameIgnoringCase(trustee, "SY") && SameIgnoringCase(sid, "S-1-5-18"))
  }

  predicate NamesController(trustee: string) {
    SameIgnoringCase(trustee, "SY") || SameIgnoringCase(trustee, "BA") || SameIgnoringCase(trustee, "LA")
  }

  predicate NamesBroadGroup(trustee: string) {
    || SameIgnoringCase(trustee, "WD") || SameIgnoringCase(trustee, "S-1-1-0")
    || SameIgnoringCase(trustee, "AU") || SameIgnoringCase(trustee, "S-1-5-11")
    || SameIgnoringCase(trustee, "BU") || SameIgnoringCase(trustee, "S-1-5-32-545")
  }

  predicate GivesEverything(rights: string) {
    || SameIgnoringCase(rights, "FA") || SameIgnoringCase(rights, "0x1F01FF")
    || SameIgnoringCase(rights, "GA") || SameIgnoringCase(rights, "0x10000000")
  }

  lemma TrusteesExactly(trustee: string, sid: string)
    ensures TrusteeMatchesSid(trustee, sid) <==> NamesUser(trustee, sid)
    ensures TrusteeIsPrivileged(trustee) <==> NamesController(trustee)
    ensures TrusteeIsBroad(trustee) <==> NamesBroadGroup(trustee)
  {
    assert Upper("SY") == "SY" && Upper("BA") == "BA" && Upper("LA") == "LA";
    assert Upper("WD") == "WD" && Upper("AU") == "AU" && Upper("BU") == "BU";
    assert Upper("S-1-1-0") == "S-1-1-0" && Upper("S-1-5-11") == "S-1-5-11";
    assert Upper("S-1-5-32-545") == "S-1-5-32-545";
  }

  /** A trustee other than the system names one user at most: it matches two
      identifiers only if these are equal up to case. */
  lemma TrusteeNamesOneUser(trustee: string, sid: string, other: string)
    requires TrusteeMatchesSid(trustee, sid) && !SameIgnoringCase(trustee, "SY")
    ensures TrusteeMatchesSid(trustee, other) <==> SameIgnoringCase(sid, other)
  {
    TrusteesExactly(trustee, sid);
    TrusteesExactly(trustee, other);
  }

  // ----- descriptors rendered from fields

  predicate IsAllow(a: Ace) {
    SameIgnoringCase(a.kind, "A")
  }

  predicate Harmless(a: Ace) {
    SameIgnoringCase(a.kind, "D")
    || (IsAllow(a) && !(NamesBroadGroup(a.trustee) && CanModify(a.rights)))
  }

  predicate GivesControl(a: Ace, sid: string) {
    IsAllow(a) && GivesEverything(a.rights) && (NamesUser(a.trustee, sid) || NamesController(a.trustee))
  }

  /** What one ACE contributes to the decisions. */
  lemma AceDecision(a: Ace, sid: string)
    requires FieldsPlain(a)
    ensures Plain(Text(a))
    ensures Acceptable(Text(a)) <==> Harmless(a)
    ensures Trusts(Text(a), sid) <==> GivesControl(a, sid)
    ensures GrantsSid(Text(a), sid) <==> IsAllow(a) && GivesEverything(a.rights) && NamesUser(a.trustee, sid)
    ensures AllowsBroad(Text(a)) <==> IsAllow(a) && NamesBroadGroup(a.trustee)
  {
    ParseText(a);
    TrusteesExactly(a.trustee, sid);
    FullControlExactly(a.rights);
  }

  lemma AllDecisions(aces: seq<Ace>, sid: string)
    requires forall i :: 0 <= i < |aces| ==> FieldsPlain(aces[i])
    ensures forall i :: 0 <= i < |aces| ==>
              && Plain(Texts(aces)[i])
              && (Acceptable(Texts(aces)[i]) <==> Harmless(aces[i]))
              && (Trusts(Texts(aces)[i], sid) <==> GivesControl(aces[i], sid))
              && (GrantsSid(Texts(aces)[i], sid) <==>
                    IsAllow(aces[i]) && GivesEverything(aces[i].rights) && NamesUser(aces[i].trustee, sid))
              && (AllowsBroad(Texts(aces)[i]) <==> IsAllow(aces[i]) && NamesBroadGroup(aces[i].trustee))
  {
    forall i | 0 <= i < |aces|
      ensures && Plain(Texts(aces)[i])
              && (Acceptable(Texts(aces)[i]) <==> Harmless(aces[i]))
              && (Trusts(Texts(aces)[i], sid) <==> GivesControl(aces[i], sid))
              && (GrantsSid(Texts(aces)[i], sid) <==>
                    IsAllow(aces[i]) && GivesEverything(aces[i].rights) && NamesUser(aces[i].trustee, sid))
              && (AllowsBroad(Texts(aces)[i]) <==> IsAllow(aces[i]) && NamesBroadGroup(aces[i].trustee))
    {
      AceDecision(aces[i], sid);
    }
  }

  /** The exact decision on every rendered descriptor: its ACEs allow or deny, no broad
      group is allowed to modify, and full control goes to the user or a controller. */
  lemma RenderedDecision(prefix: string, aces: seq<Ace>, sid: string)
    requires Plain(prefix) && forall i :: 0 <= i < |aces| ==> FieldsPlain(aces[i])
    ensures UserPrivate(Render(prefix, Texts(aces)), sid) <==>
            && sid != ""
            && (forall i :: 0 <= i < |aces| ==> Harmless(aces[i]))
            && (exists i :: 0 <= i < |aces| && GivesControl(aces[i], sid))
  {
    var texts := Texts(aces);
    AllDecisions(aces, sid);
    AcesOfRendered(prefix, texts);
    RenderedIsBalanced(prefix, texts);
  }

  /** The exclusive classifier: besides, the user is given full control by name, and no
      broad group is allowed anything. */
  lemma RenderedExclusive(prefix: string, aces: seq<Ace>, sid: string)
    requires Plain(prefix) && forall i :: 0 <= i < |aces| ==> FieldsPlain(aces[i])
    ensures ExclusiveUserPrivate(Render(prefix, Texts(aces)), sid) <==>
            && sid != ""
            && (forall i :: 0 <= i < |aces| ==> Harmless(aces[i]))
            && (exists i :: 0 <= i < |aces| && IsAllow(aces[i]) && GivesEverything(aces[i].rights)
                            && NamesUser(aces[i].trustee, sid))
            && (forall i :: 0 <= i < |aces| && IsAllow(aces[i]) ==> !NamesBroadGroup(aces[i].trustee))
  {
    var texts := Texts(aces);
    AllDecisions(aces, sid);
    AcesOfRendered(prefix, texts);
    RenderedDecision(prefix, aces, sid);
  }

  /** A descriptor that allows nothing to the user by name, nor to a controller, is
      private to somebody else at most. */
  lemma StrangersAreRejected(prefix: string, aces: seq<Ace>, sid: string)
    requires Plain(prefix) && forall i :: 0 <= i < |aces| ==> FieldsPlain(aces[i])
    requires forall i :: 0 <= i < |aces| && SameIgnoringCase(aces[i].kind, "A") ==>
               && !SameIgnoringCase(aces[i].trustee, sid) && !SameIgnoringCase(aces[i].trustee, "SY")
               && !SameIgnoringCase(aces[i].trustee, "BA") && !SameIgnoringCase(aces[i].trustee, "LA")
    ensures !UserPrivate(Render(prefix, Texts(aces)), sid)
  {
    RenderedDecision(prefix, aces, sid);
  }

  /** Comparing two rendered descriptors compares their ACEs one by one up to case, and
      nothing of the prefixes but that both begin an access list. */
  lemma RenderedComparison(p: string, a: seq<string>, q: string, b: seq<string>)
    requires Plain(p) && Plain(q)
    requires (forall i :: 0 <= i < |a| ==> Plain(a[i])) && (forall i :: 0 <= i < |b| ==> Plain(b[i]))
    ensures SameDaclAces(Render(p, a), Render(q, b)) <==>
            && "D:" <= Upper(p) && "D:" <= Upper(q)
            && a != [] && |a| == |b| && forall i :: 0 <= i < |a| ==> SameIgnoringCase(a[i], b[i])
  {
    RenderedSection(p, a);
    RenderedSection(q, b);
    if SameDaclAces(Render(p, a), Render(q, b)) {
      RelatedAces(Render(p, a), Render(q, b));
      AcesOfRendered(p, a);
      AcesOfRendered(q, b);
      assert |UpperAll(a)| == |a| && |UpperAll(b)| == |b|;
      forall i | 0 <= i < |a|
        ensures SameIgnoringCase(a[i], b[i])
      {
        assert UpperAll(a)[i] == UpperAll(b)[i];
      }
    } else if |a| == |b| && forall i :: 0 <= i < |a| ==> SameIgnoringCase(a[i], b[i]) {
      BodiesUpToCase(a, b);
    }
  }

  lemma RenderedSection(prefix: string, aces: seq<string>)
    requires Plain(prefix)
    ensures AceSection(Render(prefix, aces))
            == if aces != [] && "D:" <= Upper(prefix) then Some(Body(aces)) else None
  {
    if aces == [] {
      assert Render(prefix, aces) == prefix;
    } else {
      var rest := Body(aces)[1..];
      assert Render(prefix, aces) == prefix + ['('] + rest;
      BeforeFirst(prefix, rest, '(');
      assert Render(prefix, aces)[|prefix|..] == Body(aces);
    }
  }

  lemma {:induction false} BodiesUpToCase(a: seq<string>, b: seq<string>)
    requires |a| == |b| && forall i :: 0 <= i < |a| ==> SameIgnoringCase(a[i], b[i])
    ensures SameIgnoringCase(Body(a), Body(b))
  {
    if a != [] {
      BodiesUpToCase(a[1..], b[1..]);
      UpperConcat("(" + a[0] + ")", Body(a[1..]));
      UpperConcat("(" + b[0] + ")", Body(b[1..]));
      UpperConcat("(" + a[0], ")");
      UpperConcat("(" + b[0], ")");
      UpperConcat("(", a[0]);
      UpperConcat("(", b[0]);
    }
  }

  // ----- the protection flag

  predicate EndsWith(s: string, part: string) {
    |part| <= |s| && s[|s| - |part|..] == part
  }

  /** In a rendered descriptor an opening parenthesis ends the prefix or follows a
      closing one. */
  lemma {:induction false} OpenFollowsClose(aces: seq<string>, k: nat)
    requires (forall i :: 0 <= i < |aces| ==> Plain(aces[i])) && 0 < k < |Body(aces)| && Body(aces)[k] == '('
    ensures Body(aces)[k - 1] == ')'
  {
    var first := "(" + aces[0] + ")";
    var rest := Body(aces[1..]);
    assert Body(aces) == first + rest;
    assert forall i :: 0 < i < |first| - 1 ==> first[i] == aces[0][i - 1];
    if k > |first| {
      OpenFollowsClose(aces[1..], k - |first|);
    }
  }

  /** Whether a rendered descriptor counts as protected is decided by its prefix: it
      begins with the flag, or the flag stands right before the first ACE. */
  lemma ProtectedExactly(prefix: string, aces: seq<string>)
    requires Plain(prefix) && forall i :: 0 <= i < |aces| ==> Plain(aces[i])
    ensures HasProtectedDacl(Render(prefix, aces)) <==>
            || "D:P" <= Upper(prefix)
            || (aces != [] && (EndsWith(Upper(prefix), "D:P") || EndsWith(Upper(prefix), "D:PAI")))
  {
    ProtectedStart(prefix, aces);
    FlagBeforeAce(prefix, aces, "D:P");
    FlagBeforeAce(prefix, aces, "D:PAI");
    assert "D:P" + "(" == "D:P(" && "D:PAI" + "(" == "D:PAI(";
  }

  lemma ProtectedStart(prefix: string, aces: seq<string>)
    requires Plain(prefix)
    ensures "D:P" <= Upper(Render(prefix, aces)) <==> "D:P" <= Upper(prefix)
  {
    var u := Upper(Render(prefix, aces));
    UpperConcat(prefix, Body(aces));
    if aces != [] {
      assert Body(aces)[0] == '(' && u[|prefix|] == '(';
    }
  }

  lemma FlagBeforeAce(prefix: string, aces: seq<string>, flag: string)
    requires Plain(prefix) && forall i :: 0 <= i < |aces| ==> Plain(aces[i])
    requires flag != "" && flag[|flag| - 1] != ')'
    ensures Contains(Upper(Render(prefix, aces)), flag + "(") <==> aces != [] && EndsWith(Upper(prefix), flag)
  {
    var p, b := Upper(prefix), Upper(Body(aces));
    UpperConcat(prefix, Body(aces));
    if Contains(p + b, flag + "(") {
      var i :| 0 <= i <= |p + b| && flag + "(" <= (p + b)[i..];
      MatchIsSplit(p + b, i, flag);
      OnlyOpenIsFirst(prefix, aces, i + |flag|);
      FlagEnds(p, b, i, flag);
    }
    if aces != [] && EndsWith(p, flag) {
      assert Body(aces)[0] == '(' && b[0] == '(';
      FlagStands(p, b, flag);
    }
  }

  lemma FlagEnds(p: string, b: string, i: nat, flag: string)
    requires i + |flag| == |p| && (p + b)[i..i + |flag|] == flag
    ensures EndsWith(p, flag)
  {
    assert (p + b)[i..|p|] == p[i..];
  }

  lemma FlagStands(p: string, b: string, flag: string)
    requires EndsWith(p, flag) && b != "" && b[0] == '('
    ensures Contains(p + b, flag + "(")
  {
    var i := |p| - |flag|;
    assert b == "(" + b[1..];
    assert (p + b)[i..] == p[i..] + b == (flag + "(") + b[1..];
  }

  lemma MatchIsSplit(u: string, i: nat, flag: string)
    requires flag != "" && i <= |u| && flag + "(" <= u[i..]
    ensures i + |flag| < |u| && u[i + |flag|] == '(' && u[i..i + |flag|] == flag
    ensures u[i + |flag| - 1] == flag[|flag| - 1]
  {
    var part := flag + "(";
    assert u[i..][..|part|] == part;
    assert forall k :: 0 <= k < |part| ==> u[i..][k] == part[k];
    assert u[i..][|flag|] == '(' && u[i..][|flag| - 1] == flag[|flag| - 1];
    assert forall k :: 0 <= k < |flag| ==> u[i..i + |flag|][k] == u[i..][k];
  }

  /** A parenthesis that opens and follows no closing one is the first of all. */
  lemma OnlyOpenIsFirst(prefix: string, aces: seq<string>, at: nat)
    requires Plain(prefix) && forall i :: 0 <= i < |aces| ==> Plain(aces[i])
    requires var u := Upper(Render(prefix, aces)); 0 < at < |u| && u[at] == '(' && u[at - 1] != ')'
    ensures aces != [] && at == |prefix|
  {
    var s, n := Render(prefix, aces), |prefix|;
    assert s[at] == '(' && s[at - 1] != ')';
    assert forall k :: 0 <= k < n ==> s[k] == prefix[k];
    if at > n {
      OpenFollowsClose(aces, at - n);
    }
  }

  // ----- every text

  predicate InnermostAt(s: string, i: nat, j: nat, t: string) {
    i < j < |s| && s[i] == '(' && s[j] == ')' && s[i + 1..j] == t && Plain(t)
  }

  /** The text stands between parentheses, with none inside. */
  ghost predicate Innermost(s: string, t: string) {
    exists i: nat, j: nat :: InnermostAt(s, i, j, t)
  }

  lemma InnermostShift(s: string, i: nat, j: nat, t: string)
    requires s != ""
    ensures InnermostAt(s, i + 1, j + 1, t) <==> InnermostAt(s[1..], i, j, t)
  {
    if i < j < |s| - 1 {
      assert s[i + 2..j + 1] == s[1..][i + 1..j];
    }
  }

  lemma InnermostTail(s: string, t: string)
    requires s != ""
    ensures Innermost(s, t) <==> Innermost(s[1..], t) || exists j: nat :: InnermostAt(s, 0, j, t)
  {
    if Innermost(s, t) {
      var i: nat, j: nat :| InnermostAt(s, i, j, t);
      if i > 0 {
        InnermostShift(s, i - 1, j - 1, t);
      }
    }
    if Innermost(s[1..], t) {
      var i: nat, j: nat :| InnermostAt(s[1..], i, j, t);
      InnermostShift(s, i, j, t);
    }
  }

  /** The first piece is as long as it can be. */
  lemma {:induction false} FirstPiece(u: string, c: char)
    ensures var first := Split(u, c)[0];
            c !in first && first <= u && (first == u || u[|first|] == c)
  {
    if u != "" && u[0] != c {
      FirstPiece(u[1..], c);
    }
  }

  predicate ClosedPrefix(u: string, t: string) {
    Plain(t) && |t| < |u| && u[..|t|] == t && u[|t|] == ')'
  }

  lemma InnermostFirst(u: string, t: string)
    ensures (exists j: nat :: InnermostAt("(" + u, 0, j, t)) <==> ClosedPrefix(u, t)
  {
    var s := "(" + u;
    assert forall k :: 0 <= k < |u| ==> s[k + 1] == u[k];
    if exists j: nat :: InnermostAt(s, 0, j, t) {
      var j: nat :| InnermostAt(s, 0, j, t);
      assert s[1..j] == u[..j - 1] && u[j - 1] == s[j];
    }
    if ClosedPrefix(u, t) {
      assert s[1..|t| + 1] == u[..|t|];
      assert InnermostAt(s, 0, |t| + 1, t);
    }
  }

  lemma ChunkEndsAtClose(u: string, t: string)
    ensures var first := Split(u, '(')[0];
            (exists j: nat :: InnermostAt("(" + u, 0, j, t)) <==> ')' in first && t == Before(first, ')')
  {
    var first := Split(u, '(')[0];
    FirstPiece(u, '(');
    InnermostFirst(u, t);
    if ClosedPrefix(u, t) {
      CloseIsInPiece(u, first, t);
    }
    if ')' in first && t == Before(first, ')') {
      PieceHasClose(u, first, t);
    }
  }

  lemma CloseIsInPiece(u: string, first: string, t: string)
    requires ClosedPrefix(u, t) && first <= u && (first == u || u[|first|] == '(')
    ensures ')' in first && Before(first, ')') == t
  {
    assert forall k :: 0 <= k < |t| ==> u[k] == t[k];
    assert |t| < |first|;
    var rest := first[|t| + 1..];
    assert first == t + [')'] + rest;
    BeforeFirst(t, rest, ')');
  }

  lemma PieceHasClose(u: string, first: string, t: string)
    requires first <= u && '(' !in first && ')' in first && t == Before(first, ')')
    ensures ClosedPrefix(u, t)
  {
    SplitAtFirst(first, ')');
    assert first[..|t|] == t && first[|t|] == ')';
    assert u[..|t|] == first[..|t|];
    assert forall k :: 0 <= k < |t| ==> t[k] == first[k];
  }

  /** Whatever the text, its access control entries are exactly the innermost
      parenthesised texts. */
  lemma {:induction false} AcesAreInnermost(sddl: string, t: string)
    ensures t in Aces(sddl) <==> Innermost(sddl, t)
  {
    if sddl != "" {
      var u := sddl[1..];
      AcesAreInnermost(u, t);
      InnermostTail(sddl, t);
      if sddl[0] == '(' {
        ChunkEndsAtClose(u, t);
        assert sddl == "(" + u;
        assert Split(sddl, '(')[1..] == Split(u, '(');
      } else {
        assert Split(sddl, '(')[1..] == Split(u, '(')[1..];
      }
    }
  }

  /** The decision on every text: the parentheses balance, every innermost text is an
      acceptable entry, and one of them gives control. */
  lemma DecisionOnEveryText(sddl: string, sid: string)
    ensures UserPrivate(sddl, sid) <==>
            && sid != "" && Count(sddl, '(') == Count(sddl, ')')
            && (forall t :: Innermost(sddl, t) ==> Acceptable(t))
            && (exists t :: Innermost(sddl, t) && Trusts(t, sid))
    ensures ExclusiveUserPrivate(sddl, sid) <==>
            && UserPrivate(sddl, sid)
            && (exists t :: Innermost(sddl, t) && GrantsSid(t, sid))
            && !(exists t :: Innermost(sddl, t) && AllowsBroad(t))
  {
    forall t
      ensures t in Aces(sddl) <==> Innermost(sddl, t)
    {
      AcesAreInnermost(sddl, t);
    }
    AcceptsByMembers(Aces(sddl), sid);
  }

  lemma AcceptsByMembers(aces: seq<string>, sid: string)
    ensures SectionAccepts(aces, sid) <==>
            (forall t :: t in aces ==> Acceptable(t)) && (exists t :: t in aces && Trusts(t, sid))
    ensures Excludes(aces, sid) <==>
            (exists t :: t in aces && GrantsSid(t, sid)) && !(exists t :: t in aces && AllowsBroad(t))
  {
    assert forall i :: 0 <= i < |aces| ==> aces[i] in aces;
  }

  /** An entry counts only with exactly six fields, of which the first, third and last
      are looked at. */
  lemma SixFields(fields: seq<string>)
    requires |fields| >= 1 && forall i :: 0 <= i < |fields| ==> ';' !in fields[i]
    ensures ParseAce(Join(fields, ';'))
            == if |fields| == 6 then Some(Parsed(fields[0], fields[2], fields[5])) else None
  {
    SplitJoin(fields, ';');
  }
}
