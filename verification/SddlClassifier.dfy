/** The DACL classifiers of src/path_security.rs: splitting a security descriptor
    string into ACEs, deciding whether it is private to a user, and comparing two. */
module SddlClassifier {
  import opened SddlText
  import opened SddlRights
  import opened WaitSlots

  /** The three of the six fields that the classifiers look at. */
  datatype Parsed = Parsed(kind: string, rights: string, trustee: string)

  /** `sddl_aces`: a chunk without a closing parenthesis is dropped. */
  function Closed(chunks: seq<string>): seq<string> {
    if chunks == [] then []
    else (if ')' in chunks[0] then [Before(chunks[0], ')')] else []) + Closed(chunks[1..])
  }

  function Aces(sddl: string): seq<string> {
    Closed(Split(sddl, '(')[1..])
  }

  /** `parse_sddl_ace`: exactly six fields. */
  function ParseAce(ace: string): Option<Parsed> {
    var fields := Split(ace, ';');
    if |fields| == 6 then Some(Parsed(fields[0], fields[2], fields[5])) else None
  }

  predicate TrusteeMatchesSid(trustee: string, sid: string) {
    SameIgnoringCase(trustee, sid)
    || (SameIgnoringCase(trustee, "SY") && SameIgnoringCase(sid, "S-1-5-18"))
  }

  predicate TrusteeIsPrivileged(trustee: string) {
    Upper(trustee) in {"SY", "BA", "LA"}
  }

  predicate TrusteeIsBroad(trustee: string) {
    Upper(trustee) in {"WD", "AU", "BU", "S-1-1-0", "S-1-5-11", "S-1-5-32-545"}
  }

  predicate Allows(p: Parsed) {
    SameIgnoringCase(p.kind, "A")
  }

  /** An ACE that does not disqualify the descriptor. */
  predicate Acceptable(ace: string) {
    ParseAce(ace).Some? &&
    var p := ParseAce(ace).value;
    SameIgnoringCase(p.kind, "D")
    || (Allows(p) && !(TrusteeIsBroad(p.trustee) && CanModify(p.rights)))
  }

  /** An ACE that gives the user or a privileged controller full control. */
  predicate Trusts(ace: string, sid: string) {
    ParseAce(ace).Some? &&
    var p := ParseAce(ace).value;
    Allows(p) && FullControl(p.rights)
    && (TrusteeMatchesSid(p.trustee, sid) || TrusteeIsPrivileged(p.trustee))
  }

  predicate SectionAccepts(aces: seq<string>, sid: string) {
    (forall i :: 0 <= i < |aces| ==> Acceptable(aces[i]))
    && exists i :: 0 <= i < |aces| && Trusts(aces[i], sid)
  }

  predicate Balanced(sddl: string) {
    Count(sddl, '(') == Count(sddl, ')')
  }

  /** What `sddl_is_user_private` decides, without the order of its loop. */
  predicate UserPrivate(sddl: string, sid: string) {
    sid != "" && Balanced(sddl) && SectionAccepts(Aces(sddl), sid)
  }

  lemma KindsDiffer()
    ensures Upper("A") == "A" && Upper("D") == "D" && Upper("A") != Upper("D")
  {
  }

  /** The loop with its flag and early returns. */
  method SddlIsUserPrivate(sddl: string, sid: string) returns (private: bool)
    ensures private <==> UserPrivate(sddl, sid)
  {
    if sid == "" || Count(sddl, '(') != Count(sddl, ')') {
      return false;
    }
    var aces := Aces(sddl);
    KindsDiffer();
    private := false;
    for i := 0 to |aces|
      invariant forall j :: 0 <= j < i ==> Acceptable(aces[j])
      invariant private <==> exists j :: 0 <= j < i && Trusts(aces[j], sid)
    {
      var parsed := ParseAce(aces[i]);
      if parsed.None? {
        return false;
      }
      var Parsed(kind, rights, trustee) := parsed.value;
      if SameIgnoringCase(kind, "D") {
        continue;
      }
      if !SameIgnoringCase(kind, "A") {
        return false;
      }
      if TrusteeIsBroad(trustee) && CanModify(rights) {
        return false;
      }
      if (TrusteeMatchesSid(trustee, sid) || TrusteeIsPrivileged(trustee)) && FullControl(rights) {
        private := true;
      }
    }
  }

  // ----- the exclusive and the protected classifier

  predicate GrantsSid(ace: string, sid: string) {
    ParseAce(ace).Some? &&
    var p := ParseAce(ace).value;
    Allows(p) && TrusteeMatchesSid(p.trustee, sid) && FullControl(p.rights)
  }

  predicate AllowsBroad(ace: string) {
    ParseAce(ace).Some? && Allows(ParseAce(ace).value) && TrusteeIsBroad(ParseAce(ace).value.trustee)
  }

  predicate Excludes(aces: seq<string>, sid: string) {
    && (exists i :: 0 <= i < |aces| && GrantsSid(aces[i], sid))
    && !(exists i :: 0 <= i < |aces| && AllowsBroad(aces[i]))
  }

  predicate ExclusiveUserPrivate(sddl: string, sid: string) {
    UserPrivate(sddl, sid) && Excludes(Aces(sddl), sid)
  }

  predicate Contains(s: string, part: string) {
    exists i :: 0 <= i <= |s| && part <= s[i..]
  }

  predicate HasProtectedDacl(sddl: string) {
    Contains(Upper(sddl), "D:P(") || Contains(Upper(sddl), "D:PAI(") || "D:P" <= Upper(sddl)
  }

  predicate ProtectedUserPrivate(sddl: string, sid: string) {
    HasProtectedDacl(sddl) && ExclusiveUserPrivate(sddl, sid)
  }

  /** An accepted descriptor never owes its trusted controller to a broad trustee:
      full control implies modify, and that combination was rejected. */
  lemma TrustIsNeverBroad(sddl: string, sid: string)
    requires UserPrivate(sddl, sid)
    ensures exists i :: 0 <= i < |Aces(sddl)| && Trusts(Aces(sddl)[i], sid)
                        && !TrusteeIsBroad(ParseAce(Aces(sddl)[i]).value.trustee)
    ensures forall i :: 0 <= i < |Aces(sddl)| && Trusts(Aces(sddl)[i], sid) ==>
              !TrusteeIsBroad(ParseAce(Aces(sddl)[i]).value.trustee)
  {
    var aces := Aces(sddl);
    KindsDiffer();
    forall i | 0 <= i < |aces| && Trusts(aces[i], sid)
      ensures !TrusteeIsBroad(ParseAce(aces[i]).value.trustee)
    {
      assert Acceptable(aces[i]);
      FullControlModifies(ParseAce(aces[i]).value.rights);
    }
  }

  // ----- rendered descriptors

  datatype Ace = Ace(kind: string, flags: string, rights: string, objectGuid: string,
                     inheritGuid: string, trustee: string)

  function Fields(a: Ace): seq<string> {
    [a.kind, a.flags, a.rights, a.objectGuid, a.inheritGuid, a.trustee]
  }

  function Text(a: Ace): string {
    Join(Fields(a), ';')
  }

  function Texts(aces: seq<Ace>): seq<string> {
    seq(|aces|, i requires 0 <= i < |aces| => Text(aces[i]))
  }

  predicate Plain(s: string) {
    '(' !in s && ')' !in s
  }

  predicate FieldsPlain(a: Ace) {
    forall i :: 0 <= i < 6 ==> Plain(Fields(a)[i]) && ';' !in Fields(a)[i]
  }

  function Body(aces: seq<string>): string {
    if aces == [] then "" else "(" + aces[0] + ")" + Body(aces[1..])
  }

  function Render(prefix: string, aces: seq<string>): string {
    prefix + Body(aces)
  }

  lemma {:induction false} JoinPlain(pieces: seq<string>)
    requires |pieces| >= 1 && forall i :: 0 <= i < |pieces| ==> Plain(pieces[i])
    ensures Plain(Join(pieces, ';'))
  {
    if |pieces| > 1 {
      JoinPlain(pieces[1..]);
    }
  }

  lemma ParseText(a: Ace)
    requires FieldsPlain(a)
    ensures Plain(Text(a)) && ParseAce(Text(a)) == Some(Parsed(a.kind, a.rights, a.trustee))
  {
    JoinPlain(Fields(a));
    SplitJoin(Fields(a), ';');
  }

  function Terminated(aces: seq<string>): seq<string> {
    if aces == [] then [] else [aces[0] + ")"] + Terminated(aces[1..])
  }

  lemma {:induction false} SplitRendered(prefix: string, aces: seq<string>)
    requires '(' !in prefix && forall i :: 0 <= i < |aces| ==> Plain(aces[i])
    ensures Split(Render(prefix, aces), '(') == [prefix] + Terminated(aces)
    decreases |aces|
  {
    if aces == [] {
      assert Render(prefix, aces) == prefix;
      SplitPlain(prefix, '(');
    } else {
      var next := aces[0] + ")";
      assert Render(prefix, aces) == prefix + ['('] + Render(next, aces[1..]);
      SplitRendered(next, aces[1..]);
      SplitFirst(prefix, Render(next, aces[1..]), '(');
    }
  }

  lemma {:induction false} ClosedTerminated(aces: seq<string>)
    requires forall i :: 0 <= i < |aces| ==> Plain(aces[i])
    ensures Closed(Terminated(aces)) == aces
  {
    if aces != [] {
      BeforeFirst(aces[0], "", ')');
      assert aces[0] + [')'] + "" == aces[0] + ")";
      ClosedTerminated(aces[1..]);
      assert Terminated(aces)[1..] == Terminated(aces[1..]);
    }
  }

  /** Splitting a rendered descriptor gives its ACEs back. */
  lemma AcesOfRendered(prefix: string, aces: seq<string>)
    requires '(' !in prefix && forall i :: 0 <= i < |aces| ==> Plain(aces[i])
    ensures Aces(Render(prefix, aces)) == aces
  {
    SplitRendered(prefix, aces);
    ClosedTerminated(aces);
  }

  lemma {:induction false} BodyBalanced(aces: seq<string>)
    requires forall i :: 0 <= i < |aces| ==> Plain(aces[i])
    ensures Count(Body(aces), '(') == |aces| == Count(Body(aces), ')')
  {
    if aces != [] {
      BodyBalanced(aces[1..]);
      OnePairBalanced(aces[0]);
      CountConcat("(" + aces[0] + ")", Body(aces[1..]), '(');
      CountConcat("(" + aces[0] + ")", Body(aces[1..]), ')');
    }
  }

  lemma OnePairBalanced(ace: string)
    requires Plain(ace)
    ensures Count("(" + ace + ")", '(') == 1 == Count("(" + ace + ")", ')')
  {
    CountAbsent(ace, '(');
    CountAbsent(ace, ')');
    CountConcat(ace, ")", '(');
    CountConcat(ace, ")", ')');
    assert ("(" + ace + ")")[1..] == ace + ")";
    assert ")"[1..] == "";
  }

  lemma RenderedIsBalanced(prefix: string, aces: seq<string>)
    requires Plain(prefix) && forall i :: 0 <= i < |aces| ==> Plain(aces[i])
    ensures Balanced(Render(prefix, aces))
  {
    BodyBalanced(aces);
    CountAbsent(prefix, '(');
    CountAbsent(prefix, ')');
    CountConcat(prefix, Body(aces), '(');
    CountConcat(prefix, Body(aces), ')');
  }

  /** The order of the ACEs is irrelevant, and so is the prefix. */
  lemma OrderIsIrrelevant(prefix: string, other: string, a: seq<string>, b: seq<string>, sid: string)
    requires Plain(prefix) && Plain(other) && multiset(a) == multiset(b)
    requires forall i :: 0 <= i < |a| ==> Plain(a[i])
    ensures UserPrivate(Render(prefix, a), sid) <==> UserPrivate(Render(other, b), sid)
  {
    SameMembers(a, b);
    SameMembers(b, a);
    AcesOfRendered(prefix, a);
    AcesOfRendered(other, b);
    RenderedIsBalanced(prefix, a);
    RenderedIsBalanced(other, b);
    SectionByMembers(a, b, sid);
    SectionByMembers(b, a, sid);
  }

  lemma SameMembers(a: seq<string>, b: seq<string>)
    requires multiset(a) == multiset(b)
    ensures forall i :: 0 <= i < |a| ==> a[i] in b
  {
    forall i | 0 <= i < |a|
      ensures a[i] in b
    {
      assert a[i] in multiset(b);
    }
  }

  lemma SectionByMembers(a: seq<string>, b: seq<string>, sid: string)
    requires (forall i :: 0 <= i < |a| ==> a[i] in b) && (forall i :: 0 <= i < |b| ==> b[i] in a)
    ensures SectionAccepts(a, sid) ==> SectionAccepts(b, sid)
  {
    if SectionAccepts(a, sid) {
      var i :| 0 <= i < |a| && Trusts(a[i], sid);
      assert exists j :: 0 <= j < |b| && b[j] == a[i];
      forall j | 0 <= j < |b|
        ensures Acceptable(b[j])
      {
        assert exists k :: 0 <= k < |a| && a[k] == b[j];
      }
    }
  }

  // ----- the descriptor the crate writes

  function UserPrivateSddl(sid: string): string {
    "D:P(A;;FA;;;" + sid + ")"
  }

  function OwnAce(sid: string): Ace {
    Ace("A", "", "FA", "", "", sid)
  }

  lemma JoinTwo(first: string, rest: seq<string>)
    requires |rest| >= 1
    ensures Join([first] + rest, ';') == first + ";" + Join(rest, ';')
  {
    assert ([first] + rest)[1..] == rest;
  }

  lemma OwnText(sid: string)
    ensures UserPrivateSddl(sid) == Render("D:P", [Text(OwnAce(sid))])
  {
    OwnFields(sid);
    var t := Text(OwnAce(sid));
    assert [t][1..] == [] && Body([]) == "";
    assert Render("D:P", [t]) == "D:P" + ("(" + t + ")");
  }

  lemma OwnFields(sid: string)
    ensures Text(OwnAce(sid)) == "A;;FA;;;" + sid
  {
    JoinTwo("", [sid]);
    JoinTwo("", ["", sid]);
    JoinTwo("FA", ["", "", sid]);
    JoinTwo("", ["FA", "", "", sid]);
    JoinTwo("A", ["", "FA", "", "", sid]);
    assert [""] + [sid] == ["", sid];
    assert [""] + ["", sid] == ["", "", sid];
    assert ["FA"] + ["", "", sid] == ["FA", "", "", sid];
    assert [""] + ["FA", "", "", sid] == ["", "FA", "", "", sid];
    assert Fields(OwnAce(sid)) == ["A"] + ["", "FA", "", "", sid];
    assert Join([sid], ';') == sid;
  }

  /** The descriptor written for a user is accepted for that user, as private and
      as protected, for exactly the non-empty identifiers that are not broad. */
  lemma OwnDescriptorIsAccepted(sid: string)
    requires Plain(sid) && ';' !in sid
    ensures UserPrivate(UserPrivateSddl(sid), sid) <==> sid != "" && !TrusteeIsBroad(sid)
    ensures ProtectedUserPrivate(UserPrivateSddl(sid), sid) <==> sid != "" && !TrusteeIsBroad(sid)
  {
    OwnText(sid);
    OwnAceVerdict(sid);
    OwnSection(sid);
    OwnIsProtected(sid);
  }

  lemma OwnSection(sid: string)
    requires Plain(sid) && ';' !in sid
    ensures Aces(Render("D:P", [Text(OwnAce(sid))])) == [Text(OwnAce(sid))]
    ensures Balanced(Render("D:P", [Text(OwnAce(sid))]))
  {
    ParseText(OwnAce(sid));
    AcesOfRendered("D:P", [Text(OwnAce(sid))]);
    RenderedIsBalanced("D:P", [Text(OwnAce(sid))]);
  }

  lemma OwnIsProtected(sid: string)
    ensures HasProtectedDacl(UserPrivateSddl(sid))
  {
    assert Upper(UserPrivateSddl(sid))[..3] == "D:P";
  }

  lemma OwnAceVerdict(sid: string)
    requires Plain(sid) && ';' !in sid
    ensures Acceptable(Text(OwnAce(sid))) <==> !TrusteeIsBroad(sid)
    ensures Trusts(Text(OwnAce(sid)), sid) && GrantsSid(Text(OwnAce(sid)), sid)
    ensures AllowsBroad(Text(OwnAce(sid))) <==> TrusteeIsBroad(sid)
  {
    ParseText(OwnAce(sid));
    KindsDiffer();
    FileAllIsFull();
  }

  lemma FileAllIsFull()
    ensures FullControl("FA") && CanModify("FA")
  {
    assert Upper("FA") == "FA";
    FullControlModifies("FA");
  }

  // ----- comparing two descriptors

  function AceSection(sddl: string): Option<string> {
    if '(' in sddl && "D:" <= Upper(Before(sddl, '(')) then Some(sddl[|Before(sddl, '(')|..]) else None
  }

  /** `sddl_has_same_dacl_aces`. */
  predicate SameDaclAces(actual: string, expected: string) {
    AceSection(actual).Some? && AceSection(expected).Some?
    && SameIgnoringCase(AceSection(actual).value, AceSection(expected).value)
  }

  lemma ComparisonIsPartialEquivalence(a: string, b: string, c: string)
    ensures SameDaclAces(a, b) <==> SameDaclAces(b, a)
    ensures SameDaclAces(a, b) && SameDaclAces(b, c) ==> SameDaclAces(a, c)
    ensures SameDaclAces(a, a) <==> AceSection(a).Some?
  {
  }

  lemma {:induction false} SplitAtFirst(s: string, c: char)
    requires c in s
    ensures var p := Before(s, c);
            c !in p && |p| < |s| && s[|p|] == c && s == p + [c] + s[|p| + 1..]
  {
    if s[0] != c {
      SplitAtFirst(s[1..], c);
    }
  }

  /** The ACEs are those of the section. */
  lemma AcesOfSection(sddl: string)
    requires AceSection(sddl).Some?
    ensures var section := AceSection(sddl).value;
            section != "" && section[0] == '(' && sddl == Before(sddl, '(') + section
            && Aces(sddl) == Closed(Split(section[1..], '('))
  {
    var p := Before(sddl, '(');
    SplitAtFirst(sddl, '(');
    SplitFirst(p, sddl[|p| + 1..], '(');
  }

  lemma {:induction false} UpperClosed(chunks: seq<string>)
    ensures Closed(UpperAll(chunks)) == UpperAll(Closed(chunks))
  {
    if chunks != [] {
      UpperClosed(chunks[1..]);
      UpperKeeps(chunks[0], ')');
      if ')' in chunks[0] {
        UpperBefore(chunks[0], ')');
      }
      assert UpperAll(chunks)[1..] == UpperAll(chunks[1..]);
    }
  }

  /** Related descriptors have the same ACEs up to case. */
  lemma RelatedAces(a: string, b: string)
    requires SameDaclAces(a, b)
    ensures UpperAll(Aces(a)) == UpperAll(Aces(b))
  {
    var x, y := AceSection(a).value, AceSection(b).value;
    AcesOfSection(a);
    AcesOfSection(b);
    UpperKeeps(x, '(');
    UpperKeeps(y, '(');
    UpperSplit(x[1..], '(');
    UpperSplit(y[1..], '(');
    UpperClosed(Split(x[1..], '('));
    UpperClosed(Split(y[1..], '('));
  }

  /** Every judgement about one ACE depends only on its text up to case. */
  lemma AceUpToCase(s: string, t: string, sid: string)
    requires Upper(s) == Upper(t)
    ensures Acceptable(s) <==> Acceptable(t)
    ensures Trusts(s, sid) <==> Trusts(t, sid)
    ensures GrantsSid(s, sid) <==> GrantsSid(t, sid)
    ensures AllowsBroad(s) <==> AllowsBroad(t)
  {
    UpperSplit(s, ';');
    UpperSplit(t, ';');
    var f, g := Split(s, ';'), Split(t, ';');
    assert |UpperAll(f)| == |f| == |g|;
    if |f| == 6 {
      assert UpperAll(f)[0] == UpperAll(g)[0] && UpperAll(f)[2] == UpperAll(g)[2]
          && UpperAll(f)[5] == UpperAll(g)[5];
      assert Upper(f[0]) == Upper(g[0]) && Upper(f[2]) == Upper(g[2]) && Upper(f[5]) == Upper(g[5]);
    }
  }

  lemma AcesUpToCase(a: seq<string>, b: seq<string>, sid: string)
    requires UpperAll(a) == UpperAll(b)
    ensures |a| == |b|
    ensures forall i :: 0 <= i < |a| ==>
              && (Acceptable(a[i]) <==> Acceptable(b[i])) && (Trusts(a[i], sid) <==> Trusts(b[i], sid))
              && (GrantsSid(a[i], sid) <==> GrantsSid(b[i], sid)) && (AllowsBroad(a[i]) <==> AllowsBroad(b[i]))
    ensures SectionAccepts(a, sid) <==> SectionAccepts(b, sid)
    ensures Excludes(a, sid) <==> Excludes(b, sid)
  {
    assert |UpperAll(a)| == |a| && |UpperAll(b)| == |b|;
    forall i | 0 <= i < |a|
      ensures && (Acceptable(a[i]) <==> Acceptable(b[i])) && (Trusts(a[i], sid) <==> Trusts(b[i], sid))
              && (GrantsSid(a[i], sid) <==> GrantsSid(b[i], sid)) && (AllowsBroad(a[i]) <==> AllowsBroad(b[i]))
    {
      assert UpperAll(a)[i] == UpperAll(b)[i];
      AceUpToCase(a[i], b[i], sid);
    }
  }

  /** For related descriptors, each classifier gives one verdict exactly when their
      parentheses balance alike or the ACEs are not accepted anyway. */
  lemma VerdictsAgreeExactly(a: string, b: string, sid: string)
    requires SameDaclAces(a, b)
    ensures (UserPrivate(a, sid) <==> UserPrivate(b, sid)) <==>
            (Balanced(a) == Balanced(b) || sid == "" || !SectionAccepts(Aces(b), sid))
    ensures (ExclusiveUserPrivate(a, sid) <==> ExclusiveUserPrivate(b, sid)) <==>
            (Balanced(a) == Balanced(b) || sid == "" || !SectionAccepts(Aces(b), sid)
             || !Excludes(Aces(b), sid))
  {
    RelatedAces(a, b);
    AcesUpToCase(Aces(a), Aces(b), sid);
  }

  /** The closing parentheses before the first ACE. */
  function Stray(sddl: string): nat
    requires '(' in sddl
  {
    Count(Before(sddl, '('), ')')
  }

  lemma BalanceOfSection(sddl: string)
    requires AceSection(sddl).Some?
    ensures var section := AceSection(sddl).value;
            Balanced(sddl) <==> Count(section, '(') == Stray(sddl) + Count(section, ')')
  {
    var p := Before(sddl, '(');
    SplitAtFirst(sddl, '(');
    CountAbsent(p, '(');
    AcesOfSection(sddl);
    CountConcat(p, AceSection(sddl).value, '(');
    CountConcat(p, AceSection(sddl).value, ')');
  }

  /** Related descriptors balance alike exactly when they have equally many stray
      parentheses, or neither has the number that its section lacks. */
  lemma BalanceAgreesExactly(a: string, b: string)
    requires SameDaclAces(a, b)
    ensures Balanced(a) == Balanced(b) <==> Stray(a) == Stray(b) || (!Balanced(a) && !Balanced(b))
  {
    BalanceOfSection(a);
    BalanceOfSection(b);
    var x, y := AceSection(a).value, AceSection(b).value;
    UpperCount(x, '(');
    UpperCount(y, '(');
    UpperCount(x, ')');
    UpperCount(y, ')');
  }

  /** The comparison is a congruence for both classifiers on descriptors with equally
      many closing parentheses before the first opening one. */
  lemma ComparisonIsCongruence(a: string, b: string, sid: string)
    requires SameDaclAces(a, b) && Stray(a) == Stray(b)
    ensures UserPrivate(a, sid) <==> UserPrivate(b, sid)
    ensures ExclusiveUserPrivate(a, sid) <==> ExclusiveUserPrivate(b, sid)
  {
    BalanceAgreesExactly(a, b);
    VerdictsAgreeExactly(a, b, sid);
  }

  /** Without that condition it is one for neither: a stray parenthesis in front of
      the descriptor that the crate writes. */
  lemma StrayParenthesisSeparates()
    ensures var own := UserPrivateSddl("S");
            && SameDaclAces("D:P)" + own[3..], own)
            && UserPrivate(own, "S") && ExclusiveUserPrivate(own, "S")
            && !UserPrivate("D:P)" + own[3..], "S") && !ExclusiveUserPrivate("D:P)" + own[3..], "S")
  {
    var own := UserPrivateSddl("S");
    var section := own[3..];
    assert own == "D:P" + section && section[0] == '(';
    assert Upper("S") == "S";
    OwnDescriptorIsAccepted("S");
    StrayRelated(section);
    StrayUnbalanced(section);
  }

  lemma StrayUnbalanced(section: string)
    requires Balanced("D:P" + section)
    ensures !Balanced("D:P)" + section)
  {
    CountConcat("D:P", section, '(');
    CountConcat("D:P", section, ')');
    assert "D:P)" + section == "D:P" + (")" + section);
    CountConcat("D:P", ")" + section, '(');
    CountConcat("D:P", ")" + section, ')');
    assert (")" + section)[1..] == section;
  }

  lemma StrayRelated(section: string)
    requires section != "" && section[0] == '('
    ensures SameDaclAces("D:P)" + section, "D:P" + section)
  {
    assert section == ['('] + section[1..];
    BeforeFirst("D:P)", section[1..], '(');
    BeforeFirst("D:P", section[1..], '(');
    assert "D:P)" + section == "D:P)" + ['('] + section[1..];
    assert "D:P" + section == "D:P" + ['('] + section[1..];
    assert Upper("D:P)")[..2] == "D:" && Upper("D:P")[..2] == "D:";
    assert ("D:P)" + section)[4..] == section && ("D:P" + section)[3..] == section;
  }
}
