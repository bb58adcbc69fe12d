/** Access rights in SDDL ([MS-DTYP] section 2.5.1.1): masks in hexadecimal or
    two-letter tokens. */
module SddlRights {
  import opened SddlText

  datatype Mask = NotANumber | Number(value: nat)

  const U32_SIZE: nat := 0x1_0000_0000

  const MODIFY_MASK: bv32 :=
    0x0000_0002 | 0x0000_0004 | 0x0000_0010 | 0x0000_0040 | 0x0000_0100
    | 0x0001_0000 | 0x0004_0000 | 0x0008_0000 | 0x1000_0000 | 0x4000_0000

  predicate IsHexDigit(c: char) {
    '0' <= c <= '9' || 'a' <= c <= 'f' || 'A' <= c <= 'F'
  }

  function DigitValue(c: char): (d: nat)
    requires IsHexDigit(c)
    ensures d < 16
  {
    if c <= '9' then c as int - '0' as int
    else if c <= 'F' then c as int - 'A' as int + 10
    else c as int - 'a' as int + 10
  }

  /** The digits of `u32::from_str_radix`, left to right, checked at every step. */
  function Digits(s: string, sofar: nat): Mask {
    if s == [] then Number(sofar)
    else if !IsHexDigit(s[0]) || sofar * 16 >= U32_SIZE then NotANumber
    else
      var next := sofar * 16 + DigitValue(s[0]);
      if next >= U32_SIZE then NotANumber else Digits(s[1..], next)
  }

  /** `u32::from_str_radix(s, 16)`: one leading plus is allowed, nothing empty. */
  function FromStrRadix16(s: string): Mask {
    if s == "" || s == "+" || s == "-" then NotANumber
    else if s[0] == '+' then Digits(s[1..], 0)
    else Digits(s, 0)
  }

  predicate Meets(mask: nat)
    requires mask < U32_SIZE
  {
    (mask as bv32) & MODIFY_MASK != 0
  }

  predicate Bit(mask: nat, b: nat)
    requires mask < U32_SIZE && b < 32
  {
    ((mask as bv32) >> b) & 1 == 1
  }

  /** Which bits modify a file: write data, append, write extended attributes, delete a
      child, write attributes; delete, write the access list, write the owner; and the
      generic rights to everything and to write. */
  lemma MeetsExactly(mask: nat)
    requires mask < U32_SIZE
    ensures Meets(mask) <==>
            || Bit(mask, 1) || Bit(mask, 2) || Bit(mask, 4) || Bit(mask, 6) || Bit(mask, 8)
            || Bit(mask, 16) || Bit(mask, 18) || Bit(mask, 19)
            || Bit(mask, 28) || Bit(mask, 30)
  {
  }

  predicate ReadOnlyToken(t: string) {
    t in {"FR", "FX", "GR", "GX", "RC", "LC", "RP", "LO"}
  }

  /** `chunks_exact(2)` with `any`: a token that is not read-only. */
  predicate SomeToken(s: string) {
    |s| >= 2 && (!ReadOnlyToken(s[..2]) || SomeToken(s[2..]))
  }

  predicate IsAscii(s: string) {
    forall i :: 0 <= i < |s| ==> s[i] as int < 128
  }

  predicate CanModify(rights: string) {
    var upper := Upper(rights);
    if "0X" <= upper then
      var mask := FromStrRadix16(upper[2..]);
      mask.Number? ==> mask.value >= U32_SIZE || Meets(mask.value)
    else
      |upper| % 2 != 0 || !IsAscii(upper) || SomeToken(upper)
  }

  predicate FullControl(rights: string) {
    Upper(rights) in {"FA", "GA", "0X1F01FF", "0X10000000"}
  }

  // ----- hexadecimal masks

  predicate AllHex(s: string) {
    forall i :: 0 <= i < |s| ==> IsHexDigit(s[i])
  }

  /** The number a digit string denotes, without any bound. */
  function Value(s: string): nat
    requires AllHex(s)
  {
    if s == [] then 0 else Value(s[..|s| - 1]) * 16 + DigitValue(s[|s| - 1])
  }

  function Power16(n: nat): nat {
    if n == 0 then 1 else 16 * Power16(n - 1)
  }

  lemma {:induction false} PowerPositive(n: nat)
    ensures Power16(n) >= 1
  {
    if n > 0 {
      PowerPositive(n - 1);
    }
  }

  lemma Distribute(a: nat, b: nat, p: nat)
    ensures a * (16 * p) + b * p == (a * 16 + b) * p
    ensures (a * p + b) * 16 == a * (16 * p) + b * 16
    ensures p >= 1 ==> a * p >= a
  {
  }

  /** The leading digit counts most. */
  lemma {:induction false} ValueFirst(s: string)
    requires AllHex(s) && s != []
    ensures Value(s) == DigitValue(s[0]) * Power16(|s| - 1) + Value(s[1..])
  {
    var n := |s| - 1;
    if n == 0 {
      assert s[..0] == [] && s[1..] == [] && Value([]) == 0;
    } else {
      var front, rest := s[..n], s[1..];
      ValueFirst(front);
      assert front[1..] == rest[..n - 1] && rest[n - 1] == s[n] && front[0] == s[0];
      var p, w := Power16(n - 1), Value(front[1..]);
      Distribute(DigitValue(s[0]), w, p);
      assert Value(s) == Value(front) * 16 + DigitValue(s[n]);
      assert Value(rest) == w * 16 + DigitValue(s[n]);
    }
  }

  /** The checked left-to-right loop computes the denoted number, and fails exactly
      when that number does not fit. */
  lemma {:induction false} DigitsCompute(s: string, sofar: nat)
    requires AllHex(s) && sofar < U32_SIZE
    ensures var v := sofar * Power16(|s|) + Value(s);
            Digits(s, sofar) == if v < U32_SIZE then Number(v) else NotANumber
  {
    if s == [] {
      assert Value(s) == 0 && Power16(0) == 1;
    } else {
      var next := sofar * 16 + DigitValue(s[0]);
      var p := Power16(|s| - 1);
      PowerPositive(|s| - 1);
      ValueFirst(s);
      Distribute(sofar, DigitValue(s[0]), p);
      Distribute(next, 0, p);
      assert sofar * Power16(|s|) + Value(s) == next * p + Value(s[1..]);
      if next < U32_SIZE {
        DigitsCompute(s[1..], next);
      }
    }
  }

  lemma {:induction false} DigitsRejectOthers(s: string, sofar: nat)
    requires !AllHex(s)
    ensures Digits(s, sofar) == NotANumber
  {
    if IsHexDigit(s[0]) && sofar * 16 + DigitValue(s[0]) < U32_SIZE {
      assert forall i :: 0 <= i < |s[1..]| ==> s[1..][i] == s[i + 1];
      DigitsRejectOthers(s[1..], sofar * 16 + DigitValue(s[0]));
    }
  }

  lemma {:induction false} UpperValue(s: string)
    ensures AllHex(Upper(s)) <==> AllHex(s)
    ensures AllHex(s) ==> Value(Upper(s)) == Value(s)
  {
    assert forall i :: 0 <= i < |s| ==> (IsHexDigit(Upper(s)[i]) <==> IsHexDigit(s[i]));
    if AllHex(s) && s != [] {
      UpperValue(s[..|s| - 1]);
      assert Upper(s)[..|s| - 1] == Upper(s[..|s| - 1]);
    }
  }

  /** One leading plus is not part of the number. */
  function Numeral(text: string): string {
    if text != "" && text[0] == '+' then text[1..] else text
  }

  predicate DenotesMask(digits: string) {
    digits != "" && AllHex(digits) && Value(digits) < U32_SIZE
  }

  lemma DigitsExactly(digits: string)
    ensures Digits(Upper(digits), 0)
            == if AllHex(digits) && Value(digits) < U32_SIZE then Number(Value(digits)) else NotANumber
  {
    UpperValue(digits);
    if AllHex(digits) {
      DigitsCompute(Upper(digits), 0);
    } else {
      DigitsRejectOthers(Upper(digits), 0);
    }
  }

  /** For every text: the parser yields the denoted number where there is one that
      fits, and nothing otherwise. */
  lemma RadixExactly(text: string)
    ensures FromStrRadix16(Upper(text))
            == if DenotesMask(Numeral(text)) then Number(Value(Numeral(text))) else NotANumber
  {
    DigitsExactly(Numeral(text));
    if text != "" {
      assert Upper(text)[0] == UpperChar(text[0]);
      if text[0] == '+' {
        assert Upper(text)[1..] == Upper(text[1..]);
      } else if text == "-" {
        assert !AllHex(text);
      }
    }
  }

  /** After either spelling of the prefix, for every text: the rights are read-only
      exactly when the text denotes a 32-bit mask without a modifying bit. An empty,
      malformed or too large number counts as modifying. */
  lemma HexRightsExactly(prefix: string, text: string)
    requires prefix == "0x" || prefix == "0X"
    ensures !CanModify(prefix + text) <==> DenotesMask(Numeral(text)) && !Meets(Value(Numeral(text)))
  {
    UpperConcat(prefix, text);
    assert Upper(prefix) == "0X";
    assert Upper(prefix + text)[2..] == Upper(text);
    RadixExactly(text);
  }

  /** A mask has a text: every 32-bit value is denoted by its own digits. */
  function HexOf(v: nat): (s: string)
    ensures AllHex(s) && s != "" && Value(s) == v
  {
    var last := if v % 16 < 10 then '0' + (v % 16) as char else 'A' + (v % 16 - 10) as char;
    if v < 16 then
      assert Value([last]) == Value([]) * 16 + DigitValue(last) by { assert [last][..0] == []; }
      [last]
    else
      var front := HexOf(v / 16);
      assert (front + [last])[..|front|] == front;
      front + [last]
  }

  /** So each of the 2^32 masks can be written, with or without plus and leading
      zeros, and is judged by its bits. */
  lemma EveryMaskIsJudged(mask: nat, zeros: string)
    requires mask < U32_SIZE && forall i :: 0 <= i < |zeros| ==> zeros[i] == '0'
    ensures CanModify("0x" + (zeros + HexOf(mask))) <==> Meets(mask)
    ensures CanModify("0x" + ("+" + (zeros + HexOf(mask)))) <==> Meets(mask)
  {
    var digits := zeros + HexOf(mask);
    LeadingZeros(zeros, HexOf(mask));
    HexRightsExactly("0x", digits);
    HexRightsExactly("0x", "+" + digits);
    assert IsHexDigit(digits[0]);
    assert ("+" + digits)[1..] == digits;
  }

  lemma {:induction false} LeadingZeros(zeros: string, digits: string)
    requires AllHex(digits) && forall i :: 0 <= i < |zeros| ==> zeros[i] == '0'
    ensures AllHex(zeros + digits) && Value(zeros + digits) == Value(digits)
  {
    if zeros == [] {
      assert zeros + digits == digits;
    } else {
      LeadingZeros(zeros[1..], digits);
      assert zeros + digits == ['0'] + (zeros[1..] + digits);
      var rest := zeros[1..] + digits;
      assert (['0'] + rest)[1..] == rest;
      ValueFirst(['0'] + rest);
    }
  }

  // ----- token lists

  function Concat(tokens: seq<string>): string {
    if tokens == [] then "" else tokens[0] + Concat(tokens[1..])
  }

  predicate TokenList(tokens: seq<string>) {
    && (forall i :: 0 <= i < |tokens| ==> |tokens[i]| == 2 && IsAscii(tokens[i]))
    && (tokens != [] ==> Upper(tokens[0]) != "0X")
  }

  lemma {:induction false} TokensDecideUpper(tokens: seq<string>)
    requires forall i :: 0 <= i < |tokens| ==> |tokens[i]| == 2 && IsAscii(tokens[i])
    ensures |Concat(tokens)| % 2 == 0 && IsAscii(Upper(Concat(tokens)))
    ensures SomeToken(Upper(Concat(tokens))) <==>
            exists i :: 0 <= i < |tokens| && !ReadOnlyToken(Upper(tokens[i]))
  {
    if tokens != [] {
      TokensDecideUpper(tokens[1..]);
      var s := Concat(tokens);
      assert Upper(s)[..2] == Upper(tokens[0]);
      assert Upper(s)[2..] == Upper(Concat(tokens[1..]));
      assert forall i :: 0 < i < |tokens| ==> tokens[i] == tokens[1..][i - 1];
      assert forall i :: 2 <= i < |s| ==> Upper(s)[i] == Upper(s)[2..][i - 2];
    }
  }

  /** A list of two-letter tokens is read-only exactly when each of them is one of the
      eight read and execute rights. */
  lemma TokensDecide(tokens: seq<string>)
    requires TokenList(tokens)
    ensures !CanModify(Concat(tokens)) <==>
            forall i :: 0 <= i < |tokens| ==>
              Upper(tokens[i]) in {"FR", "FX", "GR", "GX", "RC", "LC", "RP", "LO"}
  {
    TokensDecideUpper(tokens);
    assert tokens != [] ==> Upper(Concat(tokens))[..2] == Upper(tokens[0]);
  }

  function Pairs(s: string): seq<string>
    requires |s| % 2 == 0
  {
    if s == "" then [] else [s[..2]] + Pairs(s[2..])
  }

  lemma {:induction false} PairsConcat(s: string)
    requires |s| % 2 == 0 && IsAscii(s)
    ensures Concat(Pairs(s)) == s
    ensures forall i :: 0 <= i < |Pairs(s)| ==> |Pairs(s)[i]| == 2 && IsAscii(Pairs(s)[i])
  {
    if s != "" {
      var rest := s[2..];
      assert forall i :: 0 <= i < |rest| ==> rest[i] == s[i + 2];
      PairsConcat(rest);
      assert Pairs(s)[1..] == Pairs(rest) && s == s[..2] + rest;
    }
  }

  predicate ReadOnlyTokens(tokens: seq<string>) {
    forall i :: 0 <= i < |tokens| ==>
      |tokens[i]| == 2 && Upper(tokens[i]) in {"FR", "FX", "GR", "GX", "RC", "LC", "RP", "LO"}
  }

  lemma ReadOnlyIsAscii(token: string)
    requires |token| == 2 && Upper(token) in {"FR", "FX", "GR", "GX", "RC", "LC", "RP", "LO"}
    ensures IsAscii(token) && Upper(token) != "0X"
  {
    assert Upper(token)[0] == UpperChar(token[0]) && Upper(token)[1] == UpperChar(token[1]);
  }

  /** For every text that is not a hexadecimal mask: it is read-only exactly when it is
      a list of read and execute tokens. Any other text counts as modifying. */
  lemma OtherRightsExactly(rights: string)
    requires !("0X" <= Upper(rights))
    ensures !CanModify(rights) <==> exists tokens :: Concat(tokens) == rights && ReadOnlyTokens(tokens)
  {
    if !CanModify(rights) {
      var tokens := Pairs(rights);
      UpperAscii(rights);
      PairsConcat(rights);
      assert tokens != [] ==> Upper(rights)[..2] == Upper(tokens[0]);
      TokensDecide(tokens);
      assert Concat(tokens) == rights && ReadOnlyTokens(tokens);
    }
    if exists tokens :: Concat(tokens) == rights && ReadOnlyTokens(tokens) {
      var tokens :| Concat(tokens) == rights && ReadOnlyTokens(tokens);
      forall i | 0 <= i < |tokens|
        ensures IsAscii(tokens[i]) && Upper(tokens[i]) != "0X"
      {
        ReadOnlyIsAscii(tokens[i]);
      }
      TokensDecide(tokens);
    }
  }

  lemma UpperAscii(s: string)
    ensures IsAscii(Upper(s)) <==> IsAscii(s)
  {
    forall i | 0 <= i < |s|
      ensures Upper(s)[i] as int < 128 <==> s[i] as int < 128
    {
    }
  }

  /** Which texts give full control. */
  lemma FullControlExactly(rights: string)
    ensures FullControl(rights) <==>
            || SameIgnoringCase(rights, "FA") || SameIgnoringCase(rights, "GA")
            || SameIgnoringCase(rights, "0x1F01FF") || SameIgnoringCase(rights, "0x10000000")
  {
    assert Upper("FA") == "FA" && Upper("GA") == "GA";
    assert Upper("0x1F01FF") == "0X1F01FF" && Upper("0x10000000") == "0X10000000";
  }

  /** Full control always implies the right to modify. */
  lemma FullControlModifies(rights: string)
    requires FullControl(rights)
    ensures CanModify(rights)
  {
    var u := Upper(rights);
    if u == "0X1F01FF" {
      FullControlMask("1F01FF", 0x1F01FF);
      assert "0X" <= u && u[2..] == "1F01FF";
    } else if u == "0X10000000" {
      FullControlMask("10000000", 0x10000000);
      assert "0X" <= u && u[2..] == "10000000";
    } else {
      FullControlToken(u);
    }
  }

  lemma FullControlToken(u: string)
    requires u == "FA" || u == "GA"
    ensures !("0X" <= u) && SomeToken(u)
  {
    assert u[..2] == u && !ReadOnlyToken(u);
    assert u[0] != '0';
  }

  lemma FullControlMask(digits: string, v: nat)
    requires (digits == "1F01FF" && v == 0x1F01FF) || (digits == "10000000" && v == 0x10000000)
    ensures FromStrRadix16(digits) == Number(v) && Meets(v)
  {
    if v == 0x1F01FF {
      FileAllAccess();
      assert (0x1F01FF as bv32) & MODIFY_MASK == 0x000D_0156;
    } else {
      GenericAll();
      assert (0x1000_0000 as bv32) & MODIFY_MASK == 0x1000_0000;
    }
  }

  lemma FileAllAccess()
    ensures Digits("1F01FF", 0) == Number(0x1F01FF)
  {
    assert "F"[1..] == "" && Digits("F", 0x1F01F) == Number(0x1F01FF);
    assert "FF"[1..] == "F" && Digits("FF", 0x1F01) == Number(0x1F01FF);
    assert "1FF"[1..] == "FF" && Digits("1FF", 0x1F0) == Number(0x1F01FF);
    assert "01FF"[1..] == "1FF" && Digits("01FF", 0x1F) == Number(0x1F01FF);
    assert "F01FF"[1..] == "01FF" && Digits("F01FF", 1) == Number(0x1F01FF);
    assert "1F01FF"[1..] == "F01FF";
  }

  lemma GenericAll()
    ensures Digits("10000000", 0) == Number(0x1000_0000)
  {
    assert "0"[1..] == "" && Digits("0", 0x100_0000) == Number(0x1000_0000);
    assert "00"[1..] == "0" && Digits("00", 0x10_0000) == Number(0x1000_0000);
    assert "000"[1..] == "00" && Digits("000", 0x1_0000) == Number(0x1000_0000);
    assert "0000"[1..] == "000" && Digits("0000", 0x1000) == Number(0x1000_0000);
    assert "00000"[1..] == "0000" && Digits("00000", 0x100) == Number(0x1000_0000);
    assert "000000"[1..] == "00000" && Digits("000000", 0x10) == Number(0x1000_0000);
    assert "0000000"[1..] == "000000" && Digits("0000000", 1) == Number(0x1000_0000);
    assert "10000000"[1..] == "0000000";
  }
}
