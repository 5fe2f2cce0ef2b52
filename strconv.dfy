/** The identifier parser the handlers use, strconv.ParseInt(s, 10, 64): an optional
    '+' or '-', then one or more ASCII decimal digits, with a value that fits in an
    int64. Anything else (empty text, spaces, underscores, letters, hexadecimal
    prefixes, overflow) is an error. FormatInt64 is its inverse, strconv.FormatInt(n, 10). */
module StrConv {
  import opened Wrappers
  import opened Models

  predicate IsDigit(c: char) {
    '0' <= c <= '9'
  }

  predicate AllDigits(s: string) {
    forall i :: 0 <= i < |s| ==> IsDigit(s[i])
  }

  function DigitValue(c: char): nat
    requires IsDigit(c)
  {
    (c as int) - ('0' as int)
  }

  function DigitChar(d: nat): (c: char)
    requires d < 10
    ensures IsDigit(c) && DigitValue(c) == d
  {
    (('0' as int) + d) as char
  }

  /** The value of a string of decimal digits, most significant first. */
  function DigitsValue(s: string): nat
    requires AllDigits(s)
    decreases |s|
  {
    if |s| == 0 then 0 else DigitsValue(s[..|s| - 1]) * 10 + DigitValue(s[|s| - 1])
  }

  /** The digit string of ParseInt64 s, after an optional leading sign. */
  function Magnitude(s: string): string
    requires |s| > 0
  {
    if s[0] == '+' || s[0] == '-' then s[1..] else s
  }

  /** The syntax ParseInt accepts in base 10: a non-empty string, an optional sign,
      then at least one ASCII digit and nothing else. */
  predicate WellFormed(s: string) {
    |s| > 0 && |Magnitude(s)| > 0 && AllDigits(Magnitude(s))
  }

  /** The mathematical value a well-formed string denotes. */
  function SignedValue(s: string): int
    requires WellFormed(s)
  {
    if s[0] == '-' then -(DigitsValue(Magnitude(s)) as int) else DigitsValue(Magnitude(s))
  }

  /** strconv.ParseInt(s, 10, 64); None stands for a syntax or range error. As in Go,
      the digits are first read as an unsigned 64-bit value (ParseUint), then checked
      against the signed cutoff 1 << 63. */
  function ParseInt64(s: string): (r: Option<int64>)
    ensures r.Some? <==> WellFormed(s) && MinInt64 <= SignedValue(s) <= MaxInt64
    ensures r.Some? ==> r.value as int == SignedValue(s)
  {
    if |s| == 0 then None
    else
      var neg := s[0] == '-';
      var digits := Magnitude(s);
      if |digits| == 0 || !AllDigits(digits) then None
      else
        var un := DigitsValue(digits);
        if un >= 0x1_0000_0000_0000_0000 then None
        else if !neg && un >= 0x8000_0000_0000_0000 then None
        else if neg && un > 0x8000_0000_0000_0000 then None
        else Some((if neg then -(un as int) else un as int) as int64)
  }

  /** The shortest decimal spelling of n (strconv.Itoa on a non-negative value). */
  function FormatNat(n: nat): (s: string)
    decreases n
  {
    if n < 10 then [DigitChar(n)] else FormatNat(n / 10) + [DigitChar(n % 10)]
  }

  /** strconv.FormatInt(n, 10). */
  function FormatInt64(n: int64): string {
    if n < 0 then "-" + FormatNat(-(n as int)) else FormatNat(n as int)
  }

  /** A canonical spelling: no '+', no leading zero, and no "-0". */
  predicate Canonical(s: string) {
    var digits := if |s| > 0 && s[0] == '-' then s[1..] else s;
    |digits| > 0 && AllDigits(digits) && (digits[0] == '0' ==> |digits| == 1) && (|s| > 0 && s[0] == '-' ==> digits != "0")
  }

  lemma {:induction false} FormatNatDigits(n: nat)
    ensures |FormatNat(n)| > 0 && AllDigits(FormatNat(n)) && DigitsValue(FormatNat(n)) == n
    ensures FormatNat(n)[0] == '0' ==> n == 0
    decreases n
  {
    if n >= 10 {
      FormatNatDigits(n / 10);
      var s := FormatNat(n);
      assert s[..|s| - 1] == FormatNat(n / 10);
      assert s[0] == FormatNat(n / 10)[0];
    }
  }

  /** Every int64 survives formatting and parsing back. */
  lemma ParseFormat(n: int64)
    ensures ParseInt64(FormatInt64(n)) == Some(n)
    ensures Canonical(FormatInt64(n))
  {
    if n < 0 {
      FormatNatDigits(-(n as int));
      assert Magnitude(FormatInt64(n)) == FormatNat(-(n as int));
    } else {
      FormatNatDigits(n as int);
    }
  }

  lemma {:induction false} LeadingNonZero(s: string)
    requires |s| > 0 && AllDigits(s) && s[0] != '0'
    ensures DigitsValue(s) >= 1
    decreases |s|
  {
    if |s| > 1 {
      LeadingNonZero(s[..|s| - 1]);
    }
  }

  lemma {:induction false} FormatDigitsValue(s: string)
    requires |s| > 0 && AllDigits(s) && (s[0] == '0' ==> |s| == 1)
    ensures FormatNat(DigitsValue(s)) == s
    decreases |s|
  {
    if |s| > 1 {
      var init := s[..|s| - 1];
      LeadingNonZero(init);
      FormatDigitsValue(init);
      assert init + [s[|s| - 1]] == s;
    }
  }

  /** Conversely, a canonical spelling that parses is the formatting of its value:
      on canonical strings ParseInt64 and FormatInt64 are inverse bijections. */
  lemma FormatParse(s: string)
    requires Canonical(s) && ParseInt64(s).Some?
    ensures FormatInt64(ParseInt64(s).value) == s
  {
    var digits := Magnitude(s);
    FormatDigitsValue(digits);
    if s[0] == '-' {
      LeadingNonZero(digits);
      assert "-" + digits == s;
    }
  }

  /** A character other than a digit anywhere, except a leading '+' or '-', makes the parse fail. */
  lemma RejectsNonDigit(s: string, i: nat)
    requires i < |s| && !IsDigit(s[i]) && (i == 0 ==> s[0] != '+' && s[0] != '-')
    ensures ParseInt64(s) == None
  {
  }

  lemma {:induction false} ZeroPrefix(s: string)
    requires AllDigits(s)
    ensures AllDigits("0" + s) && DigitsValue("0" + s) == DigitsValue(s)
    decreases |s|
  {
    if |s| > 0 {
      ZeroPrefix(s[..|s| - 1]);
      assert ("0" + s)[..|s|] == "0" + s[..|s| - 1];
    }
  }

  /** Spellings Go accepts beyond the canonical ones: a '+' sign and leading zeros
      change nothing, so "+7", "007" and "7" are the same id, and "-0" is 0. */
  lemma NonCanonicalSpellings(s: string)
    requires |s| > 0 && AllDigits(s)
    ensures ParseInt64("+" + s) == ParseInt64(s)
    ensures ParseInt64("0" + s) == ParseInt64(s)
    ensures ParseInt64("-0" + s) == ParseInt64("-" + s)
    ensures ParseInt64("-0") == Some(0)
  {
    assert Magnitude("+" + s) == s;
    assert Magnitude("-" + s) == s;
    ZeroPrefix(s);
    assert Magnitude("-0" + s) == "0" + s;
    assert Magnitude("0" + s) == "0" + s;
    assert Magnitude("-0") == "0";
  }

  /** A magnitude beyond the int64 range is rejected (Go's ErrRange), with or
      without a sign; the most negative value is the only one whose magnitude
      exceeds MaxInt64 and is still accepted. */
  lemma RejectsOutOfRange(n: nat)
    requires n > MaxInt64
    ensures ParseInt64(FormatNat(n)) == None
    ensures ParseInt64("+" + FormatNat(n)) == None
    ensures n > -MinInt64 ==> ParseInt64("-" + FormatNat(n)) == None
    ensures n == -MinInt64 ==> ParseInt64("-" + FormatNat(n)) == Some(MinInt64 as int64)
  {
    FormatNatDigits(n);
    assert Magnitude("+" + FormatNat(n)) == FormatNat(n);
    assert Magnitude("-" + FormatNat(n)) == FormatNat(n);
  }

  /** One more digit of a digit string: its value is ten times the value of the
      digits before the last one, plus the last digit. */
  lemma DigitsStep(s: string, v: nat)
    requires |s| > 1 && AllDigits(s) && DigitsValue(s[..|s| - 1]) == v
    ensures DigitsValue(s) == v * 10 + DigitValue(s[|s| - 1])
  {
  }

  /** The value of the digits of 2^63, built up a few digits at a time. */
  lemma BoundaryDigits5()
    ensures DigitsValue("92233") == 92233
  {
    assert "92"[..1] == "9";
    DigitsStep("92", 9);
    assert "922"[..2] == "92";
    DigitsStep("922", 92);
    assert "9223"[..3] == "922";
    DigitsStep("9223", 922);
    assert "92233"[..4] == "9223";
    DigitsStep("92233", 9223);
  }

  lemma BoundaryDigits10()
    ensures DigitsValue("9223372036") == 9223372036
  {
    BoundaryDigits5();
    assert "922337"[..5] == "92233";
    DigitsStep("922337", 92233);
    assert "9223372"[..6] == "922337";
    DigitsStep("9223372", 922337);
    assert "92233720"[..7] == "9223372";
    DigitsStep("92233720", 9223372);
    assert "922337203"[..8] == "92233720";
    DigitsStep("922337203", 92233720);
    assert "9223372036"[..9] == "922337203";
    DigitsStep("9223372036", 922337203);
  }

  lemma BoundaryDigits15()
    ensures DigitsValue("922337203685477") == 922337203685477
  {
    BoundaryDigits10();
    assert "92233720368"[..10] == "9223372036";
    DigitsStep("92233720368", 9223372036);
    assert "922337203685"[..11] == "92233720368";
    DigitsStep("922337203685", 92233720368);
    assert "9223372036854"[..12] == "922337203685";
    DigitsStep("9223372036854", 922337203685);
    assert "92233720368547"[..13] == "9223372036854";
    DigitsStep("92233720368547", 9223372036854);
    assert "922337203685477"[..14] == "92233720368547";
    DigitsStep("922337203685477", 92233720368547);
  }

  lemma BoundaryDigits19()
    ensures DigitsValue("9223372036854775808") == 9223372036854775808
  {
    BoundaryDigits15();
    assert "9223372036854775"[..15] == "922337203685477";
    DigitsStep("9223372036854775", 922337203685477);
    assert "92233720368547758"[..16] == "9223372036854775";
    DigitsStep("92233720368547758", 9223372036854775);
    assert "922337203685477580"[..17] == "92233720368547758";
    DigitsStep("922337203685477580", 92233720368547758);
    assert "9223372036854775808"[..18] == "922337203685477580";
    DigitsStep("9223372036854775808", 922337203685477580);
  }

  /** One past the largest int64 is an invalid id, and its negation is the smallest int64. */
  lemma Int64Boundary()
    ensures ParseInt64("9223372036854775808") == None
    ensures ParseInt64("-9223372036854775808") == Some(MinInt64 as int64)
  {
    BoundaryDigits19();
    assert Magnitude("-9223372036854775808") == "9223372036854775808";
  }
}
