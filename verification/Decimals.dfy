/**
  Decimal text: the laboratory canonicaliser, the rational reader and the fixed-point
  printer that every other component exchanges quantities through.  Exact rationals
  (`big.Rat` in the source) are Dafny reals.
*/
module Decimals {
  import opened Wrappers
  import opened Digits
  import opened Reals
  import Text

  // ---------- scanning ----------

  datatype Literal = Literal(neg: bool, whole: Numeral, point: bool, frac: Numeral, exponent: int)

  predicate IsDigit(c: char) { '0' <= c <= '9' }

  /** The longest prefix made of digits. */
  function LeadingDigits(s: string): (d: Numeral)
    ensures |d| <= |s|
  {
    if |s| > 0 && IsDigit(s[0]) then [s[0] as Digit] + LeadingDigits(s[1..]) else []
  }

  function SplitSign(s: string): (r: (bool, string)) {
    if |s| > 0 && (s[0] == '+' || s[0] == '-') then (s[0] == '-', s[1..]) else (false, s)
  }

  const MaxInt: int := 0x7FFF_FFFF_FFFF_FFFF

  /** The exponent fits a 64-bit integer. */
  predicate FitsInt(exponent: int) { -MaxInt - 1 <= exponent <= MaxInt }

  /** The signed digits after `e` */
  function ScanExponent(s: string): Option<int> {
    var (neg, text) := SplitSign(s);
    var digits := LeadingDigits(text);
    if |digits| == 0 || |digits| != |text| then None
    else
      var magnitude: int := NatOf(digits);
      Some(if neg then -magnitude else magnitude)
  }

  /** sign, digits, optional point and digits, optional exponent, end of text */
  function Scan(s: string): Option<Literal> {
    var (neg, body) := SplitSign(s);
    var whole := LeadingDigits(body);
    var afterWhole := body[|whole|..];
    var point := |afterWhole| > 0 && afterWhole[0] == '.';
    var afterPoint := if point then afterWhole[1..] else afterWhole;
    var frac := if point then LeadingDigits(afterPoint) else [];
    var rest := afterPoint[|frac|..];
    if rest == "" then Some(Literal(neg, whole, point, frac, 0))
    else if rest[0] == 'e' || rest[0] == 'E' then
      var exponent :- ScanExponent(rest[1..]);
      Some(Literal(neg, whole, point, frac, exponent))
    else None
  }

  function LiteralValue(l: Literal): real {
    var magnitude := Scaled(NatOf(l.whole + l.frac), |l.frac| - l.exponent);
    if l.neg then -magnitude else magnitude
  }

  /** The largest power of ten `big.Rat.SetString` applies to a nonzero mantissa. */
  const MaxRatExponent: int := 1_000_000

  /** `new(big.Rat).SetString(s)` on plain decimal text */
  function RatOf(s: string): Option<real> {
    var l :- Scan(s);
    var scale := |l.frac| - l.exponent;
    if |l.whole| + |l.frac| == 0 || !FitsInt(l.exponent) then None
    else if NatOf(l.whole + l.frac) == 0 then Some(0.0)
    else if scale > MaxRatExponent || -scale > MaxRatExponent then None
    else Some(LiteralValue(l))
  }

  // ---------- the laboratory canonicaliser ----------

  datatype DecimalError = NotADecimal | Negative | BadExponent | NotRepresentable | SolidsOutOfRange

  /** The text the decimal pattern is matched against. */
  function Cleaned(input: string): string {
    Text.RemoveCommas(Text.Trim(input))
  }

  /** The decimal pattern: digits are required before the point, and after it when there is one. */
  function MatchPattern(value: string): Option<Literal> {
    var l :- Scan(value);
    if |l.whole| > 0 && (l.point ==> |l.frac| > 0) then Some(l) else None
  }

  /** The exponent of zero digits is never looked at. */
  function CanonicalDecimal(input: string): Result<string, DecimalError> {
    match MatchPattern(Cleaned(input))
    case None => Failure(NotADecimal)
    case Some(l) =>
      if l.neg then Failure(Negative)
      else if TrimLeftZeros(l.whole + l.frac) != "" && !FitsInt(l.exponent) then Failure(BadExponent)
      else Success(CanonicalText(l.whole + l.frac, |l.frac| - l.exponent))
  }

  function CanonicalText(digits: Numeral, scale: int): string {
    if TrimLeftZeros(digits) == "" then "0"
    else if scale <= 0 then TrimLeftZeros(digits + Zeros(-scale))
    else if scale >= |digits| then "0." + TrimRightZeros(Zeros(scale - |digits|) + digits)
    else
      var split := |digits| - scale;
      var trimmed := TrimLeftZeros(digits[..split]);
      var whole: Numeral := if trimmed == "" then "0" else trimmed;
      var fraction := TrimRightZeros(digits[split..]);
      if fraction == "" then whole else whole + "." + fraction
  }

  // ---------- normal form ----------

  /** `whole` alone, or `whole.fraction` */
  function Join(whole: Numeral, fraction: Numeral): string {
    if fraction == "" then whole else whole + "." + fraction
  }

  predicate NormalParts(whole: Numeral, fraction: Numeral) {
    && NoLeadingZero(whole)
    && (fraction != "" ==> fraction[|fraction| - 1] != '0')
  }

  /** No sign, no exponent, no superfluous zero. */
  ghost predicate IsNormal(s: string) {
    exists whole, fraction :: NormalParts(whole, fraction) && s == Join(whole, fraction)
  }

  /** The number a string denotes, or nothing when it is not decimal text. */
  function Denotes(s: string): Option<real> {
    var l :- MatchPattern(s);
    Some(LiteralValue(l))
  }

  lemma {:induction false} LeadingDigitsOf(digits: Numeral, rest: string)
    requires rest == "" || !IsDigit(rest[0])
    ensures LeadingDigits(digits + rest) == digits
  {
    if |digits| > 0 {
      LeadingDigitsOf(digits[1..], rest);
      assert (digits + rest)[1..] == digits[1..] + rest;
      assert digits == [digits[0]] + digits[1..];
    } else {
      assert digits + rest == rest;
    }
  }

  lemma {:induction false} ScanJoin(whole: Numeral, fraction: Numeral)
    requires |whole| > 0
    ensures Scan(Join(whole, fraction)) == Some(Literal(false, whole, fraction != "", fraction, 0))
  {
    var s := Join(whole, fraction);
    assert SplitSign(s) == (false, s) by { assert s[0] == whole[0]; }
    if fraction == "" {
      LeadingDigitsOf(whole, "");
      assert whole + "" == s;
      assert s[|whole|..] == "";
    } else {
      LeadingDigitsOf(whole, "." + fraction);
      assert s == whole + ("." + fraction);
      assert s[|whole|..] == "." + fraction;
      assert s[|whole|..][1..] == fraction;
      LeadingDigitsOf(fraction, "");
      assert fraction + "" == fraction;
      assert fraction[|fraction|..] == "";
    }
  }

  lemma {:induction false} ZeroFits()
    ensures FitsInt(0)
  {}

  lemma {:induction false} JoinReads(whole: Numeral, fraction: Numeral)
    requires |whole| > 0
    ensures MatchPattern(Join(whole, fraction)) == Some(Literal(false, whole, fraction != "", fraction, 0))
    ensures Denotes(Join(whole, fraction)) == Some(Scaled(NatOf(whole + fraction), |fraction|))
    ensures RatOf(Join(whole, fraction)) ==
            if NatOf(whole + fraction) == 0 then Some(0.0)
            else if |fraction| > MaxRatExponent then None
            else Some(Scaled(NatOf(whole + fraction), |fraction|))
  {
    hide Scan, Join, Scaled, NatOf, FitsInt;
    ScanJoin(whole, fraction);
    ZeroFits();
  }

  /** What a normal-form string denotes, and how the rational reader sees it. */
  lemma {:induction false} JoinDenotes(whole: Numeral, fraction: Numeral)
    requires NormalParts(whole, fraction)
    ensures IsNormal(Join(whole, fraction))
    ensures Denotes(Join(whole, fraction)) == Some(Scaled(NatOf(whole + fraction), |fraction|))
    ensures |fraction| <= MaxRatExponent ==> RatOf(Join(whole, fraction)) == Denotes(Join(whole, fraction))
  {
    assert |whole| > 0;
    hide Join, Scaled, NatOf, RatOf, Denotes, NormalParts;
    JoinReads(whole, fraction);
    ScaledZero(|fraction|);
  }

  /** The rational reader agrees with the denotation of every normal form it can represent. */
  lemma {:induction false} NormalRat(text: string)
    requires IsNormal(text) && RatOf(text).Some?
    ensures RatOf(text) == Denotes(text)
  {
    var whole, fraction :| NormalParts(whole, fraction) && text == Join(whole, fraction);
    assert |whole| > 0;
    hide Join, Scaled, NatOf, NormalParts, IsNormal, RatOf, Denotes;
    JoinReads(whole, fraction);
    ScaledZero(|fraction|);
  }

  /** Equal values have equal normal forms: the scale is forced by the nonzero last digit. */
  lemma {:induction false} NormalFormUnique(a: string, b: string)
    requires IsNormal(a) && IsNormal(b) && Denotes(a) == Denotes(b)
    ensures a == b
  {
    var wa, fa :| NormalParts(wa, fa) && a == Join(wa, fa);
    var wb, fb :| NormalParts(wb, fb) && b == Join(wb, fb);
    JoinDenotes(wa, fa);
    JoinDenotes(wb, fb);
    CommonScale(NatOf(wa + fa), |fa|, NatOf(wb + fb), |fb|);
    ScaleNotShorter(wa, fa, wb, fb);
    ScaleNotShorter(wb, fb, wa, fa);
    ShiftInjective(NatOf(wa + fa), NatOf(wb + fb), |fa|);
    SplitUnique(wa, fa, wb, fb);
  }

  /** A normal fraction ends in a nonzero digit, so the mantissa is no multiple of ten. */
  lemma {:induction false} LastDigit(whole: Numeral, fraction: Numeral)
    requires NormalParts(whole, fraction) && fraction != ""
    ensures NatOf(whole + fraction) % 10 != 0
  {
    var s := whole + fraction;
    NatOfConcat(whole, fraction);
    EndsIn(s, fraction[|fraction| - 1]);
  }

  lemma {:induction false} EndsIn(s: Numeral, c: Digit)
    requires |s| > 0 && s[|s| - 1] == c && c != '0'
    ensures NatOf(s) % 10 != 0
  {
    assert NatOf(s) == 10 * NatOf(s[..|s| - 1]) + DigitValue(c);
  }

  lemma {:induction false} ScaleNotShorter(wa: Numeral, fa: Numeral, wb: Numeral, fb: Numeral)
    requires NormalParts(wa, fa) && NormalParts(wb, fb)
    requires Shift(NatOf(wa + fa), |fb|) == Shift(NatOf(wb + fb), |fa|)
    ensures |fb| <= |fa|
  {
    if |fa| < |fb| {
      LastDigit(wb, fb);
      var gap := |fb| - |fa|;
      ShiftShift(NatOf(wa + fa), gap, |fa|);
      ShiftInjective(Shift(NatOf(wa + fa), gap), NatOf(wb + fb), |fa|);
    }
  }

  // ---------- reassembling whole and fraction ----------

  /** Leading zeros dropped from the whole part, trailing zeros from the fraction. */
  function NormalJoin(whole: Numeral, fraction: Numeral): string {
    var trimmed := TrimLeftZeros(whole);
    Join(if trimmed == "" then "0" else trimmed, TrimRightZeros(fraction))
  }

  lemma {:induction false} NormalJoinValue(whole: Numeral, fraction: Numeral)
    ensures var s := NormalJoin(whole, fraction);
            && IsNormal(s)
            && Denotes(s) == Some(Scaled(NatOf(whole + fraction), |fraction|))
            && (|fraction| <= MaxRatExponent ==> RatOf(s) == Denotes(s))
  {
    NormalWhole(whole);
    NormalFraction(fraction);
    var w := if TrimLeftZeros(whole) == "" then "0" else TrimLeftZeros(whole);
    JoinDenotes(w, TrimRightZeros(fraction));
    SamePartsValue(whole, fraction, w, TrimRightZeros(fraction));
  }

  lemma {:induction false} NormalWhole(whole: Numeral)
    ensures var trimmed := TrimLeftZeros(whole);
            var w := if trimmed == "" then "0" else trimmed;
            NoLeadingZero(w) && NatOf(w) == NatOf(whole)
  {
    TrimLeftValue(whole);
    assert "0"[..0] == "";
  }

  lemma {:induction false} NormalFraction(fraction: Numeral)
    ensures var f := TrimRightZeros(fraction);
            && |f| <= |fraction|
            && (f != "" ==> f[|f| - 1] != '0')
            && NatOf(fraction) == Shift(NatOf(f), |fraction| - |f|)
  {
    TrimRightValue(fraction);
  }

  lemma {:induction false} SamePartsValue(whole: Numeral, fraction: Numeral, w: Numeral, f: Numeral)
    requires |f| <= |fraction| && NatOf(w) == NatOf(whole)
    requires NatOf(fraction) == Shift(NatOf(f), |fraction| - |f|)
    ensures Scaled(NatOf(w + f), |f|) == Scaled(NatOf(whole + fraction), |fraction|)
  {
    var gap := |fraction| - |f|;
    NatOfConcat(whole, fraction);
    NatOfConcat(w, f);
    ShiftShift(NatOf(w), |f|, gap);
    ShiftSum(Shift(NatOf(w), |f|), NatOf(f), gap);
    assert |f| + gap == |fraction|;
    assert NatOf(whole + fraction) == Shift(NatOf(w + f), gap);
    ScaledShift(NatOf(w + f), |f|, gap);
  }

  // ---------- correctness of the canonicaliser ----------

  lemma {:induction false} AllZeroDigits(digits: Numeral, scale: int)
    requires TrimLeftZeros(digits) == ""
    ensures IsNormal("0") && Denotes("0") == Some(Scaled(NatOf(digits), scale))
  {
    hide Denotes, RatOf, IsNormal;
    TrimLeftValue(digits);
    NormalJoinValue("", "");
    assert NormalJoin("", "") == "0" && "" + "" == "";
    ScaledZero(scale);
    ScaledZero(0);
  }

  lemma {:induction false} WholeDigits(digits: Numeral, k: nat)
    requires TrimLeftZeros(digits) != ""
    ensures var s := TrimLeftZeros(digits + Zeros(k));
            IsNormal(s) && Denotes(s) == Some(Scaled(NatOf(digits), -(k as int)))
  {
    hide Denotes, RatOf, IsNormal;
    var whole := digits + Zeros(k);
    ZeroSuffix(digits, k);
    NormalJoinValue(whole, "");
    assert whole + "" == whole;
    TrimLeftPrefix(digits, Zeros(k));
    assert TrimRightZeros("") == "";
  }

  lemma {:induction false} SmallDigits(digits: Numeral, k: nat)
    requires TrimLeftZeros(digits) != ""
    ensures var s := "0." + TrimRightZeros(Zeros(k) + digits);
            IsNormal(s) && Denotes(s) == Some(Scaled(NatOf(digits), k + |digits|))
  {
    hide *;
    var fraction := Zeros(k) + digits;
    ZeroPrefix(k, digits);
    NonzeroDigits(digits);
    NonzeroFraction(fraction);
    EmptyWhole(fraction);
    NormalJoinValue("", fraction);
  }

  lemma {:induction false} EmptyWhole(fraction: Numeral)
    requires TrimRightZeros(fraction) != ""
    ensures NormalJoin("", fraction) == "0." + TrimRightZeros(fraction)
    ensures "" + fraction == fraction
  {
    assert "0" + "." == "0.";
  }

  lemma {:induction false} NonzeroFraction(fraction: Numeral)
    requires NatOf(fraction) >= 1
    ensures TrimRightZeros(fraction) != ""
  {
    TrimRightValue(fraction);
    ShiftZero(|fraction|);
  }

  /** Each branch of the canonicaliser yields the normal form of digits / 10^scale. */
  lemma {:induction false} CanonicalTextValue(digits: Numeral, scale: int)
    ensures var s := CanonicalText(digits, scale);
            IsNormal(s) && Denotes(s) == Some(Scaled(NatOf(digits), scale))
  {
    hide Denotes, RatOf, IsNormal, TrimLeftZeros, TrimRightZeros, NatOf, Scaled;
    if TrimLeftZeros(digits) == "" {
      AllZeroDigits(digits, scale);
    } else if scale <= 0 {
      WholeDigits(digits, -scale);
    } else if scale >= |digits| {
      SmallDigits(digits, scale - |digits|);
    } else {
      var split := |digits| - scale;
      assert digits[..split] + digits[split..] == digits;
      NormalJoinValue(digits[..split], digits[split..]);
    }
  }

  lemma {:induction false} AcceptedText(input: string)
    requires CanonicalDecimal(input).Success?
    ensures MatchPattern(Cleaned(input)).Some?
    ensures var l := MatchPattern(Cleaned(input)).value;
            !l.neg && CanonicalDecimal(input).value == CanonicalText(l.whole + l.frac, |l.frac| - l.exponent)
  {
    hide MatchPattern, Cleaned, CanonicalText;
  }

  /**
    What is accepted: decimal text without a minus whose exponent fits 64 bits, or, whatever its
    exponent, whose digits are all zero; that canonicalises to zero.
  */
  lemma {:induction false} AcceptedExactly(input: string)
    ensures CanonicalDecimal(input).Success? <==>
              var l := MatchPattern(Cleaned(input));
              l.Some? && !l.value.neg && (NatOf(l.value.whole + l.value.frac) == 0 || FitsInt(l.value.exponent))
    ensures Denotes(Cleaned(input)) == Some(0.0) && CanonicalDecimal(input).Success? ==>
              CanonicalDecimal(input) == Success("0")
  {
    var l := MatchPattern(Cleaned(input));
    if l.Some? {
      ZeroDigits(l.value.whole + l.value.frac);
    }
    hide MatchPattern, Cleaned, CanonicalText, FitsInt, NatOf, TrimLeftZeros, IsNormal;
    if Denotes(Cleaned(input)) == Some(0.0) && CanonicalDecimal(input).Success? {
      CanonicalPreservesValue(input);
      AllZeroDigits("", 0);
      ZeroIsZero();
      NormalFormUnique(CanonicalDecimal(input).value, "0");
    }
  }

  lemma {:induction false} ZeroIsZero()
    ensures Scaled(NatOf(""), 0) == 0.0 && TrimLeftZeros("") == ""
  {}

  lemma {:induction false} ZeroDigits(digits: Numeral)
    ensures TrimLeftZeros(digits) == "" <==> NatOf(digits) == 0
  {
    TrimLeftValue(digits);
    if TrimLeftZeros(digits) != "" { NonzeroDigits(digits); }
  }

  lemma {:induction false} DenotedText(text: string)
    requires MatchPattern(text).Some? && !MatchPattern(text).value.neg
    ensures var l := MatchPattern(text).value;
            Denotes(text) == Some(Scaled(NatOf(l.whole + l.frac), |l.frac| - l.exponent))
  {
    hide MatchPattern, Scaled, NatOf;
  }

  /**
    The canonicaliser keeps the exact value of everything it accepts, and its output is the
    normal form of that value.
  */
  lemma {:induction false} CanonicalPreservesValue(input: string)
    requires CanonicalDecimal(input).Success?
    ensures var text := CanonicalDecimal(input).value;
            && IsNormal(text)
            && Denotes(Cleaned(input)).Some?
            && Denotes(text) == Denotes(Cleaned(input))
            && Denotes(text).value >= 0.0
  {
    hide *;
    AcceptedText(input);
    DenotedText(Cleaned(input));
    var l := MatchPattern(Cleaned(input)).value;
    var digits, scale := l.whole + l.frac, |l.frac| - l.exponent;
    CanonicalTextValue(digits, scale);
    ScaledNonnegative(NatOf(digits), scale);
  }

  /** Two accepted inputs canonicalise alike exactly when they denote the same number. */
  lemma {:induction false} CanonicalIsUnique(a: string, b: string)
    requires CanonicalDecimal(a).Success? && CanonicalDecimal(b).Success?
    ensures CanonicalDecimal(a) == CanonicalDecimal(b) <==> Denotes(Cleaned(a)) == Denotes(Cleaned(b))
  {
    CanonicalPreservesValue(a);
    CanonicalPreservesValue(b);
    if Denotes(Cleaned(a)) == Denotes(Cleaned(b)) {
      NormalFormUnique(CanonicalDecimal(a).value, CanonicalDecimal(b).value);
    }
  }

  lemma {:induction false} NormalIsClean(s: string)
    requires IsNormal(s)
    ensures Cleaned(s) == s && s != "" && IsDigit(s[0])
  {
    var whole, fraction :| NormalParts(whole, fraction) && s == Join(whole, fraction);
    assert s[0] == whole[0];
    Text.CleanTextUnchanged(s);
  }

  lemma {:induction false} NormalIsTrimmed(s: string)
    requires IsNormal(s)
    ensures Text.Trim(s) == s
  {
    var whole, fraction :| NormalParts(whole, fraction) && s == Join(whole, fraction);
    Text.CleanTextUnchanged(s);
  }

  lemma {:induction false} NormalIsAccepted(s: string)
    requires IsNormal(s)
    ensures CanonicalDecimal(s).Success?
  {
    NormalIsClean(s);
    var whole, fraction :| NormalParts(whole, fraction) && s == Join(whole, fraction);
    assert |whole| > 0;
    hide Join, NormalParts, IsNormal, Cleaned, MatchPattern, FitsInt, TrimLeftZeros, CanonicalText;
    JoinReads(whole, fraction);
    ZeroFits();
  }

  /** Normal forms are exactly the fixed points of the canonicaliser. */
  lemma {:induction false} CanonicalFixesNormal(s: string)
    ensures IsNormal(s) <==> CanonicalDecimal(s) == Success(s)
  {
    if IsNormal(s) {
      NormalIsClean(s);
      NormalIsAccepted(s);
      hide Denotes, CanonicalDecimal, Cleaned, IsNormal;
      CanonicalPreservesValue(s);
      NormalFormUnique(CanonicalDecimal(s).value, s);
    }
    if CanonicalDecimal(s) == Success(s) {
      CanonicalPreservesValue(s);
    }
  }

  lemma {:induction false} CanonicalIsIdempotent(input: string)
    requires CanonicalDecimal(input).Success?
    ensures CanonicalDecimal(CanonicalDecimal(input).value) == CanonicalDecimal(input)
  {
    CanonicalPreservesValue(input);
    CanonicalFixesNormal(CanonicalDecimal(input).value);
  }

  // ---------- the fixed-point printer ----------

  /** |x| in units of 10^-prec, rounded to nearest with halves away from zero */
  function RoundedUnits(x: real, prec: nat): nat {
    ShiftRealNonnegative(Abs(x), prec);
    (ShiftReal(Abs(x), prec) + 0.5).Floor
  }

  /** The number a nonnegative x is printed as. */
  function Rounded(x: real, prec: nat): real {
    Scaled(RoundedUnits(x, prec), prec)
  }

  /** units / 10^prec with exactly prec decimal places */
  function FixedDigits(units: nat, prec: nat): string {
    PadLeftValue(Itoa(units), prec + 1);
    var digits := PadLeft(Itoa(units), prec + 1);
    var split := |digits| - prec;
    digits[..split] + (if prec == 0 then "" else "." + digits[split..])
  }

  /** `x.FloatString(prec)` */
  function FloatString(x: real, prec: nat): string {
    (if x < 0.0 then "-" else "") + FixedDigits(RoundedUnits(x, prec), prec)
  }

  function TrimRightChars(s: string, c: char): string {
    if |s| > 0 && s[|s| - 1] == c then TrimRightChars(s[..|s| - 1], c) else s
  }

  /** Trailing zeros go first, then the point they leave behind. */
  function TrimFixed(text: string): string {
    TrimRightChars(TrimRightChars(text, '0'), '.')
  }

  /** The placement engine's printer. */
  function FormatRat(x: real): string {
    var text := TrimFixed(FloatString(x, 6));
    if text == "" || text == "-0" then "0" else text
  }

  lemma {:induction false} ShiftRealNonnegative(x: real, k: nat)
    requires x >= 0.0
    ensures ShiftReal(x, k) >= 0.0
  {
    if k > 0 { ShiftRealNonnegative(x, k - 1); }
  }

  lemma {:induction false} TrimRightFraction(s: string, fraction: Numeral)
    requires s != "" && s[|s| - 1] != '0'
    ensures TrimRightChars(s + fraction, '0') == s + TrimRightZeros(fraction)
  {
    var t := s + fraction;
    if fraction == "" {
      assert t == s;
    } else if fraction[|fraction| - 1] == '0' {
      TrimRightFraction(s, fraction[..|fraction| - 1]);
      assert t[..|t| - 1] == s + fraction[..|fraction| - 1];
    } else {
      assert t[|t| - 1] == fraction[|fraction| - 1];
    }
  }

  lemma {:induction false} TrimFixedParts(whole: Numeral, fraction: Numeral)
    requires |whole| > 0
    ensures TrimFixed(whole + "." + fraction) == Join(whole, TrimRightZeros(fraction))
  {
    var f := TrimRightZeros(fraction);
    var text := whole + ".";
    assert text[|text| - 1] == '.';
    TrimRightFraction(text, fraction);
    if f == "" {
      assert text + f == text;
      assert text[..|text| - 1] == whole;
      assert TrimRightChars(text, '.') == TrimRightChars(whole, '.');
      assert whole[|whole| - 1] != '.';
    } else {
      assert (text + f)[|text + f| - 1] == f[|f| - 1];
    }
  }

  /** Padding to prec + 1 digits leaves no superfluous leading zero before the point. */
  lemma {:induction false} PaddedWhole(units: nat, prec: nat)
    ensures var digits := PadLeft(Itoa(units), prec + 1);
            |digits| >= prec + 1 && NoLeadingZero(digits[..|digits| - prec])
  {
    var s := Itoa(units);
    var digits := PadLeft(s, prec + 1);
    PadLeftValue(s, prec + 1);
    var whole := digits[..|digits| - prec];
    if |s| < prec + 1 {
      assert whole == "0";
    } else {
      assert whole[0] == s[0];
      if s == "0" { assert whole == "0"; }
    }
  }

  lemma {:induction false} NoLeadingZeroTrim(whole: Numeral)
    requires NoLeadingZero(whole)
    ensures whole == if TrimLeftZeros(whole) == "" then "0" else TrimLeftZeros(whole)
  {
    assert TrimLeftZeros("0"[1..]) == "";
  }

  /** Trimming fixed-point digits gives the normal form of units / 10^prec. */
  lemma {:induction false} FixedDigitsNormal(units: nat, prec: nat)
    requires 1 <= prec <= MaxRatExponent
    ensures var s := TrimFixed(FixedDigits(units, prec));
            && IsNormal(s)
            && Denotes(s) == Some(Scaled(units, prec))
            && RatOf(s) == Some(Scaled(units, prec))
  {
    hide Denotes, RatOf, IsNormal, TrimLeftZeros, TrimRightZeros, TrimFixed, NatOf, Scaled, NoLeadingZero;
    PadLeftValue(Itoa(units), prec + 1);
    PaddedWhole(units, prec);
    var digits := PadLeft(Itoa(units), prec + 1);
    var split := |digits| - prec;
    assert digits[..split] + digits[split..] == digits;
    NormalJoinValue(digits[..split], digits[split..]);
    NoLeadingZeroTrim(digits[..split]);
    TrimFixedParts(digits[..split], digits[split..]);
    assert digits[..split] + "." + digits[split..] == digits[..split] + ("." + digits[split..]);
  }

  /** For nonnegative values the printer emits the normal form of the rounded value. */
  lemma {:induction false} FixedIsNormal(x: real, prec: nat)
    requires x >= 0.0 && 1 <= prec <= MaxRatExponent
    ensures var s := TrimFixed(FloatString(x, prec));
            && IsNormal(s)
            && Denotes(s) == Some(Rounded(x, prec))
            && RatOf(s) == Some(Rounded(x, prec))
  {
    FixedDigitsNormal(RoundedUnits(x, prec), prec);
    assert FloatString(x, prec) == FixedDigits(RoundedUnits(x, prec), prec);
  }

  /** Printing and reading back yields the value rounded to six places. */
  lemma {:induction false} FormatRoundTrip(x: real)
    requires x >= 0.0
    ensures IsNormal(FormatRat(x)) && RatOf(FormatRat(x)) == Some(Rounded(x, 6))
    ensures FormatRat(x) != ""
    ensures FormatRat(x) == TrimFixed(FloatString(x, 6))
  {
    FixedIsNormal(x, 6);
    NormalIsClean(TrimFixed(FloatString(x, 6)));
  }

  /** Distinct printed texts mean distinct rounded values, and the other way round. */
  lemma {:induction false} FormatIsFaithful(x: real, y: real)
    requires x >= 0.0 && y >= 0.0
    ensures FormatRat(x) == FormatRat(y) <==> Rounded(x, 6) == Rounded(y, 6)
  {
    FormatRoundTrip(x);
    FormatRoundTrip(y);
    FixedIsNormal(x, 6);
    FixedIsNormal(y, 6);
    if Rounded(x, 6) == Rounded(y, 6) {
      NormalFormUnique(FormatRat(x), FormatRat(y));
    }
  }

  lemma {:induction false} ScaledError(n: int, x: real, k: nat, e: real)
    requires -e <= n as real - ShiftReal(x, k) <= e && e >= 0.0
    ensures ScaledBy(-e, k) <= Scaled(n, k) - x <= ScaledBy(e, k)
  {
    ScaledGeneral(n, k);
    ShiftBack(x, k);
    ScaledByDifference(n as real, ShiftReal(x, k), k);
    ScaledByMonotone(-e, n as real - ShiftReal(x, k), k);
    ScaledByMonotone(n as real - ShiftReal(x, k), e, k);
  }

  /** r / 10^k */
  function ScaledBy(r: real, k: nat): real {
    if k == 0 then r else ScaledBy(r, k - 1) / 10.0
  }

  lemma {:induction false} ScaledGeneral(n: int, k: nat)
    ensures Scaled(n, k) == ScaledBy(n as real, k)
  {
    if k > 0 { ScaledGeneral(n, k - 1); }
  }

  lemma {:induction false} ShiftBack(x: real, k: nat)
    ensures ScaledBy(ShiftReal(x, k), k) == x
  {
    if k > 0 {
      ScaledByTen(ShiftReal(x, k - 1), k - 1);
      ShiftBack(x, k - 1);
    }
  }

  lemma {:induction false} ScaledByTen(r: real, k: nat)
    ensures ScaledBy(10.0 * r, k) == 10.0 * ScaledBy(r, k)
  {
    if k > 0 { ScaledByTen(r, k - 1); }
  }

  lemma {:induction false} ScaledByDifference(a: real, b: real, k: nat)
    ensures ScaledBy(a - b, k) == ScaledBy(a, k) - ScaledBy(b, k)
  {
    if k > 0 { ScaledByDifference(a, b, k - 1); }
  }

  lemma {:induction false} ScaledByMonotone(a: real, b: real, k: nat)
    requires a <= b
    ensures ScaledBy(a, k) <= ScaledBy(b, k)
  {
    if k > 0 { ScaledByMonotone(a, b, k - 1); }
  }

  /** Rounding moves a value by at most half a unit of the last place. */
  lemma {:induction false} RoundingError(x: real, prec: nat)
    requires x >= 0.0
    ensures ScaledBy(-0.5, prec) <= Rounded(x, prec) - x <= ScaledBy(0.5, prec)
  {
    ScaledError(RoundedUnits(x, prec), x, prec, 0.5);
  }

  lemma {:induction false} ShiftRealMonotone(x: real, y: real, k: nat)
    requires x <= y
    ensures ShiftReal(x, k) <= ShiftReal(y, k)
  {
    if k > 0 { ShiftRealMonotone(x, y, k - 1); }
  }

  lemma {:induction false} RoundedMonotone(x: real, y: real, prec: nat)
    requires 0.0 <= x <= y
    ensures RoundedUnits(x, prec) <= RoundedUnits(y, prec)
    ensures Rounded(x, prec) <= Rounded(y, prec)
  {
    ShiftRealMonotone(x, y, prec);
    ScaledMonotone(RoundedUnits(x, prec), RoundedUnits(y, prec), prec);
  }

  lemma {:induction false} ShiftScaled(n: int, k: nat)
    ensures ShiftReal(Scaled(n, k), k) == n as real
  {
    if k > 0 {
      ShiftScaled(n, k - 1);
      ShiftRealTenth(Scaled(n, k - 1), k - 1);
    }
  }

  lemma {:induction false} ShiftRealTenth(x: real, k: nat)
    ensures ShiftReal(x / 10.0, k) == ShiftReal(x, k) / 10.0
  {
    if k > 0 { ShiftRealTenth(x, k - 1); }
  }

  /** Values that already have at most prec places are printed exactly. */
  lemma {:induction false} RoundedExact(units: nat, prec: nat)
    ensures RoundedUnits(Scaled(units, prec), prec) == units
    ensures Rounded(Scaled(units, prec), prec) == Scaled(units, prec)
  {
    ScaledNonnegative(units, prec);
    ShiftScaled(units, prec);
  }

  // ---------- unit and basis conversion ----------

  datatype MassUnit = UgPerKg | NgPerG | MgPerKg | UgPerL
  datatype Basis = Dry | Wet

  /** The canonical text first, then the rational reader: no value may exceed its exponent limit. */
  function DecimalRat(input: string): Result<real, DecimalError> {
    var text :- CanonicalDecimal(input);
    match RatOf(text)
    case None => Failure(NotRepresentable)
    case Some(value) => Success(value)
  }

  function UnitFactor(unit: MassUnit): real {
    if unit == MgPerKg then 1000.0 else 1.0
  }

  /** The exact conversion that the printed value approximates. */
  function ExactConversion(amount: real, unit: MassUnit, basis: Basis, solids: real): real
    requires basis == Wet ==> solids != 0.0
  {
    var scaled := amount * UnitFactor(unit);
    if basis == Dry then scaled else scaled * 100.0 / solids
  }

  /** The percent solids a conversion divides by; a dry one needs none. */
  function SolidsFor(basis: Basis, percentSolids: string): (r: Result<real, DecimalError>)
    ensures r.Success? ==> r.value > 0.0
  {
    if basis == Dry then Success(1.0)
    else
      var solids :- DecimalRat(percentSolids);
      if solids <= 0.0 || solids > 100.0 then Failure(SolidsOutOfRange) else Success(solids)
  }

  predicate LacksSolids(basis: Basis, percentSolids: Option<string>) {
    basis == Wet && (percentSolids.None? || Text.IsBlank(percentSolids.value))
  }

  /** A concentration in µg/kg of dry solids, as text. */
  function NormalizeConcentration(value: string, unit: MassUnit, basis: Basis, percentSolids: Option<string>)
    : Result<Option<string>, DecimalError>
  {
    if Text.IsBlank(value) then Success(None)
    else
      var amount :- DecimalRat(value);
      if unit == UgPerL || LacksSolids(basis, percentSolids) then Success(None)
      else
        var solids :- SolidsFor(basis, if basis == Wet then percentSolids.value else "");
        Success(Some(TrimFixed(FloatString(ExactConversion(amount, unit, basis, solids), 12))))
  }

  /** `normalizeConcentration`: one rational, multiplied and divided in turn. */
  method Convert(value: string, unit: MassUnit, basis: Basis, percentSolids: Option<string>)
    returns (r: Result<Option<string>, DecimalError>)
    ensures r == NormalizeConcentration(value, unit, basis, percentSolids)
  {
    hide DecimalRat, FloatString, TrimFixed, Text.IsBlank;
    if Text.IsBlank(value) { return Success(None); }
    var parsed := DecimalRat(value);
    if parsed.Failure? { return Failure(parsed.error); }
    var amount := parsed.value;
    if unit == MgPerKg { amount := amount * 1000.0; }
    if unit == UgPerL { return Success(None); }
    if basis == Wet {
      if percentSolids.None? || Text.IsBlank(percentSolids.value) { return Success(None); }
      var solids := DecimalRat(percentSolids.value);
      if solids.Failure? { return Failure(solids.error); }
      if solids.value <= 0.0 || solids.value > 100.0 { return Failure(SolidsOutOfRange); }
      amount := amount * 100.0;
      amount := amount / solids.value;
    }
    return Success(Some(TrimFixed(FloatString(amount, 12))));
  }

  lemma {:induction false} DecimalRatNonnegative(input: string)
    requires DecimalRat(input).Success?
    ensures DecimalRat(input).value >= 0.0
    ensures Denotes(Cleaned(input)) == Some(DecimalRat(input).value)
  {
    CanonicalPreservesValue(input);
    NormalRat(CanonicalDecimal(input).value);
  }

  /** The percent solids a wet-basis conversion divides by; a dry one needs none. */
  function SolidsUsed(basis: Basis, percentSolids: Option<string>): Option<real> {
    if basis == Dry then Some(1.0)
    else if percentSolids.None? then None
    else match DecimalRat(percentSolids.value)
         case Success(solids) => if 0.0 < solids <= 100.0 then Some(solids) else None
         case Failure(_) => None
  }

  /** A conversion that yields text prints the exact conversion of a readable amount. */
  lemma {:induction false} NormalizedText(value: string, unit: MassUnit, basis: Basis, percentSolids: Option<string>)
    requires NormalizeConcentration(value, unit, basis, percentSolids).Success?
    requires NormalizeConcentration(value, unit, basis, percentSolids).value.Some?
    ensures DecimalRat(value).Success? && SolidsUsed(basis, percentSolids).Some?
    ensures NormalizeConcentration(value, unit, basis, percentSolids).value.value ==
            TrimFixed(FloatString(
              ExactConversion(DecimalRat(value).value, unit, basis, SolidsUsed(basis, percentSolids).value), 12))
  {
    hide DecimalRat, FloatString, TrimFixed, Text.IsBlank;
  }

  /**
    A converted concentration is already in normal form, so canonicalising it again changes
    nothing, and it lies within half of 10^-12 of the exact conversion.
  */
  lemma {:induction false} NormalizedIsCanonicalAndClose(value: string, unit: MassUnit, basis: Basis,
                                                         percentSolids: Option<string>)
    requires NormalizeConcentration(value, unit, basis, percentSolids).Success?
    requires NormalizeConcentration(value, unit, basis, percentSolids).value.Some?
    ensures DecimalRat(value).Success? && SolidsUsed(basis, percentSolids).Some?
    ensures var text := NormalizeConcentration(value, unit, basis, percentSolids).value.value;
            var exact := ExactConversion(DecimalRat(value).value, unit, basis, SolidsUsed(basis, percentSolids).value);
            && CanonicalDecimal(text) == Success(text)
            && RatOf(text) == Some(Rounded(exact, 12))
            && ScaledBy(-0.5, 12) <= Rounded(exact, 12) - exact <= ScaledBy(0.5, 12)
  {
    NormalizedText(value, unit, basis, percentSolids);
    DecimalRatNonnegative(value);
    var exact := ExactConversion(DecimalRat(value).value, unit, basis, SolidsUsed(basis, percentSolids).value);
    ConversionNonnegative(DecimalRat(value).value, unit, basis, SolidsUsed(basis, percentSolids).value);
    FixedIsNormal(exact, 12);
    CanonicalFixesNormal(TrimFixed(FloatString(exact, 12)));
    RoundingError(exact, 12);
  }

  lemma {:induction false} ConversionNonnegative(amount: real, unit: MassUnit, basis: Basis, solids: real)
    requires amount >= 0.0 && solids > 0.0
    ensures ExactConversion(amount, unit, basis, solids) >= 0.0
  {
    var scaled := amount * UnitFactor(unit);
    assert scaled >= 0.0;
    assert scaled * 100.0 / solids >= 0.0;
  }

  /** The exact value a converted concentration approximates: 1000 µg to the mg, and per 100 parts of solids. */
  predicate ConvertsTo(amount: real, unit: MassUnit, basis: Basis, percentSolids: Option<string>, exact: real) {
    var dry := if unit == MgPerKg then 1000.0 * amount else amount;
    && unit != UgPerL
    && match basis
       case Dry => exact == dry
       case Wet =>
         && percentSolids.Some? && DecimalRat(percentSolids.value).Success?
         && var solids := DecimalRat(percentSolids.value).value;
            0.0 < solids <= 100.0 && exact * solids == 100.0 * dry
  }

  lemma {:induction false} ExactConversionConverts(amount: real, unit: MassUnit, basis: Basis,
                                                   percentSolids: Option<string>)
    requires unit != UgPerL && SolidsUsed(basis, percentSolids).Some?
    ensures ConvertsTo(amount, unit, basis, percentSolids,
                       ExactConversion(amount, unit, basis, SolidsUsed(basis, percentSolids).value))
  {
    hide DecimalRat;
    var solids := SolidsUsed(basis, percentSolids).value;
    if basis == Wet {
      var q := amount * UnitFactor(unit) * 100.0 / solids;
      assert q * solids == amount * UnitFactor(unit) * 100.0;
    }
  }

  /** A converted concentration reads back within half of 10^-12 of the value it stands for. */
  lemma {:induction false} ConversionIsClose(value: string, unit: MassUnit, basis: Basis, percentSolids: Option<string>)
    returns (exact: real)
    requires NormalizeConcentration(value, unit, basis, percentSolids).Success?
    requires NormalizeConcentration(value, unit, basis, percentSolids).value.Some?
    ensures DecimalRat(value).Success? && ConvertsTo(DecimalRat(value).value, unit, basis, percentSolids, exact)
    ensures var read := RatOf(NormalizeConcentration(value, unit, basis, percentSolids).value.value);
            read.Some? && exact - 0.0000000000005 <= read.value <= exact + 0.0000000000005
  {
    NormalizedIsCanonicalAndClose(value, unit, basis, percentSolids);
    assert unit != UgPerL by { hide DecimalRat, FloatString, TrimFixed, Text.IsBlank; }
    ExactConversionConverts(DecimalRat(value).value, unit, basis, percentSolids);
    exact := ExactConversion(DecimalRat(value).value, unit, basis, SolidsUsed(basis, percentSolids).value);
    HalfUnits();
    hide DecimalRat, ExactConversion, SolidsUsed, NormalizeConcentration, ScaledBy, ConvertsTo;
  }

  lemma {:induction false} HalfUnits()
    ensures ScaledBy(-0.5, 12) == -0.0000000000005 && ScaledBy(0.5, 12) == 0.0000000000005
  {
    FourPlaces(0.5, 0);
    FourPlaces(0.5, 4);
    FourPlaces(0.5, 8);
    FourPlaces(-0.5, 0);
    FourPlaces(-0.5, 4);
    FourPlaces(-0.5, 8);
  }

  lemma {:induction false} FourPlaces(r: real, k: nat)
    ensures ScaledBy(r, k + 4) == ScaledBy(r, k) / 10000.0
  {
    assert ScaledBy(r, k + 4) == ScaledBy(r, k + 3) / 10.0;
    assert ScaledBy(r, k + 3) == ScaledBy(r, k + 2) / 10.0;
    assert ScaledBy(r, k + 2) == ScaledBy(r, k + 1) / 10.0;
  }

  /** When a concentration converts, when it is left out and when it is refused. */
  lemma {:induction false} ConversionOutcome(value: string, unit: MassUnit, basis: Basis, percentSolids: Option<string>)
    ensures var r, solidsGiven := NormalizeConcentration(value, unit, basis, percentSolids),
              percentSolids.Some? && !Text.IsBlank(percentSolids.value);
            && (r.Failure? <==>
                  && !Text.IsBlank(value)
                  && (DecimalRat(value).Failure?
                      || (unit != UgPerL && basis == Wet && solidsGiven
                          && (DecimalRat(percentSolids.value).Failure?
                              || !(0.0 < DecimalRat(percentSolids.value).value <= 100.0)))))
            && (r == Success(None) <==>
                  Text.IsBlank(value)
                  || (DecimalRat(value).Success? && (unit == UgPerL || (basis == Wet && !solidsGiven))))
  {
    hide DecimalRat, FloatString, TrimFixed, Text.IsBlank;
  }
}
