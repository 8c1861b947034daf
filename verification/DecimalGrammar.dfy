/**
  The grammar of decimal text: what is read is exactly what is written as a sign, digits, a point
  with digits and an exponent, and an exponent counts the places the point moves.
*/
module DecimalGrammar {
  import opened Wrappers
  import opened Digits
  import opened Decimals
  import Text

  /** An exponent as it is written, or nothing. */
  datatype Exponent = NoExponent | Exponent(letter: char, sign: string, digits: Numeral)

  predicate IsSign(sign: string) { sign == "" || sign == "+" || sign == "-" }

  predicate WellWritten(e: Exponent) {
    e.Exponent? ==> (e.letter == 'e' || e.letter == 'E') && IsSign(e.sign) && |e.digits| > 0
  }

  function ExponentText(e: Exponent): string {
    if e.NoExponent? then "" else [e.letter] + (e.sign + e.digits)
  }

  function ExponentValue(e: Exponent): int {
    if e.NoExponent? then 0
    else
      var magnitude: int := NatOf(e.digits);
      if e.sign == "-" then -magnitude else magnitude
  }

  function PointText(point: bool, frac: Numeral): string { if point then "." + frac else "" }

  function Written(sign: string, whole: Numeral, point: bool, frac: Numeral, e: Exponent): string {
    sign + (whole + (PointText(point, frac) + ExponentText(e)))
  }

  // ---------- what is written is read ----------

  lemma {:induction false} SignRead(sign: string, rest: string)
    requires IsSign(sign) && (rest == "" || (rest[0] != '+' && rest[0] != '-'))
    ensures SplitSign(sign + rest) == (sign == "-", rest)
  {
    if sign == "" { assert sign + rest == rest; } else { assert (sign + rest)[1..] == rest; }
  }

  lemma {:induction false} ExponentRead(e: Exponent)
    requires WellWritten(e) && e.Exponent?
    ensures ScanExponent(ExponentText(e)[1..]) == Some(ExponentValue(e))
  {
    assert ExponentText(e)[1..] == e.sign + e.digits;
    SignRead(e.sign, e.digits);
    LeadingDigitsOf(e.digits, "");
    assert e.digits + "" == e.digits;
  }

  lemma {:induction false} DigitsRead(digits: Numeral, rest: string)
    requires rest == "" || !IsDigit(rest[0])
    ensures LeadingDigits(digits + rest) == digits && (digits + rest)[|digits|..] == rest
  {
    LeadingDigitsOf(digits, rest);
  }

  lemma {:induction false} PointFirst(frac: string, rest: string)
    ensures ("." + frac) + rest == "." + (frac + rest)
    ensures (("." + frac) + rest)[1..] == frac + rest
  {}

  lemma {:induction false} PointRead(point: bool, frac: Numeral, e: Exponent)
    requires WellWritten(e) && (!point ==> frac == "")
    ensures var tail := PointText(point, frac) + ExponentText(e);
            && (point <==> |tail| > 0 && tail[0] == '.')
            && var afterPoint := if point then tail[1..] else tail;
               && (point ==> LeadingDigits(afterPoint) == frac)
               && |frac| <= |afterPoint| && afterPoint[|frac|..] == ExponentText(e)
  {
    var ending := ExponentText(e);
    assert ending == "" || (!IsDigit(ending[0]) && ending[0] != '.');
    hide ExponentText, WellWritten, LeadingDigits;
    if point {
      PointFirst(frac, ending);
      DigitsRead(frac, ending);
    } else {
      assert PointText(point, frac) + ending == ending;
    }
  }

  /** What is written from parts is read as those parts. */
  lemma {:induction false} WrittenIsRead(sign: string, whole: Numeral, point: bool, frac: Numeral, e: Exponent)
    requires IsSign(sign) && WellWritten(e) && (!point ==> frac == "")
    ensures Scan(Written(sign, whole, point, frac, e)) ==
            Some(Literal(sign == "-", whole, point, frac, ExponentValue(e)))
  {
    var tail := PointText(point, frac) + ExponentText(e);
    PointRead(point, frac, e);
    assert tail == "" || (tail[0] != '+' && tail[0] != '-' && !IsDigit(tail[0])) by {
      if point { assert tail[0] == '.'; } else { assert tail == ExponentText(e); }
    }
    assert |whole| > 0 ==> (whole + tail)[0] == whole[0];
    assert |whole| == 0 ==> whole + tail == tail;
    SignRead(sign, whole + tail);
    DigitsRead(whole, tail);
    if e.Exponent? { ExponentRead(e); }
    hide LeadingDigits, ScanExponent, SplitSign, ExponentValue, PointText;
  }

  // ---------- what is read was written ----------

  lemma {:induction false} DigitsWritten(s: string)
    ensures var d := LeadingDigits(s);
            s == d + s[|d|..] && (s[|d|..] == "" || !IsDigit(s[|d|..][0]))
  {
    if |s| > 0 && IsDigit(s[0]) {
      DigitsWritten(s[1..]);
      var d := LeadingDigits(s[1..]);
      assert LeadingDigits(s) == [s[0] as Digit] + d;
      assert s == [s[0]] + s[1..];
      assert s[1 + |d|..] == s[1..][|d|..];
    }
  }

  lemma {:induction false} SignWritten(s: string) returns (sign: string)
    ensures IsSign(sign) && s == sign + SplitSign(s).1 && (sign == "-" <==> SplitSign(s).0)
  {
    sign := if |s| > 0 && (s[0] == '+' || s[0] == '-') then s[..1] else "";
    if |s| > 0 { assert s == s[..1] + s[1..]; }
  }

  lemma {:induction false} ExponentWritten(s: string) returns (e: Exponent)
    requires s != "" && (s[0] == 'e' || s[0] == 'E') && ScanExponent(s[1..]).Some?
    ensures WellWritten(e) && s == ExponentText(e) && Some(ExponentValue(e)) == ScanExponent(s[1..])
  {
    var sign := SignWritten(s[1..]);
    var text := SplitSign(s[1..]).1;
    DigitsWritten(text);
    var digits := LeadingDigits(text);
    assert text[|digits|..] == "";
    assert text == digits;
    e := Exponent(s[0], sign, digits);
    assert s == [s[0]] + s[1..];
  }

  /** The parts of a tail: whether it starts with a point, the digits behind it, and what is left. */
  function TailParts(tail: string): (r: (bool, Numeral, string)) {
    var point := |tail| > 0 && tail[0] == '.';
    var afterPoint := if point then tail[1..] else tail;
    var frac := if point then LeadingDigits(afterPoint) else [];
    (point, frac, afterPoint[|frac|..])
  }

  lemma {:induction false} TailWritten(tail: string)
    ensures var (point, frac, rest) := TailParts(tail);
            (!point ==> frac == "") && tail == PointText(point, frac) + rest
  {
    if |tail| > 0 && tail[0] == '.' {
      DigitsWritten(tail[1..]);
      var frac := LeadingDigits(tail[1..]);
      var rest := tail[1..][|frac|..];
      hide LeadingDigits;
      PointFirst(frac, rest);
      assert tail == "." + tail[1..];
    }
  }

  lemma {:induction false} RestWritten(rest: string, exponent: int) returns (e: Exponent)
    requires rest == "" ==> exponent == 0
    requires rest != "" ==> (rest[0] == 'e' || rest[0] == 'E') && ScanExponent(rest[1..]) == Some(exponent)
    ensures WellWritten(e) && rest == ExponentText(e) && ExponentValue(e) == exponent
  {
    if rest == "" {
      e := NoExponent;
    } else {
      hide ScanExponent;
      e := ExponentWritten(rest);
    }
  }

  /** Whatever is read was written from the parts it is read as. */
  lemma {:induction false} ReadIsWritten(s: string) returns (sign: string, e: Exponent)
    requires Scan(s).Some?
    ensures var l := Scan(s).value;
            && IsSign(sign) && WellWritten(e) && (!l.point ==> l.frac == "")
            && s == Written(sign, l.whole, l.point, l.frac, e)
            && l.neg == (sign == "-") && l.exponent == ExponentValue(e)
  {
    sign := SignWritten(s);
    var body := SplitSign(s).1;
    DigitsWritten(body);
    var whole := LeadingDigits(body);
    TailWritten(body[|whole|..]);
    hide LeadingDigits, ScanExponent, SplitSign, ExponentValue, ExponentText, PointText, WellWritten, IsSign;
    var (point, frac, rest) := TailParts(body[|whole|..]);
    var l := Scan(s).value;
    assert l.whole == whole && l.point == point && l.frac == frac;
    e := RestWritten(rest, l.exponent);
    hide Scan, TailParts;
    assert body == whole + (PointText(point, frac) + rest);
  }

  // ---------- what is written is worth ----------

  /** One more in the exponent is ten times the value. */
  lemma {:induction false} TenTimes(n: nat, scale: int)
    ensures Scaled(n, scale - 1) == 10.0 * Scaled(n, scale)
  {
    if scale <= 0 { assert Shift(n, 1 - scale) == 10 * Shift(n, -scale); }
  }

  function Signed(sign: string, value: real): real { if sign == "-" then -value else value }

  lemma {:induction false} LiteralDenotes(s: string, l: Literal)
    requires Scan(s) == Some(l) && |l.whole| > 0 && (l.point ==> |l.frac| > 0)
    ensures Denotes(s) == Some(LiteralValue(l))
  {
    hide Scan, LiteralValue;
  }

  lemma {:induction false} LiteralIsWorth(sign: string, whole: Numeral, point: bool, frac: Numeral, exponent: int)
    ensures LiteralValue(Literal(sign == "-", whole, point, frac, exponent)) ==
            Signed(sign, Scaled(NatOf(whole + frac), |frac| - exponent))
  {
    hide Scaled, NatOf;
  }

  /** Decimal text denotes its digits as one number, with the point moved by fraction and exponent. */
  lemma {:induction false} WrittenDenotes(sign: string, whole: Numeral, frac: Numeral, e: Exponent)
    requires IsSign(sign) && WellWritten(e) && |whole| > 0
    ensures Denotes(Written(sign, whole, frac != "", frac, e)) ==
            Some(Signed(sign, Scaled(NatOf(whole + frac), |frac| - ExponentValue(e))))
  {
    hide Scan, Written, ExponentValue, NatOf, Scaled, Denotes, LiteralValue, WellWritten, IsSign;
    WrittenIsRead(sign, whole, frac != "", frac, e);
    LiteralDenotes(Written(sign, whole, frac != "", frac, e),
                   Literal(sign == "-", whole, frac != "", frac, ExponentValue(e)));
    LiteralIsWorth(sign, whole, frac != "", frac, ExponentValue(e));
  }

  /** Raising the exponent by one makes the text worth ten times as much. */
  lemma {:induction false} ExponentCounts(sign: string, whole: Numeral, frac: Numeral, e: Exponent, f: Exponent)
    requires IsSign(sign) && WellWritten(e) && WellWritten(f) && |whole| > 0 && ExponentValue(f) == ExponentValue(e) + 1
    ensures var low, high := Denotes(Written(sign, whole, frac != "", frac, e)),
              Denotes(Written(sign, whole, frac != "", frac, f));
            low.Some? && high.Some? && high.value == 10.0 * low.value
  {
    hide Written, ExponentValue, NatOf, Scaled, Denotes, WellWritten, IsSign;
    WrittenDenotes(sign, whole, frac, e);
    WrittenDenotes(sign, whole, frac, f);
    TenTimes(NatOf(whole + frac), |frac| - ExponentValue(e));
  }

  lemma {:induction false} LiteralRational(s: string, l: Literal)
    requires Scan(s) == Some(l)
    ensures var n, places := NatOf(l.whole + l.frac), |l.frac| - l.exponent;
            && (RatOf(s).None? <==>
                  || |l.whole| + |l.frac| == 0
                  || !(-0x8000_0000_0000_0000 <= l.exponent < 0x8000_0000_0000_0000)
                  || (n != 0 && !(-1_000_000 <= places <= 1_000_000)))
            && (RatOf(s).Some? ==> RatOf(s).value == LiteralValue(l))
  {
    ScaledZero(|l.frac| - l.exponent);
    hide Scan, Scaled, NatOf;
  }

  /** The rational reader: digits on either side of the point are optional, large exponents are refused. */
  lemma {:induction false} WrittenRational(sign: string, whole: Numeral, point: bool, frac: Numeral, e: Exponent)
    requires IsSign(sign) && WellWritten(e) && (!point ==> frac == "")
    ensures var r, n, places := RatOf(Written(sign, whole, point, frac, e)), NatOf(whole + frac),
              |frac| - ExponentValue(e);
            && (r.None? <==>
                  || |whole| + |frac| == 0
                  || !(-0x8000_0000_0000_0000 <= ExponentValue(e) < 0x8000_0000_0000_0000)
                  || (n != 0 && !(-1_000_000 <= places <= 1_000_000)))
            && (r.Some? ==> r.value == Signed(sign, Scaled(n, places)))
  {
    hide Scan, Written, ExponentValue, NatOf, Scaled, RatOf, LiteralValue, WellWritten, IsSign;
    WrittenIsRead(sign, whole, point, frac, e);
    LiteralRational(Written(sign, whole, point, frac, e),
                    Literal(sign == "-", whole, point, frac, ExponentValue(e)));
    LiteralIsWorth(sign, whole, point, frac, ExponentValue(e));
  }
}
