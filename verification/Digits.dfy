/**
  Digit strings and powers of ten.  Powers are applied one factor at a time (`Shift`,
  `Scaled`), which keeps every argument about decimal places linear.
*/
module Digits {

  type Digit = c: char | '0' <= c <= '9' witness '0'

  type Numeral = seq<Digit>

  function DigitValue(c: Digit): nat {
    c as int - '0' as int
  }

  function DigitChar(n: nat): (c: Digit)
    requires n < 10
    ensures DigitValue(c) == n
  {
    ('0' as int + n) as char
  }

  function NatOf(s: Numeral): nat
  {
    if |s| == 0 then 0 else 10 * NatOf(s[..|s| - 1]) + DigitValue(s[|s| - 1])
  }

  /** n * 10^k */
  function Shift(n: int, k: nat): int {
    if k == 0 then n else 10 * Shift(n, k - 1)
  }

  /** n / 10^scale; a negative scale multiplies. */
  function Scaled(n: int, scale: int): real
    decreases if scale > 0 then scale else 0
  {
    if scale <= 0 then Shift(n, -scale) as real else Scaled(n, scale - 1) / 10.0
  }

  /** x * 10^k */
  function ShiftReal(x: real, k: nat): real {
    if k == 0 then x else 10.0 * ShiftReal(x, k - 1)
  }

  /** `strings.Repeat("0", k)` */
  function Zeros(k: nat): (s: Numeral)
    ensures |s| == k && (k > 0 ==> s[0] == '0')
  {
    if k == 0 then [] else Zeros(k - 1) + "0"
  }

  // ---------- laws of Shift ----------

  lemma {:induction false} ShiftZero(k: nat)
    ensures Shift(0, k) == 0
  {
    if k > 0 { ShiftZero(k - 1); }
  }

  lemma {:induction false} ShiftShift(n: int, a: nat, b: nat)
    ensures Shift(Shift(n, a), b) == Shift(n, a + b)
  {
    if b > 0 { ShiftShift(n, a, b - 1); }
  }

  lemma {:induction false} ShiftSum(m: int, n: int, k: nat)
    ensures Shift(m + n, k) == Shift(m, k) + Shift(n, k)
  {
    if k > 0 { ShiftSum(m, n, k - 1); }
  }

  lemma {:induction false} ShiftStrict(m: int, n: int, k: nat)
    requires m < n
    ensures Shift(m, k) + Shift(1, k) <= Shift(n, k)
    ensures Shift(1, k) >= 1
  {
    if k > 0 { ShiftStrict(m, n, k - 1); }
  }

  lemma {:induction false} ShiftInjective(m: int, n: int, k: nat)
    requires Shift(m, k) == Shift(n, k)
    ensures m == n
  {
    if m < n { ShiftStrict(m, n, k); }
    if n < m { ShiftStrict(n, m, k); }
  }

  lemma {:induction false} ShiftMonotone(a: nat, b: nat)
    requires a <= b
    ensures 1 <= Shift(1, a) <= Shift(1, b)
  {
    if a < b {
      ShiftMonotone(a, b - 1);
    } else if a > 0 {
      ShiftMonotone(a - 1, a - 1);
    }
  }

  // ---------- laws of Scaled ----------

  lemma {:induction false} ScaledZero(scale: int)
    ensures Scaled(0, scale) == 0.0
    decreases if scale > 0 then scale else 0
  {
    if scale > 0 { ScaledZero(scale - 1); } else { ShiftZero(-scale); }
  }

  lemma {:induction false} ScaledShift(n: int, scale: nat, k: nat)
    ensures Scaled(Shift(n, k), scale + k) == Scaled(n, scale)
  {
    if scale > 0 {
      ScaledShift(n, scale - 1, k);
    } else if k > 0 {
      ScaledShift(n, 0, k - 1);
      ScaledTen(Shift(n, k - 1), k - 1);
    }
  }

  lemma {:induction false} ScaledTen(n: int, scale: nat)
    ensures Scaled(10 * n, scale + 1) == Scaled(n, scale)
  {
    if scale > 0 {
      ScaledTen(n, scale - 1);
    } else {
      assert Scaled(10 * n, 0) == (10 * n) as real;
    }
  }

  lemma {:induction false} ScaledStrict(m: int, n: int, scale: nat)
    requires m < n
    ensures Scaled(m, scale) < Scaled(n, scale)
  {
    if scale > 0 { ScaledStrict(m, n, scale - 1); }
  }

  lemma {:induction false} ScaledMonotone(m: int, n: int, scale: nat)
    requires m <= n
    ensures Scaled(m, scale) <= Scaled(n, scale)
  {
    if m < n { ScaledStrict(m, n, scale); }
  }

  lemma {:induction false} ScaledInjective(m: int, n: int, scale: nat)
    requires Scaled(m, scale) == Scaled(n, scale)
    ensures m == n
  {
    if m < n { ScaledStrict(m, n, scale); }
    if n < m { ScaledStrict(n, m, scale); }
  }

  lemma {:induction false} ScaledReflectsOrder(m: int, n: int, scale: nat)
    requires Scaled(m, scale) >= Scaled(n, scale)
    ensures m >= n
  {
    if m < n { ScaledStrict(m, n, scale); }
  }

  lemma {:induction false} ScaledSum(m: int, n: int, scale: nat)
    ensures Scaled(m + n, scale) == Scaled(m, scale) + Scaled(n, scale)
  {
    if scale > 0 { ScaledSum(m, n, scale - 1); }
  }

  lemma {:induction false} ScaledNonnegative(n: nat, scale: int)
    ensures Scaled(n, scale) >= 0.0
    ensures n > 0 ==> Scaled(n, scale) > 0.0
  {
    if scale >= 0 {
      ScaledZero(scale);
      ScaledMonotone(0, n, scale);
      if n > 0 { ScaledStrict(0, n, scale); }
    } else {
      ShiftZero(-scale);
      if n > 0 { ShiftStrict(0, n, -scale); }
    }
  }

  /** Equal values at different scales have equal mantissas at a common one. */
  lemma {:induction false} CommonScale(a: int, j: nat, b: int, k: nat)
    requires Scaled(a, j) == Scaled(b, k)
    ensures Shift(a, k) == Shift(b, j)
  {
    ScaledShift(a, j, k);
    ScaledShift(b, k, j);
    ScaledInjective(Shift(a, k), Shift(b, j), j + k);
  }

  // ---------- digit strings ----------

  lemma {:induction false} NatOfConcat(a: Numeral, b: Numeral)
    ensures NatOf(a + b) == Shift(NatOf(a), |b|) + NatOf(b)
  {
    if |b| == 0 {
      assert a + b == a;
    } else {
      var front := b[..|b| - 1];
      NatOfConcat(a, front);
      assert (a + b)[..|a + b| - 1] == a + front;
    }
  }

  lemma {:induction false} NatOfZeros(k: nat)
    ensures NatOf(Zeros(k)) == 0
  {
    if k > 0 {
      NatOfZeros(k - 1);
      assert Zeros(k)[..k - 1] == Zeros(k - 1);
      assert Zeros(k)[k - 1] == '0';
    }
  }

  lemma {:induction false} ZeroPrefix(k: nat, s: Numeral)
    ensures NatOf(Zeros(k) + s) == NatOf(s)
  {
    NatOfZeros(k);
    NatOfConcat(Zeros(k), s);
    ShiftZero(|s|);
  }

  lemma {:induction false} ZeroSuffix(s: Numeral, k: nat)
    ensures NatOf(s + Zeros(k)) == Shift(NatOf(s), k)
  {
    NatOfZeros(k);
    NatOfConcat(s, Zeros(k));
  }

  lemma {:induction false} NatOfBound(s: Numeral)
    ensures NatOf(s) < Shift(1, |s|)
  {
    if |s| > 0 { NatOfBound(s[..|s| - 1]); }
  }

  /** Digit strings of one length are determined by their value. */
  lemma {:induction false} NatOfInjective(a: Numeral, b: Numeral)
    requires |a| == |b| && NatOf(a) == NatOf(b)
    ensures a == b
  {
    if |a| > 0 {
      var n := |a| - 1;
      NatOfInjective(a[..n], b[..n]);
      assert a == a[..n] + [a[n]] && b == b[..n] + [b[n]];
    }
  }

  predicate NoLeadingZero(s: Numeral) { s == "0" || (|s| > 0 && s[0] != '0') }

  lemma {:induction false} LeadingDigitBound(s: Numeral)
    requires NoLeadingZero(s)
    ensures s != "0" ==> NatOf(s) >= Shift(1, |s| - 1) >= 1
    ensures s == "0" ==> NatOf(s) == 0
  {
    if |s| == 1 {
      assert s[..0] == "";
    } else {
      var front := s[..|s| - 1];
      assert front[0] == s[0];
      LeadingDigitBound(front);
    }
  }

  lemma {:induction false} NoShorter(a: Numeral, b: Numeral)
    requires NoLeadingZero(a) && NoLeadingZero(b)
    requires NatOf(a) == NatOf(b)
    ensures |b| <= |a|
  {
    if |a| < |b| {
      ShiftMonotone(|a|, |b| - 1);
      LeadingDigitBound(b);
      NatOfBound(a);
    }
  }

  /** Whole parts without leading zeros are determined by their value, whatever their length. */
  lemma {:induction false} WholePartInjective(a: Numeral, b: Numeral)
    requires NoLeadingZero(a) && NoLeadingZero(b)
    requires NatOf(a) == NatOf(b)
    ensures a == b
  {
    NoShorter(a, b);
    NoShorter(b, a);
    NatOfInjective(a, b);
  }

  /** Quotient and remainder by a power of ten, read off a concatenation. */
  lemma {:induction false} SplitUnique(wholeA: Numeral, fracA: Numeral, wholeB: Numeral, fracB: Numeral)
    requires |fracA| == |fracB|
    requires NoLeadingZero(wholeA) && NoLeadingZero(wholeB)
    requires NatOf(wholeA + fracA) == NatOf(wholeB + fracB)
    ensures wholeA == wholeB && fracA == fracB
  {
    NatOfConcat(wholeA, fracA);
    NatOfConcat(wholeB, fracB);
    NatOfBound(fracA);
    NatOfBound(fracB);
    var k := |fracA|;
    if NatOf(wholeA) < NatOf(wholeB) { ShiftStrict(NatOf(wholeA), NatOf(wholeB), k); }
    if NatOf(wholeB) < NatOf(wholeA) { ShiftStrict(NatOf(wholeB), NatOf(wholeA), k); }
    WholePartInjective(wholeA, wholeB);
    NatOfInjective(fracA, fracB);
  }

  // ---------- trimming zeros ----------

  /** `strings.TrimLeft(s, "0")` */
  function TrimLeftZeros(s: Numeral): (t: Numeral)
    ensures |t| <= |s|
    ensures |t| > 0 ==> t[0] != '0'
  {
    if |s| > 0 && s[0] == '0' then TrimLeftZeros(s[1..]) else s
  }

  /** `strings.TrimRight(s, "0")` on digits */
  function TrimRightZeros(s: Numeral): (t: Numeral)
    ensures |t| <= |s|
    ensures |t| > 0 ==> t[|t| - 1] != '0'
  {
    if |s| > 0 && s[|s| - 1] == '0' then TrimRightZeros(s[..|s| - 1]) else s
  }

  lemma {:induction false} TrimLeftValue(s: Numeral)
    ensures NatOf(TrimLeftZeros(s)) == NatOf(s)
  {
    if |s| > 0 && s[0] == '0' {
      TrimLeftValue(s[1..]);
      ZeroPrefix(1, s[1..]);
      assert s == Zeros(1) + s[1..];
    }
  }

  /** Dropping trailing zeros divides by the matching power of ten. */
  lemma {:induction false} TrimRightValue(s: Numeral)
    ensures var t := TrimRightZeros(s);
            NatOf(s) == Shift(NatOf(t), |s| - |t|)
  {
    if |s| > 0 && s[|s| - 1] == '0' {
      TrimRightValue(s[..|s| - 1]);
    }
  }

  lemma {:induction false} TrimLeftPrefix(s: Numeral, t: Numeral)
    requires TrimLeftZeros(s) != ""
    ensures TrimLeftZeros(s + t) == TrimLeftZeros(s) + t
  {
    assert (s + t)[0] == s[0];
    if s[0] == '0' {
      TrimLeftPrefix(s[1..], t);
      assert (s + t)[1..] == s[1..] + t;
    }
  }

  lemma {:induction false} NonzeroDigits(s: Numeral)
    requires TrimLeftZeros(s) != ""
    ensures NatOf(s) >= 1
  {
    TrimLeftValue(s);
    LeadingDigitBound(TrimLeftZeros(s));
  }

  // ---------- printing naturals ----------

  lemma {:induction false} NonzeroText(s: Numeral)
    requires NatOf(s) >= 1
    ensures s != "0" && s != ""
  {
    assert "0"[..0] == "";
  }

  function Itoa(n: nat): (s: Numeral)
    ensures |s| > 0 && NatOf(s) == n && NoLeadingZero(s)
  {
    if n < 10 then
      assert [DigitChar(n)][..0] == "";
      [DigitChar(n)]
    else
      var front := Itoa(n / 10);
      var s := front + [DigitChar(n % 10)];
      assert s[..|s| - 1] == front;
      NonzeroText(front);
      s
  }

  function PadLeft(s: Numeral, width: nat): Numeral {
    if |s| < width then Zeros(width - |s|) + s else s
  }

  lemma {:induction false} PadLeftValue(s: Numeral, width: nat)
    ensures NatOf(PadLeft(s, width)) == NatOf(s)
    ensures |PadLeft(s, width)| >= width
  {
    if |s| < width { ZeroPrefix(width - |s|, s); }
  }
}
