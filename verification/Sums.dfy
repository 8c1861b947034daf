/** Finite sums of reals over sequences. */
module Sums {

  function Sum(xs: seq<real>): real {
    if |xs| == 0 then 0.0 else Sum(xs[..|xs| - 1]) + xs[|xs| - 1]
  }

  function SumOf<T>(s: seq<T>, f: T -> real): real {
    if |s| == 0 then 0.0 else SumOf(s[..|s| - 1], f) + f(s[|s| - 1])
  }

  lemma {:induction false} SumOfConcat<T>(a: seq<T>, b: seq<T>, f: T -> real)
    ensures SumOf(a + b, f) == SumOf(a, f) + SumOf(b, f)
  {
    if |b| == 0 {
      assert a + b == a;
    } else {
      SumOfConcat(a, b[..|b| - 1], f);
      assert (a + b)[..|a + b| - 1] == a + b[..|b| - 1];
    }
  }

  lemma {:induction false} SumOfNonnegative<T>(s: seq<T>, f: T -> real)
    requires forall x :: x in s ==> f(x) >= 0.0
    ensures SumOf(s, f) >= 0.0
  {
    if |s| > 0 { SumOfNonnegative(s[..|s| - 1], f); }
  }

  lemma {:induction false} CancelOne<T>(p: multiset<T>, q: multiset<T>, x: T)
    requires p + multiset{x} <= q + multiset{x}
    ensures p <= q
  {
    forall y | y in p ensures p[y] <= q[y] {
      assert (p + multiset{x})[y] <= (q + multiset{x})[y];
    }
  }

  /** A sum of nonnegative terms does not fall when terms are added, in whatever order. */
  lemma {:induction false} SumOfMonotone<T>(a: seq<T>, b: seq<T>, f: T -> real)
    requires multiset(a) <= multiset(b)
    requires forall x :: x in b ==> f(x) >= 0.0
    ensures SumOf(a, f) <= SumOf(b, f)
  {
    if |a| == 0 {
      SumOfNonnegative(b, f);
    } else {
      var n := |a| - 1;
      var x := a[n];
      assert a == a[..n] + [x];
      assert x in multiset(b);
      var k :| 0 <= k < |b| && b[k] == x;
      var rest := b[..k] + b[k + 1..];
      assert b == b[..k] + ([x] + b[k + 1..]);
      assert b[..k] + [x] + b[k + 1..] == b;
      assert multiset(b) == multiset(rest) + multiset{x};
      assert multiset(a) == multiset(a[..n]) + multiset{x};
      CancelOne(multiset(a[..n]), multiset(rest), x);
      forall y | y in rest ensures f(y) >= 0.0 {
        assert y in multiset(b);
      }
      SumOfMonotone(a[..n], rest, f);
      SumOfConcat(b[..k], [x] + b[k + 1..], f);
      SumOfConcat([x], b[k + 1..], f);
      SumOfConcat(b[..k], b[k + 1..], f);
      assert SumOf([x], f) == f(x) by { assert [x][..0] == []; }
    }
  }

  lemma {:induction false} SumOfPermutation<T>(a: seq<T>, b: seq<T>, f: T -> real)
    requires multiset(a) == multiset(b)
    requires forall x :: x in b ==> f(x) >= 0.0
    ensures SumOf(a, f) == SumOf(b, f)
  {
    SumOfMonotone(a, b, f);
    forall x | x in a ensures f(x) >= 0.0 { assert x in multiset(b); }
    SumOfMonotone(b, a, f);
  }
}
