/** Insertion into order, for any total order, and why a sorted arrangement is unique. */
module Sorting {

  ghost predicate TotalOrder<T(!new)>(le: (T, T) -> bool) {
    && (forall x, y :: le(x, y) || le(y, x))
    && (forall x, y :: le(x, y) && le(y, x) ==> x == y)
    && (forall x, y, z :: le(x, y) && le(y, z) ==> le(x, z))
  }

  ghost predicate SortedBy<T>(s: seq<T>, le: (T, T) -> bool) {
    forall i, j :: 0 <= i < j < |s| ==> le(s[i], s[j])
  }

  function InsertBy<T>(sorted: seq<T>, x: T, le: (T, T) -> bool): seq<T> {
    if |sorted| > 0 && !le(sorted[|sorted| - 1], x)
    then InsertBy(sorted[..|sorted| - 1], x, le) + [sorted[|sorted| - 1]]
    else sorted + [x]
  }

  function SortBy<T>(s: seq<T>, le: (T, T) -> bool): seq<T> {
    if |s| == 0 then [] else InsertBy(SortBy(s[..|s| - 1], le), s[|s| - 1], le)
  }

  lemma {:induction false} InsertPermutes<T>(sorted: seq<T>, x: T, le: (T, T) -> bool)
    ensures multiset(InsertBy(sorted, x, le)) == multiset(sorted) + multiset{x}
    ensures |InsertBy(sorted, x, le)| == |sorted| + 1
  {
    if |sorted| > 0 {
      InsertPermutes(sorted[..|sorted| - 1], x, le);
      assert sorted == sorted[..|sorted| - 1] + [sorted[|sorted| - 1]];
    }
  }

  lemma {:induction false} SortPermutes<T>(s: seq<T>, le: (T, T) -> bool)
    ensures multiset(SortBy(s, le)) == multiset(s) && |SortBy(s, le)| == |s|
  {
    if |s| > 0 {
      SortPermutes(s[..|s| - 1], le);
      InsertPermutes(SortBy(s[..|s| - 1], le), s[|s| - 1], le);
      assert s == s[..|s| - 1] + [s[|s| - 1]];
    }
  }

  lemma {:induction false} InsertSorts<T(!new)>(sorted: seq<T>, x: T, le: (T, T) -> bool)
    requires TotalOrder(le) && SortedBy(sorted, le)
    ensures SortedBy(InsertBy(sorted, x, le), le)
  {
    if |sorted| > 0 {
      var n := |sorted| - 1;
      var last := sorted[n];
      if le(last, x) {
        forall i | 0 <= i <= n ensures le(sorted[i], x) {}
      } else {
        var front := sorted[..n];
        InsertSorts(front, x, le);
        InsertPermutes(front, x, le);
        var inner := InsertBy(front, x, le);
        forall i | 0 <= i < |inner| ensures le(inner[i], last) {
          assert inner[i] in multiset(inner);
          if inner[i] != x {
            assert inner[i] in multiset(front);
            assert inner[i] in front;
          }
        }
      }
    }
  }

  lemma {:induction false} SortSorts<T(!new)>(s: seq<T>, le: (T, T) -> bool)
    requires TotalOrder(le)
    ensures SortedBy(SortBy(s, le), le)
  {
    if |s| > 0 {
      SortSorts(s[..|s| - 1], le);
      InsertSorts(SortBy(s[..|s| - 1], le), s[|s| - 1], le);
    }
  }

  /** Two sorted arrangements of the same elements are equal: their last elements are both greatest. */
  lemma {:induction false} SortedIsUnique<T(!new)>(a: seq<T>, b: seq<T>, le: (T, T) -> bool)
    requires TotalOrder(le) && SortedBy(a, le) && SortedBy(b, le) && multiset(a) == multiset(b)
    ensures a == b
  {
    hide *;
    SameLength(a, b);
    if |a| > 0 {
      var n := |a| - 1;
      SameLast(a, b, le);
      PrefixSorted(a, le);
      PrefixSorted(b, le);
      WithoutLast(a);
      WithoutLast(b);
      SortedIsUnique(a[..n], b[..n], le);
      assert a == a[..n] + [a[n]] && b == b[..n] + [b[n]];
    }
  }

  lemma {:induction false} SameLength<T>(a: seq<T>, b: seq<T>)
    requires multiset(a) == multiset(b)
    ensures |a| == |b|
  {
    assert |a| == |multiset(a)| == |multiset(b)| == |b|;
  }

  lemma {:induction false} PrefixSorted<T>(s: seq<T>, le: (T, T) -> bool)
    requires |s| > 0 && SortedBy(s, le)
    ensures SortedBy(s[..|s| - 1], le)
  {}

  lemma {:induction false} SameLast<T(!new)>(a: seq<T>, b: seq<T>, le: (T, T) -> bool)
    requires TotalOrder(le) && SortedBy(a, le) && SortedBy(b, le) && multiset(a) == multiset(b) && |a| == |b| > 0
    ensures a[|a| - 1] == b[|b| - 1]
  {
    var n := |a| - 1;
    assert b[n] in multiset(b) && a[n] in multiset(a);
    hide SortedBy;
    LastIsGreatest(a, b[n], le);
    LastIsGreatest(b, a[n], le);
  }

  lemma {:induction false} WithoutLast<T>(s: seq<T>)
    requires |s| > 0
    ensures multiset(s[..|s| - 1]) == multiset(s) - multiset{s[|s| - 1]}
  {
    assert s == s[..|s| - 1] + [s[|s| - 1]];
  }

  lemma {:induction false} LastIsGreatest<T(!new)>(s: seq<T>, x: T, le: (T, T) -> bool)
    requires TotalOrder(le) && SortedBy(s, le) && |s| > 0 && x in multiset(s)
    ensures le(x, s[|s| - 1])
  {
    assert x in s;
    var i :| 0 <= i < |s| && s[i] == x;
    assert le(x, x);
  }

  /** Sorting forgets the order of its input. */
  lemma {:induction false} SortIgnoresOrder<T(!new)>(a: seq<T>, b: seq<T>, le: (T, T) -> bool)
    requires TotalOrder(le) && multiset(a) == multiset(b)
    ensures SortBy(a, le) == SortBy(b, le)
  {
    SortPermutes(a, le);
    SortPermutes(b, le);
    SortSorts(a, le);
    SortSorts(b, le);
    hide SortBy, SortedBy, TotalOrder;
    SortedIsUnique(SortBy(a, le), SortBy(b, le), le);
  }

  /** Sorts by inserting one element after the other. */
  method Sort<T>(s: seq<T>, le: (T, T) -> bool) returns (sorted: seq<T>)
    ensures sorted == SortBy(s, le)
  {
    hide InsertBy;
    sorted := [];
    for i := 0 to |s|
      invariant sorted == SortBy(s[..i], le)
    {
      assert s[..i + 1][..i] == s[..i];
      sorted := Insert(sorted, s[i], le);
    }
    assert s[..|s|] == s;
  }

  method Insert<T>(sorted: seq<T>, x: T, le: (T, T) -> bool) returns (r: seq<T>)
    ensures r == InsertBy(sorted, x, le)
  {
    var j := |sorted|;
    assert sorted[..j] == sorted;
    while j > 0 && !le(sorted[j - 1], x)
      invariant 0 <= j <= |sorted|
      invariant InsertBy(sorted, x, le) == InsertBy(sorted[..j], x, le) + sorted[j..]
    {
      assert sorted[..j][..j - 1] == sorted[..j - 1];
      assert sorted[j - 1..] == [sorted[j - 1]] + sorted[j..];
      j := j - 1;
    }
    r := sorted[..j] + [x] + sorted[j..];
  }
}
