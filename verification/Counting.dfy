/** Counting the positions of a sequence at which a property holds. */
module Counting {

  ghost function Positions<T(!new)>(s: seq<T>, p: T -> bool): set<int> {
    set i | 0 <= i < |s| && p(s[i])
  }

  lemma {:induction false} PositionsStep<T(!new)>(s: seq<T>, p: T -> bool)
    requires |s| > 0
    ensures |Positions(s, p)| == |Positions(s[..|s| - 1], p)| + if p(s[|s| - 1]) then 1 else 0
  {
    var n := |s| - 1;
    assert Positions(s, p) == Positions(s[..n], p) + if p(s[n]) then {n} else {};
    assert n !in Positions(s[..n], p);
  }

  lemma {:induction false} NoPositions<T(!new)>(s: seq<T>, p: T -> bool)
    requires |s| == 0
    ensures |Positions(s, p)| == 0
  {
    assert Positions(s, p) == {};
  }
}
