/**
  What the shoelace sums measure: the area and the centroid of a triangle, how those of a ring
  are made up of the parts a chord cuts it into, and how an area in degrees becomes acres.
*/
module ShoelaceLaws {
  import opened Wrappers
  import opened Reals
  import opened Geometry
  import opened Shoelace

  /** Twice the signed area of a ring. */
  function Twice(ring: Ring): real { WalkSum(ring, CrossTerm(Origin)) }

  lemma {:induction false} TriangleSum(a: Point, b: Point, c: Point, f: EdgeTerm)
    ensures WalkSum([a, b, c, a], f) == f(a, b) + f(b, c) + f(c, a)
  {
    var ring := [a, b, c, a];
    assert ring[..|ring| - 1] == [a, b, c] && [a, b, c][..2] == [a, b];
    assert WalkSum(ring, f) == WalkSum([a, b, c], f) + f(c, a);
    assert WalkSum([a, b, c], f) == WalkSum([a, b], f) + f(b, c);
    WalkSumPair(a, b, f);
  }

  lemma {:induction false} TwiceOfTriangle(a: Point, b: Point, c: Point)
    ensures Twice([a, b, c, a]) == Orientation(a, b, c)
  {
    TriangleSum(a, b, c, CrossTerm(Origin));
  }

  // ---------- acres ----------

  lemma {:induction false} MeanOfTriangle(a: Point, b: Point, c: Point)
    ensures MeanLatitude([a, b, c, a]) == (a.y + b.y + c.y) / 3.0
  {
    assert [a, b, c, a][..3] == [a, b, c] && [a, b, c][..2] == [a, b] && [a, b][..1] == [a] && [a][..0] == [];
    assert LatitudeSum([a, b, c]) == LatitudeSum([a, b]) + c.y;
    assert LatitudeSum([a, b]) == LatitudeSum([a]) + b.y;
    assert LatitudeSum([a]) == LatitudeSum([]) + a.y;
  }

  lemma {:induction false} ScaledTerm(a: Point, b: Point, m: real)
    ensures AreaTerm(m)(a, b) == Times(m * 110574.0, CrossTerm(Origin)(a, b))
  {}

  lemma {:induction false} ScaledSum(path: Ring, f: EdgeTerm, g: EdgeTerm, k: real)
    requires forall a, b :: f(a, b) == Times(k, g(a, b))
    ensures WalkSum(path, f) == Times(k, WalkSum(path, g))
  {
    if |path| < 2 {
      assert Times(k, 0.0) == 0.0;
    } else {
      hide Times;
      var n := |path| - 1;
      ScaledSum(path[..n], f, g, k);
      TimesSum(k, WalkSum(path[..n], g), g(path[n - 1], path[n]));
    }
  }

  lemma {:induction false} AbsoluteProduct(m: real, area: real)
    ensures Abs(Times(m * 110574.0, area)) == Abs(m) * 110574.0 * Abs(area)
  {}

  /** A ring's acres: its area in square degrees, by the metres to a degree at its mean latitude. */
  lemma {:induction false} AcresAreScaled(ring: Ring, cosDegrees: real -> real)
    requires |ring| > 1
    ensures AreaAcres(ring, cosDegrees) * 4046.8564224 ==
            Abs(111320.0 * cosDegrees(MeanLatitude(ring))) * 110574.0 * Abs(Twice(ring)) / 2.0
  {
    var m := 111320.0 * cosDegrees(MeanLatitude(ring));
    forall a, b ensures AreaTerm(m)(a, b) == Times(m * 110574.0, CrossTerm(Origin)(a, b)) { ScaledTerm(a, b, m); }
    hide AreaTerm, CrossTerm, MeanLatitude, WalkSum;
    ScaledSum(ring, AreaTerm(m), CrossTerm(Origin), m * 110574.0);
    AbsoluteProduct(m, Twice(ring));
  }

  /** The acres of a triangle. */
  lemma {:induction false} TriangleAcres(a: Point, b: Point, c: Point, cosDegrees: real -> real)
    ensures AreaAcres([a, b, c, a], cosDegrees) * 4046.8564224 ==
            Abs(111320.0 * cosDegrees((a.y + b.y + c.y) / 3.0)) * 110574.0 * Abs(Orientation(a, b, c)) / 2.0
  {
    AcresAreScaled([a, b, c, a], cosDegrees);
    TwiceOfTriangle(a, b, c);
    MeanOfTriangle(a, b, c);
    hide AreaAcres, Twice, MeanLatitude, Orientation;
  }

  // ---------- centroids ----------

  lemma {:induction false} QuotientTimes(x: real, area: real)
    requires area != 0.0
    ensures Times(x / (3.0 * area), area) == x / 3.0
  {
    var q := x / (3.0 * area);
    assert q * (3.0 * area) == x;
  }

  ghost predicate HasMoments(ring: Ring, c: Point) {
    && Times(c.x, Twice(ring)) == WalkSum(ring, MomentXTerm(Origin)) / 3.0
    && Times(c.y, Twice(ring)) == WalkSum(ring, MomentYTerm(Origin)) / 3.0
  }

  /** A ring has a centroid exactly when its area is more than negligible. */
  lemma {:induction false} CentroidExactly(ring: Ring)
    requires Closed(ring)
    ensures CentroidAbout(ring[0], ring).Some? <==> Abs(Twice(ring)) > 0.000000000000001
    ensures CentroidAbout(ring[0], ring).Some? ==> HasMoments(ring, CentroidAbout(ring[0], ring).value)
  {
    CentroidIgnoresOrigin(ring[0], ring);
    hide WalkSum, CrossTerm, MomentXTerm, MomentYTerm, Times;
    if Abs(Twice(ring)) > 0.000000000000001 {
      QuotientTimes(WalkSum(ring, MomentXTerm(Origin)), Twice(ring));
      QuotientTimes(WalkSum(ring, MomentYTerm(Origin)), Twice(ring));
    }
  }

  lemma {:induction false} TermsFlip()
    ensures forall a, b :: CrossTerm(Origin)(b, a) == -CrossTerm(Origin)(a, b)
    ensures forall a, b :: MomentXTerm(Origin)(b, a) == -MomentXTerm(Origin)(a, b)
    ensures forall a, b :: MomentYTerm(Origin)(b, a) == -MomentYTerm(Origin)(a, b)
  {
    forall a, b ensures CrossTerm(Origin)(b, a) == -CrossTerm(Origin)(a, b) {}
    forall a, b
      ensures MomentXTerm(Origin)(b, a) == -MomentXTerm(Origin)(a, b)
      ensures MomentYTerm(Origin)(b, a) == -MomentYTerm(Origin)(a, b) {
      CrossFlips(a, b);
    }
  }

  /** c is the mean of l and r, weighed by their areas. */
  predicate Balances(c: Point, area: real, l: Point, left: real, r: Point, right: real) {
    c.x * area == l.x * left + r.x * right && c.y * area == l.y * left + r.y * right
  }

  lemma {:induction false} TimesIsProduct(c: Point, area: real)
    ensures Times(c.x, area) == c.x * area && Times(c.y, area) == c.y * area
  {}

  /** Area and moments of a ring are those of the parts of any chord, together. */
  lemma {:induction false} MomentsSplit(ring: Ring, i: nat, j: nat)
    requires Closed(ring) && i <= j < |ring|
    ensures var outer, inner := OuterPart(ring, i, j), InnerPart(ring, i, j);
            && Twice(ring) == Twice(outer) + Twice(inner)
            && forall c, l, r :: HasMoments(ring, c) && HasMoments(outer, l) && HasMoments(inner, r) ==>
                Balances(c, Twice(ring), l, Twice(outer), r, Twice(inner))
  {
    TermsFlip();
    hide CrossTerm, MomentXTerm, MomentYTerm, WalkSum, OuterPart, InnerPart, Times;
    ChordSplitsSum(ring, i, j, CrossTerm(Origin));
    ChordSplitsSum(ring, i, j, MomentXTerm(Origin));
    ChordSplitsSum(ring, i, j, MomentYTerm(Origin));
    var outer, inner := OuterPart(ring, i, j), InnerPart(ring, i, j);
    forall c, l, r | HasMoments(ring, c) && HasMoments(outer, l) && HasMoments(inner, r)
      ensures Balances(c, Twice(ring), l, Twice(outer), r, Twice(inner)) {
      TimesIsProduct(c, Twice(ring));
      TimesIsProduct(l, Twice(outer));
      TimesIsProduct(r, Twice(inner));
    }
  }

  /** The centroid of a ring is that of the parts of any chord, weighed by their signed areas. */
  lemma {:induction false} CentroidsBalance(ring: Ring, i: nat, j: nat)
    requires Closed(ring) && i <= j < |ring| && Closed(OuterPart(ring, i, j)) && Closed(InnerPart(ring, i, j))
    ensures var outer, inner := OuterPart(ring, i, j), InnerPart(ring, i, j);
            && Twice(ring) == Twice(outer) + Twice(inner)
            && var whole, left, right :=
                 CentroidAbout(ring[0], ring), CentroidAbout(outer[0], outer), CentroidAbout(inner[0], inner);
               whole.Some? && left.Some? && right.Some? ==>
                 Balances(whole.value, Twice(ring), left.value, Twice(outer), right.value, Twice(inner))
  {
    var outer, inner := OuterPart(ring, i, j), InnerPart(ring, i, j);
    hide Twice, OuterPart, InnerPart, CentroidAbout, HasMoments, Balances;
    MomentsSplit(ring, i, j);
    CentroidExactly(ring);
    CentroidExactly(outer);
    CentroidExactly(inner);
  }

  lemma {:induction false} MeanMoment(s: real, area: real)
    requires area != 0.0
    ensures Times(s, area) / (3.0 * area) == s / 3.0
  {
    var q := Times(s, area) / (3.0 * area);
    assert q * (3.0 * area) == s * area;
    assert (3.0 * q - s) * area == 0.0;
  }

  /** About its first vertex, a triangle's moments are the area times the sum of the other two offsets. */
  lemma {:induction false} TriangleMoments(a: Point, b: Point, c: Point)
    ensures var ring := [a, b, c, a];
            && WalkSum(ring, CrossTerm(a)) == Orientation(a, b, c)
            && WalkSum(ring, MomentXTerm(a)) == Times(b.x + c.x - 2.0 * a.x, Orientation(a, b, c))
            && WalkSum(ring, MomentYTerm(a)) == Times(b.y + c.y - 2.0 * a.y, Orientation(a, b, c))
  {
    TriangleSum(a, b, c, CrossTerm(a));
    TriangleSum(a, b, c, MomentXTerm(a));
    TriangleSum(a, b, c, MomentYTerm(a));
    assert Cross(a, a, b) == 0.0 && Cross(a, c, a) == 0.0 && Cross(a, b, c) == Orientation(a, b, c);
    hide WalkSum, Cross, Orientation;
    assert forall x :: Times(x, 0.0) == 0.0;
  }

  /** The centroid of a triangle is the mean of its vertices. */
  lemma {:induction false} TriangleCentroid(a: Point, b: Point, c: Point)
    ensures CentroidAbout(a, [a, b, c, a]) ==
            if Abs(Orientation(a, b, c)) <= 0.000000000000001 then None
            else Some(Point((a.x + b.x + c.x) / 3.0, (a.y + b.y + c.y) / 3.0))
  {
    TriangleMoments(a, b, c);
    hide WalkSum, CrossTerm, MomentXTerm, MomentYTerm, Orientation, Times;
    if Orientation(a, b, c) != 0.0 {
      MeanMoment(b.x + c.x - 2.0 * a.x, Orientation(a, b, c));
      MeanMoment(b.y + c.y - 2.0 * a.y, Orientation(a, b, c));
    }
  }
}
