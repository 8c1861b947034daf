/**
  Signed shoelace sums over closed rings: the area and the centroid of a field boundary, and
  why neither depends on the starting vertex or the winding.
*/
module Shoelace {
  import opened Wrappers
  import opened Reals
  import opened Geometry

  type EdgeTerm = (Point, Point) -> real

  /** The sum of a term over the consecutive vertex pairs of a walk. */
  function WalkSum(path: Ring, f: EdgeTerm): real {
    if |path| < 2 then 0.0
    else WalkSum(path[..|path| - 1], f) + f(path[|path| - 2], path[|path| - 1])
  }

  lemma {:induction false} WalkSumConcat(left: Ring, right: Ring, f: EdgeTerm)
    requires |left| > 0 && |right| > 0 && left[|left| - 1] == right[0]
    ensures WalkSum(left + right[1..], f) == WalkSum(left, f) + WalkSum(right, f)
  {
    var path := left + right[1..];
    if |right| == 1 {
      assert path == left;
    } else {
      var front := right[..|right| - 1];
      WalkSumConcat(left, front, f);
      assert path[..|path| - 1] == left + front[1..];
      assert path[|path| - 1] == right[|right| - 1] && path[|path| - 2] == right[|right| - 2];
    }
  }

  lemma {:induction false} WalkSumPair(a: Point, b: Point, f: EdgeTerm)
    ensures WalkSum([a, b], f) == f(a, b)
  {
    assert [a, b][..1] == [a];
  }

  lemma {:induction false} WalkSumRotated(ring: Ring, k: nat, f: EdgeTerm)
    requires Closed(ring) && k < |ring|
    ensures WalkSum(Rotated(ring, k), f) == WalkSum(ring, f)
  {
    assert ring == ring[..k + 1] + ring[k..][1..];
    WalkSumConcat(ring[..k + 1], ring[k..], f);
    assert ring[1..k + 1] == ring[..k + 1][1..];
    WalkSumConcat(ring[k..], ring[..k + 1], f);
  }

  /** Walking backwards flips the sign of a term that is antisymmetric in its ends. */
  lemma {:induction false} WalkSumReversed(path: Ring, f: EdgeTerm)
    requires forall a, b :: f(b, a) == -f(a, b)
    ensures WalkSum(Reversed(path), f) == -WalkSum(path, f)
  {
    if |path| >= 2 {
      var n := |path| - 1;
      var front := path[..n];
      WalkSumReversed(front, f);
      var pair := [path[n], path[n - 1]];
      assert Reversed(path) == pair + Reversed(front)[1..];
      WalkSumConcat(pair, Reversed(front), f);
      WalkSumPair(path[n], path[n - 1], f);
    }
  }

  /** Two terms that differ by multiples and a telescoping vertex term differ only at the ends. */
  lemma {:induction false} WalkSumShift(path: Ring, f: EdgeTerm, g: EdgeTerm, c: real, h: EdgeTerm, v: Point -> real)
    requires |path| > 0
    requires forall a, b :: f(a, b) == g(a, b) - 3.0 * Times(c, h(a, b)) + v(b) - v(a)
    ensures WalkSum(path, f) == WalkSum(path, g) - 3.0 * Times(c, WalkSum(path, h)) + v(path[|path| - 1]) - v(path[0])
  {
    if |path| < 2 {
      assert Times(c, 0.0) == 0.0;
    } else {
      hide Times;
      var n := |path| - 1;
      WalkSumShift(path[..n], f, g, c, h, v);
      TimesSum(c, WalkSum(path[..n], h), h(path[n - 1], path[n]));
    }
  }

  lemma {:induction false} WalkSumStep(path: Ring, index: nat, f: EdgeTerm)
    requires index + 1 < |path|
    ensures WalkSum(path[..index + 2], f) == WalkSum(path[..index + 1], f) + f(path[index], path[index + 1])
  {
    assert path[..index + 2][..index + 1] == path[..index + 1];
  }

  // ---------- centroid ----------

  function Cross(o: Point, a: Point, b: Point): real {
    (a.x - o.x) * (b.y - o.y) - (b.x - o.x) * (a.y - o.y)
  }

  function CrossTerm(o: Point): EdgeTerm { (a: Point, b: Point) => Cross(o, a, b) }

  function MomentXTerm(o: Point): EdgeTerm {
    (a: Point, b: Point) => Times((a.x - o.x) + (b.x - o.x), Cross(o, a, b))
  }

  function MomentYTerm(o: Point): EdgeTerm {
    (a: Point, b: Point) => Times((a.y - o.y) + (b.y - o.y), Cross(o, a, b))
  }

  const Origin: Point := Point(0.0, 0.0)

  const MinDoubleArea: real := 0.000000000000001

  function CentroidFrom(o: Point, doubleArea: real, x: real, y: real): Option<Point> {
    if Abs(doubleArea) <= MinDoubleArea then None
    else Some(Point(o.x + x / (3.0 * doubleArea), o.y + y / (3.0 * doubleArea)))
  }

  /** The centroid of a ring, with the sums taken about a given origin. */
  function CentroidAbout(o: Point, ring: Ring): Option<Point> {
    CentroidFrom(o, WalkSum(ring, CrossTerm(o)), WalkSum(ring, MomentXTerm(o)), WalkSum(ring, MomentYTerm(o)))
  }

  /** `polygonCentroid`: the sums are taken about the first vertex. */
  method PolygonCentroid(ring: Ring) returns (centroid: Option<Point>)
    requires |ring| > 0
    ensures centroid == CentroidAbout(ring[0], ring)
  {
    var origin := ring[0];
    var doubleArea, x, y := 0.0, 0.0, 0.0;
    hide Cross;
    for index := 0 to |ring| - 1
      invariant doubleArea == WalkSum(ring[..index + 1], CrossTerm(origin))
      invariant x == WalkSum(ring[..index + 1], MomentXTerm(origin))
      invariant y == WalkSum(ring[..index + 1], MomentYTerm(origin))
    {
      var left, right := ring[index], ring[index + 1];
      var cross := CrossTerm(origin)(left, right);
      doubleArea := doubleArea + cross;
      x := x + Times((left.x - origin.x) + (right.x - origin.x), cross);
      y := y + Times((left.y - origin.y) + (right.y - origin.y), cross);
      assert ring[..index + 2][..index + 1] == ring[..index + 1];
    }
    assert ring[..|ring|] == ring;
    centroid := CentroidFrom(origin, doubleArea, x, y);
  }

  lemma {:induction false} CrossShift(o: Point, a: Point, b: Point)
    ensures Cross(o, a, b) == Cross(Origin, a, b) + (o.y * (b.x - a.x) - o.x * (b.y - a.y))
  {}

  /** (o.y * v.x - o.x * v.y), the vertex term of the cross product. */
  function CrossEnd(o: Point, v: Point): real { Times(o.y, v.x) - Times(o.x, v.y) }

  function MomentXEnd(o: Point, v: Point): real {
    Times(o.y, Times(v.x, v.x)) - Times(o.x, Times(v.x, v.y)) - 2.0 * Times(o.x, CrossEnd(o, v))
  }

  function MomentYEnd(o: Point, v: Point): real {
    Times(o.y, Times(v.x, v.y)) - Times(o.x, Times(v.y, v.y)) - 2.0 * Times(o.y, CrossEnd(o, v))
  }

  lemma {:induction false} TimesSum(k: real, p: real, q: real)
    ensures Times(k, p + q) == Times(k, p) + Times(k, q)
    ensures Times(k, p - q) == Times(k, p) - Times(k, q)
    ensures Times(k, -p) == -Times(k, p) == Times(-k, p)
  {}

  lemma {:induction false} TimesSums(s: real, c: real, d: real, u: real)
    ensures Times(s - 2.0 * c, d + u) == Times(s, d) + Times(s, u) - 2.0 * Times(c, d) - 2.0 * Times(c, u)
  {}

  lemma {:induction false} TimesMoved(s: real, y: real, dx: real, x: real, dy: real)
    ensures Times(s, Times(y, dx) - Times(x, dy)) == Times(y, Times(s, dx)) - Times(x, Times(s, dy))
  {}

  lemma {:induction false} TimesSquares(u: real, v: real)
    ensures Times(u + v, v - u) == Times(v, v) - Times(u, u)
  {}

  lemma {:induction false} CrossBySums(a: Point, b: Point)
    ensures Times(a.x + b.x, b.y - a.y) == Cross(Origin, a, b) + Times(b.x, b.y) - Times(a.x, a.y)
    ensures Times(a.y + b.y, b.x - a.x) == -Cross(Origin, a, b) + Times(b.x, b.y) - Times(a.x, a.y)
  {}

  /** The cross product about o, as the one about the origin and a shift. */
  function CrossShifted(o: Point, a: Point, b: Point): real { Times(o.y, b.x - a.x) - Times(o.x, b.y - a.y) }

  lemma {:induction false} MomentTerms(o: Point, a: Point, b: Point)
    ensures Cross(o, a, b) == Cross(Origin, a, b) + CrossShifted(o, a, b)
    ensures CrossShifted(o, a, b) == CrossEnd(o, b) - CrossEnd(o, a)
    ensures MomentXTerm(o)(a, b) == Times(a.x + b.x - 2.0 * o.x, Cross(o, a, b))
    ensures MomentYTerm(o)(a, b) == Times(a.y + b.y - 2.0 * o.y, Cross(o, a, b))
    ensures MomentXTerm(Origin)(a, b) == Times(a.x + b.x, Cross(Origin, a, b))
    ensures MomentYTerm(Origin)(a, b) == Times(a.y + b.y, Cross(Origin, a, b))
  {
    CrossShift(o, a, b);
    hide Cross;
    assert (a.x - o.x) + (b.x - o.x) == a.x + b.x - 2.0 * o.x;
    assert (a.y - o.y) + (b.y - o.y) == a.y + b.y - 2.0 * o.y;
  }

  lemma {:induction false} MomentXShift(o: Point, a: Point, b: Point)
    ensures MomentXTerm(o)(a, b) ==
            MomentXTerm(Origin)(a, b) - 3.0 * Times(o.x, Cross(Origin, a, b)) + MomentXEnd(o, b) - MomentXEnd(o, a)
  {
    MomentTerms(o, a, b);
    CrossBySums(a, b);
    hide Cross, MomentXTerm, CrossEnd, Times;
    var s, d, u := a.x + b.x, Cross(Origin, a, b), CrossShifted(o, a, b);
    TimesSums(s, o.x, d, u);
    TimesMoved(s, o.y, b.x - a.x, o.x, b.y - a.y);
    TimesSquares(a.x, b.x);
    TimesSum(o.y, Times(b.x, b.x), Times(a.x, a.x));
    TimesSum(o.x, d + Times(b.x, b.y), Times(a.x, a.y));
    TimesSum(o.x, d, Times(b.x, b.y));
    TimesSum(o.x, CrossEnd(o, b), CrossEnd(o, a));
  }

  lemma {:induction false} MomentYShift(o: Point, a: Point, b: Point)
    ensures MomentYTerm(o)(a, b) ==
            MomentYTerm(Origin)(a, b) - 3.0 * Times(o.y, Cross(Origin, a, b)) + MomentYEnd(o, b) - MomentYEnd(o, a)
  {
    MomentTerms(o, a, b);
    CrossBySums(a, b);
    hide Cross, MomentYTerm, CrossEnd, Times;
    var s, d, u := a.y + b.y, Cross(Origin, a, b), CrossShifted(o, a, b);
    TimesSums(s, o.y, d, u);
    TimesMoved(s, o.y, b.x - a.x, o.x, b.y - a.y);
    TimesSquares(a.y, b.y);
    TimesSum(o.x, Times(b.y, b.y), Times(a.y, a.y));
    TimesSum(o.y, Times(b.x, b.y) - d, Times(a.x, a.y));
    TimesSum(o.y, Times(b.x, b.y), d);
    TimesSum(o.y, CrossEnd(o, b), CrossEnd(o, a));
  }

  lemma {:induction false} AreaShift(o: Point, ring: Ring)
    requires Closed(ring)
    ensures WalkSum(ring, CrossTerm(o)) == WalkSum(ring, CrossTerm(Origin))
  {
    var v := (p: Point) => CrossEnd(o, p);
    var none: EdgeTerm := (a: Point, b: Point) => 0.0;
    forall a, b
      ensures CrossTerm(o)(a, b) == CrossTerm(Origin)(a, b) - 3.0 * Times(0.0, none(a, b)) + v(b) - v(a)
    {
      hide Cross, CrossEnd;
      MomentTerms(o, a, b);
    }
    assert Times(0.0, WalkSum(ring, none)) == 0.0;
    hide CrossTerm, WalkSum, Times;
    WalkSumShift(ring, CrossTerm(o), CrossTerm(Origin), 0.0, none, v);
  }

  lemma {:induction false} MomentXShifts(o: Point, ring: Ring)
    requires Closed(ring)
    ensures WalkSum(ring, MomentXTerm(o)) ==
              WalkSum(ring, MomentXTerm(Origin)) - 3.0 * Times(o.x, WalkSum(ring, CrossTerm(Origin)))
  {
    hide Cross, MomentXEnd, MomentXTerm, WalkSum, Times;
    var v := (p: Point) => MomentXEnd(o, p);
    forall a, b
      ensures MomentXTerm(o)(a, b) == MomentXTerm(Origin)(a, b) - 3.0 * Times(o.x, CrossTerm(Origin)(a, b))
              + v(b) - v(a)
    {
      MomentXShift(o, a, b);
    }
    WalkSumShift(ring, MomentXTerm(o), MomentXTerm(Origin), o.x, CrossTerm(Origin), v);
  }

  lemma {:induction false} MomentYShifts(o: Point, ring: Ring)
    requires Closed(ring)
    ensures WalkSum(ring, MomentYTerm(o)) ==
              WalkSum(ring, MomentYTerm(Origin)) - 3.0 * Times(o.y, WalkSum(ring, CrossTerm(Origin)))
  {
    hide Cross, MomentYEnd, MomentYTerm, WalkSum, Times;
    var v := (p: Point) => MomentYEnd(o, p);
    forall a, b
      ensures MomentYTerm(o)(a, b) == MomentYTerm(Origin)(a, b) - 3.0 * Times(o.y, CrossTerm(Origin)(a, b))
              + v(b) - v(a)
    {
      MomentYShift(o, a, b);
    }
    WalkSumShift(ring, MomentYTerm(o), MomentYTerm(Origin), o.y, CrossTerm(Origin), v);
  }

  lemma {:induction false} QuotientShift(c: real, moved: real, m: real, a: real)
    requires a != 0.0 && moved == m - 3.0 * Times(c, a)
    ensures c + moved / (3.0 * a) == m / (3.0 * a)
  {
    assert 3.0 * Times(c, a) == c * (3.0 * a);
    QuotientDifference(m, c * (3.0 * a), 3.0 * a);
    QuotientCancels(c, 3.0 * a);
  }

  /** Moving the origin changes nothing: the centroid is the quotient of the absolute moments. */
  lemma {:induction false} CentroidIgnoresOrigin(o: Point, ring: Ring)
    requires Closed(ring)
    ensures CentroidAbout(o, ring) == CentroidAbout(Origin, ring)
  {
    AreaShift(o, ring);
    MomentXShifts(o, ring);
    MomentYShifts(o, ring);
    hide WalkSum, CrossTerm, MomentXTerm, MomentYTerm, Times;
    var area := WalkSum(ring, CrossTerm(Origin));
    if Abs(area) > MinDoubleArea {
      QuotientShift(o.x, WalkSum(ring, MomentXTerm(o)), WalkSum(ring, MomentXTerm(Origin)), area);
      QuotientShift(o.y, WalkSum(ring, MomentYTerm(o)), WalkSum(ring, MomentYTerm(Origin)), area);
    }
  }

  /** The centroid does not depend on the vertex a closed ring starts at. */
  lemma {:induction false} CentroidIgnoresStart(ring: Ring, k: nat)
    requires Closed(ring) && k < |ring|
    ensures CentroidAbout(Rotated(ring, k)[0], Rotated(ring, k)) == CentroidAbout(ring[0], ring)
  {
    hide WalkSum, CrossTerm, MomentXTerm, MomentYTerm, Rotated;
    var turned := Rotated(ring, k);
    CentroidIgnoresOrigin(ring[0], ring);
    CentroidIgnoresOrigin(turned[0], turned);
    WalkSumRotated(ring, k, CrossTerm(Origin));
    WalkSumRotated(ring, k, MomentXTerm(Origin));
    WalkSumRotated(ring, k, MomentYTerm(Origin));
  }

  lemma {:induction false} NegatedQuotient(m: real, a: real)
    requires a != 0.0
    ensures (-m) / (3.0 * (-a)) == m / (3.0 * a)
  {
    SignedQuotient(m, 3.0 * a);
    assert 3.0 * (-a) == -(3.0 * a);
  }

  /** Nor does it depend on the winding: all three sums change sign together. */
  lemma {:induction false} CentroidIgnoresWinding(ring: Ring)
    requires Closed(ring)
    ensures CentroidAbout(Reversed(ring)[0], Reversed(ring)) == CentroidAbout(ring[0], ring)
  {
    var back := Reversed(ring);
    CentroidIgnoresOrigin(ring[0], ring);
    CentroidIgnoresOrigin(back[0], back);
    TermsReversed(ring);
    hide WalkSum, CrossTerm, MomentXTerm, MomentYTerm, Reversed;
    var area := WalkSum(ring, CrossTerm(Origin));
    if Abs(area) > MinDoubleArea {
      NegatedQuotient(WalkSum(ring, MomentXTerm(Origin)), area);
      NegatedQuotient(WalkSum(ring, MomentYTerm(Origin)), area);
    }
  }

  lemma {:induction false} TermsReversed(ring: Ring)
    ensures WalkSum(Reversed(ring), CrossTerm(Origin)) == -WalkSum(ring, CrossTerm(Origin))
    ensures WalkSum(Reversed(ring), MomentXTerm(Origin)) == -WalkSum(ring, MomentXTerm(Origin))
    ensures WalkSum(Reversed(ring), MomentYTerm(Origin)) == -WalkSum(ring, MomentYTerm(Origin))
  {
    hide WalkSum, Reversed;
    WalkSumReversed(ring, CrossTerm(Origin));
    forall a, b ensures MomentXTerm(Origin)(b, a) == -MomentXTerm(Origin)(a, b) { CrossFlips(a, b); }
    WalkSumReversed(ring, MomentXTerm(Origin));
    forall a, b ensures MomentYTerm(Origin)(b, a) == -MomentYTerm(Origin)(a, b) { CrossFlips(a, b); }
    WalkSumReversed(ring, MomentYTerm(Origin));
  }

  lemma {:induction false} CrossFlips(a: Point, b: Point)
    ensures MomentXTerm(Origin)(b, a) == -MomentXTerm(Origin)(a, b)
    ensures MomentYTerm(Origin)(b, a) == -MomentYTerm(Origin)(a, b)
  {}

  // ---------- area ----------

  const MetersPerDegree: real := 111320.0
  const MetersPerLatitudeDegree: real := 110574.0
  const SquareMetersPerAcre: real := 4046.8564224

  function LatitudeSum(path: Ring): real {
    if |path| == 0 then 0.0 else LatitudeSum(path[..|path| - 1]) + path[|path| - 1].y
  }

  /** The mean latitude over the distinct vertices of a ring. */
  function MeanLatitude(ring: Ring): real
    requires |ring| > 1
  {
    LatitudeSum(ring[..|ring| - 1]) / (|ring| - 1) as real
  }

  function AreaTerm(metersX: real): EdgeTerm {
    (a: Point, b: Point) =>
      (a.x * metersX) * (b.y * MetersPerLatitudeDegree) - (b.x * metersX) * (a.y * MetersPerLatitudeDegree)
  }

  /** The area of a ring, given the cosine of an angle in degrees. */
  function AreaAcres(ring: Ring, cosDegrees: real -> real): real
    requires |ring| > 1
  {
    Abs(WalkSum(ring, AreaTerm(MetersPerDegree * cosDegrees(MeanLatitude(ring))))) / 2.0 / SquareMetersPerAcre
  }

  /** `polygonAreaAcres` */
  method PolygonAreaAcres(ring: Ring, cosDegrees: real -> real) returns (acres: real)
    requires |ring| > 1
    ensures acres == AreaAcres(ring, cosDegrees)
  {
    var sum := 0.0;
    for i := 0 to |ring| - 1
      invariant sum == LatitudeSum(ring[..i])
    {
      assert ring[..i + 1][..i] == ring[..i];
      sum := sum + ring[i].y;
    }
    var metersX := MetersPerDegree * cosDegrees(sum / (|ring| - 1) as real);
    var area := 0.0;
    for index := 0 to |ring| - 1
      invariant area == WalkSum(ring[..index + 1], AreaTerm(metersX))
    {
      area := area + AreaTerm(metersX)(ring[index], ring[index + 1]);
      WalkSumStep(ring, index, AreaTerm(metersX));
    }
    assert ring[..|ring|] == ring;
    acres := Abs(area) / 2.0 / SquareMetersPerAcre;
  }

  lemma {:induction false} LatitudeSumConcat(a: Ring, b: Ring)
    ensures LatitudeSum(a + b) == LatitudeSum(a) + LatitudeSum(b)
  {
    if |b| == 0 {
      assert a + b == a;
    } else {
      LatitudeSumConcat(a, b[..|b| - 1]);
      assert (a + b)[..|a + b| - 1] == a + b[..|b| - 1];
    }
  }

  lemma {:induction false} LatitudeSumReversed(a: Ring)
    ensures LatitudeSum(Reversed(a)) == LatitudeSum(a)
  {
    if |a| > 0 {
      var last := [a[|a| - 1]];
      LatitudeSumReversed(a[..|a| - 1]);
      LatitudeSumConcat(last, Reversed(a[..|a| - 1]));
      assert last[..0] == [];
    }
  }

  /** Neither the starting vertex nor the winding changes a closed ring's area. */
  lemma {:induction false} AreaIgnoresStartAndWinding(ring: Ring, k: nat, cosDegrees: real -> real)
    requires Closed(ring) && k < |ring|
    ensures AreaAcres(Rotated(ring, k), cosDegrees) == AreaAcres(ring, cosDegrees)
    ensures AreaAcres(Reversed(ring), cosDegrees) == AreaAcres(ring, cosDegrees)
  {
    var metersX := MetersPerDegree * cosDegrees(MeanLatitude(ring));
    MeanLatitudeRotated(ring, k);
    MeanLatitudeReversed(ring);
    WalkSumRotated(ring, k, AreaTerm(metersX));
    hide WalkSum, Rotated, Reversed;
    WalkSumReversed(ring, AreaTerm(metersX));
  }

  lemma {:induction false} MeanLatitudeRotated(ring: Ring, k: nat)
    requires Closed(ring) && k < |ring|
    ensures MeanLatitude(Rotated(ring, k)) == MeanLatitude(ring)
  {
    var n := |ring| - 1;
    var turned := Rotated(ring, k);
    if k == 0 {
      assert turned == ring;
    } else {
      assert turned[..n] == ring[k..n] + ring[..k] by {
        assert turned[..n] == (ring[k..] + ring[1..k + 1])[..n];
        forall i | 0 <= i < n ensures turned[i] == (ring[k..n] + ring[..k])[i] {}
      }
      assert ring[..n] == ring[..k] + ring[k..n];
      LatitudeSumConcat(ring[k..n], ring[..k]);
      LatitudeSumConcat(ring[..k], ring[k..n]);
    }
  }

  lemma {:induction false} MeanLatitudeReversed(ring: Ring)
    requires Closed(ring)
    ensures MeanLatitude(Reversed(ring)) == MeanLatitude(ring)
  {
    LatitudeSumReversed(ring);
    var back := Reversed(ring);
    hide Reversed;
    LatitudeSumOpen(ring);
    LatitudeSumOpen(back);
  }

  lemma {:induction false} LatitudeSumOpen(ring: Ring)
    requires |ring| > 0
    ensures LatitudeSum(ring[..|ring| - 1]) == LatitudeSum(ring) - ring[|ring| - 1].y
  {}

  lemma {:induction false} ChordWalks(ring: Ring, i: nat, j: nat, f: EdgeTerm)
    requires i <= j < |ring|
    ensures WalkSum(OuterPart(ring, i, j), f) == WalkSum(ring[..i + 1], f) + f(ring[i], ring[j]) + WalkSum(ring[j..], f)
    ensures WalkSum(InnerPart(ring, i, j), f) == WalkSum(ring[i..j + 1], f) + f(ring[j], ring[i])
  {
    hide WalkSum;
    var out, back := [ring[i], ring[j]], [ring[j], ring[i]];
    assert OuterPart(ring, i, j) == ring[..i + 1] + (out + ring[j..][1..])[1..];
    WalkSumConcat(out, ring[j..], f);
    WalkSumConcat(ring[..i + 1], out + ring[j..][1..], f);
    assert InnerPart(ring, i, j) == ring[i..j + 1] + back[1..];
    WalkSumConcat(ring[i..j + 1], back, f);
    WalkSumPair(ring[i], ring[j], f);
    WalkSumPair(ring[j], ring[i], f);
  }

  /** A chord splits a sum of terms that are antisymmetric in their ends into those of its two parts. */
  lemma {:induction false} ChordSplitsSum(ring: Ring, i: nat, j: nat, f: EdgeTerm)
    requires Closed(ring) && i <= j < |ring| && forall a, b :: f(b, a) == -f(a, b)
    ensures WalkSum(ring, f) == WalkSum(OuterPart(ring, i, j), f) + WalkSum(InnerPart(ring, i, j), f)
  {
    hide WalkSum, OuterPart, InnerPart;
    ChordWalks(ring, i, j, f);
    assert ring[..j + 1][..i + 1] == ring[..i + 1] && ring[..j + 1] == ring[..i + 1] + ring[i..j + 1][1..];
    assert ring == ring[..j + 1] + ring[j..][1..];
    WalkSumConcat(ring[..i + 1], ring[i..j + 1], f);
    WalkSumConcat(ring[..j + 1], ring[j..], f);
  }

  /** A chord splits the signed area of a closed ring into those of its two parts. */
  lemma {:induction false} ChordSplitsArea(ring: Ring, i: nat, j: nat, o: Point)
    requires Closed(ring) && i <= j < |ring|
    ensures WalkSum(ring, CrossTerm(o)) ==
            WalkSum(OuterPart(ring, i, j), CrossTerm(o)) + WalkSum(InnerPart(ring, i, j), CrossTerm(o))
  {
    assert forall a, b :: CrossTerm(o)(b, a) == -CrossTerm(o)(a, b);
    ChordSplitsSum(ring, i, j, CrossTerm(o));
  }
}
