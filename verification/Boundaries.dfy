/**
  Field boundaries as evidence: segment tests with their tolerances, simple closed rings,
  containment of a revised boundary in its parent, and the acres derived from a boundary.
*/
module Boundaries {
  import opened Wrappers
  import opened Reals
  import opened Geometry
  import Shoelace
  import Decimals

  const Epsilon: real := 0.0000000001
  const CoordinateTolerance: real := 0.000000001

  predicate SameCoordinate(x: real, y: real) { Abs(x - y) <= CoordinateTolerance }

  predicate SamePoint(a: Point, b: Point) { SameCoordinate(a.x, b.x) && SameCoordinate(a.y, b.y) }

  predicate OnSegment(p: Point, left: Point, right: Point) {
    && Abs(Orientation(left, right, p)) <= Epsilon
    && Min(left.x, right.x) - Epsilon <= p.x <= Max(left.x, right.x) + Epsilon
    && Min(left.y, right.y) - Epsilon <= p.y <= Max(left.y, right.y) + Epsilon
  }

  predicate OppositeSigns(x: real, y: real, margin: real) {
    (x > margin && y < -margin) || (x < -margin && y > margin)
  }

  predicate SegmentsIntersect(a: Point, b: Point, c: Point, d: Point) {
    var o1, o2, o3, o4 := Orientation(a, b, c), Orientation(a, b, d), Orientation(c, d, a), Orientation(c, d, b);
    || (OppositeSigns(o1, o2, 0.0) && OppositeSigns(o3, o4, 0.0))
    || (Abs(o1) <= Epsilon && OnSegment(c, a, b)) || (Abs(o2) <= Epsilon && OnSegment(d, a, b))
    || (Abs(o3) <= Epsilon && OnSegment(a, c, d)) || (Abs(o4) <= Epsilon && OnSegment(b, c, d))
  }

  predicate SegmentsProperlyIntersect(a: Point, b: Point, c: Point, d: Point) {
    && OppositeSigns(Orientation(a, b, c), Orientation(a, b, d), Epsilon)
    && OppositeSigns(Orientation(c, d, a), Orientation(c, d, b), Epsilon)
  }

  // ---------- points against a ring ----------

  predicate OnBoundary(p: Point, ring: Ring) {
    exists i :: 0 <= i < |ring| - 1 && OnSegment(p, ring[i], ring[i + 1])
  }

  predicate InsideOrBoundary(p: Point, ring: Ring) { OnBoundary(p, ring) || Inside(p, ring) }

  predicate StrictlyInside(p: Point, ring: Ring) { Inside(p, ring) && !OnBoundary(p, ring) }

  /** `pointInPolygonOrBoundary` */
  method PointInPolygonOrBoundary(p: Point, ring: Ring) returns (r: bool)
    ensures r == InsideOrBoundary(p, ring)
  {
    var index := 0;
    while index < |ring| - 1
      invariant forall i :: 0 <= i < index && i < |ring| - 1 ==> !OnSegment(p, ring[i], ring[i + 1])
    {
      if OnSegment(p, ring[index], ring[index + 1]) { return true; }
      index := index + 1;
    }
    r := PointInPolygon(p, ring);
  }

  /** `pointStrictlyInside` */
  method PointStrictlyInside(p: Point, ring: Ring) returns (r: bool)
    ensures r == StrictlyInside(p, ring)
  {
    r := PointInPolygonOrBoundary(p, ring);
    if !r { return; }
    for index := 0 to |ring| - 1
      invariant forall i :: 0 <= i < index ==> !OnSegment(p, ring[i], ring[i + 1])
    {
      if OnSegment(p, ring[index], ring[index + 1]) { return false; }
    }
  }

  lemma {:induction false} SegmentIsSymmetric(p: Point, a: Point, b: Point)
    ensures OnSegment(p, a, b) == OnSegment(p, b, a)
  {
    assert Orientation(b, a, p) == -Orientation(a, b, p);
  }

  lemma {:induction false} BoundaryRotated(p: Point, ring: Ring, k: nat)
    requires Closed(ring) && k < |ring| && OnBoundary(p, ring)
    ensures OnBoundary(p, Rotated(ring, k))
  {
    var n := |ring| - 1;
    var i :| 0 <= i < n && OnSegment(p, ring[i], ring[i + 1]);
    var turned := Rotated(ring, k);
    var j := if i >= k then i - k else i + n - k;
    assert turned[j] == ring[i] && turned[j + 1] == ring[i + 1];
  }

  lemma {:induction false} RotateBack(ring: Ring, k: nat)
    requires Closed(ring) && k < |ring|
    ensures Rotated(Rotated(ring, k), |ring| - 1 - k) == ring
  {
    var t := Rotated(ring, k);
    assert t[|ring| - 1 - k..] == [ring[0]] + ring[1..k + 1];
    assert t[1..|ring| - k] == ring[k + 1..];
  }

  lemma {:induction false} BoundaryReversed(p: Point, ring: Ring)
    requires OnBoundary(p, ring)
    ensures OnBoundary(p, Reversed(ring))
  {
    var n := |ring| - 1;
    var i :| 0 <= i < n && OnSegment(p, ring[i], ring[i + 1]);
    SegmentIsSymmetric(p, ring[i], ring[i + 1]);
    assert Reversed(ring)[n - 1 - i] == ring[i + 1] && Reversed(ring)[n - i] == ring[i];
  }

  lemma {:induction false} ReversedTwice(ring: Ring)
    ensures Reversed(Reversed(ring)) == ring
  {}

  /** Inside, outside or on the boundary: neither the starting vertex nor the winding matters. */
  lemma {:induction false} PointClassIgnoresStartAndWinding(p: Point, ring: Ring, k: nat)
    requires Closed(ring) && k < |ring|
    ensures OnBoundary(p, Rotated(ring, k)) == OnBoundary(p, Reversed(ring)) == OnBoundary(p, ring)
    ensures InsideOrBoundary(p, Rotated(ring, k)) == InsideOrBoundary(p, Reversed(ring)) == InsideOrBoundary(p, ring)
    ensures StrictlyInside(p, Rotated(ring, k)) == StrictlyInside(p, Reversed(ring)) == StrictlyInside(p, ring)
  {
    InsideIgnoresStart(p, ring, k);
    InsideIgnoresWinding(p, ring);
    RotateBack(ring, k);
    ReversedTwice(ring);
    hide Inside, Rotated, Reversed, OnBoundary;
    if OnBoundary(p, ring) {
      BoundaryRotated(p, ring, k);
      BoundaryReversed(p, ring);
    }
    if OnBoundary(p, Rotated(ring, k)) { BoundaryRotated(p, Rotated(ring, k), |ring| - 1 - k); }
    if OnBoundary(p, Reversed(ring)) { BoundaryReversed(p, Reversed(ring)); }
  }

  predicate CoversNearly(b: Bounds, p: Point) {
    b.minX - Epsilon <= p.x <= b.maxX + Epsilon && b.minY - Epsilon <= p.y <= b.maxY + Epsilon
  }

  /** A point accepted as inside or on the boundary lies in the ring's box, up to the tolerance. */
  lemma {:induction false} AcceptedPointsAreInTheBox(p: Point, ring: Ring, b: Bounds)
    requires Closed(ring) && IsBoundsOf(b, ring) && InsideOrBoundary(p, ring)
    ensures CoversNearly(b, p)
    ensures b.minX - 0.0000000001 <= p.x <= b.maxX + 0.0000000001
    ensures b.minY - 0.0000000001 <= p.y <= b.maxY + 0.0000000001
  {
    hide Inside;
    if OnBoundary(p, ring) {
      var i :| 0 <= i < |ring| - 1 && OnSegment(p, ring[i], ring[i + 1]);
      assert Covers(b, ring[i]) && Covers(b, ring[i + 1]);
    } else if !CoversNearly(b, p) {
      OutsideTheBox(p, ring, b);
    }
  }

  // ---------- simple rings ----------

  datatype RingError = ZeroLengthEdge | RepeatedVertex | SelfIntersection

  /** Two edges of a ring with n edges that share no vertex, the first one earlier. */
  predicate Separate(left: int, right: int, n: int) {
    0 <= left && left + 1 < right < n && !(left == 0 && right == n - 1)
  }

  ghost predicate NoSelfIntersection(ring: Ring) {
    forall l, r :: Separate(l, r, |ring| - 1) ==> !EdgesMeet(ring, l, r)
  }

  ghost predicate DistinctVertices(ring: Ring) {
    forall i, j :: 0 <= i < j < |ring| - 1 ==> !SamePoint(ring[i], ring[j])
  }

  ghost predicate ProperEdges(ring: Ring) {
    forall i :: 0 <= i < |ring| - 1 ==> !SamePoint(ring[i], ring[i + 1])
  }

  ghost predicate IsSimple(ring: Ring) {
    ProperEdges(ring) && DistinctVertices(ring) && NoSelfIntersection(ring)
  }

  /** `validateSimpleRing` */
  method ValidateSimpleRing(ring: Ring) returns (problem: Option<RingError>)
    ensures problem.None? <==> IsSimple(ring)
    ensures problem == Some(ZeroLengthEdge) ==> !ProperEdges(ring)
    ensures problem == Some(RepeatedVertex) ==> !DistinctVertices(ring)
    ensures problem == Some(SelfIntersection) ==>
              ProperEdges(ring) && DistinctVertices(ring) && !NoSelfIntersection(ring)
  {
    problem := CheckVertices(ring);
    if problem.None? { problem := CheckEdges(ring); }
  }

  method CheckVertices(ring: Ring) returns (problem: Option<RingError>)
    ensures problem.None? <==> ProperEdges(ring) && DistinctVertices(ring)
    ensures problem == Some(ZeroLengthEdge) ==> !ProperEdges(ring)
    ensures problem == Some(RepeatedVertex) ==> !DistinctVertices(ring)
    ensures problem != Some(SelfIntersection)
  {
    hide SamePoint;
    var index := 0;
    while index < |ring| - 1
      invariant forall i :: 0 <= i < index && i < |ring| - 1 ==> !SamePoint(ring[i], ring[i + 1])
      invariant forall i, j :: 0 <= i < index && i < j < |ring| - 1 ==> !SamePoint(ring[i], ring[j])
    {
      if SamePoint(ring[index], ring[index + 1]) { return Some(ZeroLengthEdge); }
      for other := index + 1 to |ring| - 1
        invariant forall j :: index < j < other ==> !SamePoint(ring[index], ring[j])
      {
        if SamePoint(ring[index], ring[other]) { return Some(RepeatedVertex); }
      }
      index := index + 1;
    }
    return None;
  }

  predicate EdgesMeet(ring: Ring, l: int, r: int)
    requires 0 <= l < |ring| - 1 && 0 <= r < |ring| - 1
  {
    SegmentsIntersect(ring[l], ring[l + 1], ring[r], ring[r + 1])
  }

  method CheckEdges(ring: Ring) returns (problem: Option<RingError>)
    ensures problem == if NoSelfIntersection(ring) then None else Some(SelfIntersection)
  {
    hide EdgesMeet;
    var edges := |ring| - 1;
    var left := 0;
    while left < edges
      invariant forall l, r :: l < left && Separate(l, r, edges) ==> !EdgesMeet(ring, l, r)
    {
      for right := left + 1 to edges
        invariant forall r :: r < right && Separate(left, r, edges) ==> !EdgesMeet(ring, left, r)
      {
        if right == left + 1 || (left == 0 && right == edges - 1) { continue; }
        assert Separate(left, right, edges);
        if EdgesMeet(ring, left, right) { return Some(SelfIntersection); }
      }
      left := left + 1;
    }
    return None;
  }

  lemma {:induction false} IntersectionIsSymmetric(a: Point, b: Point, c: Point, d: Point)
    ensures SegmentsIntersect(c, d, a, b) == SegmentsIntersect(a, b, c, d)
    ensures SegmentsIntersect(b, a, d, c) == SegmentsIntersect(a, b, c, d)
  {
    assert Orientation(b, a, c) == -Orientation(a, b, c) && Orientation(b, a, d) == -Orientation(a, b, d);
    assert Orientation(d, c, a) == -Orientation(c, d, a) && Orientation(d, c, b) == -Orientation(c, d, b);
    SegmentIsSymmetric(c, a, b);
    SegmentIsSymmetric(d, a, b);
    SegmentIsSymmetric(a, c, d);
    SegmentIsSymmetric(b, c, d);
    hide Orientation, OnSegment;
  }

  lemma {:induction false} SimpleTurned(ring: Ring)
    requires Closed(ring) && IsSimple(ring)
    ensures IsSimple(Rotated(ring, 1))
  {
    hide SamePoint, EdgesMeet;
    var n := |ring| - 1;
    var t := Rotated(ring, 1);
    assert forall i :: 0 <= i < n ==> t[i] == ring[i + 1];
    assert t[n] == ring[1] && ring[n] == ring[0];
    hide Rotated;
    assert DistinctVertices(t) by {
      forall i, j | 0 <= i < j < n ensures !SamePoint(t[i], t[j]) {
        if j == n - 1 { SamePointSymmetric(ring[0], ring[i + 1]); }
      }
    }
    assert NoSelfIntersection(t) by {
      forall l, r | Separate(l, r, n) ensures !EdgesMeet(t, l, r) { TurnedEdges(ring, t, l, r); }
    }
  }

  lemma {:induction false} TurnedEdges(ring: Ring, t: Ring, l: int, r: int)
    requires Closed(ring) && |t| == |ring| && Separate(l, r, |ring| - 1) && NoSelfIntersection(ring)
    requires t[|ring| - 1] == ring[1] && forall i :: 0 <= i < |ring| - 1 ==> t[i] == ring[i + 1]
    ensures !EdgesMeet(t, l, r)
  {
    hide SegmentsIntersect;
    var n := |ring| - 1;
    if r < n - 1 {
      assert Separate(l + 1, r + 1, n);
      assert !EdgesMeet(ring, l + 1, r + 1);
    } else {
      assert Separate(0, l + 1, n);
      assert !EdgesMeet(ring, 0, l + 1);
      assert t[l] == ring[l + 1] && t[l + 1] == ring[l + 2] && t[r] == ring[n] == ring[0] && t[r + 1] == ring[1];
      IntersectionIsSymmetric(ring[0], ring[1], ring[l + 1], ring[l + 2]);
    }
  }

  lemma {:induction false} SamePointSymmetric(a: Point, b: Point)
    ensures SamePoint(a, b) == SamePoint(b, a)
  {}

  lemma {:induction false} SimpleRotated(ring: Ring, k: nat)
    requires Closed(ring) && k < |ring| && IsSimple(ring)
    ensures IsSimple(Rotated(ring, k))
  {
    hide IsSimple;
    if k == 0 {
      assert Rotated(ring, 0) == ring;
    } else {
      SimpleRotated(ring, k - 1);
      SimpleTurned(Rotated(ring, k - 1));
      assert Rotated(Rotated(ring, k - 1), 1) == Rotated(ring, k);
    }
  }

  lemma {:induction false} SimpleReversed(ring: Ring)
    requires Closed(ring) && IsSimple(ring)
    ensures IsSimple(Reversed(ring))
  {
    var n := |ring| - 1;
    var t := Reversed(ring);
    hide SamePoint, SegmentsIntersect, Reversed;
    forall i | 0 <= i < n ensures !SamePoint(t[i], t[i + 1]) {
      SamePointSymmetric(ring[n - i - 1], ring[n - i]);
    }
    forall i, j | 0 <= i < j < n ensures !SamePoint(t[i], t[j]) {
      SamePointSymmetric(ring[n - j], ring[n - i]);
      if i == 0 { assert t[0] == ring[0]; SamePointSymmetric(ring[0], ring[n - j]); }
    }
    forall l, r | Separate(l, r, n) ensures !EdgesMeet(t, l, r) {
      var l', r' := n - 1 - r, n - 1 - l;
      assert Separate(l', r', n);
      assert !EdgesMeet(ring, l', r');
      IntersectionIsSymmetric(ring[l'], ring[l' + 1], ring[r'], ring[r' + 1]);
      IntersectionIsSymmetric(ring[l' + 1], ring[l'], ring[r' + 1], ring[r']);
    }
  }

  /** The simple-ring test does not depend on the starting vertex or the winding. */
  lemma {:induction false} SimpleIgnoresStartAndWinding(ring: Ring, k: nat)
    requires Closed(ring) && k < |ring|
    ensures IsSimple(Rotated(ring, k)) <==> IsSimple(ring)
    ensures IsSimple(Reversed(ring)) <==> IsSimple(ring)
  {
    RotateBack(ring, k);
    ReversedTwice(ring);
    hide IsSimple, Rotated, Reversed;
    if IsSimple(ring) { SimpleRotated(ring, k); SimpleReversed(ring); }
    if IsSimple(Rotated(ring, k)) { SimpleRotated(Rotated(ring, k), |ring| - 1 - k); }
    if IsSimple(Reversed(ring)) { SimpleReversed(Reversed(ring)); }
  }

  // ---------- boundary geometry ----------

  /** A GeoJSON polygon as decoded: positions may still have any number of coordinates. */
  datatype PolygonGeometry = PolygonGeometry(kind: string, coordinates: seq<seq<seq<real>>>)

  datatype BoundaryError = NotASingleRing | NotClosed | InvalidCoordinate | NotSimple(problem: RingError)
      | AreaNotUsable

  const MinUsableAcres: real := 0.1

  predicate InRange(p: Point) { -180.0 <= p.x <= 180.0 && -90.0 <= p.y <= 90.0 }

  predicate IsPosition(position: seq<real>) {
    |position| == 2 && InRange(Point(position[0], position[1]))
  }

  function PointOf(position: seq<real>): Point {
    if |position| == 2 then Point(position[0], position[1]) else Point(0.0, 0.0)
  }

  function RingOf(positions: seq<seq<real>>): (r: Ring)
    ensures |r| == |positions| && forall i :: 0 <= i < |r| ==> r[i] == PointOf(positions[i])
  {
    seq(|positions|, i requires 0 <= i < |positions| => PointOf(positions[i]))
  }

  /** A closed simple ring of valid coordinates with a usable area. */
  ghost predicate UsableRing(ring: Ring, cosDegrees: real -> real) {
    && Closed(ring)
    && (forall i :: 0 <= i < |ring| ==> InRange(ring[i]))
    && IsSimple(ring)
    && Shoelace.AreaAcres(ring, cosDegrees) > MinUsableAcres
  }

  ghost predicate ValidBoundary(g: PolygonGeometry, cosDegrees: real -> real) {
    && g.kind == "Polygon" && |g.coordinates| == 1
    && (forall i :: 0 <= i < |g.coordinates[0]| ==> |g.coordinates[0][i]| == 2)
    && UsableRing(RingOf(g.coordinates[0]), cosDegrees)
  }

  /** Acres rounded to one place, as text. */
  function DerivedAcres(ring: Ring, cosDegrees: real -> real): string
    requires |ring| > 1
  {
    Decimals.FloatString(Shoelace.AreaAcres(ring, cosDegrees), 1)
  }

  /** `validateBoundaryGeometry` */
  method ValidateBoundaryGeometry(g: PolygonGeometry, cosDegrees: real -> real)
    returns (r: Result<(Ring, string), BoundaryError>)
    ensures r.Success? <==> ValidBoundary(g, cosDegrees)
    ensures r.Success? ==> r.value.0 == RingOf(g.coordinates[0]) && r.value.1 == DerivedAcres(r.value.0, cosDegrees)
  {
    hide IsSimple, Decimals.FloatString;
    if g.kind != "Polygon" || |g.coordinates| != 1 || |g.coordinates[0]| < 4 { return Failure(NotASingleRing); }
    var positions := g.coordinates[0];
    var first, last := positions[0], positions[|positions| - 1];
    if |first| != 2 || |last| != 2 || first[0] != last[0] || first[1] != last[1] { return Failure(NotClosed); }
    for i := 0 to |positions|
      invariant forall k :: 0 <= k < i ==> IsPosition(positions[k])
    {
      if !IsPosition(positions[i]) {
        assert RingOf(positions)[i] == PointOf(positions[i]);
        return Failure(InvalidCoordinate);
      }
    }
    var ring := RingOf(positions);
    var problem := ValidateSimpleRing(ring);
    if problem.Some? { return Failure(NotSimple(problem.value)); }
    var area := Shoelace.PolygonAreaAcres(ring, cosDegrees);
    if area <= MinUsableAcres { return Failure(AreaNotUsable); }
    return Success((ring, Decimals.FloatString(area, 1)));
  }

  lemma {:induction false} RangeTurned(ring: Ring, k: nat)
    requires Closed(ring) && k < |ring|
    requires forall i :: 0 <= i < |ring| ==> InRange(ring[i])
    ensures forall i :: 0 <= i < |ring| ==> InRange(Rotated(ring, k)[i])
    ensures forall i :: 0 <= i < |ring| ==> InRange(Reversed(ring)[i])
  {}

  lemma {:induction false} UsableTurned(ring: Ring, k: nat, cosDegrees: real -> real)
    requires Closed(ring) && k < |ring| && UsableRing(ring, cosDegrees)
    ensures UsableRing(Rotated(ring, k), cosDegrees) && UsableRing(Reversed(ring), cosDegrees)
  {
    RangeTurned(ring, k);
    SimpleIgnoresStartAndWinding(ring, k);
    Shoelace.AreaIgnoresStartAndWinding(ring, k, cosDegrees);
    assert Closed(Reversed(ring));
    hide Rotated, Reversed, IsSimple, Shoelace.AreaAcres;
  }

  /**
    Whether a closed ring is accepted as a boundary, and the acres derived from it, do not
    depend on the starting vertex or the winding.
  */
  lemma {:induction false} BoundaryIgnoresStartAndWinding(ring: Ring, k: nat, cosDegrees: real -> real)
    requires Closed(ring) && k < |ring|
    ensures UsableRing(Rotated(ring, k), cosDegrees) <==> UsableRing(ring, cosDegrees)
    ensures UsableRing(Reversed(ring), cosDegrees) <==> UsableRing(ring, cosDegrees)
    ensures DerivedAcres(Rotated(ring, k), cosDegrees) == DerivedAcres(Reversed(ring), cosDegrees) ==
              DerivedAcres(ring, cosDegrees)
  {
    assert Closed(Reversed(ring));
    hide Rotated, Reversed, UsableRing, Shoelace.AreaAcres, Decimals.FloatString;
    Shoelace.AreaIgnoresStartAndWinding(ring, k, cosDegrees);
    RotateBack(ring, k);
    ReversedTwice(ring);
    if UsableRing(ring, cosDegrees) { UsableTurned(ring, k, cosDegrees); }
    if UsableRing(Rotated(ring, k), cosDegrees) { UsableTurned(Rotated(ring, k), |ring| - 1 - k, cosDegrees); }
    if UsableRing(Reversed(ring), cosDegrees) { UsableTurned(Reversed(ring), 0, cosDegrees); }
  }

  // ---------- containment ----------

  function Midpoint(a: Point, b: Point): Point { Point((a.x + b.x) / 2.0, (a.y + b.y) / 2.0) }

  ghost predicate EdgeContained(parent: Ring, a: Point, b: Point) {
    && InsideOrBoundary(Midpoint(a, b), parent)
    && forall j :: 0 <= j < |parent| - 1 ==> !SegmentsProperlyIntersect(a, b, parent[j], parent[j + 1])
  }

  /** What the containment test examines: vertices, edge midpoints and proper crossings. */
  ghost predicate ContainsRing(parent: Ring, child: Ring) {
    && (forall i :: 0 <= i < |child| - 1 ==> InsideOrBoundary(child[i], parent))
    && (forall i :: 0 <= i < |child| - 1 ==> EdgeContained(parent, child[i], child[i + 1]))
  }

  /** `polygonContainsRing` */
  method PolygonContainsRing(parent: Ring, child: Ring) returns (r: bool)
    requires |child| > 0 && |parent| > 0
    ensures r == ContainsRing(parent, child)
  {
    hide InsideOrBoundary, SegmentsProperlyIntersect, Midpoint;
    for i := 0 to |child| - 1
      invariant forall k :: 0 <= k < i ==> InsideOrBoundary(child[k], parent)
    {
      var accepted := PointInPolygonOrBoundary(child[i], parent);
      if !accepted { return false; }
    }
    for i := 0 to |child| - 1
      invariant forall k :: 0 <= k < i ==> EdgeContained(parent, child[k], child[k + 1])
    {
      var left, right := child[i], child[i + 1];
      var accepted := PointInPolygonOrBoundary(Midpoint(left, right), parent);
      if !accepted { return false; }
      for j := 0 to |parent| - 1
        invariant forall k :: 0 <= k < j ==> !SegmentsProperlyIntersect(left, right, parent[k], parent[k + 1])
      {
        if SegmentsProperlyIntersect(left, right, parent[j], parent[j + 1]) { return false; }
      }
    }
    return true;
  }

  /** Every vertex and every edge midpoint of an accepted child lies in the parent's box, up to the tolerance. */
  lemma {:induction false} ContainedRingIsInTheBox(parent: Ring, child: Ring, b: Bounds)
    requires Closed(parent) && IsBoundsOf(b, parent) && ContainsRing(parent, child)
    ensures forall i :: 0 <= i < |child| - 1 ==>
              CoversNearly(b, child[i]) && CoversNearly(b, Midpoint(child[i], child[i + 1]))
  {
    hide InsideOrBoundary, IsBoundsOf, SegmentsProperlyIntersect, Midpoint;
    forall i | 0 <= i < |child| - 1
      ensures CoversNearly(b, child[i]) && CoversNearly(b, Midpoint(child[i], child[i + 1]))
    {
      AcceptedPointsAreInTheBox(child[i], parent, b);
      assert EdgeContained(parent, child[i], child[i + 1]);
      AcceptedPointsAreInTheBox(Midpoint(child[i], child[i + 1]), parent, b);
    }
  }
}
