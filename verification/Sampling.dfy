/**
  Terrain-screening sample plans: the interior anchor of a polygon and the spaced sample
  points placed around it.  The cosine and the hypotenuse are left abstract.
*/
module Sampling {
  import opened Wrappers
  import opened Reals
  import opened Geometry
  import opened Boundaries
  import Shoelace

  /** A sampling point; `near` says that it is close to the boundary. */
  datatype Candidate = Candidate(point: Point, near: bool)

  /** The cosine of an angle in degrees, the length of a vector, and the stable sort of the standard library. */
  datatype Library = Library(
    cosDegrees: real -> real,
    hypot: (real, real) -> real,
    stableSort: (seq<Candidate>, (Candidate, Candidate) -> bool) -> seq<Candidate>)

  /** All that is assumed of them: sorting rearranges, whatever it is given to compare with. */
  ghost predicate Plausible(lib: Library) {
    && (forall x, y :: lib.hypot(x, y) >= 0.0) && lib.hypot(0.0, 0.0) == 0.0
    && (forall s, before :: multiset(lib.stableSort(s, before)) == multiset(s))
  }

  // ---------- distances ----------

  function SegmentDistance(lib: Library, p: Point, left: Point, right: Point): real {
    var metersX := Shoelace.MetersPerDegree * lib.cosDegrees((p.y + left.y + right.y) / 3.0);
    var metersY := Shoelace.MetersPerLatitudeDegree;
    var px, py := Times(p.x, metersX), Times(p.y, metersY);
    var ax, ay := Times(left.x, metersX), Times(left.y, metersY);
    var dx, dy := Times(right.x, metersX) - ax, Times(right.y, metersY) - ay;
    if dx == 0.0 && dy == 0.0 then lib.hypot(px - ax, py - ay)
    else
      var t := Along(px - ax, py - ay, dx, dy);
      lib.hypot(px - (ax + Times(t, dx)), py - (ay + Times(t, dy)))
  }

  /** How far along the vector (dx, dy) the foot of (x, y) lies, kept between its ends. */
  function Along(x: real, y: real, dx: real, dy: real): real
    requires dx != 0.0 || dy != 0.0
  {
    SquarePositive(dx);
    SquarePositive(dy);
    Max(0.0, Min(1.0, (x * dx + y * dy) / (Square(dx) + Square(dy))))
  }

  function Divide(x: real, y: real): real
    requires y != 0.0
  {
    x / y
  }

  function Square(x: real): real { Times(x, x) }

  lemma {:induction false} TimesSign(x: real, y: real)
    ensures x > 0.0 && y > 0.0 ==> Times(x, y) > 0.0
    ensures Times(-x, -y) == Times(x, y)
    ensures Times(0.0, y) == 0.0
  {}

  lemma {:induction false} SquarePositive(x: real)
    ensures Square(x) >= 0.0 && (x != 0.0 ==> Square(x) > 0.0)
  {
    hide Times;
    TimesSign(x, x);
    TimesSign(-x, -x);
  }

  /** The distance from p to the nearest edge of a walk. */
  function Clearance(lib: Library, p: Point, ring: Ring): real
    requires |ring| >= 2
  {
    var n := |ring| - 1;
    var last := SegmentDistance(lib, p, ring[n - 1], ring[n]);
    if |ring| == 2 then last else Min(Clearance(lib, p, ring[..n]), last)
  }

  /** `minimumDistanceToRingMeters`: no edge seen yet stands for the initial infinity. */
  method MinimumDistanceToRing(lib: Library, p: Point, ring: Ring) returns (minimum: real)
    requires |ring| >= 2
    ensures minimum == Clearance(lib, p, ring)
  {
    hide SegmentDistance;
    var best: Option<real> := None;
    for index := 0 to |ring| - 1
      invariant best == if index == 0 then None else Some(Clearance(lib, p, ring[..index + 1]))
    {
      var distance := SegmentDistance(lib, p, ring[index], ring[index + 1]);
      assert ring[..index + 2][..index + 1] == ring[..index + 1];
      best := Some(if best.None? then distance else Min(best.value, distance));
    }
    assert ring[..|ring|] == ring;
    minimum := best.value;
  }

  function EdgeDistance(lib: Library, p: Point, ring: Ring, i: nat): real
    requires i + 1 < |ring|
  {
    SegmentDistance(lib, p, ring[i], ring[i + 1])
  }

  lemma {:induction false} ClearanceStep(lib: Library, p: Point, ring: Ring)
    requires |ring| > 2
    ensures Clearance(lib, p, ring) ==
              Min(Clearance(lib, p, ring[..|ring| - 1]), EdgeDistance(lib, p, ring, |ring| - 2))
  {}

  lemma {:induction false} SingleEdgeClearance(lib: Library, p: Point, ring: Ring)
    requires |ring| == 2
    ensures Clearance(lib, p, ring) == EdgeDistance(lib, p, ring, 0)
  {}

  lemma {:induction false} EdgesOfFront(lib: Library, p: Point, ring: Ring, k: nat)
    requires k + 2 < |ring|
    ensures EdgeDistance(lib, p, ring[..|ring| - 1], k) == EdgeDistance(lib, p, ring, k)
  {}

  /** The clearance is the least of the edge distances, and no negative number. */
  lemma {:induction false} ClearanceIsMinimum(lib: Library, p: Point, ring: Ring) returns (i: nat)
    requires |ring| >= 2 && Plausible(lib)
    ensures i < |ring| - 1 && EdgeDistance(lib, p, ring, i) == Clearance(lib, p, ring) >= 0.0
    ensures forall k: nat :: k < |ring| - 1 ==> Clearance(lib, p, ring) <= EdgeDistance(lib, p, ring, k)
  {
    hide Clearance, EdgeDistance, Plausible;
    var n := |ring| - 1;
    EdgeNonnegative(lib, p, ring, n - 1);
    if |ring| == 2 {
      SingleEdgeClearance(lib, p, ring);
      i := 0;
    } else {
      var front := ring[..n];
      ClearanceStep(lib, p, ring);
      i := ClearanceIsMinimum(lib, p, front);
      forall k: nat | k < n ensures Clearance(lib, p, ring) <= EdgeDistance(lib, p, ring, k) {
        if k < n - 1 { EdgesOfFront(lib, p, ring, k); }
      }
      EdgesOfFront(lib, p, ring, i);
      if Clearance(lib, p, ring) != Clearance(lib, p, front) { i := n - 1; }
    }
  }

  lemma {:induction false} EdgeNonnegative(lib: Library, p: Point, ring: Ring, i: nat)
    requires Plausible(lib) && i + 1 < |ring|
    ensures EdgeDistance(lib, p, ring, i) >= 0.0
  {
    DistanceNonnegative(lib, p, ring[i], ring[i + 1]);
    hide SegmentDistance;
  }

  lemma {:induction false} DistanceNonnegative(lib: Library, p: Point, left: Point, right: Point)
    requires Plausible(lib)
    ensures SegmentDistance(lib, p, left, right) >= 0.0
  {}

  /** `coordinateDistanceMeters` */
  function CoordinateDistance(lib: Library, a: Point, b: Point): real {
    lib.hypot(Times((a.x - b.x) * Shoelace.MetersPerDegree, lib.cosDegrees((a.y + b.y) / 2.0)),
              (a.y - b.y) * Shoelace.MetersPerLatitudeDegree)
  }

  lemma {:induction false} SelfDistance(lib: Library, p: Point)
    requires Plausible(lib)
    ensures CoordinateDistance(lib, p, p) == 0.0
  {
    assert (p.x - p.x) * Shoelace.MetersPerDegree * lib.cosDegrees((p.y + p.y) / 2.0) == 0.0;
  }

  // ---------- the interior anchor ----------

  const AnchorTolerance: real := 0.000001

  /** The middle of the i-th of `divisions` equal parts. */
  function PartCentre(low: real, high: real, i: int, divisions: int): real
    requires divisions > 0
  {
    low + Divide(Times(i as real + 0.5, high - low), divisions as real)
  }

  /** The centre of a cell of the box divided evenly in both directions. */
  function CellCentre(b: Bounds, divisions: int, row: int, column: int): Point
    requires divisions > 0
  {
    Point(PartCentre(b.minX, b.maxX, column, divisions), PartCentre(b.minY, b.maxY, row, divisions))
  }

  predicate IsCell(divisions: int, row: int, column: int) { 0 <= row < divisions && 0 <= column < divisions }

  predicate InteriorCell(ring: Ring, b: Bounds, divisions: int, row: int, column: int)
    requires divisions > 0
  {
    IsCell(divisions, row, column) && StrictlyInside(CellCentre(b, divisions, row, column), ring)
  }

  ghost predicate NoInteriorCell(ring: Ring, b: Bounds, divisions: int)
    requires divisions > 0
  {
    forall row, column :: !InteriorCell(ring, b, divisions, row, column)
  }

  /** No interior cell of this resolution clears the boundary by noticeably more than p. */
  ghost predicate NearlyBest(lib: Library, ring: Ring, b: Bounds, divisions: int, p: Point)
    requires divisions > 0 && |ring| >= 2
  {
    forall row, column :: InteriorCell(ring, b, divisions, row, column) ==>
      Clearance(lib, CellCentre(b, divisions, row, column), ring) <= Clearance(lib, p, ring) + AnchorTolerance
  }

  /** The cell centres visited before a cell. */
  function CellsBefore(b: Bounds, divisions: int, row: nat, column: nat): seq<Point>
    requires divisions > 0
    decreases row, column
  {
    if column > 0 then CellsBefore(b, divisions, row, column - 1) + [CellCentre(b, divisions, row, column - 1)]
    else if row > 0 then CellsBefore(b, divisions, row - 1, divisions)
    else []
  }

  function GridCells(b: Bounds, divisions: int): seq<Point>
    requires divisions > 0
  {
    CellsBefore(b, divisions, divisions, 0)
  }

  /** `coordinateLess` against a point that may not have been chosen yet */
  predicate CoordinateLess(left: Point, right: Option<Point>) {
    right.None? || (if left.y != right.value.y then left.y < right.value.y else left.x < right.value.x)
  }

  predicate Precedes(row: int, column: int, atRow: int, atColumn: int) {
    row < atRow || (row == atRow && column < atColumn)
  }

  lemma {:induction false} TimesOrder(x: real, y: real, d: real)
    requires x < y && d > 0.0
    ensures Times(x, d) < Times(y, d)
  {
    assert (y - x) * d > 0.0;
  }

  lemma {:induction false} DivideTimes(m: real, d: real)
    requires d > 0.0
    ensures Times(Divide(m, d), d) == m
  {}

  lemma {:induction false} DivideOrder(m: real, n: real, d: real)
    requires d > 0.0 && m < n
    ensures Divide(m, d) < Divide(n, d)
  {
    hide Times, Divide;
    DivideTimes(m, d);
    DivideTimes(n, d);
    if Divide(n, d) < Divide(m, d) { TimesOrder(Divide(n, d), Divide(m, d), d); }
  }

  lemma {:induction false} PartsAscend(low: real, high: real, i: int, j: int, divisions: int)
    requires divisions > 0 && i < j && low <= high
    ensures PartCentre(low, high, i, divisions) <= PartCentre(low, high, j, divisions)
    ensures low < high ==> PartCentre(low, high, i, divisions) < PartCentre(low, high, j, divisions)
  {
    TimesZero(i as real + 0.5);
    TimesZero(j as real + 0.5);
    hide Times, Divide;
    if low < high {
      TimesOrder(i as real + 0.5, j as real + 0.5, high - low);
      DivideOrder(Times(i as real + 0.5, high - low), Times(j as real + 0.5, high - low), divisions as real);
    }
  }

  lemma {:induction false} TimesZero(x: real)
    ensures Times(x, 0.0) == 0.0
  {}

  /** Cells are visited in row-major order, so a later cell never precedes an earlier one by coordinates. */
  lemma {:induction false} LaterCellIsNotLess(b: Bounds, divisions: int, row: int, column: int, laterRow: int,
                                              laterColumn: int)
    requires divisions > 0 && b.minX <= b.maxX && b.minY < b.maxY
    requires Precedes(row, column, laterRow, laterColumn)
    ensures !CoordinateLess(CellCentre(b, divisions, laterRow, laterColumn),
                            Some(CellCentre(b, divisions, row, column)))
  {
    hide PartCentre;
    if row < laterRow {
      PartsAscend(b.minY, b.maxY, row, laterRow, divisions);
    } else {
      PartsAscend(b.minX, b.maxX, column, laterColumn, divisions);
    }
  }

  /** A ring with an interior point has a box of positive height. */
  lemma {:induction false} InteriorNeedsHeight(p: Point, ring: Ring, b: Bounds)
    requires Closed(ring) && IsBoundsOf(b, ring) && StrictlyInside(p, ring)
    ensures b.minX <= b.maxX && b.minY < b.maxY
  {
    assert Covers(b, ring[0]);
    hide Inside, OnBoundary;
    if b.minY >= b.maxY { OutsideTheBox(p, ring, b); }
  }

  /**
    Whether a point replaces the best so far: clearer by more than the tolerance, or as clear and
    first by coordinates.
  */
  predicate Improves(lib: Library, ring: Ring, p: Point, best: Option<Point>)
    requires |ring| >= 2
  {
    var distance, bestDistance := Clearance(lib, p, ring), BestDistance(lib, ring, best);
    || distance > bestDistance + AnchorTolerance
    || (Abs(distance - bestDistance) <= AnchorTolerance && CoordinateLess(p, best))
  }

  function BestDistance(lib: Library, ring: Ring, best: Option<Point>): real
    requires |ring| >= 2
  {
    if best.None? then -1.0 else Clearance(lib, best.value, ring)
  }

  /** The best of the points strictly inside, as they come. */
  function BestOf(lib: Library, ring: Ring, points: seq<Point>): Option<Point>
    requires |ring| >= 2
  {
    if |points| == 0 then None
    else
      var best, p := BestOf(lib, ring, points[..|points| - 1]), points[|points| - 1];
      if StrictlyInside(p, ring) && Improves(lib, ring, p, best) then Some(p) else best
  }

  lemma {:induction false} BestOfMore(lib: Library, ring: Ring, points: seq<Point>, p: Point)
    requires |ring| >= 2
    ensures BestOf(lib, ring, points + [p]) ==
            var best := BestOf(lib, ring, points);
            if StrictlyInside(p, ring) && Improves(lib, ring, p, best) then Some(p) else best
  {
    hide StrictlyInside, Improves;
    assert (points + [p])[..|points|] == points;
  }

  /** One resolution of the grid search. */
  method SearchGrid(lib: Library, ring: Ring, b: Bounds, divisions: int) returns (best: Option<Point>)
    requires |ring| >= 2 && divisions > 0
    ensures best == BestOf(lib, ring, GridCells(b, divisions))
  {
    hide Clearance, StrictlyInside, CellCentre, CoordinateLess, BestOf;
    best := None;
    var bestDistance := -1.0;
    NoneIsBest(lib, ring);
    for row := 0 to divisions
      invariant best == BestOf(lib, ring, CellsBefore(b, divisions, row, 0))
      invariant bestDistance == BestDistance(lib, ring, best)
    {
      for column := 0 to divisions
        invariant best == BestOf(lib, ring, CellsBefore(b, divisions, row, column))
        invariant bestDistance == BestDistance(lib, ring, best)
      {
        var point := CellCentre(b, divisions, row, column);
        BestOfMore(lib, ring, CellsBefore(b, divisions, row, column), point);
        var inside := PointStrictlyInside(point, ring);
        if !inside { continue; }
        var distance := MinimumDistanceToRing(lib, point, ring);
        if distance > bestDistance + AnchorTolerance
           || (Abs(distance - bestDistance) <= AnchorTolerance && CoordinateLess(point, best)) {
          best, bestDistance := Some(point), distance;
        }
      }
    }
  }

  lemma {:induction false} NoneIsBest(lib: Library, ring: Ring)
    requires |ring| >= 2
    ensures BestOf(lib, ring, []) == None
  {}

  /**
    The best of the cells before a cell is one of them and nearly clears the boundary most.  The
    coordinate tie-break could only lower the clearance, and it never applies.
  */
  lemma {:induction false} BestSoFar(lib: Library, ring: Ring, b: Bounds, divisions: int, row: nat, column: nat)
    returns (bestRow: int, bestColumn: int)
    requires Plausible(lib) && Closed(ring) && IsBoundsOf(b, ring) && divisions > 0
    requires if row < divisions then column <= divisions else row == divisions && column == 0
    ensures var best := BestOf(lib, ring, CellsBefore(b, divisions, row, column));
            SearchState(lib, ring, b, divisions, best, BestDistance(lib, ring, best), bestRow, bestColumn, row, column)
    decreases row, column
  {
    hide StrictlyInside, IsBoundsOf, CellCentre, Clearance, Plausible, BestOf, SearchState, Improves;
    if column > 0 {
      bestRow, bestColumn := BestSoFar(lib, ring, b, divisions, row, column - 1);
      var p := CellCentre(b, divisions, row, column - 1);
      var best := BestOf(lib, ring, CellsBefore(b, divisions, row, column - 1));
      BestOfMore(lib, ring, CellsBefore(b, divisions, row, column - 1), p);
      if StrictlyInside(p, ring) {
        TieBreakNeverApplies(lib, ring, b, divisions, best, BestDistance(lib, ring, best), bestRow, bestColumn, row,
                             column - 1);
        InteriorCellSeen(lib, ring, b, divisions, best, bestRow, bestColumn, row, column - 1);
        if Improves(lib, ring, p, best) { bestRow, bestColumn := row, column - 1; }
      } else {
        OtherCellSeen(lib, ring, b, divisions, best, bestRow, bestColumn, row, column - 1);
      }
    } else if row > 0 {
      bestRow, bestColumn := BestSoFar(lib, ring, b, divisions, row - 1, divisions);
      var best := BestOf(lib, ring, CellsBefore(b, divisions, row - 1, divisions));
      NextRow(lib, ring, b, divisions, best, bestRow, bestColumn, row - 1);
    } else {
      bestRow, bestColumn := 0, 0;
      NoneIsBest(lib, ring);
      NothingSeen(lib, ring, b, divisions);
    }
  }

  lemma {:induction false} NothingSeen(lib: Library, ring: Ring, b: Bounds, divisions: int)
    requires divisions > 0 && |ring| >= 2
    ensures SearchState(lib, ring, b, divisions, None, BestDistance(lib, ring, None), 0, 0, 0, 0)
  {
    hide StrictlyInside, CellCentre, Clearance;
  }

  lemma {:induction false} NextRow(lib: Library, ring: Ring, b: Bounds, divisions: int, best: Option<Point>,
                                   bestRow: int, bestColumn: int, row: nat)
    requires divisions > 0 && |ring| >= 2
    requires SearchState(lib, ring, b, divisions, best, BestDistance(lib, ring, best), bestRow, bestColumn, row,
                         divisions)
    ensures SearchState(lib, ring, b, divisions, best, BestDistance(lib, ring, best), bestRow, bestColumn, row + 1, 0)
  {
    hide StrictlyInside, CellCentre, Clearance;
  }

  lemma {:induction false} OtherCellSeen(lib: Library, ring: Ring, b: Bounds, divisions: int, best: Option<Point>,
                                         bestRow: int, bestColumn: int, row: nat, column: nat)
    requires divisions > 0 && |ring| >= 2 && !StrictlyInside(CellCentre(b, divisions, row, column), ring)
    requires SearchState(lib, ring, b, divisions, best, BestDistance(lib, ring, best), bestRow, bestColumn, row, column)
    ensures SearchState(lib, ring, b, divisions, best, BestDistance(lib, ring, best), bestRow, bestColumn, row,
                        column + 1)
  {
    hide StrictlyInside, CellCentre, Clearance;
  }

  lemma {:induction false} InteriorCellSeen(lib: Library, ring: Ring, b: Bounds, divisions: int, best: Option<Point>,
                                            bestRow: int, bestColumn: int, row: nat, column: nat)
    requires divisions > 0 && |ring| >= 2 && IsCell(divisions, row, column)
    requires StrictlyInside(CellCentre(b, divisions, row, column), ring)
    requires SearchState(lib, ring, b, divisions, best, BestDistance(lib, ring, best), bestRow, bestColumn, row, column)
    requires Clearance(lib, CellCentre(b, divisions, row, column), ring) >= 0.0
    requires best.Some? ==> !CoordinateLess(CellCentre(b, divisions, row, column), best)
    ensures var p := CellCentre(b, divisions, row, column);
            if Improves(lib, ring, p, best)
            then SearchState(lib, ring, b, divisions, Some(p), BestDistance(lib, ring, Some(p)), row, column, row,
                             column + 1)
            else SearchState(lib, ring, b, divisions, best, BestDistance(lib, ring, best), bestRow, bestColumn, row,
                             column + 1)
  {
    hide StrictlyInside, CellCentre, Clearance, CoordinateLess;
  }

  /** What one resolution finds: an interior cell centre that nearly clears the boundary most, or that there is none. */
  lemma {:induction false} GridBest(lib: Library, ring: Ring, b: Bounds, divisions: int)
    requires Plausible(lib) && Closed(ring) && IsBoundsOf(b, ring) && divisions > 0
    ensures var best := BestOf(lib, ring, GridCells(b, divisions));
            if best.None? then NoInteriorCell(ring, b, divisions) else BestCell(lib, ring, b, divisions, best.value)
  {
    hide StrictlyInside, IsBoundsOf, CellCentre, Clearance, BestOf, CellsBefore, Plausible;
    var row, column := BestSoFar(lib, ring, b, divisions, divisions, 0);
  }

  /** What the search knows when it reaches a cell. */
  ghost predicate SearchState(lib: Library, ring: Ring, b: Bounds, divisions: int, best: Option<Point>,
                              bestDistance: real, bestRow: int, bestColumn: int, row: int, column: int)
    requires divisions > 0 && |ring| >= 2
  {
    && (best.None? ==>
          && bestDistance == -1.0
          && forall r, c :: Precedes(r, c, row, column) ==> !InteriorCell(ring, b, divisions, r, c))
    && (best.Some? ==>
          && InteriorCell(ring, b, divisions, bestRow, bestColumn) && Precedes(bestRow, bestColumn, row, column)
          && best.value == CellCentre(b, divisions, bestRow, bestColumn)
          && bestDistance == Clearance(lib, best.value, ring)
          && forall r, c :: Precedes(r, c, row, column) && InteriorCell(ring, b, divisions, r, c) ==>
               Clearance(lib, CellCentre(b, divisions, r, c), ring) <= bestDistance + AnchorTolerance)
  }

  lemma {:induction false} TieBreakNeverApplies(lib: Library, ring: Ring, b: Bounds, divisions: int,
                                                best: Option<Point>, bestDistance: real, bestRow: int, bestColumn: int,
                                                row: int, column: int)
    requires Plausible(lib) && Closed(ring) && IsBoundsOf(b, ring) && divisions > 0
    requires SearchState(lib, ring, b, divisions, best, bestDistance, bestRow, bestColumn, row, column)
    requires StrictlyInside(CellCentre(b, divisions, row, column), ring)
    ensures Clearance(lib, CellCentre(b, divisions, row, column), ring) >= 0.0
    ensures best.Some? ==> !CoordinateLess(CellCentre(b, divisions, row, column), best)
  {
    hide StrictlyInside, IsBoundsOf, CoordinateLess, CellCentre, Clearance;
    var i := ClearanceIsMinimum(lib, CellCentre(b, divisions, row, column), ring);
    InteriorNeedsHeight(CellCentre(b, divisions, row, column), ring, b);
    if best.Some? { LaterCellIsNotLess(b, divisions, bestRow, bestColumn, row, column); }
  }

  /** The centroid, when it lies strictly inside, is the anchor. */
  predicate CentroidServes(ring: Ring)
    requires |ring| > 0
  {
    var centroid := Shoelace.CentroidAbout(ring[0], ring);
    centroid.Some? && StrictlyInside(centroid.value, ring)
  }

  predicate IsAnchorResolution(divisions: int) { divisions in {4, 8, 16, 32, 64} }

  /** An interior cell centre that nearly clears the boundary best, at a resolution. */
  ghost predicate BestCell(lib: Library, ring: Ring, b: Bounds, divisions: int, p: Point)
    requires divisions > 0 && |ring| >= 2
  {
    && StrictlyInside(p, ring) && NearlyBest(lib, ring, b, divisions, p)
    && exists row, column :: IsCell(divisions, row, column) && p == CellCentre(b, divisions, row, column)
  }

  /**
    The centroid if that is strictly inside; otherwise an interior cell centre at the first
    resolution that has one, nearly as far from the boundary as any other; nothing only if no
    resolution has one.
  */
  ghost predicate AnchorIn(lib: Library, ring: Ring, b: Bounds, anchor: Option<Point>)
    requires |ring| >= 2
  {
    && IsBoundsOf(b, ring)
    && if CentroidServes(ring) then anchor == Shoelace.CentroidAbout(ring[0], ring)
       else match anchor
            case None => forall d :: IsAnchorResolution(d) ==> NoInteriorCell(ring, b, d)
            case Some(p) => exists d :: IsAnchorResolution(d) && BestCell(lib, ring, b, d, p)
                                        && forall c :: IsAnchorResolution(c) && c < d ==> NoInteriorCell(ring, b, c)
  }

  /** The best cell centre of the first resolution that has one. */
  function FirstBest(lib: Library, ring: Ring, b: Bounds, divisions: int): Option<Point>
    requires |ring| >= 2 && divisions > 0
    decreases 128 - divisions
  {
    if divisions > 64 then None
    else
      var best := BestOf(lib, ring, GridCells(b, divisions));
      if best.Some? then best else FirstBest(lib, ring, b, divisions * 2)
  }

  function AnchorOf(lib: Library, ring: Ring): Option<Point>
    requires |ring| >= 2
  {
    if CentroidServes(ring) then Shoelace.CentroidAbout(ring[0], ring) else FirstBest(lib, ring, BoundsOf(ring), 4)
  }

  /** `interiorAnchor` */
  method InteriorAnchor(lib: Library, ring: Ring) returns (anchor: Option<Point>)
    requires |ring| >= 2
    ensures anchor == AnchorOf(lib, ring)
  {
    hide StrictlyInside, BestOf, GridCells, Shoelace.CentroidAbout, BoundsOf;
    var centroid := Shoelace.PolygonCentroid(ring);
    if centroid.Some? {
      var inside := PointStrictlyInside(centroid.value, ring);
      if inside { return centroid; }
    }
    var b := RingBounds(ring);
    var divisions := 4;
    while divisions <= 64
      invariant divisions > 0 && FirstBest(lib, ring, b, 4) == FirstBest(lib, ring, b, divisions)
      decreases 128 - divisions
    {
      var best := SearchGrid(lib, ring, b, divisions);
      if best.Some? { return best; }
      divisions := divisions * 2;
    }
    return None;
  }

  lemma {:induction false} FirstBestIs(lib: Library, ring: Ring, b: Bounds, divisions: int)
    requires Plausible(lib) && Closed(ring) && IsBoundsOf(b, ring)
             && (IsAnchorResolution(divisions) || divisions == 128)
    requires forall c :: IsAnchorResolution(c) && c < divisions ==> NoInteriorCell(ring, b, c)
    ensures match FirstBest(lib, ring, b, divisions)
            case None => forall d :: IsAnchorResolution(d) ==> NoInteriorCell(ring, b, d)
            case Some(p) => exists d :: IsAnchorResolution(d) && BestCell(lib, ring, b, d, p)
                                        && forall c :: IsAnchorResolution(c) && c < d ==> NoInteriorCell(ring, b, c)
    decreases 128 - divisions
  {
    hide BestOf, GridCells, BestCell, NoInteriorCell, IsBoundsOf, Plausible;
    if divisions <= 64 {
      GridBest(lib, ring, b, divisions);
      if BestOf(lib, ring, GridCells(b, divisions)).None? { FirstBestIs(lib, ring, b, divisions * 2); }
    }
  }

  /** What the anchor is. */
  lemma {:induction false} AnchorMeaning(lib: Library, ring: Ring)
    requires Plausible(lib) && Closed(ring)
    ensures AnchorIn(lib, ring, BoundsOf(ring), AnchorOf(lib, ring))
  {
    BoxIsTight(ring);
    FirstBestIs(lib, ring, BoundsOf(ring), 4);
    hide FirstBest, BestCell, NoInteriorCell, StrictlyInside, IsBoundsOf, Shoelace.CentroidAbout, BoundsOf;
  }

  /** Wherever it comes from, the anchor is strictly inside. */
  lemma {:induction false} AnchorIsInside(lib: Library, ring: Ring)
    requires Plausible(lib) && Closed(ring) && AnchorOf(lib, ring).Some?
    ensures StrictlyInside(AnchorOf(lib, ring).value, ring)
  {
    AnchorMeaning(lib, ring);
    hide StrictlyInside, Shoelace.CentroidAbout, NearlyBest, NoInteriorCell, FirstBest, AnchorOf, BoundsOf;
    if CentroidServes(ring) {
      assert AnchorOf(lib, ring) == Shoelace.CentroidAbout(ring[0], ring);
    } else {
      var d :| IsAnchorResolution(d) && BestCell(lib, ring, BoundsOf(ring), d, AnchorOf(lib, ring).value);
    }
  }

  // ---------- selecting samples ----------

  datatype SamplingPolicy = SamplingPolicy(
    algorithmVersion: string, target: int, maxRequest: int, minimumSpacing: real, nearDistance: real)

  const PolygonSamplingV1: string := "POLYGON_STRATIFIED_SCREEN_V1"

  datatype SamplingError = UnsupportedPolicy | LimitExceeded | TargetUnmet | NoAnchor

  datatype SamplePlan = SamplePlan(locations: seq<Point>, nearSamples: nat, interiorSamples: nat)

  /** Some selected point is closer to p than the minimum spacing. */
  ghost predicate Crowded(lib: Library, selected: seq<Candidate>, p: Point, spacing: real) {
    exists k :: 0 <= k < |selected| && CoordinateDistance(lib, selected[k].point, p) < spacing
  }

  function NearCount(selected: seq<Candidate>): nat {
    if |selected| == 0 then 0
    else NearCount(selected[..|selected| - 1]) + (if selected[|selected| - 1].near then 1 else 0)
  }

  /** The flag of a candidate says whether it is within the near distance of the boundary. */
  predicate TrulyFlagged(lib: Library, ring: Ring, policy: SamplingPolicy, c: Candidate)
    requires |ring| >= 2
  {
    c.near <==> Clearance(lib, c.point, ring) <= policy.nearDistance
  }

  ghost predicate Spaced(lib: Library, selected: seq<Candidate>, spacing: real) {
    forall i, j :: 0 <= i < j < |selected| ==> CoordinateDistance(lib, selected[i].point, selected[j].point) >= spacing
  }

  /** The anchor first, never flagged; the rest strictly inside, truly flagged; all spaced out. */
  ghost predicate GoodSelection(lib: Library, ring: Ring, policy: SamplingPolicy, selected: seq<Candidate>)
    requires |ring| >= 2
  {
    && 1 <= |selected| <= policy.target && !selected[0].near
    && (forall i :: 0 <= i < |selected| ==> StrictlyInside(selected[i].point, ring))
    && (forall i :: 0 < i < |selected| ==> TrulyFlagged(lib, ring, policy, selected[i]))
    && Spaced(lib, selected, policy.minimumSpacing)
  }

  /** A place has been dealt with: the plan is full, or something selected is too close to it. */
  ghost predicate Settled(lib: Library, policy: SamplingPolicy, selected: seq<Candidate>, p: Point) {
    |selected| == policy.target || Crowded(lib, selected, p, policy.minimumSpacing)
  }

  /** The selection with a candidate added, if there is room and nothing selected is too close. */
  ghost function Appended(lib: Library, selected: seq<Candidate>, c: Candidate, spacing: real,
                          target: int): seq<Candidate> {
    if |selected| >= target || Crowded(lib, selected, c.point, spacing) then selected else selected + [c]
  }

  /** `appendCandidate` */
  method AppendCandidate(lib: Library, selected: seq<Candidate>, candidate: Candidate, spacing: real, target: int)
    returns (r: seq<Candidate>)
    ensures r == Appended(lib, selected, candidate, spacing, target)
  {
    hide CoordinateDistance;
    if |selected| >= target { return selected; }
    for k := 0 to |selected|
      invariant forall i :: 0 <= i < k ==> CoordinateDistance(lib, selected[i].point, candidate.point) >= spacing
    {
      if CoordinateDistance(lib, selected[k].point, candidate.point) < spacing { return selected; }
    }
    return selected + [candidate];
  }

  lemma {:induction false} CrowdedStays(lib: Library, selected: seq<Candidate>, more: seq<Candidate>, p: Point,
                                        spacing: real)
    requires selected <= more && Crowded(lib, selected, p, spacing)
    ensures Crowded(lib, more, p, spacing)
  {
    hide CoordinateDistance;
    var k :| 0 <= k < |selected| && CoordinateDistance(lib, selected[k].point, p) < spacing;
    assert more[k] == selected[k];
  }

  /** Appending keeps the selection good and settles the candidate. */
  lemma {:induction false} AppendKeeps(lib: Library, ring: Ring, policy: SamplingPolicy, selected: seq<Candidate>,
                                       c: Candidate)
    requires Plausible(lib) && |ring| >= 2 && policy.minimumSpacing > 0.0
    requires GoodSelection(lib, ring, policy, selected)
    requires StrictlyInside(c.point, ring) && TrulyFlagged(lib, ring, policy, c)
    ensures var r := Appended(lib, selected, c, policy.minimumSpacing, policy.target);
            GoodSelection(lib, ring, policy, r) && selected <= r && Settled(lib, policy, r, c.point)
  {
    hide CoordinateDistance, TrulyFlagged, StrictlyInside, Plausible, Crowded, Spaced;
    var r := Appended(lib, selected, c, policy.minimumSpacing, policy.target);
    if r != selected {
      SpacedMore(lib, selected, c, policy.minimumSpacing);
      CrowdsItself(lib, selected, c, policy.minimumSpacing);
    }
  }

  lemma {:induction false} SpacedMore(lib: Library, selected: seq<Candidate>, c: Candidate, spacing: real)
    requires Spaced(lib, selected, spacing) && !Crowded(lib, selected, c.point, spacing)
    ensures Spaced(lib, selected + [c], spacing)
  {
    hide CoordinateDistance;
  }

  lemma {:induction false} CrowdsItself(lib: Library, selected: seq<Candidate>, c: Candidate, spacing: real)
    requires Plausible(lib) && spacing > 0.0
    ensures Crowded(lib, selected + [c], c.point, spacing)
  {
    SelfDistance(lib, c.point);
    hide CoordinateDistance, Plausible;
    assert (selected + [c])[|selected|] == c;
  }

  lemma {:induction false} SettledStays(lib: Library, policy: SamplingPolicy, selected: seq<Candidate>,
                                        more: seq<Candidate>, p: Point)
    requires selected <= more && |more| <= policy.target && Settled(lib, policy, selected, p)
    ensures Settled(lib, policy, more, p)
  {
    hide Crowded;
    if |selected| != policy.target { CrowdedStays(lib, selected, more, p, policy.minimumSpacing); }
  }

  /** Candidates worth offering: strictly inside and truly flagged. */
  ghost predicate Proper(lib: Library, ring: Ring, policy: SamplingPolicy, candidates: seq<Candidate>)
    requires |ring| >= 2
  {
    forall k :: 0 <= k < |candidates| ==>
      StrictlyInside(candidates[k].point, ring) && TrulyFlagged(lib, ring, policy, candidates[k])
  }

  ghost predicate Listed(candidates: seq<Candidate>, p: Point) {
    exists k :: 0 <= k < |candidates| && candidates[k].point == p
  }

  function Flag(lib: Library, ring: Ring, policy: SamplingPolicy, p: Point): Candidate
    requires |ring| >= 2
  {
    Candidate(p, Clearance(lib, p, ring) <= policy.nearDistance)
  }

  method Flagged(lib: Library, ring: Ring, policy: SamplingPolicy, p: Point) returns (c: Candidate)
    requires |ring| >= 2
    ensures c == Flag(lib, ring, policy, p)
  {
    var clearance := MinimumDistanceToRing(lib, p, ring);
    c := Candidate(p, clearance <= policy.nearDistance);
  }

  /** The points strictly inside, flagged, in order. */
  function InteriorOf(lib: Library, ring: Ring, policy: SamplingPolicy, points: seq<Point>): seq<Candidate>
    requires |ring| >= 2
  {
    if |points| == 0 then []
    else
      var front := InteriorOf(lib, ring, policy, points[..|points| - 1]);
      var p := points[|points| - 1];
      if StrictlyInside(p, ring) then front + [Flag(lib, ring, policy, p)] else front
  }

  lemma {:induction false} InteriorOfMore(lib: Library, ring: Ring, policy: SamplingPolicy, points: seq<Point>,
                                          p: Point)
    requires |ring| >= 2
    ensures InteriorOf(lib, ring, policy, points + [p]) ==
            InteriorOf(lib, ring, policy, points) + if StrictlyInside(p, ring) then [Flag(lib, ring, policy, p)] else []
  {
    hide StrictlyInside, Flag;
    assert (points + [p])[..|points|] == points;
  }

  /** Exactly the points strictly inside are listed, each truly flagged. */
  lemma {:induction false} InteriorOfIsProper(lib: Library, ring: Ring, policy: SamplingPolicy, points: seq<Point>)
    requires |ring| >= 2
    ensures Proper(lib, ring, policy, InteriorOf(lib, ring, policy, points))
    ensures forall p :: Listed(InteriorOf(lib, ring, policy, points), p) <==> p in points && StrictlyInside(p, ring)
  {
    if |points| > 0 {
      var n := |points| - 1;
      var front, last := points[..n], points[n];
      InteriorOfIsProper(lib, ring, policy, front);
      InteriorOfMore(lib, ring, policy, front, last);
      assert points == front + [last];
      ListMore(InteriorOf(lib, ring, policy, front), Flag(lib, ring, policy, last));
      hide StrictlyInside, InteriorOf, Listed, Clearance;
    }
  }

  lemma {:induction false} ListMore(candidates: seq<Candidate>, c: Candidate)
    ensures forall p :: Listed(candidates + [c], p) <==> Listed(candidates, p) || p == c.point
  {
    var more := candidates + [c];
    assert more[|candidates|] == c;
    forall p | Listed(candidates, p) ensures Listed(more, p) {
      var k :| 0 <= k < |candidates| && candidates[k].point == p;
      assert more[k] == candidates[k];
    }
  }

  function QuadrantCentres(b: Bounds): seq<Point> {
    [Point(b.minX + (b.maxX - b.minX) * 0.25, b.minY + (b.maxY - b.minY) * 0.25),
     Point(b.minX + (b.maxX - b.minX) * 0.75, b.minY + (b.maxY - b.minY) * 0.25),
     Point(b.minX + (b.maxX - b.minX) * 0.25, b.minY + (b.maxY - b.minY) * 0.75),
     Point(b.minX + (b.maxX - b.minX) * 0.75, b.minY + (b.maxY - b.minY) * 0.75)]
  }

  method ValidQuadrants(lib: Library, ring: Ring, policy: SamplingPolicy, b: Bounds) returns (valid: seq<Candidate>)
    requires |ring| >= 2
    ensures valid == InteriorOf(lib, ring, policy, QuadrantCentres(b))
  {
    hide StrictlyInside, Flag, InteriorOf, QuadrantCentres;
    valid := [];
    var quadrants := QuadrantCentres(b);
    NoPoints(lib, ring, policy);
    for i := 0 to |quadrants|
      invariant valid == InteriorOf(lib, ring, policy, quadrants[..i])
    {
      InteriorOfMore(lib, ring, policy, quadrants[..i], quadrants[i]);
      assert quadrants[..i] + [quadrants[i]] == quadrants[..i + 1];
      var inside := PointStrictlyInside(quadrants[i], ring);
      if inside {
        var candidate := Flagged(lib, ring, policy, quadrants[i]);
        valid := valid + [candidate];
      }
    }
    assert quadrants[..|quadrants|] == quadrants;
  }

  lemma {:induction false} NoPoints(lib: Library, ring: Ring, policy: SamplingPolicy)
    requires |ring| >= 2
    ensures InteriorOf(lib, ring, policy, []) == []
  {}

  /** Candidates offered in order, skipping interior ones when only those near the boundary are wanted. */
  ghost function Offered(lib: Library, policy: SamplingPolicy, start: seq<Candidate>, candidates: seq<Candidate>,
                         nearOnly: bool): seq<Candidate> {
    if |candidates| == 0 then start
    else
      var front, c := Offered(lib, policy, start, candidates[..|candidates| - 1], nearOnly),
        candidates[|candidates| - 1];
      if nearOnly && !c.near then front else Appended(lib, front, c, policy.minimumSpacing, policy.target)
  }

  method OfferAll(lib: Library, policy: SamplingPolicy, start: seq<Candidate>, candidates: seq<Candidate>,
                  nearOnly: bool)
    returns (selected: seq<Candidate>)
    ensures selected == Offered(lib, policy, start, candidates, nearOnly)
  {
    hide Appended;
    selected := start;
    for i := 0 to |candidates|
      invariant selected == Offered(lib, policy, start, candidates[..i], nearOnly)
    {
      assert candidates[..i + 1][..i] == candidates[..i];
      if nearOnly && !candidates[i].near { continue; }
      selected := AppendCandidate(lib, selected, candidates[i], policy.minimumSpacing, policy.target);
    }
    assert candidates[..|candidates|] == candidates;
  }

  /** Offering keeps the selection good and settles every candidate that is wanted. */
  lemma {:induction false} OfferedIsGood(lib: Library, ring: Ring, policy: SamplingPolicy, start: seq<Candidate>,
                                         candidates: seq<Candidate>, nearOnly: bool)
    requires Plausible(lib) && |ring| >= 2 && policy.minimumSpacing > 0.0
    requires GoodSelection(lib, ring, policy, start) && Proper(lib, ring, policy, candidates)
    ensures var selected := Offered(lib, policy, start, candidates, nearOnly);
            && GoodSelection(lib, ring, policy, selected) && start <= selected
            && forall k :: 0 <= k < |candidates| && (nearOnly ==> candidates[k].near) ==>
                Settled(lib, policy, selected, candidates[k].point)
  {
    hide StrictlyInside, TrulyFlagged, Settled, Plausible, Appended, Spaced;
    if |candidates| > 0 {
      var n := |candidates| - 1;
      var front, c := candidates[..n], candidates[n];
      OfferedIsGood(lib, ring, policy, start, front, nearOnly);
      var before, selected := Offered(lib, policy, start, front, nearOnly),
        Offered(lib, policy, start, candidates, nearOnly);
      if !nearOnly || c.near {
        AppendKeeps(lib, ring, policy, before, c);
        forall k | 0 <= k < n && (nearOnly ==> candidates[k].near)
          ensures Settled(lib, policy, selected, candidates[k].point) {
          assert front[k] == candidates[k];
          SettledStays(lib, policy, before, selected, candidates[k].point);
        }
      } else {
        assert forall k :: 0 <= k < n ==> front[k] == candidates[k];
      }
    }
  }

  const Insets: seq<real> := [0.05, 0.1, 0.2, 0.35]

  /** The point of an edge's midpoint moved an inset towards the anchor. */
  function InsetPoint(ring: Ring, anchor: Point, edge: nat, inset: real): Point
    requires edge + 1 < |ring|
  {
    var midpoint := Midpoint(ring[edge], ring[edge + 1]);
    Point(midpoint.x + (anchor.x - midpoint.x) * inset, midpoint.y + (anchor.y - midpoint.y) * inset)
  }

  predicate GoodInset(lib: Library, ring: Ring, policy: SamplingPolicy, p: Point)
    requires |ring| >= 2
  {
    StrictlyInside(p, ring) && Clearance(lib, p, ring) <= policy.nearDistance
  }

  /** The first inset from the k-th on that is strictly inside and near the boundary. */
  function FirstInset(lib: Library, ring: Ring, policy: SamplingPolicy, anchor: Point, edge: nat, k: nat): Option<Point>
    requires edge + 1 < |ring| && k <= |Insets|
    decreases |Insets| - k
  {
    if k == |Insets| then None
    else
      var p := InsetPoint(ring, anchor, edge, Insets[k]);
      if GoodInset(lib, ring, policy, p) then Some(p) else FirstInset(lib, ring, policy, anchor, edge, k + 1)
  }

  /** From an edge on, the first good inset of each, as long as fewer than two points are near the boundary. */
  ghost function EdgesOffered(lib: Library, ring: Ring, policy: SamplingPolicy, selected: seq<Candidate>, anchor: Point,
                              edge: nat): seq<Candidate>
    requires edge < |ring|
    decreases |ring| - edge
  {
    if NearCount(selected) >= 2 || edge + 1 >= |ring| then selected
    else
      var next := match FirstInset(lib, ring, policy, anchor, edge, 0)
                  case None => selected
                  case Some(p) => Appended(lib, selected, Candidate(p, true), policy.minimumSpacing, policy.target);
      EdgesOffered(lib, ring, policy, next, anchor, edge + 1)
  }

  method FindInset(lib: Library, ring: Ring, policy: SamplingPolicy, anchor: Point, edge: nat)
    returns (found: Option<Point>)
    requires edge + 1 < |ring|
    ensures found == FirstInset(lib, ring, policy, anchor, edge, 0)
  {
    hide StrictlyInside, InsetPoint;
    var k := 0;
    while k < |Insets|
      invariant k <= |Insets|
      invariant FirstInset(lib, ring, policy, anchor, edge, 0) == FirstInset(lib, ring, policy, anchor, edge, k)
    {
      var point := InsetPoint(ring, anchor, edge, Insets[k]);
      var inside := PointStrictlyInside(point, ring);
      if inside {
        var clearance := MinimumDistanceToRing(lib, point, ring);
        if clearance <= policy.nearDistance { return Some(point); }
      }
      k := k + 1;
    }
    return None;
  }

  /** Looks for more points near the boundary: from each edge's midpoint a little way towards the anchor. */
  method OfferEdgeInsets(lib: Library, ring: Ring, policy: SamplingPolicy, start: seq<Candidate>, anchor: Point)
    returns (selected: seq<Candidate>)
    requires |ring| >= 2
    ensures selected == EdgesOffered(lib, ring, policy, start, anchor, 0)
  {
    hide Appended, FirstInset;
    selected := start;
    var edge := 0;
    while NearCount(selected) < 2 && edge < |ring| - 1
      invariant edge < |ring|
      invariant EdgesOffered(lib, ring, policy, start, anchor, 0) ==
                  EdgesOffered(lib, ring, policy, selected, anchor, edge)
      decreases |ring| - edge
    {
      var found := FindInset(lib, ring, policy, anchor, edge);
      if found.Some? {
        selected := AppendCandidate(lib, selected, Candidate(found.value, true), policy.minimumSpacing, policy.target);
      }
      edge := edge + 1;
    }
  }

  lemma {:induction false} FirstInsetIsGood(lib: Library, ring: Ring, policy: SamplingPolicy, anchor: Point, edge: nat,
                                            k: nat)
    requires edge + 1 < |ring| && k <= |Insets|
    ensures var found := FirstInset(lib, ring, policy, anchor, edge, k);
            found.Some? ==> GoodInset(lib, ring, policy, found.value)
    decreases |Insets| - k
  {
    hide GoodInset, InsetPoint;
    if k < |Insets| { FirstInsetIsGood(lib, ring, policy, anchor, edge, k + 1); }
  }

  /** Edge insets keep the selection good. */
  lemma {:induction false} EdgesOfferedIsGood(lib: Library, ring: Ring, policy: SamplingPolicy,
                                              selected: seq<Candidate>, anchor: Point, edge: nat)
    requires Plausible(lib) && edge < |ring| && |ring| >= 2 && policy.minimumSpacing > 0.0
    requires GoodSelection(lib, ring, policy, selected)
    ensures var more := EdgesOffered(lib, ring, policy, selected, anchor, edge);
            GoodSelection(lib, ring, policy, more) && selected <= more
    decreases |ring| - edge
  {
    hide StrictlyInside, Settled, Plausible, Appended, Spaced, FirstInset, Clearance;
    if NearCount(selected) < 2 && edge + 1 < |ring| {
      var found := FirstInset(lib, ring, policy, anchor, edge, 0);
      if found.Some? {
        var c := Candidate(found.value, true);
        FirstInsetIsGood(lib, ring, policy, anchor, edge, 0);
        AppendKeeps(lib, ring, policy, selected, c);
        EdgesOfferedIsGood(lib, ring, policy, Appended(lib, selected, c, policy.minimumSpacing, policy.target), anchor,
                           edge + 1);
      } else {
        EdgesOfferedIsGood(lib, ring, policy, selected, anchor, edge + 1);
      }
    }
  }

  // ---------- filling up from ever finer grids ----------

  /** The distance from p to the nearest selected point. */
  function DistanceToSelected(lib: Library, p: Point, selected: seq<Candidate>): real
    requires |selected| > 0
  {
    var n := |selected| - 1;
    var last := CoordinateDistance(lib, p, selected[n].point);
    if n == 0 then last else Min(DistanceToSelected(lib, p, selected[..n]), last)
  }

  /** What the candidates are sorted by; its tolerance keeps it from being an order.  Something is always selected. */
  predicate FartherFirst(lib: Library, selected: seq<Candidate>, a: Candidate, b: Candidate) {
    |selected| > 0 &&
    var left, right := DistanceToSelected(lib, a.point, selected), DistanceToSelected(lib, b.point, selected);
    if Abs(left - right) > AnchorTolerance then left > right
    else if a.point.y != b.point.y then a.point.y < b.point.y
    else a.point.x < b.point.x
  }

  /** The candidates as the library sorts them. */
  function FarthestFirst(lib: Library, selected: seq<Candidate>, candidates: seq<Candidate>): seq<Candidate> {
    lib.stableSort(candidates, (a: Candidate, b: Candidate) => FartherFirst(lib, selected, a, b))
  }

  lemma {:induction false} SortRearranges(lib: Library, selected: seq<Candidate>, candidates: seq<Candidate>)
    requires Plausible(lib)
    ensures multiset(FarthestFirst(lib, selected, candidates)) == multiset(candidates)
  {
    hide FartherFirst;
  }

  lemma {:induction false} SortKeepsCandidates(lib: Library, ring: Ring, policy: SamplingPolicy, a: seq<Candidate>,
                                               b: seq<Candidate>)
    requires |ring| >= 2 && multiset(a) == multiset(b) && Proper(lib, ring, policy, a)
    ensures Proper(lib, ring, policy, b)
    ensures forall p :: Listed(a, p) ==> Listed(b, p)
  {
    hide StrictlyInside, TrulyFlagged;
    forall k | 0 <= k < |b| ensures StrictlyInside(b[k].point, ring) && TrulyFlagged(lib, ring, policy, b[k]) {
      assert b[k] in multiset(a);
      assert b[k] in a;
    }
    forall p | Listed(a, p) ensures Listed(b, p) {
      var k :| 0 <= k < |a| && a[k].point == p;
      assert a[k] in multiset(b);
      assert a[k] in b;
    }
  }

  lemma {:induction false} CellsAreVisited(b: Bounds, divisions: int, row: nat, column: nat, r: int, c: int)
    requires divisions > 0 && IsCell(divisions, r, c) && Precedes(r, c, row, column)
    ensures CellCentre(b, divisions, r, c) in CellsBefore(b, divisions, row, column)
    decreases row, column
  {
    hide CellCentre;
    if column > 0 {
      if (r, c) != (row, column - 1) { CellsAreVisited(b, divisions, row, column - 1, r, c); }
    } else {
      CellsAreVisited(b, divisions, row - 1, divisions, r, c);
    }
  }

  /** The candidates of one grid: all its interior cell centres. */
  method GridCandidates(lib: Library, ring: Ring, policy: SamplingPolicy, b: Bounds, divisions: int)
    returns (candidates: seq<Candidate>)
    requires |ring| >= 2 && divisions > 0
    ensures candidates == InteriorOf(lib, ring, policy, GridCells(b, divisions))
  {
    hide StrictlyInside, Flag, CellCentre, InteriorOf;
    candidates := [];
    NoPoints(lib, ring, policy);
    for row := 0 to divisions
      invariant candidates == InteriorOf(lib, ring, policy, CellsBefore(b, divisions, row, 0))
    {
      for column := 0 to divisions
        invariant candidates == InteriorOf(lib, ring, policy, CellsBefore(b, divisions, row, column))
      {
        var point := CellCentre(b, divisions, row, column);
        InteriorOfMore(lib, ring, policy, CellsBefore(b, divisions, row, column), point);
        var inside := PointStrictlyInside(point, ring);
        if inside {
          var candidate := Flagged(lib, ring, policy, point);
          candidates := candidates + [candidate];
        }
      }
    }
  }

  /** Every interior cell centre of a grid has been dealt with. */
  ghost predicate GridSettled(lib: Library, ring: Ring, policy: SamplingPolicy, b: Bounds, selected: seq<Candidate>,
                              divisions: int)
    requires divisions > 0
  {
    forall r, c :: InteriorCell(ring, b, divisions, r, c) ==>
        Settled(lib, policy, selected, CellCentre(b, divisions, r, c))
  }

  /** One grid's candidates offered, farthest first. */
  ghost function GridOffered(lib: Library, ring: Ring, policy: SamplingPolicy, b: Bounds, divisions: int,
                             selected: seq<Candidate>): seq<Candidate>
    requires |ring| >= 2 && divisions > 0
  {
    Offered(lib, policy, selected, FarthestFirst(lib, selected, InteriorOf(lib, ring, policy, GridCells(b, divisions))),
            false)
  }

  /** The grids from `divisions` to 32 offered one after the other, until the target is reached. */
  ghost function Filled(lib: Library, ring: Ring, policy: SamplingPolicy, b: Bounds, divisions: int,
                        selected: seq<Candidate>): seq<Candidate>
    requires |ring| >= 2 && divisions > 0
    decreases 33 - divisions
  {
    if |selected| >= policy.target || divisions > 32 then selected
    else Filled(lib, ring, policy, b, divisions + 1, GridOffered(lib, ring, policy, b, divisions, selected))
  }

  method FillFromGrids(lib: Library, ring: Ring, policy: SamplingPolicy, b: Bounds, start: seq<Candidate>)
    returns (selected: seq<Candidate>)
    requires |ring| >= 2
    ensures selected == Filled(lib, ring, policy, b, 3, start)
  {
    hide InteriorOf, GridCells, Offered, FarthestFirst;
    selected := start;
    var divisions := 3;
    while |selected| < policy.target && divisions <= 32
      invariant 3 <= divisions <= 33
      invariant Filled(lib, ring, policy, b, 3, start) == Filled(lib, ring, policy, b, divisions, selected)
      decreases 33 - divisions
    {
      var candidates := GridCandidates(lib, ring, policy, b, divisions);
      var sorted := FarthestFirst(lib, selected, candidates);
      selected := OfferAll(lib, policy, selected, sorted, false);
      divisions := divisions + 1;
    }
  }

  /** Offering a grid keeps the selection good and settles its interior cells. */
  lemma {:induction false} GridOfferedIsGood(lib: Library, ring: Ring, policy: SamplingPolicy, b: Bounds,
                                             divisions: int, before: seq<Candidate>)
    requires Plausible(lib) && |ring| >= 2 && policy.minimumSpacing > 0.0 && divisions > 0
    requires GoodSelection(lib, ring, policy, before)
    ensures var after := GridOffered(lib, ring, policy, b, divisions, before);
            GoodSelection(lib, ring, policy, after) && before <= after
              && GridSettled(lib, ring, policy, b, after, divisions)
  {
    hide StrictlyInside, TrulyFlagged, Settled, Plausible, Spaced, CellCentre, InteriorOf, CellsBefore, Offered, Proper,
      GoodSelection, Listed, FarthestFirst;
    var candidates := InteriorOf(lib, ring, policy, GridCells(b, divisions));
    var sorted, after := FarthestFirst(lib, before, candidates), GridOffered(lib, ring, policy, b, divisions, before);
    InteriorOfIsProper(lib, ring, policy, GridCells(b, divisions));
    SortRearranges(lib, before, candidates);
    SortKeepsCandidates(lib, ring, policy, candidates, sorted);
    OfferedIsGood(lib, ring, policy, before, sorted, false);
    forall r, c | InteriorCell(ring, b, divisions, r, c)
      ensures Settled(lib, policy, after, CellCentre(b, divisions, r, c)) {
      CellsAreVisited(b, divisions, divisions, 0, r, c);
      ListedAt(sorted, CellCentre(b, divisions, r, c));
    }
  }

  lemma {:induction false} ListedAt(candidates: seq<Candidate>, p: Point)
    requires Listed(candidates, p)
    ensures exists k :: 0 <= k < |candidates| && candidates[k].point == p
  {}

  /** Filling up keeps the selection good, and short of the target it has dealt with every grid. */
  lemma {:induction false} FilledIsGood(lib: Library, ring: Ring, policy: SamplingPolicy, b: Bounds, divisions: int,
                                        selected: seq<Candidate>)
    requires Plausible(lib) && |ring| >= 2 && policy.minimumSpacing > 0.0 && 3 <= divisions <= 33
    requires GoodSelection(lib, ring, policy, selected)
    requires forall d :: 3 <= d < divisions ==> GridSettled(lib, ring, policy, b, selected, d)
    ensures var filled := Filled(lib, ring, policy, b, divisions, selected);
            && GoodSelection(lib, ring, policy, filled) && selected <= filled
            && (|filled| < policy.target ==> forall d :: 3 <= d <= 32 ==> GridSettled(lib, ring, policy, b, filled, d))
    decreases 33 - divisions
  {
    hide StrictlyInside, Plausible, Spaced, TrulyFlagged, GridSettled, GridOffered;
    if |selected| < policy.target && divisions <= 32 {
      var after := GridOffered(lib, ring, policy, b, divisions, selected);
      GridOfferedIsGood(lib, ring, policy, b, divisions, selected);
      forall d | 3 <= d < divisions ensures GridSettled(lib, ring, policy, b, after, d) {
        GridStaysSettled(lib, ring, policy, b, selected, after, d);
      }
      FilledIsGood(lib, ring, policy, b, divisions + 1, after);
    }
  }

  lemma {:induction false} GridStaysSettled(lib: Library, ring: Ring, policy: SamplingPolicy, b: Bounds,
                                            selected: seq<Candidate>, more: seq<Candidate>, divisions: int)
    requires divisions > 0 && selected <= more && |more| <= policy.target
    requires GridSettled(lib, ring, policy, b, selected, divisions)
    ensures GridSettled(lib, ring, policy, b, more, divisions)
  {
    hide StrictlyInside, Settled, CellCentre;
    forall r, c | InteriorCell(ring, b, divisions, r, c)
      ensures Settled(lib, policy, more, CellCentre(b, divisions, r, c))
    {
      SettledStays(lib, policy, selected, more, CellCentre(b, divisions, r, c));
    }
  }

  // ---------- the plan ----------

  /** Rounds to the nearest integer, halves away from zero. */
  function RoundHalfAway(x: real): int {
    if x < 0.0 then -((-x + 0.5).Floor) else (x + 0.5).Floor
  }

  function RoundCoordinate(value: real): real { RoundHalfAway(value * 1000000000.0) as real / 1000000000.0 }

  lemma {:induction false} RoundCoordinateIsClose(value: real)
    ensures Abs(RoundCoordinate(value) - value) <= 0.0000000005
  {
    var x := value * 1000000000.0;
    assert -0.5 <= RoundHalfAway(x) as real - x <= 0.5;
  }

  function RoundedPoint(p: Point): Point { Point(RoundCoordinate(p.x), RoundCoordinate(p.y)) }

  predicate SupportedPolicy(policy: SamplingPolicy) {
    && policy.algorithmVersion == PolygonSamplingV1
    && policy.target >= 3 && policy.maxRequest >= 1
    && policy.minimumSpacing > 0.0 && policy.nearDistance > 0.0
  }

  predicate PublishedAs(p: Point, c: Candidate) {
    && p == RoundedPoint(c.point)
    && Abs(p.x - c.point.x) <= 0.0000000005 && Abs(p.y - c.point.y) <= 0.0000000005
  }

  /** The plan publishes the selected points, rounded, and counts them by their flag. */
  ghost predicate Publishes(plan: SamplePlan, selected: seq<Candidate>) {
    && |plan.locations| == |selected|
    && (forall i :: 0 <= i < |selected| ==> PublishedAs(plan.locations[i], selected[i]))
    && plan.nearSamples == NearCount(selected)
    && plan.nearSamples + plan.interiorSamples == |selected|
  }

  lemma {:induction false} RoundedIsPublished(c: Candidate)
    ensures PublishedAs(RoundedPoint(c.point), c)
  {
    RoundCoordinateIsClose(c.point.x);
    RoundCoordinateIsClose(c.point.y);
  }

  function RoundedPoints(selected: seq<Candidate>): seq<Point> {
    if |selected| == 0 then []
      else RoundedPoints(selected[..|selected| - 1]) + [RoundedPoint(selected[|selected| - 1].point)]
  }

  lemma {:induction false} NearIsSome(selected: seq<Candidate>)
    ensures NearCount(selected) <= |selected|
  {
    if |selected| > 0 { NearIsSome(selected[..|selected| - 1]); }
  }

  /** The plan made of selected points. */
  function Published(selected: seq<Candidate>): SamplePlan {
    NearIsSome(selected);
    SamplePlan(RoundedPoints(selected), NearCount(selected), |selected| - NearCount(selected))
  }

  method Publish(selected: seq<Candidate>) returns (plan: SamplePlan)
    ensures plan == Published(selected)
  {
    hide RoundedPoint;
    var locations: seq<Point>, near: nat, interior: nat := [], 0, 0;
    for i := 0 to |selected|
      invariant locations == RoundedPoints(selected[..i]) && near == NearCount(selected[..i]) && near + interior == i
    {
      var c := selected[i];
      assert selected[..i + 1][..i] == selected[..i];
      locations := locations + [RoundedPoint(c.point)];
      if c.near { near := near + 1; } else { interior := interior + 1; }
    }
    assert selected[..|selected|] == selected;
    plan := SamplePlan(locations, near, interior);
  }

  /** Each published point is within the rounding of its selected point, and the counts add up. */
  lemma {:induction false} PublishedIsClose(selected: seq<Candidate>)
    ensures Publishes(Published(selected), selected)
  {
    hide PublishedAs, RoundedPoint;
    if |selected| > 0 {
      var n := |selected| - 1;
      PublishedIsClose(selected[..n]);
      RoundedIsPublished(selected[n]);
    }
  }

  /** The anchor is never flagged, so at least one sample counts as interior. */
  lemma {:induction false} AnchorIsInterior(selected: seq<Candidate>)
    requires |selected| > 0 && !selected[0].near
    ensures NearCount(selected) < |selected|
  {
    if |selected| > 1 { AnchorIsInterior(selected[..|selected| - 1]); }
  }

  lemma {:induction false} InteriorCounted(plan: SamplePlan, selected: seq<Candidate>)
    requires Publishes(plan, selected) && NearCount(selected) < |selected|
    ensures plan.interiorSamples >= 1
  {}

  /** The samples around an anchor: quadrants near the boundary, edge insets, all quadrants, grids. */
  ghost function SelectionOf(lib: Library, ring: Ring, policy: SamplingPolicy, anchor: Point): seq<Candidate>
    requires |ring| >= 2
  {
    var b := BoundsOf(ring);
    var quadrants := InteriorOf(lib, ring, policy, QuadrantCentres(b));
    var nearQuadrants := Offered(lib, policy, [Candidate(anchor, false)], quadrants, true);
    var insets := EdgesOffered(lib, ring, policy, nearQuadrants, anchor, 0);
    Filled(lib, ring, policy, b, 3, Offered(lib, policy, insets, quadrants, false))
  }

  /** The samples of a ring, before it is known whether they make a plan. */
  ghost function Samples(lib: Library, ring: Ring, policy: SamplingPolicy): seq<Candidate> {
    if |ring| < 4 || AnchorOf(lib, ring).None? then [] else SelectionOf(lib, ring, policy, AnchorOf(lib, ring).value)
  }

  /** The planner's answer. */
  ghost function PlanOf(lib: Library, ring: Ring, policy: SamplingPolicy): Result<SamplePlan, SamplingError> {
    if !SupportedPolicy(policy) then Failure(UnsupportedPolicy)
    else if policy.target > policy.maxRequest then Failure(LimitExceeded)
    else if |ring| < 4 then Failure(TargetUnmet)
    else if AnchorOf(lib, ring).None? then Failure(NoAnchor)
    else
      var selected := Samples(lib, ring, policy);
      if |selected| != policy.target
        || NearCount(selected) < 2 then Failure(TargetUnmet) else Success(Published(selected))
  }

  /** `planPolygonScreeningSamples` */
  method PlanScreeningSamples(lib: Library, ring: Ring, policy: SamplingPolicy)
    returns (plan: Result<SamplePlan, SamplingError>)
    ensures plan == PlanOf(lib, ring, policy)
  {
    hide AnchorOf, BoundsOf, InteriorOf, QuadrantCentres, Offered, EdgesOffered, Filled, Published;
    if !SupportedPolicy(policy) { return Failure(UnsupportedPolicy); }
    if policy.target > policy.maxRequest { return Failure(LimitExceeded); }
    if |ring| < 4 { return Failure(TargetUnmet); }
    var found := InteriorAnchor(lib, ring);
    if found.None? { return Failure(NoAnchor); }
    var anchor := found.value;
    var b := RingBounds(ring);
    var quadrants := ValidQuadrants(lib, ring, policy, b);
    var selected := OfferAll(lib, policy, [Candidate(anchor, false)], quadrants, true);
    selected := OfferEdgeInsets(lib, ring, policy, selected, anchor);
    selected := OfferAll(lib, policy, selected, quadrants, false);
    selected := FillFromGrids(lib, ring, policy, b, selected);
    if |selected| != policy.target || NearCount(selected) < 2 { return Failure(TargetUnmet); }
    var published := Publish(selected);
    return Success(published);
  }

  /** The selected samples are good, and short of the target no grid has room for more. */
  lemma {:induction false} SelectionIsGood(lib: Library, ring: Ring, policy: SamplingPolicy, anchor: Point)
    requires Plausible(lib) && |ring| >= 2 && SupportedPolicy(policy) && StrictlyInside(anchor, ring)
    ensures var selected := SelectionOf(lib, ring, policy, anchor);
            && GoodSelection(lib, ring, policy, selected) && selected[0] == Candidate(anchor, false)
            && (|selected| < policy.target ==> forall d :: 3 <= d <= 32 ==>
                GridSettled(lib, ring, policy, BoundsOf(ring), selected, d))
  {
    hide StrictlyInside, TrulyFlagged, Plausible, Settled, InteriorOf, QuadrantCentres, Offered, EdgesOffered,
      GridSettled, Filled, Proper, BoundsOf;
    var b := BoundsOf(ring);
    var quadrants := InteriorOf(lib, ring, policy, QuadrantCentres(b));
    InteriorOfIsProper(lib, ring, policy, QuadrantCentres(b));
    var first := [Candidate(anchor, false)];
    OfferedIsGood(lib, ring, policy, first, quadrants, true);
    var near := Offered(lib, policy, first, quadrants, true);
    EdgesOfferedIsGood(lib, ring, policy, near, anchor, 0);
    var insets := EdgesOffered(lib, ring, policy, near, anchor, 0);
    OfferedIsGood(lib, ring, policy, insets, quadrants, false);
    var start := Offered(lib, policy, insets, quadrants, false);
    FilledIsGood(lib, ring, policy, b, 3, start);
    assert first <= SelectionOf(lib, ring, policy, anchor);
  }

  /**
    A plan has exactly the target number of samples, all strictly inside before rounding, pairwise
    at least the minimum spacing apart, at least two of them flagged as near the boundary and truly
    so, and at least one interior.  When the target is not met, either too few samples are near the
    boundary, or every interior cell centre of every grid is too close to a selected one.
  */
  lemma {:induction false} PlansAreSound(lib: Library, ring: Ring, policy: SamplingPolicy)
    requires Plausible(lib) && (|ring| >= 4 ==> Closed(ring))
    ensures var plan, selected := PlanOf(lib, ring, policy), Samples(lib, ring, policy);
            && (plan.Success? ==>
                  && |ring| >= 4 && GoodSelection(lib, ring, policy, selected)
                  && |selected| == policy.target && NearCount(selected) >= 2
                  && Publishes(plan.value, selected) && plan.value.interiorSamples >= 1)
            && (plan == Failure(TargetUnmet) && |ring| >= 4 ==>
                  && GoodSelection(lib, ring, policy, selected)
                  && (if |selected| == policy.target then NearCount(selected) < 2
                      else forall d :: 3 <= d <= 32 ==> GridSettled(lib, ring, policy, BoundsOf(ring), selected, d)))
  {
    hide StrictlyInside, TrulyFlagged, Plausible, AnchorOf, BoundsOf, SelectionOf, Published, Publishes, GridSettled,
      Spaced;
    if SupportedPolicy(policy) && policy.target <= policy.maxRequest && |ring| >= 4 && AnchorOf(lib, ring).Some? {
      AnchorIsInside(lib, ring);
      SelectionIsGood(lib, ring, policy, AnchorOf(lib, ring).value);
      AnchorIsInterior(Samples(lib, ring, policy));
      PublishedIsClose(Samples(lib, ring, policy));
      InteriorCounted(Published(Samples(lib, ring, policy)), Samples(lib, ring, policy));
    }
  }
}
