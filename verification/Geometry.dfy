/**
  Plane geometry of field boundaries: even-odd membership, boundary tests, shoelace area and
  centroid.  Coordinates are reals; a ring is closed when its last vertex repeats the first.
*/
module Geometry {
  import opened Wrappers
  import opened Reals

  datatype Point = Point(x: real, y: real)

  type Ring = seq<Point>

  predicate Closed(ring: Ring) { |ring| >= 4 && ring[0] == ring[|ring| - 1] }

  /** Positive when c lies to the left of the way from a to b, negative to the right; twice the area of the triangle. */
  function Orientation(a: Point, b: Point, c: Point): real {
    (b.x - a.x) * (c.y - a.y) - (b.y - a.y) * (c.x - a.x)
  }

  // ---------- even-odd membership ----------

  /** Where the line through a and b meets the horizontal at y. */
  function CrossX(a: Point, b: Point, y: real): real
    requires a.y != b.y
  {
    (b.x - a.x) * (y - a.y) / (b.y - a.y) + a.x
  }

  predicate Straddles(p: Point, a: Point, b: Point) { (a.y > p.y) != (b.y > p.y) }

  /** The ray from p towards larger x crosses the edge between a and b. */
  predicate Crosses(p: Point, a: Point, b: Point) {
    Straddles(p, a, b) && p.x < CrossX(a, b, p.y)
  }

  /** Whether an odd number of the path's edges is crossed. */
  predicate OddCrossings(p: Point, path: Ring) {
    if |path| < 2 then false
    else OddCrossings(p, path[..|path| - 1]) != Crosses(p, path[|path| - 1], path[|path| - 2])
  }

  /** The even-odd rule over the ring, including the edge from the last vertex back to the first. */
  predicate Inside(p: Point, ring: Ring) {
    |ring| > 0 && Crosses(p, ring[0], ring[|ring| - 1]) != OddCrossings(p, ring)
  }

  /** `pointInPolygon` */
  method PointInPolygon(p: Point, ring: Ring) returns (inside: bool)
    ensures inside == Inside(p, ring)
  {
    inside := false;
    var current, previous := 0, |ring| - 1;
    while current < |ring|
      invariant 0 <= current <= |ring|
      invariant previous == if current == 0 then |ring| - 1 else current - 1
      invariant current == 0 ==> !inside
      invariant current > 0 ==> inside == (Crosses(p, ring[0], ring[|ring| - 1]) != OddCrossings(p, ring[..current]))
    {
      if current > 0 { assert ring[..current + 1][..current] == ring[..current]; }
      if Crosses(p, ring[current], ring[previous]) { inside := !inside; }
      previous, current := current, current + 1;
    }
    assert ring[..current] == ring;
  }

  lemma {:induction false} CrossingRatio(w: real, e: real, d: real)
    requires 0.0 <= e <= d && d > 0.0
    ensures w >= 0.0 ==> 0.0 <= w * e / d <= w
    ensures w <= 0.0 ==> w <= w * e / d <= 0.0
  {
    var q := w * e / d;
    assert q * d == w * e;
    if w >= 0.0 {
      assert 0.0 <= w * e <= w * d;
    }
    if w <= 0.0 {
      assert w * d <= w * e <= 0.0;
    }
  }

  lemma {:induction false} SignedQuotient(n: real, d: real)
    requires d != 0.0
    ensures (-n) / (-d) == n / d
  {
    assert (n / d) * d == n;
    assert (n / d) * (-d) == -n;
  }

  /** A straddling edge meets the horizontal between the x coordinates of its ends. */
  lemma {:induction false} CrossingWithinEdge(p: Point, a: Point, b: Point)
    requires Straddles(p, a, b)
    ensures Min(a.x, b.x) <= CrossX(a, b, p.y) <= Max(a.x, b.x)
  {
    var w, e, d := b.x - a.x, p.y - a.y, b.y - a.y;
    assert CrossX(a, b, p.y) == w * e / d + a.x;
    hide CrossX;
    BetweenEnds(w, e, d);
  }

  lemma {:induction false} BetweenEnds(w: real, e: real, d: real)
    requires (d > 0.0 && 0.0 <= e <= d) || (d < 0.0 && d <= e <= 0.0)
    ensures Min(0.0, w) <= w * e / d <= Max(0.0, w)
  {
    if d > 0.0 {
      CrossingRatio(w, e, d);
    } else {
      CrossingRatio(w, -e, -d);
      SignedQuotient(w * e, d);
      assert w * (-e) == -(w * e);
    }
  }

  lemma {:induction false} QuotientDifference(m: real, n: real, d: real)
    requires d != 0.0
    ensures (m - n) / d == m / d - n / d
  {}

  lemma {:induction false} QuotientCancels(w: real, d: real)
    requires d != 0.0
    ensures w * d / d == w
  {}

  lemma {:induction false} MirroredQuotient(w: real, e: real, d: real)
    requires d != 0.0
    ensures (-w) * (e - d) / (-d) == w * e / d - w
  {
    assert (-w) * (e - d) == -(w * e - w * d);
    SignedQuotient(w * e - w * d, d);
    QuotientDifference(w * e, w * d, d);
    QuotientCancels(w, d);
  }

  lemma {:induction false} CrossXIsSymmetric(a: Point, b: Point, y: real)
    requires a.y != b.y
    ensures CrossX(a, b, y) == CrossX(b, a, y)
  {
    var w, e, d := b.x - a.x, y - a.y, b.y - a.y;
    MirroredQuotient(w, e, d);
    assert CrossX(a, b, y) == w * e / d + a.x;
    assert a.x - b.x == -w && y - b.y == e - d && a.y - b.y == -d;
    assert CrossX(b, a, y) == (-w) * (e - d) / (-d) + b.x;
  }

  /** The direction an edge is walked in does not matter. */
  lemma {:induction false} CrossingIsSymmetric(p: Point, a: Point, b: Point)
    ensures Crosses(p, a, b) == Crosses(p, b, a)
  {
    hide CrossX;
    if Straddles(p, a, b) { CrossXIsSymmetric(a, b, p.y); }
  }

  // ---------- walking paths ----------

  function Reversed(path: Ring): (r: Ring)
    ensures |r| == |path|
    ensures forall i :: 0 <= i < |path| ==> r[i] == path[|path| - 1 - i]
  {
    if |path| == 0 then [] else [path[|path| - 1]] + Reversed(path[..|path| - 1])
  }

  /** The same closed ring, started at vertex k. */
  function Rotated(ring: Ring, k: nat): (r: Ring)
    requires Closed(ring) && k < |ring|
    ensures Closed(r) && |r| == |ring|
  {
    ring[k..] + ring[1..k + 1]
  }

  /** Two walks that meet at a vertex. */
  lemma {:induction false} CrossingsConcat(p: Point, left: Ring, right: Ring)
    requires |left| > 0 && |right| > 0 && left[|left| - 1] == right[0]
    ensures OddCrossings(p, left + right[1..]) == (OddCrossings(p, left) != OddCrossings(p, right))
  {
    var path := left + right[1..];
    if |right| == 1 {
      assert path == left;
    } else {
      hide Crosses;
      var front := right[..|right| - 1];
      CrossingsConcat(p, left, front);
      assert path[..|path| - 1] == left + front[1..];
      assert path[|path| - 1] == right[|right| - 1] && path[|path| - 2] == right[|right| - 2];
    }
  }

  lemma {:induction false} CrossingsSplit(p: Point, path: Ring, k: nat)
    requires k < |path|
    ensures OddCrossings(p, path) == (OddCrossings(p, path[..k + 1]) != OddCrossings(p, path[k..]))
  {
    assert path == path[..k + 1] + path[k..][1..];
    CrossingsConcat(p, path[..k + 1], path[k..]);
  }

  lemma {:induction false} CrossingsPair(p: Point, a: Point, b: Point)
    ensures OddCrossings(p, [a, b]) == Crosses(p, b, a)
  {
    assert [a, b][..1] == [a];
  }

  lemma {:induction false} CrossingsReversed(p: Point, path: Ring)
    ensures OddCrossings(p, Reversed(path)) == OddCrossings(p, path)
  {
    if |path| >= 2 {
      hide Crosses;
      var n := |path| - 1;
      var front := path[..n];
      CrossingsReversed(p, front);
      var pair := [path[n], path[n - 1]];
      assert Reversed(path) == pair + Reversed(front)[1..];
      CrossingsConcat(p, pair, Reversed(front));
      CrossingsPair(p, path[n], path[n - 1]);
      CrossingIsSymmetric(p, path[n], path[n - 1]);
    }
  }

  /** On a closed ring the wrap-around edge is a point and is never crossed. */
  lemma {:induction false} ClosedRingCrossings(p: Point, ring: Ring)
    requires |ring| > 0 && ring[0] == ring[|ring| - 1]
    ensures Inside(p, ring) == OddCrossings(p, ring)
  {}

  /** Membership does not depend on the vertex a closed ring starts at. */
  lemma {:induction false} InsideIgnoresStart(p: Point, ring: Ring, k: nat)
    requires Closed(ring) && k < |ring|
    ensures Inside(p, Rotated(ring, k)) == Inside(p, ring)
  {
    hide Crosses;
    ClosedRingCrossings(p, ring);
    ClosedRingCrossings(p, Rotated(ring, k));
    CrossingsSplit(p, ring, k);
    assert ring[1..k + 1] == ring[..k + 1][1..];
    CrossingsConcat(p, ring[k..], ring[..k + 1]);
  }

  /** Membership does not depend on the winding. */
  lemma {:induction false} InsideIgnoresWinding(p: Point, ring: Ring)
    ensures Inside(p, Reversed(ring)) == Inside(p, ring)
  {
    hide Crosses;
    CrossingsReversed(p, ring);
    if |ring| > 0 { CrossingIsSymmetric(p, ring[0], ring[|ring| - 1]); }
  }

  /** The two rings a chord between vertices i and j cuts off. */
  function OuterPart(ring: Ring, i: nat, j: nat): Ring
    requires i <= j < |ring|
  {
    ring[..i + 1] + ring[j..]
  }

  function InnerPart(ring: Ring, i: nat, j: nat): Ring
    requires i <= j < |ring|
  {
    ring[i..j + 1] + [ring[i]]
  }

  lemma {:induction false} ChordWalk(p: Point, ring: Ring, i: nat, j: nat)
    requires i <= j < |ring|
    ensures OddCrossings(p, OuterPart(ring, i, j)) ==
            (OddCrossings(p, ring[..i + 1]) != (Crosses(p, ring[j], ring[i]) != OddCrossings(p, ring[j..])))
    ensures OddCrossings(p, InnerPart(ring, i, j)) ==
            (OddCrossings(p, ring[i..j + 1]) != Crosses(p, ring[i], ring[j]))
  {
    hide Crosses;
    var out := [ring[i], ring[j]];
    var back := [ring[j], ring[i]];
    assert OuterPart(ring, i, j) == ring[..i + 1] + (out + ring[j..][1..])[1..];
    CrossingsConcat(p, out, ring[j..]);
    CrossingsConcat(p, ring[..i + 1], out + ring[j..][1..]);
    CrossingsPair(p, ring[i], ring[j]);
    assert InnerPart(ring, i, j) == ring[i..j + 1] + back[1..];
    CrossingsConcat(p, ring[i..j + 1], back);
    CrossingsPair(p, ring[j], ring[i]);
  }

  /**
    Even-odd membership is additive under chord cuts: a point is inside a closed ring exactly
    when it is inside one, but not both, of the rings any chord between two vertices makes.
  */
  lemma {:induction false} ChordCutsMembership(p: Point, ring: Ring, i: nat, j: nat)
    requires Closed(ring) && i <= j < |ring|
    ensures Inside(p, ring) == (Inside(p, OuterPart(ring, i, j)) != Inside(p, InnerPart(ring, i, j)))
  {
    hide Crosses;
    ClosedRingCrossings(p, ring);
    ClosedRingCrossings(p, OuterPart(ring, i, j));
    ClosedRingCrossings(p, InnerPart(ring, i, j));
    CrossingsSplit(p, ring, j);
    CrossingsSplit(p, ring[..j + 1], i);
    assert ring[..j + 1][..i + 1] == ring[..i + 1] && ring[..j + 1][i..] == ring[i..j + 1];
    ChordWalk(p, ring, i, j);
    CrossingIsSymmetric(p, ring[i], ring[j]);
  }

  // ---------- which points are inside ----------

  lemma {:induction false} ProductSign(x: real, d: real)
    requires d > 0.0
    ensures x * d > 0.0 <==> x > 0.0
    ensures x * d < 0.0 <==> x < 0.0
  {}

  lemma {:induction false} QuotientOrder(x: real, n: real, d: real)
    requires d != 0.0
    ensures d > 0.0 ==> (x < n / d <==> x * d < n)
    ensures d < 0.0 ==> (x < n / d <==> x * d > n)
  {
    var q := n / d;
    assert q * d == n;
    assert (q - x) * d == n - x * d;
    assert (x - q) * -d == n - x * d;
    if d > 0.0 { ProductSign(q - x, d); } else { ProductSign(x - q, -d); }
  }

  /**
    Where an edge is crossed: the ray from p crosses a straddling edge if and only if p lies to the
    left of it taken upwards.
  */
  lemma {:induction false} CrossesBySide(p: Point, a: Point, b: Point)
    requires Straddles(p, a, b)
    ensures Crosses(p, a, b) <==> if a.y < b.y then Orientation(a, b, p) > 0.0 else Orientation(a, b, p) < 0.0
  {
    QuotientOrder(p.x - a.x, (b.x - a.x) * (p.y - a.y), b.y - a.y);
  }

  /** The three orientations of a point in a triangle add up to the triangle's, and weigh its vertices to the point. */
  lemma {:induction false} Barycentric(p: Point, a: Point, b: Point, c: Point)
    ensures Orientation(a, b, p) + Orientation(b, c, p) + Orientation(c, a, p) == Orientation(a, b, c)
    ensures Orientation(b, c, p) * (a.y - p.y) + Orientation(c, a, p) * (b.y - p.y) +
            Orientation(a, b, p) * (c.y - p.y) == 0.0
  {}

  /** All three are positive, or one of them is negative. */
  predicate OneSided(inside: bool, u: real, v: real, w: real) {
    (inside && u > 0.0 && v > 0.0 && w > 0.0) || (!inside && (u < 0.0 || v < 0.0 || w < 0.0))
  }

  lemma {:induction false} WeightedSign(u: real, w: real, s: real, t: real)
    requires s > 0.0 && t >= 0.0
    ensures u < 0.0 && w <= 0.0 ==> u * s + w * t < 0.0
    ensures u > 0.0 && w >= 0.0 ==> u * s + w * t > 0.0
    ensures u >= 0.0 && w >= 0.0 ==> u * s + w * t >= 0.0
  {
    ProductSign(u, s);
    if t > 0.0 { ProductSign(w, t); }
  }

  /** With only one vertex above, the edges that meet there decide. */
  lemma {:induction false} LoneAbove(inside: bool, u: real, v: real, w: real, up: real, q: real, r: real)
    requires up > 0.0 && q >= 0.0 && r >= 0.0 && u + v + w > 0.0
    requires v * up == w * q + u * r
    requires OneSided(inside, u, v, w)
    ensures inside <==> (u < 0.0) != (w > 0.0)
  {
    assert (u + v + w) * up == u * (up + r) + w * (up + q);
    ProductSign(u + v + w, up);
    WeightedSign(u, w, up + r, up + q);
    ProductSign(v, up);
    assert u >= 0.0 && w >= 0.0 ==> w * q + u * r >= 0.0;
  }

  /** With only one vertex not above, likewise. */
  lemma {:induction false} LoneBelow(inside: bool, u: real, v: real, w: real, down: real, q: real, r: real)
    requires down >= 0.0 && q > 0.0 && r > 0.0 && u + v + w > 0.0
    requires v * down == w * q + u * r
    requires OneSided(inside, u, v, w)
    ensures inside <==> (u > 0.0) != (w < 0.0)
  {
    assert (u + v + w) * down == u * (down + r) + w * (down + q);
    assert down > 0.0 || down == 0.0;
    if down > 0.0 { ProductSign(u + v + w, down); ProductSign(v, down); }
    WeightedSign(u, w, down + r, down + q);
    WeightedSign(w, u, down + q, down + r);
    WeightedSign(u, w, r, q);
  }

  /** Whether an odd number of a triangle's edges is crossed. */
  predicate CrossesTriangle(p: Point, a: Point, b: Point, c: Point) {
    (Crosses(p, a, b) != Crosses(p, b, c)) != Crosses(p, c, a)
  }

  lemma {:induction false} LoneVertex(inside: bool, p: Point, a: Point, b: Point, c: Point)
    requires Orientation(a, b, c) > 0.0
    requires OneSided(inside, Orientation(a, b, p), Orientation(b, c, p), Orientation(c, a, p))
    requires Straddles(p, a, b) && Straddles(p, c, a)
    ensures inside <==> CrossesTriangle(p, a, b, c)
  {
    var u, v, w := Orientation(a, b, p), Orientation(b, c, p), Orientation(c, a, p);
    Barycentric(p, a, b, c);
    CrossesBySide(p, a, b);
    CrossesBySide(p, c, a);
    assert !Crosses(p, b, c);
    hide CrossX, Orientation;
    var da, db, dc := a.y - p.y, b.y - p.y, c.y - p.y;
    assert v * da + w * db + u * dc == 0.0;
    assert w * -db == -(w * db) && u * -dc == -(u * dc) && v * -da == -(v * da);
    if a.y > p.y { LoneAbove(inside, u, v, w, da, -db, -dc); } else { LoneBelow(inside, u, v, w, -da, db, dc); }
  }

  lemma {:induction false} LevelTriangle(a: Point, b: Point, c: Point)
    requires a.y == b.y == c.y
    ensures Orientation(a, b, c) == 0.0
  {
    var dx, dy, ex, ey := b.x - a.x, b.y - a.y, c.x - a.x, c.y - a.y;
    assert dx * ey == 0.0;
    assert dy * ex == 0.0;
  }

  /** No triangle on one side of the horizontal through p surrounds it. */
  lemma {:induction false} AllOnOneSide(p: Point, a: Point, b: Point, c: Point)
    requires Orientation(a, b, c) > 0.0
    requires (a.y > p.y) == (b.y > p.y) == (c.y > p.y)
    ensures !OneSided(true, Orientation(a, b, p), Orientation(b, c, p), Orientation(c, a, p))
  {
    Barycentric(p, a, b, c);
    if a.y == b.y == c.y {
      LevelTriangle(a, b, c);
      assert false;
    }
    hide Orientation;
    var u, v, w := Orientation(a, b, p), Orientation(b, c, p), Orientation(c, a, p);
    var da, db, dc := a.y - p.y, b.y - p.y, c.y - p.y;
    assert v * da + w * db + u * dc == 0.0;
    if u > 0.0 && v > 0.0 && w > 0.0 {
      SameSign(v, da);
      SameSign(w, db);
      SameSign(u, dc);
    }
  }

  lemma {:induction false} SameSign(x: real, d: real)
    requires x > 0.0
    ensures (x * d > 0.0 <==> d > 0.0) && (x * d < 0.0 <==> d < 0.0)
  {
    ProductSign(d, x);
    assert x * d == d * x;
  }

  lemma {:induction false} TriangleWalk(p: Point, a: Point, b: Point, c: Point)
    ensures Inside(p, [a, b, c, a]) <==> CrossesTriangle(p, a, b, c)
  {
    hide Crosses;
    var ring := [a, b, c, a];
    ClosedRingCrossings(p, ring);
    assert ring[..3] == [a, b, c] && ring[..3][..2] == [a, b];
    CrossingsPair(p, a, b);
    CrossingIsSymmetric(p, a, b);
    CrossingIsSymmetric(p, b, c);
    CrossingIsSymmetric(p, c, a);
  }

  lemma {:induction false} PositiveTriangle(inside: bool, p: Point, a: Point, b: Point, c: Point)
    requires Orientation(a, b, c) > 0.0
    requires OneSided(inside, Orientation(a, b, p), Orientation(b, c, p), Orientation(c, a, p))
    ensures Inside(p, [a, b, c, a]) <==> inside
  {
    TriangleWalk(p, a, b, c);
    assert Orientation(b, c, a) == Orientation(a, b, c) == Orientation(c, a, b);
    hide CrossX, Inside, Orientation;
    if (a.y > p.y) == (b.y > p.y) == (c.y > p.y) {
      AllOnOneSide(p, a, b, c);
    } else if Straddles(p, a, b) && Straddles(p, c, a) {
      LoneVertex(inside, p, a, b, c);
    } else if Straddles(p, a, b) {
      LoneVertex(inside, p, b, c, a);
    } else {
      LoneVertex(inside, p, c, a, b);
    }
  }

  /**
    Membership in a triangle of any winding: a point strictly on the inner side of all three edges
    is inside, a point strictly on the outer side of one is not.
  */
  lemma {:induction false} TriangleMembership(p: Point, a: Point, b: Point, c: Point)
    ensures var area, u, v, w :=
              Orientation(a, b, c), Orientation(a, b, p), Orientation(b, c, p), Orientation(c, a, p);
            && (area > 0.0 && u > 0.0 && v > 0.0 && w > 0.0 ==> Inside(p, [a, b, c, a]))
            && (area > 0.0 && (u < 0.0 || v < 0.0 || w < 0.0) ==> !Inside(p, [a, b, c, a]))
            && (area < 0.0 && u < 0.0 && v < 0.0 && w < 0.0 ==> Inside(p, [a, b, c, a]))
            && (area < 0.0 && (u > 0.0 || v > 0.0 || w > 0.0) ==> !Inside(p, [a, b, c, a]))
  {
    var area, u, v, w := Orientation(a, b, c), Orientation(a, b, p), Orientation(b, c, p), Orientation(c, a, p);
    assert Orientation(a, c, b) == -area && Orientation(a, c, p) == -w;
    assert Orientation(c, b, p) == -v && Orientation(b, a, p) == -u;
    InsideIgnoresWinding(p, [a, b, c, a]);
    assert Reversed([a, b, c, a]) == [a, c, b, a];
    hide Inside, Orientation;
    var inside := (area > 0.0 && u > 0.0 && v > 0.0 && w > 0.0) || (area < 0.0 && u < 0.0 && v < 0.0 && w < 0.0);
    if area > 0.0 && OneSided(inside, u, v, w) { PositiveTriangle(inside, p, a, b, c); }
    if area < 0.0 && OneSided(inside, -w, -v, -u) { PositiveTriangle(inside, p, a, c, b); }
  }

  // ---------- bounding box ----------

  datatype Bounds = Bounds(minX: real, maxX: real, minY: real, maxY: real)

  predicate Covers(b: Bounds, p: Point) { b.minX <= p.x <= b.maxX && b.minY <= p.y <= b.maxY }

  /** The tightest box around a ring's vertices. */
  ghost predicate IsBoundsOf(b: Bounds, ring: Ring) {
    && (forall i :: 0 <= i < |ring| ==> Covers(b, ring[i]))
    && (exists i :: 0 <= i < |ring| && ring[i].x == b.minX) && (exists i :: 0 <= i < |ring| && ring[i].x == b.maxX)
    && (exists i :: 0 <= i < |ring| && ring[i].y == b.minY) && (exists i :: 0 <= i < |ring| && ring[i].y == b.maxY)
  }

  function Extend(b: Bounds, p: Point): Bounds {
    Bounds(Min(b.minX, p.x), Max(b.maxX, p.x), Min(b.minY, p.y), Max(b.maxY, p.y))
  }

  lemma {:induction false} ExtendKeepsBounds(b: Bounds, ring: Ring, p: Point)
    requires IsBoundsOf(b, ring)
    ensures IsBoundsOf(Extend(b, p), ring + [p])
  {
    var more := ring + [p];
    assert more[|ring|] == p;
    var i :| 0 <= i < |ring| && ring[i].x == b.minX;
    var j :| 0 <= j < |ring| && ring[j].x == b.maxX;
    var k :| 0 <= k < |ring| && ring[k].y == b.minY;
    var l :| 0 <= l < |ring| && ring[l].y == b.maxY;
    assert more[i] == ring[i] && more[j] == ring[j] && more[k] == ring[k] && more[l] == ring[l];
  }

  /** The box around a first point and more points. */
  function BoundsOver(first: Point, points: Ring): Bounds {
    if |points| == 0 then Bounds(first.x, first.x, first.y, first.y)
    else Extend(BoundsOver(first, points[..|points| - 1]), points[|points| - 1])
  }

  /** The box around a ring; the closing vertex is skipped, since it repeats the first. */
  function BoundsOf(ring: Ring): Bounds
    requires |ring| > 0
  {
    BoundsOver(ring[0], ring[..|ring| - 1])
  }

  /** `ringBounds` */
  method RingBounds(ring: Ring) returns (b: Bounds)
    requires |ring| > 0
    ensures b == BoundsOf(ring)
  {
    hide Extend;
    b := Bounds(ring[0].x, ring[0].x, ring[0].y, ring[0].y);
    for i := 0 to |ring| - 1
      invariant b == BoundsOver(ring[0], ring[..i])
    {
      assert ring[..i + 1][..i] == ring[..i];
      b := Extend(b, ring[i]);
    }
  }

  lemma {:induction false} BoundsOverPoints(first: Point, points: Ring)
    ensures IsBoundsOf(BoundsOver(first, points), [first] + points)
  {
    hide Extend, IsBoundsOf;
    if |points| == 0 {
      SinglePointBounds(first);
      assert [first] + points == [first];
    } else {
      var n := |points| - 1;
      BoundsOverPoints(first, points[..n]);
      ExtendKeepsBounds(BoundsOver(first, points[..n]), [first] + points[..n], points[n]);
      assert [first] + points[..n] + [points[n]] == [first] + points;
    }
  }

  /** The box of a closed ring is the tightest around its vertices. */
  lemma {:induction false} BoxIsTight(ring: Ring)
    requires Closed(ring)
    ensures IsBoundsOf(BoundsOf(ring), ring)
  {
    BoundsOverPoints(ring[0], ring[..|ring| - 1]);
    SameVertices(BoundsOf(ring), [ring[0]] + ring[..|ring| - 1], ring);
  }

  lemma {:induction false} SinglePointBounds(p: Point)
    ensures IsBoundsOf(Bounds(p.x, p.x, p.y, p.y), [p])
  {
    assert [p][0] == p;
  }

  lemma {:induction false} SameVertices(b: Bounds, seen: Ring, ring: Ring)
    requires Closed(ring) && seen == [ring[0]] + ring[..|ring| - 1] && IsBoundsOf(b, seen)
    ensures IsBoundsOf(b, ring)
  {
    forall i | 0 <= i < |ring| ensures Covers(b, ring[i]) {
      if i < |ring| - 1 { assert seen[i + 1] == ring[i]; } else { assert seen[0] == ring[i]; }
    }
    forall k | 0 <= k < |seen| ensures exists i :: 0 <= i < |ring| && ring[i] == seen[k] {
      if k == 0 { assert ring[0] == seen[0]; } else { assert ring[k - 1] == seen[k]; }
    }
  }

  /** Along a walk, the straddling edges alternate between above and below. */
  predicate OddStraddles(p: Point, path: Ring) {
    if |path| < 2 then false
    else OddStraddles(p, path[..|path| - 1]) != Straddles(p, path[|path| - 1], path[|path| - 2])
  }

  lemma {:induction false} StraddlesTelescope(p: Point, path: Ring)
    requires |path| > 0
    ensures OddStraddles(p, path) == ((path[0].y > p.y) != (path[|path| - 1].y > p.y))
  {
    if |path| >= 2 { StraddlesTelescope(p, path[..|path| - 1]); }
  }

  lemma {:induction false} AllOrNoCrossings(p: Point, path: Ring, crossed: bool)
    requires forall i :: 0 < i < |path| && Straddles(p, path[i], path[i - 1]) ==>
               Crosses(p, path[i], path[i - 1]) == crossed
    ensures OddCrossings(p, path) == (crossed && OddStraddles(p, path))
  {
    if |path| >= 2 { AllOrNoCrossings(p, path[..|path| - 1], crossed); }
  }

  /** No point left of, right of, below or above a closed ring's bounding box is inside it. */
  lemma {:induction false} OutsideTheBox(p: Point, ring: Ring, b: Bounds)
    requires Closed(ring) && IsBoundsOf(b, ring)
    requires p.x < b.minX || p.x >= b.maxX || p.y < b.minY || p.y >= b.maxY
    ensures !Inside(p, ring)
  {
    ClosedRingCrossings(p, ring);
    StraddlesTelescope(p, ring);
    forall i | 0 < i < |ring| && Straddles(p, ring[i], ring[i - 1])
      ensures Crosses(p, ring[i], ring[i - 1]) == (p.x < b.minX)
    {
      assert Covers(b, ring[i]) && Covers(b, ring[i - 1]);
      CrossingWithinEdge(p, ring[i], ring[i - 1]);
    }
    AllOrNoCrossings(p, ring, p.x < b.minX);
  }
}
