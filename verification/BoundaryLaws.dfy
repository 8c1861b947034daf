/**
  What the boundary tests find: edges that share a point are always reported, edges reported
  because they cross do share one, and what makes a boundary acceptable.
*/
module BoundaryLaws {
  import opened Reals
  import opened Geometry
  import opened Boundaries
  import Shoelace

  /** p is the part t of the way from a to b. */
  predicate At(p: Point, a: Point, b: Point, t: real) {
    p.x == a.x + t * (b.x - a.x) && p.y == a.y + t * (b.y - a.y)
  }

  /** p is a point of the segment, exactly. */
  ghost predicate OfSegment(p: Point, a: Point, b: Point) { exists t :: 0.0 <= t <= 1.0 && At(p, a, b, t) }

  predicate Between(x: real, y: real, z: real) { Min(x, z) <= y <= Max(x, z) }

  predicate InBox(p: Point, a: Point, b: Point) { Between(a.x, p.x, b.x) && Between(a.y, p.y, b.y) }

  // ---------- a shared point ----------

  lemma {:induction false} PartBetween(x: real, z: real, t: real)
    requires 0.0 <= t <= 1.0
    ensures Between(x, x + t * (z - x), z)
  {
    var part, back := t * (z - x), t * (x - z);
    assert part == -back;
    if z >= x { PartOf(t, z - x); } else { PartOf(t, x - z); }
  }

  lemma {:induction false} PartOf(t: real, d: real)
    requires 0.0 <= t <= 1.0 && d >= 0.0
    ensures 0.0 <= t * d <= d
  {
    if 0.0 < t && 0.0 < d { ProductSign(t, d); }
    if t < 1.0 && 0.0 < d { ProductSign(1.0 - t, d); }
    assert (1.0 - t) * d == d - t * d;
  }

  lemma {:induction false} SegmentInBox(p: Point, a: Point, b: Point, t: real)
    requires 0.0 <= t <= 1.0 && At(p, a, b, t)
    ensures InBox(p, a, b)
  {
    PartBetween(a.x, b.x, t);
    PartBetween(a.y, b.y, t);
    hide Between;
  }

  /** The orientation changes evenly along a segment. */
  lemma {:induction false} OrientationAlong(a: Point, b: Point, c: Point, d: Point, p: Point, t: real)
    requires At(p, c, d, t)
    ensures Orientation(a, b, p) == Orientation(a, b, c) + t * (Orientation(a, b, d) - Orientation(a, b, c))
  {}

  lemma {:induction false} OnItsLine(a: Point, b: Point, p: Point, s: real)
    requires At(p, a, b, s)
    ensures Orientation(a, b, p) == 0.0
  {}

  lemma {:induction false} Ends(p: Point, a: Point, b: Point, t: real)
    requires At(p, a, b, t)
    ensures t == 0.0 ==> p == a
    ensures t == 1.0 ==> p == b
  {}

  lemma {:induction false} TouchingSegment(p: Point, a: Point, b: Point)
    requires Orientation(a, b, p) == 0.0 && InBox(p, a, b)
    ensures OnSegment(p, a, b)
  {}

  lemma {:induction false} SumsToZero(left: real, right: real, o: real, o': real)
    requires left + right == 0.0
    requires (left > 0.0 <==> o > 0.0) && (left < 0.0 <==> o < 0.0)
    requires (right > 0.0 <==> o' > 0.0) && (right < 0.0 <==> o' < 0.0)
    ensures OppositeSigns(o, o', 0.0) || (o == 0.0 && o' == 0.0)
  {}

  lemma {:induction false} ZeroAlong(o: real, o': real, t: real)
    requires 0.0 <= t <= 1.0 && o + t * (o' - o) == 0.0
    ensures OppositeSigns(o, o', 0.0) || (o == 0.0 && o' == 0.0) || (o == 0.0 && t == 0.0) || (o' == 0.0 && t == 1.0)
  {
    if t == 0.0 || t == 1.0 {
      assert o + 1.0 * (o' - o) == o' && o + 0.0 * (o' - o) == o;
    } else {
      SameSign(1.0 - t, o);
      SameSign(t, o');
      SumsToZero((1.0 - t) * o, t * o', o, o');
    }
  }

  lemma {:induction false} SidesDiffer(a: Point, b: Point, c: Point, d: Point)
    ensures Orientation(a, b, c) - Orientation(a, b, d) == Orientation(c, d, b) - Orientation(c, d, a)
  {}

  // ---------- segments on one line ----------

  lemma {:induction false} CollinearInBox(a: Point, b: Point, c: Point)
    requires Orientation(a, b, c) == 0.0 && a.x != b.x && Between(a.x, c.x, b.x)
    ensures InBox(c, a, b)
  {
    var w, h, e, f := b.x - a.x, b.y - a.y, c.x - a.x, c.y - a.y;
    assert f * w == h * e;
    BetweenEnds(h, e, w);
    QuotientCancels(f, w);
  }

  lemma {:induction false} RangesOverlap(a: real, b: real, c: real, d: real, p: real)
    requires Between(a, p, b) && Between(c, p, d)
    ensures Between(a, c, b) || Between(a, d, b) || Between(c, a, d) || Between(c, b, d)
  {}

  predicate SomeEndTouches(a: Point, b: Point, c: Point, d: Point) {
    OnSegment(c, a, b) || OnSegment(d, a, b) || OnSegment(a, c, d) || OnSegment(b, c, d)
  }

  lemma {:induction false} CollinearTouch(a: Point, b: Point, c: Point, d: Point, p: Point)
    requires Orientation(a, b, c) == 0.0 && Orientation(a, b, d) == 0.0
    requires Orientation(c, d, a) == 0.0 && Orientation(c, d, b) == 0.0
    requires InBox(p, a, b) && InBox(p, c, d)
    ensures SomeEndTouches(a, b, c, d)
  {
    if a.x != b.x || c.x != d.x {
      CollinearAcross(a, b, c, d, p);
    } else {
      RangesOverlap(a.y, b.y, c.y, d.y, p.y);
    }
    hide Orientation, OnSegment;
    if InBox(c, a, b) { TouchingSegment(c, a, b); }
    if InBox(d, a, b) { TouchingSegment(d, a, b); }
    if InBox(a, c, d) { TouchingSegment(a, c, d); }
    if InBox(b, c, d) { TouchingSegment(b, c, d); }
  }

  lemma {:induction false} CollinearAcross(a: Point, b: Point, c: Point, d: Point, p: Point)
    requires Orientation(a, b, c) == 0.0 && Orientation(a, b, d) == 0.0
    requires Orientation(c, d, a) == 0.0 && Orientation(c, d, b) == 0.0
    requires InBox(p, a, b) && InBox(p, c, d) && (a.x != b.x || c.x != d.x)
    ensures InBox(c, a, b) || InBox(d, a, b) || InBox(a, c, d) || InBox(b, c, d)
  {
    hide Orientation;
    if a.x == b.x {
      CollinearInBox(c, d, a);
    } else if c.x == d.x {
      CollinearInBox(a, b, c);
    } else {
      RangesOverlap(a.x, b.x, c.x, d.x, p.x);
      if Between(a.x, c.x, b.x) { CollinearInBox(a, b, c); }
      if Between(a.x, d.x, b.x) { CollinearInBox(a, b, d); }
      if Between(c.x, a.x, d.x) { CollinearInBox(c, d, a); }
      if Between(c.x, b.x, d.x) { CollinearInBox(c, d, b); }
    }
  }

  /** A point counts as on a segment when it is nearly on its line and nearly in its box. */
  lemma {:induction false} OnSegmentExactly(p: Point, a: Point, b: Point)
    ensures OnSegment(p, a, b) <==>
            && -0.0000000001 <= Orientation(a, b, p) <= 0.0000000001
            && exists q :: InBox(q, a, b) && Abs(p.x - q.x) <= 0.0000000001 && Abs(p.y - q.y) <= 0.0000000001
  {
    hide Orientation;
    if OnSegment(p, a, b) {
      var q := Point(Max(Min(a.x, b.x), Min(p.x, Max(a.x, b.x))), Max(Min(a.y, b.y), Min(p.y, Max(a.y, b.y))));
      assert InBox(q, a, b) && Abs(p.x - q.x) <= 0.0000000001 && Abs(p.y - q.y) <= 0.0000000001;
    }
  }

  // ---------- both directions ----------

  lemma {:induction false} TouchIsFound(a: Point, b: Point, c: Point, d: Point)
    requires SomeEndTouches(a, b, c, d)
    ensures SegmentsIntersect(a, b, c, d)
  {
    hide Orientation;
  }

  lemma {:induction false} SharedAtIsFound(a: Point, b: Point, c: Point, d: Point, p: Point, s: real, t: real)
    requires 0.0 <= s <= 1.0 && At(p, a, b, s) && 0.0 <= t <= 1.0 && At(p, c, d, t)
    ensures SegmentsIntersect(a, b, c, d)
  {
    var o1, o2, o3, o4 := Orientation(a, b, c), Orientation(a, b, d), Orientation(c, d, a), Orientation(c, d, b);
    OnItsLine(a, b, p, s);
    OnItsLine(c, d, p, t);
    OrientationAlong(a, b, c, d, p, t);
    OrientationAlong(c, d, a, b, p, s);
    ZeroAlong(o1, o2, t);
    ZeroAlong(o3, o4, s);
    SidesDiffer(a, b, c, d);
    SegmentInBox(p, a, b, s);
    SegmentInBox(p, c, d, t);
    Ends(p, a, b, s);
    Ends(p, c, d, t);
    hide Orientation, At, InBox, OnSegment;
    if p == c { TouchingSegment(c, a, b); }
    if p == d { TouchingSegment(d, a, b); }
    if p == a { TouchingSegment(a, c, d); }
    if p == b { TouchingSegment(b, c, d); }
    if o1 == 0.0 && o2 == 0.0 && o3 == 0.0 && o4 == 0.0 { CollinearTouch(a, b, c, d, p); }
    if SomeEndTouches(a, b, c, d) { TouchIsFound(a, b, c, d); }
  }

  /** Two segments that share a point are found to intersect. */
  lemma {:induction false} SharedPointIsFound(a: Point, b: Point, c: Point, d: Point, p: Point)
    requires OfSegment(p, a, b) && OfSegment(p, c, d)
    ensures SegmentsIntersect(a, b, c, d)
  {
    hide SegmentsIntersect;
    var s :| 0.0 <= s <= 1.0 && At(p, a, b, s);
    var t :| 0.0 <= t <= 1.0 && At(p, c, d, t);
    SharedAtIsFound(a, b, c, d, p, s, t);
  }

  /** So the edges of a simple ring that are not neighbours have no point in common. */
  lemma {:induction false} SimpleEdgesAreDisjoint(ring: Ring, l: int, r: int, p: Point)
    requires IsSimple(ring) && Separate(l, r, |ring| - 1) && OfSegment(p, ring[l], ring[l + 1])
    ensures !OfSegment(p, ring[r], ring[r + 1])
  {
    assert !EdgesMeet(ring, l, r);
    hide SegmentsIntersect, OfSegment;
    if OfSegment(p, ring[r], ring[r + 1]) {
      SharedPointIsFound(ring[l], ring[l + 1], ring[r], ring[r + 1], p);
      assert false;
    }
  }

  lemma {:induction false} PartFromQuotient(o: real, o': real)
    requires OppositeSigns(o, o', 0.0)
    ensures 0.0 <= o / (o - o') <= 1.0 && (o / (o - o')) * (o - o') == o
  {
    var q := o / (o - o');
    assert q * (o - o') == o;
    if o > 0.0 { ProductSign(q, o - o'); ProductSign(q - 1.0, o - o'); } else { OppositePart(q, o, o'); }
  }

  lemma {:induction false} OppositePart(q: real, o: real, o': real)
    requires o < 0.0 < o' && q * (o - o') == o
    ensures 0.0 <= q <= 1.0
  {
    assert q * (o' - o) == -o && (q - 1.0) * (o' - o) == -o';
    ProductSign(q, o' - o);
    ProductSign(q - 1.0, o' - o);
  }

  /** One coordinate of the point where two lines cross. */
  lemma {:induction false} CrossingCoordinate(a: Point, b: Point, c: Point, d: Point, s: real, t: real)
    requires var o1, o2, o3, o4 := Orientation(a, b, c), Orientation(a, b, d), Orientation(c, d, a),
             Orientation(c, d, b);
             o1 != o2 && s * (o3 - o4) == o3 && t * (o1 - o2) == o1
    ensures a.x + s * (b.x - a.x) == c.x + t * (d.x - c.x)
    ensures a.y + s * (b.y - a.y) == c.y + t * (d.y - c.y)
  {
    var o1, o2, o3, o4 := Orientation(a, b, c), Orientation(a, b, d), Orientation(c, d, a), Orientation(c, d, b);
    SidesDiffer(a, b, c, d);
    var span := o1 - o2;
    assert s * span == -o3 && t * span == o1;
    assert span * (a.x - c.x) - o3 * (b.x - a.x) - o1 * (d.x - c.x) == 0.0;
    assert span * (a.y - c.y) - o3 * (b.y - a.y) - o1 * (d.y - c.y) == 0.0;
    hide Orientation;
    SolvedFor(span, a.x - c.x, b.x - a.x, d.x - c.x, s, t, o3, o1);
    SolvedFor(span, a.y - c.y, b.y - a.y, d.y - c.y, s, t, o3, o1);
  }

  lemma {:induction false} SolvedFor(span: real, gap: real, u: real, v: real, s: real, t: real, m: real, n: real)
    requires span != 0.0 && s * span == -m && t * span == n && span * gap - m * u - n * v == 0.0
    ensures gap + s * u - t * v == 0.0
  {
    var x := gap + s * u - t * v;
    assert x * span == span * gap + (s * span) * u - (t * span) * v;
    QuotientCancels(x, span);
  }

  /** Segments whose ends lie on opposite sides of one another share a point. */
  lemma {:induction false} CrossingIsShared(a: Point, b: Point, c: Point, d: Point) returns (p: Point)
    requires OppositeSigns(Orientation(a, b, c), Orientation(a, b, d), 0.0)
    requires OppositeSigns(Orientation(c, d, a), Orientation(c, d, b), 0.0)
    ensures OfSegment(p, a, b) && OfSegment(p, c, d)
  {
    var o1, o2, o3, o4 := Orientation(a, b, c), Orientation(a, b, d), Orientation(c, d, a), Orientation(c, d, b);
    PartFromQuotient(o3, o4);
    PartFromQuotient(o1, o2);
    var s, t := o3 / (o3 - o4), o1 / (o1 - o2);
    CrossingCoordinate(a, b, c, d, s, t);
    hide Orientation;
    p := Point(a.x + s * (b.x - a.x), a.y + s * (b.y - a.y));
    assert At(p, a, b, s) && At(p, c, d, t);
  }

  ghost predicate ShareAPoint(a: Point, b: Point, c: Point, d: Point) {
    exists p :: OfSegment(p, a, b) && OfSegment(p, c, d)
  }

  /** Segments are found to intersect if and only if they share a point or an end of one is as good as on the other. */
  lemma {:induction false} IntersectExactly(a: Point, b: Point, c: Point, d: Point)
    ensures SegmentsIntersect(a, b, c, d) <==> ShareAPoint(a, b, c, d) || SomeEndTouches(a, b, c, d)
  {
    if ShareAPoint(a, b, c, d) {
      var p :| OfSegment(p, a, b) && OfSegment(p, c, d);
      SharedPointIsFound(a, b, c, d, p);
    }
    if SomeEndTouches(a, b, c, d) { TouchIsFound(a, b, c, d); }
    hide Orientation, OnSegment, OfSegment;
    if SegmentsIntersect(a, b, c, d) && !SomeEndTouches(a, b, c, d) {
      var p := CrossingIsShared(a, b, c, d);
    }
  }

  /** Far enough from the line for its side to be certain. */
  predicate OffLine(p: Point, a: Point, b: Point) {
    Orientation(a, b, p) > 0.0000000001 || Orientation(a, b, p) < -0.0000000001
  }

  /** Segments intersect properly if and only if they share a point and no end of one is near the line of the other. */
  lemma {:induction false} ProperExactly(a: Point, b: Point, c: Point, d: Point)
    ensures SegmentsProperlyIntersect(a, b, c, d) <==>
            && ShareAPoint(a, b, c, d)
            && OffLine(c, a, b) && OffLine(d, a, b) && OffLine(a, c, d) && OffLine(b, c, d)
  {
    hide Orientation, OfSegment;
    if SegmentsProperlyIntersect(a, b, c, d) {
      var p := CrossingIsShared(a, b, c, d);
    }
    if ShareAPoint(a, b, c, d) {
      var p :| OfSegment(p, a, b) && OfSegment(p, c, d);
      SharedSides(a, b, c, d, p);
    }
  }

  lemma {:induction false} SharedSides(a: Point, b: Point, c: Point, d: Point, p: Point)
    requires OfSegment(p, a, b) && OfSegment(p, c, d)
    ensures var o1, o2 := Orientation(a, b, c), Orientation(a, b, d);
            o1 != 0.0 && o2 != 0.0 ==> OppositeSigns(o1, o2, 0.0)
    ensures var o3, o4 := Orientation(c, d, a), Orientation(c, d, b);
            o3 != 0.0 && o4 != 0.0 ==> OppositeSigns(o3, o4, 0.0)
  {
    var s :| 0.0 <= s <= 1.0 && At(p, a, b, s);
    var t :| 0.0 <= t <= 1.0 && At(p, c, d, t);
    OnItsLine(a, b, p, s);
    OnItsLine(c, d, p, t);
    OrientationAlong(a, b, c, d, p, t);
    OrientationAlong(c, d, a, b, p, s);
    hide Orientation;
    ZeroAlong(Orientation(a, b, c), Orientation(a, b, d), t);
    ZeroAlong(Orientation(c, d, a), Orientation(c, d, b), s);
  }

  // ---------- points and rings against a ring ----------

  /** A point of an edge counts as contained but not as strictly inside; off the edges both mean inside. */
  lemma {:induction false} PointClasses(p: Point, ring: Ring)
    ensures (exists i :: 0 <= i < |ring| - 1 && OnSegment(p, ring[i], ring[i + 1])) ==>
              InsideOrBoundary(p, ring) && !StrictlyInside(p, ring)
    ensures (forall i :: 0 <= i < |ring| - 1 ==> !OnSegment(p, ring[i], ring[i + 1])) ==>
              (InsideOrBoundary(p, ring) <==> Inside(p, ring)) && (StrictlyInside(p, ring) <==> Inside(p, ring))
    ensures (exists i :: 0 <= i < |ring| - 1 && OfSegment(p, ring[i], ring[i + 1])) ==> OnBoundary(p, ring)
  {
    forall i | 0 <= i < |ring| - 1 && OfSegment(p, ring[i], ring[i + 1]) ensures OnSegment(p, ring[i], ring[i + 1]) {
      var t :| 0.0 <= t <= 1.0 && At(p, ring[i], ring[i + 1], t);
      OnItsLine(ring[i], ring[i + 1], p, t);
      SegmentInBox(p, ring[i], ring[i + 1], t);
      TouchingSegment(p, ring[i], ring[i + 1]);
    }
    hide Inside, OnSegment, OfSegment;
  }

  /** An edge of the child: its start and its middle are contained and no edge of the parent is crossed properly. */
  ghost predicate EdgeFits(parent: Ring, a: Point, b: Point) {
    && InsideOrBoundary(a, parent)
    && (forall m :: At(m, a, b, 0.5) ==> InsideOrBoundary(m, parent))
    && (forall j :: 0 <= j < |parent| - 1 ==>
          var c, d := parent[j], parent[j + 1];
          !(ShareAPoint(a, b, c, d) && OffLine(c, a, b) && OffLine(d, a, b) && OffLine(a, c, d) && OffLine(b, c, d)))
  }

  /** What containment examines: every edge of the child. */
  lemma {:induction false} ContainsExactly(parent: Ring, child: Ring)
    ensures ContainsRing(parent, child) <==>
              forall i :: 0 <= i < |child| - 1 ==> EdgeFits(parent, child[i], child[i + 1])
  {
    hide EdgeFits, EdgeContained, InsideOrBoundary;
    if ContainsRing(parent, child) {
      forall i | 0 <= i < |child| - 1 ensures EdgeFits(parent, child[i], child[i + 1]) {
        EdgeFitsExactly(parent, child[i], child[i + 1]);
      }
    }
    if forall i :: 0 <= i < |child| - 1 ==> EdgeFits(parent, child[i], child[i + 1]) {
      forall i | 0 <= i < |child| - 1
        ensures InsideOrBoundary(child[i], parent) && EdgeContained(parent, child[i], child[i + 1]) {
        EdgeFitsExactly(parent, child[i], child[i + 1]);
      }
    }
  }

  lemma {:induction false} EdgeFitsExactly(parent: Ring, a: Point, b: Point)
    ensures EdgeFits(parent, a, b) <==> InsideOrBoundary(a, parent) && EdgeContained(parent, a, b)
  {
    MiddleIsHalfWay(a, b);
    forall j | 0 <= j < |parent| - 1
      ensures var c, d := parent[j], parent[j + 1];
              SegmentsProperlyIntersect(a, b, c, d) <==>
              ShareAPoint(a, b, c, d) && OffLine(c, a, b) && OffLine(d, a, b) && OffLine(a, c, d) && OffLine(b, c, d) {
      ProperExactly(a, b, parent[j], parent[j + 1]);
    }
    hide SegmentsProperlyIntersect, ShareAPoint, OffLine, InsideOrBoundary, At, Midpoint;
  }

  lemma {:induction false} MiddleIsHalfWay(a: Point, b: Point)
    ensures forall m :: At(m, a, b, 0.5) <==> m == Midpoint(a, b)
  {}

  // ---------- accepted boundaries ----------

  /** The points that positions of two numbers stand for. */
  predicate Stands(ring: Ring, positions: seq<seq<real>>) {
    |ring| == |positions| && forall i :: 0 <= i < |ring| && |positions[i]| == 2 ==>
        ring[i] == Point(positions[i][0], positions[i][1])
  }

  /**
    What makes a boundary: one closed ring of longitudes and latitudes that does not meet itself, of
    over a tenth of an acre.
  */
  lemma {:induction false} BoundaryExactly(g: PolygonGeometry, ring: Ring, cosDegrees: real -> real)
    requires |g.coordinates| == 1 ==> Stands(ring, g.coordinates[0])
    ensures ValidBoundary(g, cosDegrees) <==>
            && g.kind == "Polygon" && |g.coordinates| == 1
            && var positions := g.coordinates[0];
               && |positions| >= 4
               && positions[0] == positions[|positions| - 1]
               && (forall i :: 0 <= i < |positions| ==>
                   |positions[i]| == 2 && -180.0 <= positions[i][0] <= 180.0 && -90.0 <= positions[i][1] <= 90.0)
               && IsSimple(ring) && Shoelace.AreaAcres(ring, cosDegrees) > 0.1
  {
    hide IsSimple, Shoelace.AreaAcres;
    if |g.coordinates| == 1 {
      var positions := g.coordinates[0];
      if forall i :: 0 <= i < |positions| ==> |positions[i]| == 2 {
        assert forall i :: 0 <= i < |ring| ==> ring[i] == RingOf(positions)[i];
        assert ring == RingOf(positions);
        SamePosition(positions);
      }
    }
  }

  lemma {:induction false} SamePosition(positions: seq<seq<real>>)
    requires forall i :: 0 <= i < |positions| ==> |positions[i]| == 2
    ensures |positions| > 0 ==>
      (RingOf(positions)[0] == RingOf(positions)[|positions| - 1] <==> positions[0] == positions[|positions| - 1])
  {}

  /** Two points more than a billionth of a degree apart in one coordinate. */
  predicate Apart(a: Point, b: Point) {
    a.x - b.x > 0.000000001 || b.x - a.x > 0.000000001 || a.y - b.y > 0.000000001 || b.y - a.y > 0.000000001
  }

  /** The vertices that a simple ring lists before it closes are exactly pairwise apart. */
  lemma {:induction false} VerticesApart(ring: Ring)
    ensures DistinctVertices(ring) <==> forall i, j :: 0 <= i < j < |ring| - 1 ==> Apart(ring[i], ring[j])
    ensures ProperEdges(ring) <==> forall i :: 0 <= i < |ring| - 1 ==> Apart(ring[i], ring[i + 1])
  {
    assert forall a, b :: SamePoint(a, b) <==> !Apart(a, b);
    hide SamePoint, Apart;
  }
}
