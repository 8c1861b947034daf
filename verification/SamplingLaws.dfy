/**
  In what order the samples of a field are chosen: quadrant points near the boundary first, then
  points a little way in from the edges while fewer than two are near, then the other quadrant
  points, then ever finer grids; nothing is passed over that there was room for.
*/
module SamplingLaws {
  import opened Wrappers
  import opened Reals
  import opened Geometry
  import opened Boundaries
  import opened Sampling
  import Shoelace

  /** A quarter of the box's width and height from two of its sides. */
  predicate IsQuadrant(b: Bounds, p: Point) {
    && (4.0 * p.x == 3.0 * b.minX + b.maxX || 4.0 * p.x == b.minX + 3.0 * b.maxX)
    && (4.0 * p.y == 3.0 * b.minY + b.maxY || 4.0 * p.y == b.minY + 3.0 * b.maxY)
  }

  predicate Before(p: Point, q: Point) { p.y < q.y || (p.y == q.y && p.x < q.x) }

  /** The part t of the way from the middle of an edge to the anchor. */
  predicate InsetAt(p: Point, left: Point, right: Point, anchor: Point, t: real) {
    && 2.0 * p.x == (1.0 - t) * (left.x + right.x) + 2.0 * t * anchor.x
    && 2.0 * p.y == (1.0 - t) * (left.y + right.y) + 2.0 * t * anchor.y
  }

  /** Strictly inside, and within the near distance of some edge. */
  ghost predicate NearAnEdge(lib: Library, ring: Ring, policy: SamplingPolicy, p: Point) {
    StrictlyInside(p, ring) && exists k: nat :: k + 1 < |ring| && EdgeDistance(lib, p, ring, k) <= policy.nearDistance
  }

  /** The first of an edge's four insets that is near the boundary. */
  ghost predicate FirstChoice(lib: Library, ring: Ring, policy: SamplingPolicy, anchor: Point, edge: nat, p: Point) {
    && edge + 1 < |ring| && NearAnEdge(lib, ring, policy, p)
    && exists k :: 0 <= k < 4 && InsetAt(p, ring[edge], ring[edge + 1], anchor, [0.05, 0.1, 0.2, 0.35][k])
        && EarlierInsetsFail(lib, ring, policy, anchor, edge, k)
  }

  ghost predicate EarlierInsetsFail(lib: Library, ring: Ring, policy: SamplingPolicy, anchor: Point, edge: nat, k: int)
    requires edge + 1 < |ring| && k <= 4
  {
    forall j, q :: 0 <= j < k && InsetAt(q, ring[edge], ring[edge + 1], anchor, [0.05, 0.1, 0.2, 0.35][j]) ==>
      !NearAnEdge(lib, ring, policy, q)
  }

  ghost predicate WantedQuadrant(lib: Library, ring: Ring, policy: SamplingPolicy, p: Point, nearOnly: bool)
    requires |ring| > 0
  {
    IsQuadrant(BoundsOf(ring), p) && if nearOnly then NearAnEdge(lib, ring, policy, p) else StrictlyInside(p, ring)
  }

  /** The samples in [from, to) are quadrant points, taken row by row, and none that is wanted had room left. */
  ghost predicate QuadrantStage(lib: Library, ring: Ring, policy: SamplingPolicy, s: seq<Candidate>, from: nat, to: nat,
                                nearOnly: bool)
    requires from <= to <= |s| && |ring| > 0
  {
    && (forall n :: from <= n < to ==>
          WantedQuadrant(lib, ring, policy, s[n].point, nearOnly) && (nearOnly ==> s[n].near)
          && forall q :: WantedQuadrant(lib, ring, policy, q, nearOnly) && Before(q, s[n].point) ==>
              Settled(lib, policy, s[..n], q))
    && (forall q :: WantedQuadrant(lib, ring, policy, q, nearOnly) ==> Settled(lib, policy, s[..to], q))
  }

  /** The first choices of the edges before `edge` have been dealt with. */
  ghost predicate EdgesSettled(lib: Library, ring: Ring, policy: SamplingPolicy, anchor: Point, s: seq<Candidate>,
                               edge: nat)
  {
    forall e: nat, p :: e < edge && FirstChoice(lib, ring, policy, anchor, e, p) ==> Settled(lib, policy, s, p)
  }

  /** Taken as the first choice of an edge, when fewer than two were near and the edges before had been dealt with. */
  ghost predicate EdgeSample(lib: Library, ring: Ring, policy: SamplingPolicy, anchor: Point, s: seq<Candidate>,
                             c: Candidate)
  {
    NearCount(s) < 2 && c.near && exists edge: nat ::
        FirstChoice(lib, ring, policy, anchor, edge, c.point) && EdgesSettled(lib, ring, policy, anchor, s, edge)
  }

  /** The samples in [from, to) are edge insets, and if fewer than two are near then no edge had room left. */
  ghost predicate EdgeStage(lib: Library, ring: Ring, policy: SamplingPolicy, s: seq<Candidate>, from: nat, to: nat)
    requires 0 < from <= to <= |s| && |ring| > 0
  {
    && (forall n :: from <= n < to ==> EdgeSample(lib, ring, policy, s[0].point, s[..n], s[n]))
    && (NearCount(s[..to]) < 2 ==> EdgesSettled(lib, ring, policy, s[0].point, s[..to], |ring| - 1))
  }

  /** The centre of a cell when the box is cut into `divisions` columns and rows. */
  ghost predicate OnGrid(b: Bounds, divisions: int, p: Point) {
    && (exists c :: 0 <= c < divisions && IsCentre(b.minX, b.maxX, divisions, c, p.x))
    && (exists r :: 0 <= r < divisions && IsCentre(b.minY, b.maxY, divisions, r, p.y))
  }

  /** x is the middle of the i-th of equal parts: 2i + 1 halves of a part from the low end. */
  predicate IsCentre(low: real, high: real, divisions: int, i: int, x: real) {
    (x - low) * (2 * divisions) as real == (2 * i + 1) as real * (high - low)
  }

  /** Every centre of a grid strictly inside has been dealt with. */
  ghost predicate GridDone(lib: Library, ring: Ring, policy: SamplingPolicy, s: seq<Candidate>, divisions: int)
    requires |ring| > 0
  {
    forall p :: OnGrid(BoundsOf(ring), divisions, p) && StrictlyInside(p, ring) ==> Settled(lib, policy, s, p)
  }

  /** Taken from a grid when all coarser grids had been dealt with. */
  ghost predicate GridSample(lib: Library, ring: Ring, policy: SamplingPolicy, s: seq<Candidate>, from: int, p: Point)
    requires |ring| > 0
  {
    exists d :: from <= d <= 32 && OnGrid(BoundsOf(ring), d, p) && CoarserDone(lib, ring, policy, s, from, d)
  }

  ghost predicate CoarserDone(lib: Library, ring: Ring, policy: SamplingPolicy, s: seq<Candidate>, from: int, to: int)
    requires |ring| > 0
  {
    forall d :: from <= d < to ==> GridDone(lib, ring, policy, s, d)
  }

  /** The rest come from the grids of 3 by 3 to 32 by 32, coarse to fine, and short of the target none has room left. */
  ghost predicate GridStage(lib: Library, ring: Ring, policy: SamplingPolicy, s: seq<Candidate>, from: nat)
    requires from <= |s| && |ring| > 0
  {
    && (forall n :: from <= n < |s| ==> GridSample(lib, ring, policy, s[..n], 3, s[n].point))
    && (|s| < policy.target ==> CoarserDone(lib, ring, policy, s, 3, 33))
  }

  // ---------- offering a list ----------

  /** Chosen from the list when every wanted entry before it had been dealt with. */
  ghost predicate InTurn(lib: Library, policy: SamplingPolicy, before: seq<Candidate>, c: Candidate,
                         candidates: seq<Candidate>, nearOnly: bool) {
    exists k :: 0 <= k < |candidates| && candidates[k] == c && (nearOnly ==> c.near)
      && forall l :: 0 <= l < k && (nearOnly ==> candidates[l].near) ==>
          Settled(lib, policy, before, candidates[l].point)
  }

  lemma {:induction false} OfferedInTurn(lib: Library, ring: Ring, policy: SamplingPolicy, start: seq<Candidate>,
                                         candidates: seq<Candidate>, nearOnly: bool)
    requires Plausible(lib) && |ring| >= 2 && policy.minimumSpacing > 0.0
    requires GoodSelection(lib, ring, policy, start) && Proper(lib, ring, policy, candidates)
    ensures var r := Offered(lib, policy, start, candidates, nearOnly);
            start <= r && forall n :: |start| <= n < |r| ==> InTurn(lib, policy, r[..n], r[n], candidates, nearOnly)
  {
    hide StrictlyInside, TrulyFlagged, Settled, Plausible, GoodSelection, Crowded, InTurn;
    if |candidates| > 0 {
      var front, c := candidates[..|candidates| - 1], candidates[|candidates| - 1];
      OfferedInTurn(lib, ring, policy, start, front, nearOnly);
      OfferedIsGood(lib, ring, policy, start, front, nearOnly);
      var before, r := Offered(lib, policy, start, front, nearOnly),
        Offered(lib, policy, start, candidates, nearOnly);
      forall n | |start| <= n < |r| ensures InTurn(lib, policy, r[..n], r[n], candidates, nearOnly) {
        if n < |before| {
          assert r[..n] == before[..n] && r[n] == before[n];
          InLongerList(lib, policy, r[..n], r[n], front, c, nearOnly);
          assert front + [c] == candidates;
        } else {
          assert r[..n] == before && r[n] == c;
          LastInTurn(lib, policy, before, candidates, nearOnly);
        }
      }
    }
  }

  lemma {:induction false} InLongerList(lib: Library, policy: SamplingPolicy, before: seq<Candidate>, c: Candidate,
                                        front: seq<Candidate>, more: Candidate, nearOnly: bool)
    requires InTurn(lib, policy, before, c, front, nearOnly)
    ensures InTurn(lib, policy, before, c, front + [more], nearOnly)
  {
    hide Settled;
    var k :| 0 <= k < |front| && front[k] == c && forall l :: 0 <= l < k && (nearOnly ==> front[l].near) ==>
          Settled(lib, policy, before, front[l].point);
    assert (front + [more])[k] == c;
  }

  lemma {:induction false} LastInTurn(lib: Library, policy: SamplingPolicy, before: seq<Candidate>,
                                      candidates: seq<Candidate>, nearOnly: bool)
    requires |candidates| > 0 && (nearOnly ==> candidates[|candidates| - 1].near)
    requires var front := candidates[..|candidates| - 1];
             forall k :: 0 <= k < |front| && (nearOnly ==> front[k].near) ==>
                 Settled(lib, policy, before, front[k].point)
    ensures InTurn(lib, policy, before, candidates[|candidates| - 1], candidates, nearOnly)
  {
    hide Settled;
    var front, k := candidates[..|candidates| - 1], |candidates| - 1;
    assert candidates[k] == candidates[|candidates| - 1];
    forall l | 0 <= l < k && (nearOnly ==> candidates[l].near)
      ensures Settled(lib, policy, before, candidates[l].point) {
      assert front[l] == candidates[l];
    }
  }

  // ---------- quadrant points ----------

  lemma {:induction false} QuadrantsAre(b: Bounds, p: Point)
    ensures p in QuadrantCentres(b) <==> IsQuadrant(b, p)
  {
    var q := QuadrantCentres(b);
    assert p in q <==> p == q[0] || p == q[1] || p == q[2] || p == q[3];
  }

  predicate InRows(points: seq<Point>) {
    forall i, j :: 0 <= i < j < |points| ==> !Before(points[j], points[i])
  }

  predicate ListedInRows(candidates: seq<Candidate>) {
    forall i, j :: 0 <= i < j < |candidates| ==> !Before(candidates[j].point, candidates[i].point)
  }

  lemma {:induction false} QuadrantsInRows(b: Bounds)
    requires b.minX <= b.maxX && b.minY < b.maxY
    ensures InRows(QuadrantCentres(b))
  {
    var q := QuadrantCentres(b);
    assert q[0].y == q[1].y <= q[2].y == q[3].y && q[0].x == q[2].x <= q[1].x == q[3].x && |q| == 4;
    hide QuadrantCentres;
    forall i, j | 0 <= i < j < |q| ensures !Before(q[j], q[i]) {
      assert j == 1 || j == 2 || j == 3;
      assert i == 0 || i == 1 || i == 2;
    }
  }

  lemma {:induction false} InteriorInRows(lib: Library, ring: Ring, policy: SamplingPolicy, points: seq<Point>)
    requires |ring| >= 2 && InRows(points)
    ensures ListedInRows(InteriorOf(lib, ring, policy, points))
  {
    hide StrictlyInside, Before, Clearance, TrulyFlagged;
    if |points| > 0 {
      var front, last := points[..|points| - 1], points[|points| - 1];
      InteriorInRows(lib, ring, policy, front);
      InteriorOfIsProper(lib, ring, policy, front);
      var listed := InteriorOf(lib, ring, policy, front);
      forall i | 0 <= i < |listed| ensures !Before(last, listed[i].point) {
        assert Listed(listed, listed[i].point);
        var k :| 0 <= k < |front| && front[k] == listed[i].point;
        assert points[k] == front[k];
      }
    }
  }

  lemma {:induction false} FlagIsNear(lib: Library, ring: Ring, policy: SamplingPolicy, c: Candidate)
    requires Plausible(lib) && |ring| >= 2 && TrulyFlagged(lib, ring, policy, c)
    ensures StrictlyInside(c.point, ring) ==> (c.near <==> NearAnEdge(lib, ring, policy, c.point))
  {
    var i := ClearanceIsMinimum(lib, c.point, ring);
    hide StrictlyInside, Clearance, EdgeDistance, Plausible;
  }

  lemma {:induction false} QuadrantsListed(lib: Library, ring: Ring, policy: SamplingPolicy)
    requires Closed(ring)
    ensures QuadrantList(lib, ring, policy, InteriorOf(lib, ring, policy, QuadrantCentres(BoundsOf(ring))))
  {
    var b := BoundsOf(ring);
    var list := InteriorOf(lib, ring, policy, QuadrantCentres(b));
    BoxIsTight(ring);
    hide StrictlyInside, BoundsOf, QuadrantCentres, Before, InteriorOf, InRows, Proper;
    InteriorOfIsProper(lib, ring, policy, QuadrantCentres(b));
    if |list| > 0 {
      assert Listed(list, list[0].point);
      InteriorNeedsHeight(list[0].point, ring, b);
      QuadrantsInRows(b);
      InteriorInRows(lib, ring, policy, QuadrantCentres(b));
    }
  }

  lemma {:induction false} QuadrantsOffered(lib: Library, ring: Ring, policy: SamplingPolicy, start: seq<Candidate>,
                                            nearOnly: bool)
    requires Plausible(lib) && Closed(ring) && policy.minimumSpacing > 0.0 && GoodSelection(lib, ring, policy, start)
    ensures var r := Offered(lib, policy, start, InteriorOf(lib, ring, policy, QuadrantCentres(BoundsOf(ring))),
                             nearOnly);
            start <= r && QuadrantStage(lib, ring, policy, r, |start|, |r|, nearOnly)
  {
    QuadrantsListed(lib, ring, policy);
    var list := InteriorOf(lib, ring, policy, QuadrantCentres(BoundsOf(ring)));
    hide BoundsOf, QuadrantCentres, InteriorOf;
    QuadrantListOffered(lib, ring, policy, start, list, nearOnly);
  }

  lemma {:induction false} QuadrantListOffered(lib: Library, ring: Ring, policy: SamplingPolicy, start: seq<Candidate>,
                                               list: seq<Candidate>, nearOnly: bool)
    requires Plausible(lib) && Closed(ring) && policy.minimumSpacing > 0.0 && GoodSelection(lib, ring, policy, start)
    requires QuadrantList(lib, ring, policy, list)
    ensures var r := Offered(lib, policy, start, list, nearOnly);
            start <= r && QuadrantStage(lib, ring, policy, r, |start|, |r|, nearOnly)
  {
    hide StrictlyInside, Plausible, Settled, BoundsOf, QuadrantCentres, Offered, GoodSelection, Proper, ListedInRows,
      Listed, Before, WantedQuadrant, InTurn;
    OfferedInTurn(lib, ring, policy, start, list, nearOnly);
    OfferedIsGood(lib, ring, policy, start, list, nearOnly);
    var r := Offered(lib, policy, start, list, nearOnly);
    forall n | |start| <= n < |r|
      ensures WantedQuadrant(lib, ring, policy, r[n].point, nearOnly) && (nearOnly ==> r[n].near)
      ensures forall q :: WantedQuadrant(lib, ring, policy, q, nearOnly) && Before(q, r[n].point) ==>
                Settled(lib, policy, r[..n], q) {
      QuadrantTaken(lib, ring, policy, r[..n], r[n], list, nearOnly);
    }
    assert r[..|r|] == r;
    forall q | WantedQuadrant(lib, ring, policy, q, nearOnly) ensures Settled(lib, policy, r, q) {
      var l := WantedIsListed(lib, ring, policy, list, q, nearOnly);
    }
  }

  ghost predicate QuadrantList(lib: Library, ring: Ring, policy: SamplingPolicy, list: seq<Candidate>)
    requires |ring| >= 2
  {
    && Proper(lib, ring, policy, list) && ListedInRows(list)
    && forall p :: Listed(list, p) <==> p in QuadrantCentres(BoundsOf(ring)) && StrictlyInside(p, ring)
  }

  lemma {:induction false} WantedIsListed(lib: Library, ring: Ring, policy: SamplingPolicy, list: seq<Candidate>,
                                          q: Point, nearOnly: bool)
    returns (l: nat)
    requires Plausible(lib) && |ring| >= 2 && QuadrantList(lib, ring, policy, list)
    requires WantedQuadrant(lib, ring, policy, q, nearOnly)
    ensures l < |list| && list[l].point == q && (nearOnly ==> list[l].near)
  {
    QuadrantsAre(BoundsOf(ring), q);
    hide IsQuadrant, QuadrantCentres, BoundsOf, StrictlyInside, Plausible, Clearance, TrulyFlagged;
    assert StrictlyInside(q, ring);
    assert Listed(list, q);
    l :| 0 <= l < |list| && list[l].point == q;
    FlagIsNear(lib, ring, policy, list[l]);
  }

  lemma {:induction false} QuadrantTaken(lib: Library, ring: Ring, policy: SamplingPolicy, before: seq<Candidate>,
                                         c: Candidate, list: seq<Candidate>, nearOnly: bool)
    requires Plausible(lib) && |ring| >= 2 && QuadrantList(lib, ring, policy, list)
    requires InTurn(lib, policy, before, c, list, nearOnly)
    ensures WantedQuadrant(lib, ring, policy, c.point, nearOnly) && (nearOnly ==> c.near)
    ensures forall q :: WantedQuadrant(lib, ring, policy, q, nearOnly) && Before(q, c.point) ==>
              Settled(lib, policy, before, q)
  {
    hide IsQuadrant, QuadrantCentres, BoundsOf, StrictlyInside, Plausible, Settled, TrulyFlagged, NearAnEdge;
    var k :| 0 <= k < |list| && list[k] == c && forall l :: 0 <= l < k && (nearOnly ==> list[l].near) ==>
          Settled(lib, policy, before, list[l].point);
    FlagIsNear(lib, ring, policy, c);
    assert Listed(list, c.point);
    QuadrantsAre(BoundsOf(ring), c.point);
    forall q | WantedQuadrant(lib, ring, policy, q, nearOnly) && Before(q, c.point)
      ensures Settled(lib, policy, before, q) {
      var l := WantedIsListed(lib, ring, policy, list, q, nearOnly);
    }
  }

  // ---------- edge insets ----------

  lemma {:induction false} InsetIsAt(ring: Ring, anchor: Point, edge: nat, k: nat, p: Point)
    requires edge + 1 < |ring| && k < 4
    ensures InsetAt(p, ring[edge], ring[edge + 1], anchor, [0.05, 0.1, 0.2, 0.35][k]) <==>
            p == InsetPoint(ring, anchor, edge, Insets[k])
  {
    var left, right, t := ring[edge], ring[edge + 1], [0.05, 0.1, 0.2, 0.35][k];
    assert Insets[k] == t;
    PartWay(left.x, right.x, anchor.x, t);
    PartWay(left.y, right.y, anchor.y, t);
  }

  lemma {:induction false} PartWay(l: real, r: real, a: real, t: real)
    ensures var m := (l + r) / 2.0; 2.0 * (m + (a - m) * t) == (1.0 - t) * (l + r) + 2.0 * t * a
  {}

  lemma {:induction false} GoodInsetIsNear(lib: Library, ring: Ring, policy: SamplingPolicy, p: Point)
    requires Plausible(lib) && |ring| >= 2
    ensures GoodInset(lib, ring, policy, p) <==> NearAnEdge(lib, ring, policy, p)
  {
    var i := ClearanceIsMinimum(lib, p, ring);
    hide StrictlyInside, Clearance, EdgeDistance, Plausible;
  }

  lemma {:induction false} InsetsMissed(lib: Library, ring: Ring, policy: SamplingPolicy, anchor: Point, edge: nat,
                                        k: nat)
    requires Plausible(lib) && edge + 1 < |ring| && k < 4 && EarlierInsetsFail(lib, ring, policy, anchor, edge, k)
    requires !GoodInset(lib, ring, policy, InsetPoint(ring, anchor, edge, Insets[k]))
    ensures EarlierInsetsFail(lib, ring, policy, anchor, edge, k + 1)
  {
    hide GoodInset, NearAnEdge, InsetPoint, InsetAt, Plausible;
    forall j, q | 0 <= j < k + 1 && InsetAt(q, ring[edge], ring[edge + 1], anchor, [0.05, 0.1, 0.2, 0.35][j])
      ensures !NearAnEdge(lib, ring, policy, q) {
      if j == k {
        InsetIsAt(ring, anchor, edge, k, q);
        GoodInsetIsNear(lib, ring, policy, q);
      }
    }
  }

  /** The inset that the search finds is the edge's first choice, and without one it finds nothing. */
  lemma {:induction false} FirstInsetIsChoice(lib: Library, ring: Ring, policy: SamplingPolicy, anchor: Point,
                                              edge: nat, k: nat, p: Point)
    requires Plausible(lib) && edge + 1 < |ring| && k <= 4 && EarlierInsetsFail(lib, ring, policy, anchor, edge, k)
    ensures FirstChoice(lib, ring, policy, anchor, edge, p) <==>
            FirstInset(lib, ring, policy, anchor, edge, k) == Some(p)
    decreases 4 - k
  {
    hide GoodInset, NearAnEdge, InsetPoint, InsetAt, Plausible, FirstChoice;
    if k == 4 {
      if FirstChoice(lib, ring, policy, anchor, edge, p) { NoChoice(lib, ring, policy, anchor, edge, p); }
    } else {
      var q := InsetPoint(ring, anchor, edge, Insets[k]);
      if GoodInset(lib, ring, policy, q) {
        ThisChoice(lib, ring, policy, anchor, edge, k, p);
      } else {
        InsetsMissed(lib, ring, policy, anchor, edge, k);
        FirstInsetIsChoice(lib, ring, policy, anchor, edge, k + 1, p);
      }
    }
  }

  lemma {:induction false} NoChoice(lib: Library, ring: Ring, policy: SamplingPolicy, anchor: Point, edge: nat,
                                    p: Point)
    requires edge + 1 < |ring| && EarlierInsetsFail(lib, ring, policy, anchor, edge, 4)
    ensures !FirstChoice(lib, ring, policy, anchor, edge, p)
  {
    hide NearAnEdge, InsetAt;
  }

  lemma {:induction false} ThisChoice(lib: Library, ring: Ring, policy: SamplingPolicy, anchor: Point, edge: nat,
                                      k: nat, p: Point)
    requires Plausible(lib) && edge + 1 < |ring| && k < 4 && EarlierInsetsFail(lib, ring, policy, anchor, edge, k)
    requires GoodInset(lib, ring, policy, InsetPoint(ring, anchor, edge, Insets[k]))
    ensures FirstChoice(lib, ring, policy, anchor, edge, p) <==> p == InsetPoint(ring, anchor, edge, Insets[k])
  {
    var q := InsetPoint(ring, anchor, edge, Insets[k]);
    InsetIsAt(ring, anchor, edge, k, q);
    GoodInsetIsNear(lib, ring, policy, q);
    hide NearAnEdge, InsetAt, InsetPoint, GoodInset;
    if FirstChoice(lib, ring, policy, anchor, edge, p) {
      var i :| 0 <= i < 4 && InsetAt(p, ring[edge], ring[edge + 1], anchor, [0.05, 0.1, 0.2, 0.35][i])
        && EarlierInsetsFail(lib, ring, policy, anchor, edge, i);
      InsetIsAt(ring, anchor, edge, i, p);
    }
  }

  lemma {:induction false} EdgeDone(lib: Library, ring: Ring, policy: SamplingPolicy, anchor: Point, s: seq<Candidate>,
                                    next: seq<Candidate>, edge: nat)
    requires Plausible(lib) && edge + 1 < |ring| && EdgesSettled(lib, ring, policy, anchor, s, edge)
    requires s <= next && |next| <= policy.target
    requires var found := FirstInset(lib, ring, policy, anchor, edge, 0);
             found.Some? ==> Settled(lib, policy, next, found.value)
    ensures EdgesSettled(lib, ring, policy, anchor, next, edge + 1)
  {
    hide Plausible, Settled, FirstChoice, FirstInset;
    forall e: nat, p | e < edge + 1 && FirstChoice(lib, ring, policy, anchor, e, p)
      ensures Settled(lib, policy, next, p) {
      if e < edge {
        SettledStays(lib, policy, s, next, p);
      } else {
        FirstInsetIsChoice(lib, ring, policy, anchor, edge, 0, p);
      }
    }
  }

  ghost predicate EdgeSamples(lib: Library, ring: Ring, policy: SamplingPolicy, anchor: Point, r: seq<Candidate>,
                              from: nat) {
    forall n :: from <= n < |r| ==> EdgeSample(lib, ring, policy, anchor, r[..n], r[n])
  }

  lemma {:induction false} EdgesInTurn(lib: Library, ring: Ring, policy: SamplingPolicy, s: seq<Candidate>,
                                       anchor: Point, edge: nat)
    requires Plausible(lib) && edge < |ring| && |ring| >= 2 && policy.minimumSpacing > 0.0
    requires GoodSelection(lib, ring, policy, s) && EdgesSettled(lib, ring, policy, anchor, s, edge)
    ensures var r := EdgesOffered(lib, ring, policy, s, anchor, edge);
            && s <= r && EdgeSamples(lib, ring, policy, anchor, r, |s|)
            && (NearCount(r) < 2 ==> EdgesSettled(lib, ring, policy, anchor, r, |ring| - 1))
    decreases |ring| - edge
  {
    hide StrictlyInside, Settled, Plausible, Appended, Spaced, FirstInset, Clearance, EdgesSettled, FirstChoice,
      GoodSelection, TrulyFlagged;
    if NearCount(s) < 2 && edge + 1 < |ring| {
      var found := FirstInset(lib, ring, policy, anchor, edge, 0);
      var next := EdgeStep(lib, ring, policy, s, anchor, edge);
      EdgesInTurn(lib, ring, policy, next, anchor, edge + 1);
      var r := EdgesOffered(lib, ring, policy, s, anchor, edge);
      assert r == EdgesOffered(lib, ring, policy, next, anchor, edge + 1);
      forall n | |s| <= n < |r| ensures EdgeSample(lib, ring, policy, anchor, r[..n], r[n]) {
        if n < |next| { assert r[..n] == s && r[n] == next[|s|]; }
      }
    }
  }

  lemma {:induction false} EdgeStep(lib: Library, ring: Ring, policy: SamplingPolicy, s: seq<Candidate>, anchor: Point,
                                    edge: nat)
    returns (next: seq<Candidate>)
    requires Plausible(lib) && edge + 1 < |ring| && policy.minimumSpacing > 0.0 && NearCount(s) < 2
    requires GoodSelection(lib, ring, policy, s) && EdgesSettled(lib, ring, policy, anchor, s, edge)
    ensures next == match FirstInset(lib, ring, policy, anchor, edge, 0)
                    case None => s
                    case Some(p) => Appended(lib, s, Candidate(p, true), policy.minimumSpacing, policy.target)
    ensures s <= next && |next| <= |s| + 1 && GoodSelection(lib, ring, policy, next)
    ensures EdgesSettled(lib, ring, policy, anchor, next, edge + 1)
    ensures |next| > |s| ==> EdgeSample(lib, ring, policy, anchor, s, next[|s|])
  {
    hide StrictlyInside, Settled, Plausible, Spaced, FirstInset, Clearance, EdgesSettled, FirstChoice, Crowded;
    var found := FirstInset(lib, ring, policy, anchor, edge, 0);
    next := s;
    if found.Some? {
      var c := Candidate(found.value, true);
      FirstInsetIsGood(lib, ring, policy, anchor, edge, 0);
      AppendKeeps(lib, ring, policy, s, c);
      next := Appended(lib, s, c, policy.minimumSpacing, policy.target);
      FirstInsetIsChoice(lib, ring, policy, anchor, edge, 0, c.point);
    }
    EdgeDone(lib, ring, policy, anchor, s, next, edge);
  }

  // ---------- grids ----------

  lemma {:induction false} CentreIs(low: real, high: real, divisions: int, i: int, x: real)
    requires divisions > 0
    ensures IsCentre(low, high, divisions, i, x) <==> x == PartCentre(low, high, i, divisions)
  {
    var d, w, h := divisions as real, high - low, i as real + 0.5;
    assert (2 * divisions) as real == 2.0 * d && (2 * i + 1) as real == 2.0 * h;
    assert PartCentre(low, high, i, divisions) == low + h * w / d;
    var q := h * w / d;
    assert q * d == h * w;
    DoubleTimes(x - low, d);
    DoubleTimes(w, h);
    DivideOnce(x - low, h * w, d);
  }

  lemma {:induction false} DoubleTimes(x: real, y: real)
    ensures x * (2.0 * y) == 2.0 * (x * y) == (2.0 * y) * x
  {}

  lemma {:induction false} DivideOnce(x: real, n: real, d: real)
    requires d > 0.0
    ensures x * d == n <==> x == n / d
  {}

  lemma {:induction false} CellIsOnGrid(b: Bounds, divisions: int, r: int, c: int)
    requires divisions > 0 && IsCell(divisions, r, c)
    ensures OnGrid(b, divisions, CellCentre(b, divisions, r, c))
  {
    var p := CellCentre(b, divisions, r, c);
    CentreIs(b.minX, b.maxX, divisions, c, p.x);
    CentreIs(b.minY, b.maxY, divisions, r, p.y);
    hide IsCentre, PartCentre;
  }

  lemma {:induction false} OnGridIsCell(b: Bounds, divisions: int, p: Point) returns (r: int, c: int)
    requires divisions > 0 && OnGrid(b, divisions, p)
    ensures IsCell(divisions, r, c) && CellCentre(b, divisions, r, c) == p
  {
    hide IsCentre, PartCentre;
    c :| 0 <= c < divisions && IsCentre(b.minX, b.maxX, divisions, c, p.x);
    r :| 0 <= r < divisions && IsCentre(b.minY, b.maxY, divisions, r, p.y);
    CentreIs(b.minX, b.maxX, divisions, c, p.x);
    CentreIs(b.minY, b.maxY, divisions, r, p.y);
  }

  lemma {:induction false} GridSettledIsDone(lib: Library, ring: Ring, policy: SamplingPolicy, s: seq<Candidate>,
                                             divisions: int)
    requires |ring| > 0 && divisions > 0 && GridSettled(lib, ring, policy, BoundsOf(ring), s, divisions)
    ensures GridDone(lib, ring, policy, s, divisions)
  {
    hide StrictlyInside, Settled, BoundsOf, OnGrid, CellCentre;
    forall p | OnGrid(BoundsOf(ring), divisions, p) && StrictlyInside(p, ring) ensures Settled(lib, policy, s, p) {
      var r, c := OnGridIsCell(BoundsOf(ring), divisions, p);
      assert InteriorCell(ring, BoundsOf(ring), divisions, r, c);
    }
  }

  lemma {:induction false} CellsAreOnGrid(b: Bounds, divisions: int, row: nat, column: nat, p: Point)
    requires divisions > 0 && row <= divisions && column <= divisions && (row < divisions || column == 0)
    requires p in CellsBefore(b, divisions, row, column)
    ensures OnGrid(b, divisions, p)
    decreases row, column
  {
    hide CellCentre, OnGrid;
    if column > 0 {
      if p == CellCentre(b, divisions, row, column - 1) {
        CellIsOnGrid(b, divisions, row, column - 1);
      } else {
        CellsAreOnGrid(b, divisions, row, column - 1, p);
      }
    } else {
      CellsAreOnGrid(b, divisions, row - 1, divisions, p);
    }
  }

  lemma {:induction false} DoneStays(lib: Library, ring: Ring, policy: SamplingPolicy, s: seq<Candidate>,
                                     more: seq<Candidate>, from: int, to: int)
    requires |ring| > 0 && s <= more && |more| <= policy.target && CoarserDone(lib, ring, policy, s, from, to)
    ensures CoarserDone(lib, ring, policy, more, from, to)
  {
    hide StrictlyInside, Settled, BoundsOf, OnGrid;
    forall d | from <= d < to ensures GridDone(lib, ring, policy, more, d) {
      forall p | OnGrid(BoundsOf(ring), d, p) && StrictlyInside(p, ring) ensures Settled(lib, policy, more, p) {
        assert GridDone(lib, ring, policy, s, d);
        SettledStays(lib, policy, s, more, p);
      }
    }
  }

  lemma {:induction false} GridTaken(lib: Library, ring: Ring, policy: SamplingPolicy, divisions: int,
                                     s: seq<Candidate>, before: seq<Candidate>, c: Candidate)
    requires Plausible(lib) && |ring| >= 2 && divisions > 0
    requires InTurn(lib, policy, before, c,
                    FarthestFirst(lib, s, InteriorOf(lib, ring, policy, GridCells(BoundsOf(ring), divisions))), false)
    ensures OnGrid(BoundsOf(ring), divisions, c.point)
  {
    hide StrictlyInside, Settled, BoundsOf, OnGrid, Plausible, InteriorOf, FarthestFirst, CellsBefore;
    var cells := GridCells(BoundsOf(ring), divisions);
    var list := InteriorOf(lib, ring, policy, cells);
    SortRearranges(lib, s, list);
    assert c in FarthestFirst(lib, s, list);
    assert c in multiset(list);
    assert c in list;
    InteriorOfIsProper(lib, ring, policy, cells);
    assert Listed(list, c.point);
    CellsAreOnGrid(BoundsOf(ring), divisions, divisions, 0, c.point);
  }

  lemma {:induction false} GridInTurn(lib: Library, ring: Ring, policy: SamplingPolicy, divisions: int,
                                      s: seq<Candidate>)
    requires Plausible(lib) && Closed(ring) && policy.minimumSpacing > 0.0 && divisions > 0
    requires GoodSelection(lib, ring, policy, s)
    ensures var r := GridOffered(lib, ring, policy, BoundsOf(ring), divisions, s);
            && s <= r && GoodSelection(lib, ring, policy, r) && GridDone(lib, ring, policy, r, divisions)
            && forall n :: |s| <= n < |r| ==> OnGrid(BoundsOf(ring), divisions, r[n].point)
  {
    var b := BoundsOf(ring);
    hide StrictlyInside, Settled, BoundsOf, OnGrid, Plausible, InteriorOf, FarthestFirst, GridCells, Proper, Listed,
      GoodSelection, InTurn, GridSettled, GridDone, Offered;
    var list := InteriorOf(lib, ring, policy, GridCells(b, divisions));
    InteriorOfIsProper(lib, ring, policy, GridCells(b, divisions));
    SortRearranges(lib, s, list);
    SortKeepsCandidates(lib, ring, policy, list, FarthestFirst(lib, s, list));
    OfferedInTurn(lib, ring, policy, s, FarthestFirst(lib, s, list), false);
    GridOfferedIsGood(lib, ring, policy, b, divisions, s);
    var r := GridOffered(lib, ring, policy, b, divisions, s);
    GridSettledIsDone(lib, ring, policy, r, divisions);
    forall n | |s| <= n < |r| ensures OnGrid(b, divisions, r[n].point) {
      GridTaken(lib, ring, policy, divisions, s, r[..n], r[n]);
    }
  }

  lemma {:induction false} FilledInTurn(lib: Library, ring: Ring, policy: SamplingPolicy, divisions: int,
                                        s: seq<Candidate>)
    requires Plausible(lib) && Closed(ring) && policy.minimumSpacing > 0.0 && 3 <= divisions <= 33
    requires GoodSelection(lib, ring, policy, s) && CoarserDone(lib, ring, policy, s, 3, divisions)
    ensures var r := Filled(lib, ring, policy, BoundsOf(ring), divisions, s);
            s <= r && GridStage(lib, ring, policy, r, |s|)
    decreases 33 - divisions
  {
    hide StrictlyInside, Settled, BoundsOf, OnGrid, Plausible, GridOffered, GridDone, Spaced, TrulyFlagged;
    if |s| < policy.target && divisions <= 32 {
      var next := GridOffered(lib, ring, policy, BoundsOf(ring), divisions, s);
      GridInTurn(lib, ring, policy, divisions, s);
      DoneStays(lib, ring, policy, s, next, 3, divisions);
      FilledInTurn(lib, ring, policy, divisions + 1, next);
      var r := Filled(lib, ring, policy, BoundsOf(ring), divisions, s);
      forall n | |s| <= n < |r| ensures GridSample(lib, ring, policy, r[..n], 3, r[n].point) {
        if n < |next| {
          assert r[n] == next[n];
          assert s <= r[..n] && r[..n] <= next;
          DoneStays(lib, ring, policy, s, r[..n], 3, divisions);
        }
      }
    }
  }

  // ---------- the whole selection ----------

  lemma {:induction false} QuadrantStageStays(lib: Library, ring: Ring, policy: SamplingPolicy, s: seq<Candidate>,
                                              more: seq<Candidate>, from: nat, nearOnly: bool)
    requires from <= |s| && s <= more && |ring| > 0 && QuadrantStage(lib, ring, policy, s, from, |s|, nearOnly)
    ensures QuadrantStage(lib, ring, policy, more, from, |s|, nearOnly)
  {
    hide WantedQuadrant, Settled, Before;
    assert more[..|s|] == s[..|s|];
    assert forall n :: from <= n < |s| ==> more[..n] == s[..n] && more[n] == s[n];
  }

  lemma {:induction false} EdgeStageStays(lib: Library, ring: Ring, policy: SamplingPolicy, s: seq<Candidate>,
                                          more: seq<Candidate>, anchor: Point, from: nat)
    requires 0 < from <= |s| && s <= more && |ring| > 0 && anchor == s[0].point
    requires EdgeSamples(lib, ring, policy, anchor, s, from)
    requires NearCount(s) < 2 ==> EdgesSettled(lib, ring, policy, anchor, s, |ring| - 1)
    ensures EdgeStage(lib, ring, policy, more, from, |s|)
  {
    hide EdgeSample, EdgesSettled;
    assert more[..|s|] == s && more[0] == s[0];
    assert forall n :: from <= n < |s| ==> more[..n] == s[..n] && more[n] == s[n];
  }

  /** The samples after the anchor come in four stages that end at i, j, k and the last sample. */
  ghost predicate Staged(lib: Library, ring: Ring, policy: SamplingPolicy, s: seq<Candidate>, i: nat, j: nat, k: nat) {
    && 1 <= i <= j <= k <= |s| && |ring| > 0
    && QuadrantStage(lib, ring, policy, s, 1, i, true)
    && EdgeStage(lib, ring, policy, s, i, j)
    && QuadrantStage(lib, ring, policy, s, j, k, false)
    && GridStage(lib, ring, policy, s, k)
  }

  lemma {:induction false} SelectionIsStaged(lib: Library, ring: Ring, policy: SamplingPolicy, anchor: Point)
    returns (i: nat, j: nat, k: nat)
    requires Plausible(lib) && Closed(ring) && SupportedPolicy(policy) && StrictlyInside(anchor, ring)
    ensures Staged(lib, ring, policy, SelectionOf(lib, ring, policy, anchor), i, j, k)
    ensures SelectionOf(lib, ring, policy, anchor)[0] == Candidate(anchor, false)
  {
    hide StrictlyInside, TrulyFlagged, Plausible, Settled, InteriorOf, QuadrantCentres, Offered, EdgesOffered, Filled,
      Proper, BoundsOf, GoodSelection, QuadrantStage, EdgeStage, GridStage, EdgeSamples, EdgesSettled;
    var b := BoundsOf(ring);
    var quadrants := InteriorOf(lib, ring, policy, QuadrantCentres(b));
    InteriorOfIsProper(lib, ring, policy, QuadrantCentres(b));
    var first := [Candidate(anchor, false)];
    AnchorIsGood(lib, ring, policy, anchor);
    QuadrantsOffered(lib, ring, policy, first, true);
    OfferedIsGood(lib, ring, policy, first, quadrants, true);
    var near := Offered(lib, policy, first, quadrants, true);
    NoEdgesYet(lib, ring, policy, anchor, near);
    EdgesInTurn(lib, ring, policy, near, anchor, 0);
    EdgesOfferedIsGood(lib, ring, policy, near, anchor, 0);
    var insets := EdgesOffered(lib, ring, policy, near, anchor, 0);
    QuadrantsOffered(lib, ring, policy, insets, false);
    OfferedIsGood(lib, ring, policy, insets, quadrants, false);
    var start := Offered(lib, policy, insets, quadrants, false);
    FilledInTurn(lib, ring, policy, 3, start);
    var s := Filled(lib, ring, policy, b, 3, start);
    QuadrantStageStays(lib, ring, policy, near, s, 1, true);
    EdgeStageStays(lib, ring, policy, insets, s, anchor, |near|);
    QuadrantStageStays(lib, ring, policy, start, s, |insets|, false);
    i, j, k := |near|, |insets|, |start|;
  }

  lemma {:induction false} AnchorIsGood(lib: Library, ring: Ring, policy: SamplingPolicy, anchor: Point)
    requires |ring| >= 2 && SupportedPolicy(policy) && StrictlyInside(anchor, ring)
    ensures GoodSelection(lib, ring, policy, [Candidate(anchor, false)])
  {
    hide StrictlyInside, TrulyFlagged;
  }

  lemma {:induction false} NoEdgesYet(lib: Library, ring: Ring, policy: SamplingPolicy, anchor: Point,
                                      s: seq<Candidate>)
    ensures EdgesSettled(lib, ring, policy, anchor, s, 0)
  {}

  /**
    How the samples are chosen: after the anchor first the quadrant points near the boundary, then
    the edges' first choices while fewer than two are near, then the other quadrant points, then
    grids from coarse to fine; at every turn all that came earlier has been taken or is too close
    to something taken.
  */
  lemma {:induction false} SamplesAreStaged(lib: Library, ring: Ring, policy: SamplingPolicy)
    returns (i: nat, j: nat, k: nat)
    requires Plausible(lib) && Closed(ring) && SupportedPolicy(policy) && AnchorOf(lib, ring).Some?
    ensures Staged(lib, ring, policy, Samples(lib, ring, policy), i, j, k)
    ensures Samples(lib, ring, policy)[0] == Candidate(AnchorOf(lib, ring).value, false)
  {
    hide StrictlyInside, Plausible, AnchorOf, SelectionOf, Staged;
    AnchorIsInside(lib, ring);
    i, j, k := SelectionIsStaged(lib, ring, policy, AnchorOf(lib, ring).value);
  }

  lemma {:induction false} NearSince(s: seq<Candidate>, to: nat)
    requires 1 <= to <= |s| && forall n :: 1 <= n < to ==> s[n].near
    ensures NearCount(s[..to]) >= to - 1
  {
    if to > 1 {
      NearSince(s, to - 1);
      assert s[..to][..to - 1] == s[..to - 1];
    }
  }

  lemma {:induction false} NearGrows(s: seq<Candidate>, to: nat)
    requires to <= |s|
    ensures NearCount(s[..to]) <= NearCount(s)
    decreases |s| - to
  {
    if to == |s| {
      assert s[..to] == s;
    } else {
      NearGrows(s, to + 1);
      assert s[..to + 1][..to] == s[..to];
    }
  }

  /**
    When a plan is refused for want of samples near the boundary, there was no more of them to be
    had: every edge's first choice and every near quadrant point is too close to a selected sample.
  */
  lemma {:induction false} NearSamplesRunOut(lib: Library, ring: Ring, policy: SamplingPolicy, edge: nat, p: Point)
    requires Plausible(lib) && Closed(ring) && SupportedPolicy(policy) && AnchorOf(lib, ring).Some?
    requires NearCount(Samples(lib, ring, policy)) < 2
    requires FirstChoice(lib, ring, policy, AnchorOf(lib, ring).value, edge, p)
             || WantedQuadrant(lib, ring, policy, p, true)
    ensures Crowded(lib, Samples(lib, ring, policy), p, policy.minimumSpacing)
  {
    hide Plausible, AnchorOf, Samples, FirstChoice, WantedQuadrant, Crowded, EdgesSettled, Before, GridStage;
    var i, j, k := SamplesAreStaged(lib, ring, policy);
    var s := Samples(lib, ring, policy);
    NearGrows(s, j);
    NearSince(s, j);
    if FirstChoice(lib, ring, policy, AnchorOf(lib, ring).value, edge, p) {
      ChoiceSettled(lib, ring, policy, AnchorOf(lib, ring).value, s[..j], edge, p);
      CrowdedStays(lib, s[..j], s, p, policy.minimumSpacing);
    } else {
      assert Settled(lib, policy, s[..i], p);
      CrowdedStays(lib, s[..i], s, p, policy.minimumSpacing);
    }
  }

  lemma {:induction false} ChoiceSettled(lib: Library, ring: Ring, policy: SamplingPolicy, anchor: Point,
                                         s: seq<Candidate>, edge: nat, p: Point)
    requires |ring| > 0 && EdgesSettled(lib, ring, policy, anchor, s, |ring| - 1)
    requires FirstChoice(lib, ring, policy, anchor, edge, p)
    ensures Settled(lib, policy, s, p)
  {
    hide Settled, NearAnEdge, EarlierInsetsFail, InsetAt;
  }

  /**
    When there is a plan: the policy is of the one supported kind and within the request limit, the
    ring has an anchor, and the samples chosen reach the target with two of them near the boundary.
  */
  lemma {:induction false} PlannedExactly(lib: Library, ring: Ring, policy: SamplingPolicy)
    ensures var plan, s := PlanOf(lib, ring, policy), Samples(lib, ring, policy);
            var usable := policy.algorithmVersion == "POLYGON_STRATIFIED_SCREEN_V1" && policy.target >= 3
              && policy.maxRequest >= 1 && policy.minimumSpacing > 0.0 && policy.nearDistance > 0.0;
            && (plan == Failure(UnsupportedPolicy) <==> !usable)
            && (plan == Failure(LimitExceeded) <==> usable && policy.target > policy.maxRequest)
            && (plan == Failure(NoAnchor) <==>
                  usable && policy.target <= policy.maxRequest && |ring| >= 4 && AnchorOf(lib, ring).None?)
            && (plan.Success? <==>
                  && usable && policy.target <= policy.maxRequest && |ring| >= 4 && AnchorOf(lib, ring).Some?
                  && |s| == policy.target && NearCount(s) >= 2)
  {
    hide AnchorOf, SelectionOf;
  }

  // ---------- the distance to an edge ----------

  lemma {:induction false} SpacingIs(lib: Library, a: Point, b: Point, x: real, y: real, middle: real)
    requires x == (a.x - b.x) * Shoelace.MetersPerDegree && y == (a.y - b.y) * Shoelace.MetersPerLatitudeDegree
    requires middle == (a.y + b.y) / 2.0
    ensures CoordinateDistance(lib, a, b) == lib.hypot(Times(x, lib.cosDegrees(middle)), y)
  {
    hide Times;
  }

  /** The spacing of two points is measured in metres at the latitude half way between them. */
  lemma {:induction false} SpacingExactly(lib: Library, a: Point, b: Point, middle: real, east: real, north: real)
    requires middle + middle == a.y + b.y
    requires east == 111320.0 * lib.cosDegrees(middle) * (a.x - b.x) && north == 110574.0 * (a.y - b.y)
    ensures CoordinateDistance(lib, a, b) == lib.hypot(east, north)
  {
    hide CoordinateDistance;
    var x := (a.x - b.x) * Shoelace.MetersPerDegree;
    SpacingIs(lib, a, b, x, north, middle);
    Reordered(a.x - b.x, 111320.0, lib.cosDegrees(middle));
    assert Times(x, lib.cosDegrees(middle)) == east;
  }

  lemma {:induction false} Reordered(x: real, m: real, c: real)
    ensures Times(x * m, c) == m * c * x
  {}

  /** How far east of the part t of the way along an edge a point is, in metres at the mean latitude. */
  function East(lib: Library, p: Point, left: Point, right: Point, t: real): real {
    (p.x - left.x - t * (right.x - left.x)) * (111320.0 * lib.cosDegrees((p.y + left.y + right.y) / 3.0))
  }

  function North(p: Point, left: Point, right: Point, t: real): real {
    (p.y - left.y - t * (right.y - left.y)) * 110574.0
  }

  function Norm(x: real, y: real): real { x * x + y * y }

  /** x with t times d taken away */
  function Less(x: real, t: real, d: real): real { x - Times(t, d) }

  function Parabola(start: real, dot: real, length: real, t: real): real { start - 2.0 * (t * dot) + t * t * length }

  /** The square of the distance, as a polynomial in the part t. */
  lemma {:induction false} NormExpands(x: real, y: real, dx: real, dy: real, t: real)
    ensures Norm(Less(x, t, dx), Less(y, t, dy)) == Parabola(Norm(x, y), x * dx + y * dy, Norm(dx, dy), t)
  {}

  /** Where a parabola that opens upwards is least between 0 and 1. */
  lemma {:induction false} ParabolaLeast(start: real, dot: real, length: real, a: real, t: real)
    requires length > 0.0 && a == Max(0.0, Min(1.0, dot / length)) && 0.0 <= t <= 1.0
    ensures 0.0 <= a <= 1.0 && Parabola(start, dot, length, a) <= Parabola(start, dot, length, t)
  {
    var q := dot / length;
    assert q * length == dot;
    var e := t - a;
    assert Parabola(start, dot, length, t) - Parabola(start, dot, length, a) ==
      e * e * length + 2.0 * (e * (a - q)) * length;
    assert e * e >= 0.0;
    assert e * (a - q) >= 0.0;
  }

  lemma {:induction false} AlongIsNearest(x: real, y: real, dx: real, dy: real, t: real)
    requires (dx != 0.0 || dy != 0.0) && 0.0 <= t <= 1.0
    ensures var a := Along(x, y, dx, dy);
            0.0 <= a <= 1.0 && Norm(Less(x, a, dx), Less(y, a, dy)) <= Norm(Less(x, t, dx), Less(y, t, dy))
  {
    var dot, a := x * dx + y * dy, Along(x, y, dx, dy);
    SquarePositive(dx);
    SquarePositive(dy);
    assert Norm(dx, dy) == Square(dx) + Square(dy);
    assert a == Max(0.0, Min(1.0, dot / Norm(dx, dy)));
    hide Norm, Along, Square, Parabola, Less;
    NormExpands(x, y, dx, dy, a);
    NormExpands(x, y, dx, dy, t);
    ParabolaLeast(Norm(x, y), dot, Norm(dx, dy), a, t);
  }

  /** How far a scaled x lies from the part t of the way between two scaled ends. */
  function Offset(x: real, l: real, r: real, m: real, t: real): real {
    Less(Times(x, m) - Times(l, m), t, Times(r, m) - Times(l, m))
  }

  lemma {:induction false} OffsetScales(x: real, l: real, r: real, m: real, t: real)
    ensures Offset(x, l, r, m, t) == (x - l - t * (r - l)) * m
  {}

  lemma {:induction false} StillOffset(x: real, l: real, r: real, m: real, t: real)
    requires Times(r, m) - Times(l, m) == 0.0
    ensures Offset(x, l, r, m, t) == Times(x, m) - Times(l, m)
  {}

  /** The distance is that to the foot, or for an edge of no length to its end. */
  lemma {:induction false} DistanceFrom(lib: Library, p: Point, left: Point, right: Point) returns (a: real)
    ensures var m, n := 111320.0 * lib.cosDegrees((p.y + left.y + right.y) / 3.0), 110574.0;
            var x, y := Times(p.x, m) - Times(left.x, m), Times(p.y, n) - Times(left.y, n);
            var dx, dy := Times(right.x, m) - Times(left.x, m), Times(right.y, n) - Times(left.y, n);
            && a == (if dx == 0.0 && dy == 0.0 then 0.0 else Along(x, y, dx, dy))
            && SegmentDistance(lib, p, left, right) ==
                lib.hypot(Offset(p.x, left.x, right.x, m, a), Offset(p.y, left.y, right.y, n, a))
  {
    var m, n := 111320.0 * lib.cosDegrees((p.y + left.y + right.y) / 3.0), 110574.0;
    var x, y := Times(p.x, m) - Times(left.x, m), Times(p.y, n) - Times(left.y, n);
    var dx, dy := Times(right.x, m) - Times(left.x, m), Times(right.y, n) - Times(left.y, n);
    hide Along, Times;
    a := if dx == 0.0 && dy == 0.0 then 0.0 else Along(x, y, dx, dy);
    if dx == 0.0 && dy == 0.0 {
      StillOffset(p.x, left.x, right.x, m, a);
      StillOffset(p.y, left.y, right.y, n, a);
    }
  }

  lemma {:induction false} PlaneOffset(lib: Library, p: Point, left: Point, right: Point, t: real)
    ensures var m, n := 111320.0 * lib.cosDegrees((p.y + left.y + right.y) / 3.0), 110574.0;
            && East(lib, p, left, right, t) == Offset(p.x, left.x, right.x, m, t)
            && North(p, left, right, t) == Offset(p.y, left.y, right.y, n, t)
  {
    var m, n := 111320.0 * lib.cosDegrees((p.y + left.y + right.y) / 3.0), 110574.0;
    OffsetScales(p.x, left.x, right.x, m, t);
    OffsetScales(p.y, left.y, right.y, n, t);
    hide Offset;
  }

  /** The distance to an edge is that to the point of it which is nearest in the plane of the mean latitude. */
  lemma {:induction false} DistanceToNearest(lib: Library, p: Point, left: Point, right: Point) returns (a: real)
    ensures 0.0 <= a <= 1.0
    ensures SegmentDistance(lib, p, left, right) == lib.hypot(East(lib, p, left, right, a), North(p, left, right, a))
    ensures forall t :: 0.0 <= t <= 1.0 ==>
      Norm(East(lib, p, left, right, a), North(p, left, right, a)) <=
      Norm(East(lib, p, left, right, t), North(p, left, right, t))
  {
    hide Along, SegmentDistance, Norm, East, North, Offset, Times;
    a := DistanceFrom(lib, p, left, right);
    PlaneOffset(lib, p, left, right, a);
    EndIsNoNearer(lib, p, left, right, a, 0.0);
    forall t | 0.0 <= t <= 1.0
      ensures Norm(East(lib, p, left, right, a), North(p, left, right, a)) <=
              Norm(East(lib, p, left, right, t), North(p, left, right, t)) {
      PlaneOffset(lib, p, left, right, t);
      EndIsNoNearer(lib, p, left, right, a, t);
    }
  }

  lemma {:induction false} EndIsNoNearer(lib: Library, p: Point, left: Point, right: Point, a: real, t: real)
    requires 0.0 <= t <= 1.0
    requires var m, n := 111320.0 * lib.cosDegrees((p.y + left.y + right.y) / 3.0), 110574.0;
             var x, y := Times(p.x, m) - Times(left.x, m), Times(p.y, n) - Times(left.y, n);
             var dx, dy := Times(right.x, m) - Times(left.x, m), Times(right.y, n) - Times(left.y, n);
             a == if dx == 0.0 && dy == 0.0 then 0.0 else Along(x, y, dx, dy)
    ensures var m, n := 111320.0 * lib.cosDegrees((p.y + left.y + right.y) / 3.0), 110574.0;
            && 0.0 <= a <= 1.0
            && Norm(Offset(p.x, left.x, right.x, m, a), Offset(p.y, left.y, right.y, n, a)) <=
               Norm(Offset(p.x, left.x, right.x, m, t), Offset(p.y, left.y, right.y, n, t))
  {
    var m, n := 111320.0 * lib.cosDegrees((p.y + left.y + right.y) / 3.0), 110574.0;
    var x, y := Times(p.x, m) - Times(left.x, m), Times(p.y, n) - Times(left.y, n);
    var dx, dy := Times(right.x, m) - Times(left.x, m), Times(right.y, n) - Times(left.y, n);
    hide Along, Norm, Times, Less;
    if dx == 0.0 && dy == 0.0 {
      StillOffset(p.x, left.x, right.x, m, a);
      StillOffset(p.y, left.y, right.y, n, a);
      StillOffset(p.x, left.x, right.x, m, t);
      StillOffset(p.y, left.y, right.y, n, t);
    } else {
      AlongIsNearest(x, y, dx, dy, t);
    }
  }

  // ---------- the order within a grid, and publishing ----------

  /** The distance from p to the nearest of the selected points. */
  ghost predicate NearestAt(lib: Library, selected: seq<Candidate>, p: Point, distance: real) {
    && (exists k :: 0 <= k < |selected| && CoordinateDistance(lib, p, selected[k].point) == distance)
    && (forall k :: 0 <= k < |selected| ==> distance <= CoordinateDistance(lib, p, selected[k].point))
  }

  lemma {:induction false} NearestExactly(lib: Library, selected: seq<Candidate>, p: Point)
    requires |selected| > 0
    ensures NearestAt(lib, selected, p, DistanceToSelected(lib, p, selected))
  {
    hide CoordinateDistance;
    var n := |selected| - 1;
    if n > 0 {
      var front := selected[..n];
      NearestExactly(lib, front, p);
      var k :| 0 <= k < n && CoordinateDistance(lib, p, front[k].point) == DistanceToSelected(lib, p, front);
      assert selected[k] == front[k];
      assert forall i :: 0 <= i < n ==> selected[i] == front[i];
    }
  }

  /**
    One candidate is preferred to another if it is noticeably farther from what was selected, or as
    far and first by rows.
  */
  lemma {:induction false} PreferredExactly(lib: Library, selected: seq<Candidate>, a: Candidate, b: Candidate,
                                            left: real, right: real)
    requires NearestAt(lib, selected, a.point, left) && NearestAt(lib, selected, b.point, right)
    ensures FartherFirst(lib, selected, a, b) <==>
            left - right > 0.000001 || (-0.000001 <= left - right <= 0.000001 && Before(a.point, b.point))
  {
    NearestExactly(lib, selected, a.point);
    NearestExactly(lib, selected, b.point);
    NearestIsOne(lib, selected, a.point, left, DistanceToSelected(lib, a.point, selected));
    NearestIsOne(lib, selected, b.point, right, DistanceToSelected(lib, b.point, selected));
    hide DistanceToSelected, NearestAt;
  }

  lemma {:induction false} NearestIsOne(lib: Library, selected: seq<Candidate>, p: Point, d: real, e: real)
    requires NearestAt(lib, selected, p, d) && NearestAt(lib, selected, p, e)
    ensures d == e
  {
    hide CoordinateDistance;
  }

  /** Coordinates are published to nine places, halves away from zero on either side. */
  lemma {:induction false} RoundsAway(x: real, n: nat)
    ensures RoundCoordinate(-x) == -RoundCoordinate(x)
    ensures RoundHalfAway(n as real + 0.5) == n + 1
  {
    var scaled := x * 1000000000.0;
    assert -x * 1000000000.0 == -scaled;
    assert RoundHalfAway(-scaled) == -RoundHalfAway(scaled);
  }
}
