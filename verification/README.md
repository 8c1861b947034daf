# Verified model of the PFAS load-control decision kernels

This project models the decision kernels of the Go back end in Dafny and proves what they
promise. `dafny verify dfyconfig.toml` checks everything.

- **Numbers** (`Reals`, `Digits`, `Decimals`, `DecimalGrammar`, `Text`): decimal canonicalisation, unit and basis conversion,
  and the fixed-point printer through which all quantities travel. Exact rationals are reals.
- **Placement** (`Placement`, `Ranking`, `AllocationLaws`, `EngineLaws`, `PlanChecker`): eligibility, the stable
  six-key ranking, greedy allocation over printed quantities, and the independent plan checker.
- **Geometry** (`Geometry`, `Shoelace`, `ShoelaceLaws`, `Boundaries`, `BoundaryLaws`, `Sampling`,
  `SamplingLaws`): even-odd membership, shoelace sums,
  simple rings and containment, the interior anchor and the spaced screening plan.
- **Slope evidence** (`SlopeGate`, `ClearanceLaws`, `EvidenceEngine`): the verification chain for fields over the slope
  limit, and the engine run against it.
- **Controlled actions** (`Approval`, `ApprovalSafety`, `ActionCalls`, `DecisionLaws`, `ActionStore`): tables, transactions
  and their interleavings. Updating and deciding hold the row lock from first read to commit and are one step
  each; executing is split into key check, lock and read, release check, and commit.
- **Laboratory reports** (`PdfScanner`, `ScannerLaws`, `LabDraft`, `DraftLaws`) and **policy**
  (`Policy`, `Classifier`, `ClassifierLaws`), joined in `DraftSoundness`: where extracted results
  come from, what a draft without gaps guarantees, and the tier of a batch.
- **Evidence aggregation** (`Sorting`, `Counting`, `Aggregation`, `AggregationLaws`).

Algorithms that loop or change state are methods proved against specification functions; the laws
are lemmas about those functions, and the modules named `Laws` say what the functions mean without
using them. Hashes, JSON decoding, regular expressions, identifier syntax,
trigonometry and replayed provider responses are parameters, so every theorem holds for all of them.
The hypotenuse is assumed nonnegative and zero at the origin, the standard library's stable sort to
rearrange what it is given (its comparison has a tolerance and is no order), and the slope limit
nonnegative.
Callers are required to pass what the source passes: closed rings to the anchor search, rule packs
with valid thresholds to the classifier.

Four expectations hold only under a condition, and the condition is proved exact:

- The plan checker rejects an engine plan when an eligible field whose capacity prints as zero ranks
  before a field that still receives tons (`PlanChecker.CheckerAcceptsExactly`, with an example in
  `PlanChecker.CheckerRejectsASkippedPlan`).
- The engine divides by the printed rate without a guard; it fails exactly when the loop reaches a
  field whose rate prints as zero (`PlanChecker.EngineDividesByZeroExactly`, with an example in
  `PlanChecker.EngineFailsOnAFaintRate`).
- A draft without gaps can leave a batch undetermined when a number has more than a million decimal
  places, which `big.Rat` refuses, or when percent solids are unusable
  (`DraftSoundness.CleanDraftIsUndeterminedExactly`, with a report for each in
  `DraftSoundness.UnrepresentableResultStarves` and `DraftSoundness.UnusableSolidsStarve`).
- The order of the evidence matters to the classifier exactly when a determined batch has another
  tier by its greatest detected values than by its least (`Classifier.OrderMattersExactly`, with an
  example for any pack in `Classifier.TierCanDependOnOrder`).  Stored analytes have one entry each
  (db/migrations/00002_module_01.sql:129), so for them it does not (`Classifier.TierIgnoresOrder`).

## Model

| member | source | states |
|---|---|---|
| `Decimals.CanonicalPreservesValue` | internal/lab/decimal.go:13-52 | every accepted text keeps its exact value, and the output is the normal form of that value |
| `Decimals.NormalFormUnique` | internal/lab/decimal.go:13-52 | two normal forms that denote the same number are the same text |
| `Decimals.CanonicalIsUnique` | internal/lab/decimal.go:13-52 | two accepted inputs canonicalise alike if and only if they denote the same number |
| `Decimals.CanonicalFixesNormal` | internal/lab/decimal.go:13-52 | the normal forms are exactly the texts that canonicalisation leaves alone |
| `Decimals.CanonicalIsIdempotent` | internal/lab/decimal.go:13-52 | canonicalising twice is canonicalising once |
| `Decimals.CanonicalTextValue` | internal/lab/decimal.go:23-51 | each branch (all zeros, whole, small, split) yields the normal form of digits / 10^scale |
| `Decimals.AcceptedExactly` | internal/lab/decimal.go:13-33 | accepted is exactly decimal text without a minus whose exponent fits 64 bits or whose digits are all zero; the latter gives 0 |
| `Decimals.DecimalRatNonnegative` | internal/lab/decimal.go:54-64 | a number read as a rational is the one the text denotes, and is not negative |
| `DecimalGrammar.WrittenIsRead` | internal/lab/decimal.go:11 | text written as a sign, digits, a point with digits and an exponent is read as those parts |
| `DecimalGrammar.ReadIsWritten` | internal/lab/decimal.go:11-19 | and whatever is read was written from the parts it is read as |
| `DecimalGrammar.ExponentCounts` | internal/lab/decimal.go:27-33 | raising the exponent by one makes the text worth ten times as much |
| `DecimalGrammar.WrittenRational` | internal/lab/decimal.go:54-64 | as a rational the digits are one number with the point moved; refused are no digits, exponents beyond 64 bits and more than a million places |
| `Text.TrimExactly` | internal/lab/decimal.go:14 | trimming takes away white space at both ends, and all of it |
| `Text.CommasExactly` | internal/lab/decimal.go:14 | removing commas goes character by character and leaves everything else |
| `Text.ContainsExactly` | internal/policy/classifier.go:113-121 | one text contains another if and only if it is something, then that, then something |
| `Text.BytesExactly` | internal/actioncenter/service.go:234-240 | the length in bytes adds up over the characters, one to four each |
| `Text.FieldsExactly` | internal/lab/parser.go:838-840 | white space only separates words, and what stands between is a word |
| `Decimals.Convert` | internal/lab/decimal.go:66-109 | the rational multiplied and divided in turn gives the specified conversion, errors included |
| `Decimals.ConversionIsClose` | internal/lab/decimal.go:66-109 | what is printed reads back within half of 10^-12 of the amount for µg/kg and ng/g, of 1000 times it for mg/kg, and on a wet basis of the value that times the percent solids is 100 times that |
| `Decimals.ConversionOutcome` | internal/lab/decimal.go:66-109 | refused exactly for an unreadable amount or unusable percent solids, left out exactly when blank, per litre, or wet without percent solids |
| `Decimals.NormalizedText` | internal/lab/decimal.go:66-109 | a conversion yields text only for a readable amount and usable percent solids |
| `Decimals.NormalizedIsCanonicalAndClose` | internal/lab/decimal.go:66-109 | a converted concentration is already canonical and within half of 10^-12 of the exact conversion |
| `Decimals.FormatRoundTrip` | internal/placement/engine.go:527-534 | printing a nonnegative quantity and reading it back gives the value rounded to six places, halves away from zero |
| `Decimals.FormatIsFaithful` | internal/placement/engine.go:527-534 | two quantities print alike if and only if they round to the same value |
| `Decimals.RoundingError` | internal/placement/engine.go:527-534 | rounding to a number of places moves a value by at most half a unit of the last place |
| `Decimals.RoundedMonotone` | internal/placement/engine.go:527-534 | rounding keeps the order of quantities |
| `Decimals.RoundedExact` | internal/placement/engine.go:527-534 | a value that has no more places than are printed is printed exactly |
| `Placement.RankFields` | internal/placement/engine.go:248-274 | sorting the slice in place and writing the ranks yields the stable ranking, numbered from 1 |
| `Placement.SortFields` | internal/placement/engine.go:249-270 | the in-place sort equals the stable sort by the six keys |
| `Placement.InsertInPlace` | internal/placement/engine.go:249-270 | one insertion step on the slice equals the specified insertion and leaves the rest alone |
| `Placement.RunAllocation` | internal/placement/engine.go:76-105 | the allocation loop equals the specified left fold, including its first error |
| `Placement.FailureSticks` | internal/placement/engine.go:82-89 | once the loop fails, fields that come later cannot change the outcome |
| `EngineLaws.TonsExactly` | internal/placement/engine.go:480-492 | the dry tons times 907.18474 are the wet kilograms times the percent solids over 100 |
| `EngineLaws.GateExactly` | internal/placement/engine.go:162-237 | a field is eligible if and only if it is ready, approved, evaluated with success, without critical gaps, clear of water and its slope is within the limit or verified |
| `EngineLaws.LimitsExactly` | internal/placement/engine.go:192-229 | the rate is the agronomic one under the tier's cap, and the room is the rate times the acres less the prior loading |
| `EngineLaws.FieldExactly` | internal/placement/engine.go:138-237 | when a field is eligible, ineligible, left for review, or fails, in terms of its flags and readable numbers |
| `EngineLaws.FieldCarries` | internal/placement/engine.go:138-237 | what an evaluated field prints and keeps |
| `EngineLaws.TonsGoThroughTheGates` | internal/placement/engine.go:71-127 | every allocation belongs to an input field that passes every gate, and its tons and acres fit that field's room |
| `EngineLaws.NotBeforeExactly` | internal/placement/engine.go:248-272 | one field ranks no later than another if and only if it comes first by the six keys |
| `EngineLaws.RankingOrder` | internal/placement/engine.go:248-274 | the fields of a ranking stand in the order of the six keys |
| `EngineLaws.ProhibitedIsBlocked` | internal/placement/engine.go:34-47 | a prohibited batch gets a plan without tons in which every field is ineligible |
| `EngineLaws.MissingQuantityIsReviewed` | internal/placement/engine.go:48-70 | without a quantity nothing is allocated and the plan is left for review |
| `EngineLaws.StatusExactly` | internal/placement/engine.go:71-127 | a plan is ready exactly when it places tons and leaves no field for review |
| `Ranking.SortPermutes` | internal/placement/engine.go:248-274 | ranking loses and invents no field |
| `Ranking.SortIsOrdered` | internal/placement/engine.go:248-269 | the ranking is ordered by disposition, concerns, gaps, printed capacity and road distance |
| `Ranking.SortIsStable` | internal/placement/engine.go:248-269 | fields that tie on all six keys keep their input order |
| `Ranking.EligibleFieldsLead` | internal/placement/engine.go:248-274 | ranks are 1..n and the eligible fields form a prefix |
| `Ranking.SortKeepsIds` | internal/placement/engine.go:248-274 | distinct field ids stay distinct |
| `AllocationLaws.GridRoundTrip` | internal/placement/engine.go:57-61 | a quantity with at most six places survives printing and re-reading |
| `AllocationLaws.LoopPlacesMinimum` | internal/placement/engine.go:76-105 | after any number of fields the loop has placed min(batch, capacity so far) and holds exactly the rest |
| `AllocationLaws.StepPlaces` | internal/placement/engine.go:78-105 | one step grants min(remaining, printed capacity) and appends one allocation exactly when that is positive |
| `AllocationLaws.PlanIsLoop` | internal/placement/engine.go:48-127 | a plan with a known batch is the outcome of the loop over the ranked fields |
| `AllocationLaws.PlanConservesMass` | internal/placement/engine.go:57-61 | printed allocated plus printed unallocated equals the printed batch exactly, and allocated is min(batch, printed eligible capacity) |
| `AllocationLaws.PrefixReceives` | internal/placement/engine.go:78-105 | what the first k fields receive in the finished plan is what the loop had placed by then |
| `AllocationLaws.GreedyIsPrefixDominant` | internal/placement/engine.go:64-105 | no other split within the batch and the capacities gives any prefix of the ranked fields more |
| `AllocationLaws.MoreFieldsNeverPlaceLess` | internal/placement/engine.go:64-105 | adding fields anywhere never lowers the allocated total; the same fields in another order give the same totals |
| `AllocationLaws.PlacedByOffers` | internal/placement/engine.go:64-105 | the total depends on the fields only as a multiset of offers |
| `AllocationLaws.AllocationSource` | internal/placement/engine.go:94-103 | every allocation belongs to one eligible ranked field, fits its printed capacity and carries its rate |
| `AllocationLaws.EligibleNumbers` | internal/placement/engine.go:205-237 | an eligible field carries the printed controlling rate and capacity of readable numbers; the rate is capped for an elevated batch |
| `AllocationLaws.LoadingStaysWithinBound` | internal/placement/engine.go:205-237 | prior loading plus tons stays within usable acres times the controlling rate plus half a millionth; the printed rate stays under a six-place cap |
| `AllocationLaws.RateUnderCap` | internal/placement/engine.go:219-228 | rounding never lifts a rate over a cap with at most six places |
| `AllocationLaws.PlanIdsDistinct` | internal/placement/engine.go:64-71 | a plan over fields with distinct ids lists distinct ids |
| `PlanChecker.ValidatePlan` | internal/judgedemo/service.go:546-580 | the checker finds no problem if and only if ranks, allocations and mass balance are acceptable |
| `PlanChecker.IndexFields` | internal/judgedemo/service.go:552-562 | ranks present, positive and distinct; the map holds the last field with each id |
| `PlanChecker.CheckAllocations` | internal/judgedemo/service.go:563-575 | every allocation names an eligible field with capacity, has its rank as position and does not exceed its capacity |
| `PlanChecker.CountBound` | internal/placement/engine.go:78-105 | the loop emits at most one allocation a field, and one for each exactly when every field is granted |
| `PlanChecker.AcceptableExactly` | internal/judgedemo/service.go:546-580 | a plan is acceptable if and only if its ranks are positive and distinct, each allocation has an eligible field at its position with no smaller printed capacity, and what is left is the batch less what was given |
| `PlanChecker.PositionsMatchRanks` | internal/judgedemo/service.go:568-570 | positions equal ranks unless a field of printed capacity zero is passed over |
| `PlanChecker.CheckerAcceptsExactly` | internal/judgedemo/service.go:546-580 | for distinct ids and a given quantity the checker accepts the engine's plan if and only if no field that prints a zero capacity ranks before one that still receives tons |
| `PlanChecker.CheckerAcceptsEnginePlans` | internal/judgedemo/service.go:546-580 | without vanishing capacities the checker accepts every plan the engine returns |
| `PlanChecker.CheckerRejectsASkippedPlan` | internal/judgedemo/service.go:568-570 | a concrete input whose plan the checker rejects: a field of a ten-millionth of a ton ranks first |
| `PlanChecker.LoopFailsExactly` | internal/placement/engine.go:88-96 | the loop over engine-made fields fails exactly when it divides by a rate printed as zero |
| `PlanChecker.EngineDividesByZeroExactly` | internal/placement/engine.go:88-96 | after evaluation the engine fails exactly on that division, and never when no eligible controlling rate rounds to zero |
| `PlanChecker.EngineFailsOnAFaintRate` | internal/placement/engine.go:88-96 | a concrete input that fails: one field with an agronomic rate of 0.0000001 |
| `Geometry.PointInPolygon` | internal/placement/resolution.go:796-807 | the loop computes the even-odd rule over all edges, the closing one included |
| `Geometry.CrossingWithinEdge` | internal/placement/resolution.go:801 | a straddling edge meets the horizontal between the x coordinates of its ends |
| `Geometry.CrossesBySide` | internal/placement/resolution.go:796-807 | the ray crosses a straddling edge if and only if the point lies to the left of the edge taken upwards |
| `Geometry.TriangleMembership` | internal/placement/resolution.go:796-807 | a point strictly on the inner side of all three edges of a triangle is inside, one strictly on the outer side of an edge is not, for either winding |
| `Geometry.ChordCutsMembership` | internal/placement/resolution.go:796-807 | splitting a closed ring along any chord gives two rings whose answers XOR to the original's |
| `Geometry.InsideIgnoresStart` | internal/placement/resolution.go:796-807 | membership does not depend on the starting vertex of a closed ring |
| `Geometry.InsideIgnoresWinding` | internal/placement/resolution.go:796-807 | membership does not depend on the winding |
| `Geometry.RingBounds` | internal/placement/sampling.go:197-204 | the loop computes the box of a ring |
| `Geometry.BoxIsTight` | internal/placement/sampling.go:197-204 | the box of a closed ring is the tightest around its vertices |
| `Geometry.StraddlesTelescope` | internal/placement/resolution.go:800-803 | the number of straddling edges along a walk is odd exactly when its ends lie on different sides |
| `Geometry.OutsideTheBox` | internal/placement/resolution.go:796-807 | no point outside the bounding box of a closed ring is inside it |
| `Shoelace.PolygonCentroid` | internal/placement/sampling.go:180-195 | the loop computes the centroid from the signed sums about the first vertex, or nothing for a degenerate area |
| `Shoelace.CentroidIgnoresOrigin` | internal/placement/sampling.go:180-195 | the origin the sums are taken about does not change the centroid of a closed ring |
| `Shoelace.CentroidIgnoresStart` | internal/placement/sampling.go:180-195 | the centroid is the same whichever vertex the ring starts at |
| `Shoelace.CentroidIgnoresWinding` | internal/placement/sampling.go:180-195 | the centroid is the same whichever way the ring winds |
| `ShoelaceLaws.CentroidExactly` | internal/placement/sampling.go:180-195 | a ring has a centroid exactly when twice its area exceeds 10^-15 |
| `ShoelaceLaws.TriangleCentroid` | internal/placement/sampling.go:180-195 | the centroid of a triangle is the mean of its vertices |
| `ShoelaceLaws.CentroidsBalance` | internal/placement/sampling.go:180-195 | the centroid of a ring is that of the two parts of any chord, weighed by their signed areas |
| `Shoelace.PolygonAreaAcres` | internal/placement/resolution.go:698-714 | the two loops compute the shoelace area at the mean latitude |
| `Shoelace.AreaIgnoresStartAndWinding` | internal/placement/resolution.go:698-714 | the area does not depend on the starting vertex or the winding |
| `ShoelaceLaws.AcresAreScaled` | internal/placement/resolution.go:698-720 | acres are the shoelace area in square degrees times the metres to a degree at the mean latitude, over 4046.8564224 |
| `ShoelaceLaws.TriangleAcres` | internal/placement/resolution.go:698-720 | the acres of a triangle from its orientation and the mean latitude of its vertices |
| `Shoelace.ChordSplitsArea` | internal/placement/sampling.go:183-190 | a chord splits the signed area of a closed ring into those of its two parts |
| `Boundaries.PointInPolygonOrBoundary` | internal/placement/resolution.go:786-794 | true exactly for points on some edge or inside by the even-odd rule |
| `Boundaries.PointStrictlyInside` | internal/placement/sampling.go:206-216 | true exactly for points inside and on no edge |
| `Boundaries.PointClassIgnoresStartAndWinding` | internal/placement/resolution.go:786-794 | inside, outside or boundary: the same for every start vertex and winding |
| `BoundaryLaws.OnSegmentExactly` | internal/placement/resolution.go:677-683 | a point counts as on a segment when it is nearly on its line and within 10^-10 of its box |
| `BoundaryLaws.SharedPointIsFound` | internal/placement/resolution.go:685-691 | two segments that share a point are always found to intersect |
| `BoundaryLaws.IntersectExactly` | internal/placement/resolution.go:685-691 | segments are found to intersect if and only if they share a point or an end of one is as good as on the other |
| `BoundaryLaws.ProperExactly` | internal/placement/resolution.go:693-696 | segments intersect properly if and only if they share a point and no end of one is near the line of the other |
| `BoundaryLaws.PointClasses` | internal/placement/resolution.go:786-794 | a point of an edge counts as contained but not as strictly inside; off the edges both mean inside |
| `BoundaryLaws.CrossingIsShared` | internal/placement/resolution.go:685-696 | segments whose ends lie on opposite sides of one another share a point |
| `Boundaries.AcceptedPointsAreInTheBox` | internal/placement/resolution.go:786-794 | an accepted point lies in the ring's box up to the tolerance |
| `Boundaries.ValidateSimpleRing` | internal/placement/resolution.go:623-646 | accepts exactly the rings without zero-length edges, repeated vertices and meeting separate edges, and names a true fault otherwise |
| `Boundaries.CheckVertices` | internal/placement/resolution.go:624-633 | the vertex checks, in the order of the loops |
| `Boundaries.CheckEdges` | internal/placement/resolution.go:634-645 | the pairwise edge checks, skipping adjacent edges |
| `Boundaries.SimpleIgnoresStartAndWinding` | internal/placement/resolution.go:623-646 | being a simple ring does not depend on the starting vertex or the winding |
| `BoundaryLaws.SimpleEdgesAreDisjoint` | internal/placement/resolution.go:623-646 | edges of an accepted ring that are not neighbours have no point in common |
| `BoundaryLaws.VerticesApart` | internal/placement/resolution.go:623-633 | the vertex checks pass exactly when vertices are pairwise more than 10^-9 apart in one coordinate |
| `Boundaries.ValidateBoundaryGeometry` | internal/placement/resolution.go:598-621 | accepts exactly closed simple single rings of valid coordinates with a usable area, and derives the acres |
| `BoundaryLaws.BoundaryExactly` | internal/placement/resolution.go:598-621 | accepted is exactly one closed simple ring of longitudes and latitudes of over a tenth of an acre |
| `Boundaries.BoundaryIgnoresStartAndWinding` | internal/placement/resolution.go:598-621 | acceptance and derived acres do not depend on the starting vertex or the winding |
| `Boundaries.PolygonContainsRing` | internal/placement/resolution.go:648-667 | examines vertices, edge midpoints and proper crossings, and nothing else |
| `Boundaries.ContainedRingIsInTheBox` | internal/placement/resolution.go:648-667 | vertices and edge midpoints of an accepted child lie in the parent's box up to the tolerance |
| `BoundaryLaws.ContainsExactly` | internal/placement/resolution.go:648-667 | a ring is contained if and only if start and middle of each of its edges are and no edge of the parent is crossed properly |
| `Sampling.MinimumDistanceToRing` | internal/placement/sampling.go:218-224 | the loop computes the clearance of a point |
| `Sampling.ClearanceIsMinimum` | internal/placement/sampling.go:218-224 | the clearance is attained at an edge, is below every edge distance and is not negative |
| `SamplingLaws.DistanceToNearest` | internal/placement/sampling.go:226-240 | the distance to an edge is that to the point of it which is nearest in the plane of the mean latitude |
| `SamplingLaws.SpacingExactly` | internal/placement/sampling.go:242-247 | the spacing of two points is measured in metres at the latitude half way between them |
| `Sampling.SearchGrid` | internal/placement/sampling.go:160-171 | one resolution: the loop finds the best of the cell centres strictly inside, as they come |
| `Sampling.BestSoFar` | internal/placement/sampling.go:160-171 | the best so far is an interior cell centre, and no earlier one clears the boundary by more than the tolerance |
| `Sampling.GridBest` | internal/placement/sampling.go:160-171 | the best of a resolution is strictly inside and nearly clears the boundary most; none means no interior cell |
| `Sampling.LaterCellIsNotLess` | internal/placement/sampling.go:164-168 | cells are visited in row-major order, so the coordinate tie-break never prefers a later cell |
| `Sampling.TieBreakNeverApplies` | internal/placement/sampling.go:168-170 | the tie-break never replaces the best cell, so it never lowers the clearance |
| `Sampling.InteriorAnchor` | internal/placement/sampling.go:153-178 | the loops find the centroid, or else the best cell of the first resolution that has one |
| `Sampling.AnchorMeaning` | internal/placement/sampling.go:153-178 | the centroid if strictly inside; otherwise an interior cell centre within 10^-6 of the best at the first resolution that has one; nothing only if none has |
| `Sampling.AnchorIsInside` | internal/placement/sampling.go:153-178 | the anchor is strictly inside |
| `Sampling.AppendCandidate` | internal/placement/sampling.go:141-151 | appends exactly when the target is not reached and no selected point is too close |
| `Sampling.AppendKeeps` | internal/placement/sampling.go:141-151 | appending keeps all points strictly inside, spaced out and truly flagged, and settles the candidate |
| `Sampling.ValidQuadrants` | internal/placement/sampling.go:59-71 | lists the quadrant centres strictly inside in order, flagged by their clearance |
| `Sampling.InteriorOfIsProper` | internal/placement/sampling.go:59-71 | exactly the points strictly inside are listed, each truly flagged |
| `Sampling.OfferAll` | internal/placement/sampling.go:74-93 | the loop equals offering the candidates one after the other |
| `Sampling.OfferedIsGood` | internal/placement/sampling.go:74-93 | offering keeps all selected points strictly inside, spaced out and truly flagged, and settles every wanted candidate |
| `Sampling.OfferEdgeInsets` | internal/placement/sampling.go:79-90 | equals taking, edge by edge while fewer than two points are near, the first inset that is strictly inside and near the boundary |
| `Sampling.EdgesOfferedIsGood` | internal/placement/sampling.go:79-90 | edge insets keep the selection good and only add to it |
| `Sampling.SortRearranges` | internal/placement/sampling.go:107-118 | sorting the candidates of a grid only rearranges them |
| `Sampling.GridCandidates` | internal/placement/sampling.go:96-106 | lists the interior cell centres of a grid in row-major order, truly flagged |
| `Sampling.FillFromGrids` | internal/placement/sampling.go:95-125 | the loop offers the grids from 3 to 32, farthest candidates first, exactly as long as the target is not reached |
| `Sampling.GridOfferedIsGood` | internal/placement/sampling.go:96-125 | offering a grid keeps the selection good and leaves no interior cell centre with room |
| `Sampling.FilledIsGood` | internal/placement/sampling.go:95-125 | filling keeps the selection good, and short of the target every grid is settled |
| `Sampling.SelectionIsGood` | internal/placement/sampling.go:51-125 | the whole selection is good, starts with the anchor, and short of the target leaves no room in any grid |
| `Sampling.RoundCoordinateIsClose` | internal/placement/sampling.go:281-283 | a published coordinate is within 5·10^-10 of the selected one |
| `Sampling.Publish` | internal/placement/sampling.go:130-138 | the loop publishes the selected points in order, rounded, with their counts |
| `Sampling.PublishedIsClose` | internal/placement/sampling.go:130-138 | each published point is within the rounding of its selected point, and near and interior counts add up |
| `Sampling.PlanScreeningSamples` | internal/placement/sampling.go:33-139 | the answer, plan or error, is exactly the one specified for the ring and the policy |
| `Sampling.PlansAreSound` | internal/placement/sampling.go:33-139 | a plan has exactly the target number of spaced, strictly interior samples, at least two truly near the boundary and one interior; a missed target has its reason |
| `SamplingLaws.PlannedExactly` | internal/placement/sampling.go:33-57 | when there is a plan, and for which reason there is none |
| `SamplingLaws.SamplesAreStaged` | internal/placement/sampling.go:57-121 | near quadrant points, then edge insets while fewer than two are near, then all quadrant points, then grids from coarse to fine; at every turn all that comes earlier has been taken or is too close to something taken |
| `SamplingLaws.FirstInsetIsChoice` | internal/placement/sampling.go:77-90 | the inset tried for an edge is the first of its four that is strictly inside and near an edge, and no other |
| `SamplingLaws.NearSamplesRunOut` | internal/placement/sampling.go:77-123 | with fewer than two samples near the boundary, every edge's first inset and every near quadrant point is too close to a selected sample |
| `SamplingLaws.PreferredExactly` | internal/placement/sampling.go:108-118 | a candidate goes first if it is noticeably farther from what was selected, or as far and first by rows |
| `SamplingLaws.RoundsAway` | internal/placement/sampling.go:281-283 | coordinates are rounded alike on either side of zero, halves away from it |
| `SlopeGate.CheckAdmissible` | internal/placement/resolution.go:256-303 | passes exactly when reference, artifact, field, policy, roles and times agree |
| `SlopeGate.ConfiguredRole` | internal/placement/resolution.go:562-569 | true exactly for a listed role |
| `SlopeGate.AdmitResolution` | internal/placement/resolution.go:229-309 | admits exactly the stored resolution whose bytes, ids, hashes and boundary check out |
| `SlopeGate.CheckParent` | internal/placement/resolution.go:310-347 | passes exactly when the stored parent boundary is confirmed, directly precedes the revision and contains it |
| `SlopeGate.HighSlopeSamples` | internal/placement/resolution.go:722-753 | returns the usable over-limit samples in order, or fails on an undecodable usable value |
| `SlopeGate.CheckHighSamples` | internal/placement/resolution.go:357-367 | passes exactly when some usable sample is over the limit and all such samples are off and outside the revised ring |
| `SlopeGate.CheckSource` | internal/placement/resolution.go:349-367 | passes exactly when the stored source evidence has the referenced bytes and its high samples are excluded |
| `SlopeGate.MaximumSlope` | internal/placement/resolution.go:755-784 | succeeds exactly when all usable values decode and one of them is not negative |
| `SlopeGate.CheckRecorded` | internal/placement/resolution.go:457-481 | passes exactly when the screening matches field, time, sampling policy and capture hashes |
| `SlopeGate.CheckResults` | internal/placement/resolution.go:500-522 | passes exactly when every planned point is answered in place within the limit and some slope is not negative |
| `SlopeGate.LoadScreening` | internal/placement/resolution.go:444-481 | succeeds exactly when the stored screening is the referenced one and is recorded under the policy |
| `SlopeGate.CheckReplay` | internal/placement/resolution.go:488-522 | passes exactly when the replayed response answers for every planned point within the limit |
| `SlopeGate.VerifyRevisedScreening` | internal/placement/resolution.go:444-533 | passes exactly when the screening on record clears the plan that the policy makes of the ring |
| `SlopeGate.CheckAuthorization` | internal/placement/resolution.go:372-398 | passes exactly when the stored authorization approves this artifact for this field by a separate configured reviewer in time |
| `SlopeGate.VerifySlopeResolution` | internal/placement/resolution.go:229-413 | succeeds exactly when a complete dossier clears the field, with the acres of the revised boundary; the final maximum lookup cannot fail |
| `SlopeGate.OneResolution` | internal/placement/resolution.go:229-255 | a reference admits at most one resolution |
| `SlopeGate.DossierComplete` | internal/placement/resolution.go:229-413 | when every check passes the parts make up a dossier that clears the field |
| `SlopeGate.DossierParts` | internal/placement/resolution.go:229-413 | a dossier that clears the field holds the admitted resolution and passes every check |
| `ClearanceLaws.ClearedExactly` | internal/placement/resolution.go:229-533 | a dossier clears a field if and only if the bytes are intact, the references agree, everything is about this field, version and policy, issuer and reviewer differ and approved, the times are in order, the boundary is contained and leaves the steep samples out, and every planned point was asked for and answered within the limit |
| `SlopeGate.ClearedExcludesHighSamples` | internal/placement/resolution.go:357-367 | no usable over-limit source sample lies in or on a cleared ring |
| `SlopeGate.ClearedScreensEveryPoint` | internal/placement/resolution.go:500-522 | each planned point, strictly inside the revised ring, has an answer within the limit no further away than rounding |
| `EvidenceEngine.EvaluateFieldWithEvidence` | internal/placement/engine.go:138-246 | the field result is the specified one for the acres of a dossier that clears it, or for none when a field over the limit has no such dossier |
| `EvidenceEngine.EvaluateVerified` | internal/placement/engine.go:150-246 | the step-by-step checks of a field equal the specified evaluation |
| `EvidenceEngine.EvaluateAllFields` | internal/placement/engine.go:64-70 | the field loop equals the specified evaluation, up to its first error, with every field it reached justified |
| `EvidenceEngine.EvaluateWithEvidence` | internal/placement/engine.go:27-127 | the engine returns the specified plan for justified verification outcomes |
| `EvidenceEngine.Allocate` | internal/placement/engine.go:71-127 | the steps from the ranked fields on equal the specified end of the plan |
| `EvidenceEngine.SteepFieldsNeedClearance` | internal/placement/engine.go:162-200 | a field over the slope limit receives tons only when a complete dossier clears it |
| `EvidenceEngine.VerifiedExactly` | internal/placement/engine.go:162-200 | slope evidence counts if and only if the field is over the limit and some dossier clears it, with the acres of one that does |
| `EvidenceEngine.DerivedAcresAreReadable` | internal/placement/resolution.go:615-620 | acres derived from a usable boundary are text the engine reads back, within 0.05 of the area |
| `ActionCalls.SequenceIsARun` | internal/actioncenter/service.go:234-394 | a whole call is a run of its steps, so every run invariant holds of it |
| `ActionCalls.CreatingOnlyAdds` | internal/database/db/actions.sql.go:15-25 | creating actions touches no stored row; unless refused, every code has its action afterwards |
| `ActionCalls.EnsureIsIdempotent` | internal/actioncenter/service.go:43-75 | creating the actions of a package twice changes nothing the second time, whatever ids it would use |
| `ActionCalls.KeyCheckOutcome` | internal/actioncenter/service.go:234-261 | the key check answers, refuses or goes on, exactly as the stored attempts and the owner demand |
| `ActionCalls.LockOutcome` | internal/actioncenter/service.go:262-305 | under the lock an executed action is answered, an approved one goes on, and any other is refused |
| `ActionCalls.CommitOutcome` | internal/actioncenter/service.go:324-389 | a commit stores attempt, release and status together, or leaves the tables as they were |
| `ActionCalls.ExecutesExactly` | internal/actioncenter/service.go:234-394 | an undisturbed execution is answered with a receipt if and only if key, owner, status and plan allow it; a first one stores exactly one attempt |
| `DecisionLaws.SucceedsExactly` | internal/actioncenter/service.go:234-393 | what a call needs to be answered with a receipt, in terms of key, row, approval and frozen plan |
| `DecisionLaws.DecidesExactly` | internal/actioncenter/service.go:147-232 | a decision is stored if and only if the action is the caller's and still proposed, the expected hash is the row's, the reviewer is named and storable, an approval has a complete payload, no critical gaps and acknowledges the others, and a rejection has a note |
| `DecisionLaws.ProblemExactly` | internal/actioncenter/service.go:160-200 | the first check that fails gives the error |
| `DecisionLaws.EditsExactly` | internal/actioncenter/service.go:89-137 | an edit is stored exactly when it changes the payload's hash or revives a rejected action, as a new proposed revision |
| `DecisionLaws.CreatesExactly` | internal/actioncenter/service.go:43-75 | a proposal gets a row exactly when its package has none with its code, in effect from the start if it is a control |
| `ActionStore.Tables.constructor` | db/migrations/00014_module_08.sql:2-96 | empty tables satisfy the invariant |
| `ActionStore.Tables.Create` | internal/database/db/actions.sql.go:15-25 | inserts the row of a proposal unless the package already has its code |
| `ActionStore.Tables.Ensure` | internal/actioncenter/service.go:43-75 | equals creating the proposals one after the other, up to the first the table refuses |
| `ActionStore.Tables.Update` | internal/actioncenter/service.go:89-137 | equals the update step: a changed or rejected payload becomes a new proposed revision |
| `ActionStore.Tables.MakeDecision` | internal/actioncenter/service.go:147-232 | equals the decision step: checks in order, then the insert under the unique key and the status |
| `ActionStore.Tables.SplitGaps` | internal/actioncenter/service.go:549-560 | separates critical from review gaps in order |
| `ActionStore.Tables.FindByKey` | internal/database/db/actions.sql.go:413-416 | looks an attempt up by action and idempotency key |
| `ActionStore.Tables.FindOfAction` | internal/database/db/actions.sql.go:566-573 | finds the stored execution of an action |
| `ActionStore.Tables.BeginExecution` | internal/actioncenter/service.go:234-261 | equals the key-check step, which takes no lock |
| `ActionStore.Tables.LockAction` | internal/actioncenter/service.go:262-305 | equals the lock-and-read step |
| `ActionStore.Tables.CheckPlan` | internal/actioncenter/service.go:310-323 | equals the release check of the frozen plan |
| `ActionStore.Tables.Commit` | internal/actioncenter/service.go:324-389 | equals the commit step: attempt, release and status together or not at all |
| `ActionStore.Tables.Execute` | internal/actioncenter/service.go:234-394 | run without interruption, equals the four steps one after the other up to the first that ends the call |
| `ApprovalSafety.StepKeepsValid` | internal/actioncenter/service.go:43-394 | every step of every transaction keeps the invariant |
| `ApprovalSafety.EveryRunIsValid` | internal/actioncenter/service.go:43-394 | every interleaving of any transactions from empty tables satisfies the invariant |
| `ApprovalSafety.CommitKeepsDb` | internal/database/db/actions.sql.go:163-224 | committing under the lock adds exactly one attempt and at most one release and keeps every other row in order |
| `ApprovalSafety.DecideKeepsDb` | internal/database/db/actions.sql.go:106-111 | storing a decision keeps the tables consistent and touches one action |
| `ApprovalSafety.UpdateKeepsDb` | internal/database/db/actions.sql.go:611-622 | an edit keeps the tables consistent and touches one action |
| `ApprovalSafety.CreateKeepsDb` | internal/database/db/actions.sql.go:15-25 | creating an action keeps the tables consistent |
| `ApprovalSafety.ExecutionIsAuthorized` | internal/actioncenter/service.go:291-380 | every attempt is its action's only one and carries the approval of exactly the frozen revision and hash, from a package without critical gaps |
| `ApprovalSafety.PlacementsAreReleasedOnce` | internal/database/db/actions.sql.go:216-224 | two executions never release the same placement evaluation |
| `ApprovalSafety.StatusMeansDecision` | internal/actioncenter/service.go:206-218 | the status of an action that is no control says exactly what was decided about its current revision |
| `ApprovalSafety.ErrorBranchesAreUnreachable` | internal/actioncenter/service.go:271-296 | "approval does not match" and "receipt is missing" cannot happen, nor can a commit meet an attempt under its key |
| `ApprovalSafety.StepKeepsExecution` | internal/actioncenter/service.go:89-128 | an executed action's row and attempt survive every step |
| `ApprovalSafety.AnswersStoredReceipt` | internal/actioncenter/service.go:249-288 | whatever receipt an execution of an executed action is answered with is the stored one |
| `ApprovalSafety.LaterExecuteReturnsSameReceipt` | internal/actioncenter/service.go:249-288 | any later execution under any well-formed key returns the same receipt, whatever happens in between |
| `ApprovalSafety.OneDecisionARevision` | internal/actioncenter/service.go:206-217 | a decision that passes its checks is stored exactly when the action is still proposed |
| `ApprovalSafety.EditNeedsNewDecision` | internal/actioncenter/service.go:107-137 | an edit voids the approval: no decision is current for the new revision and execution is refused |
| `ApprovalSafety.RunKeepsDecisions` | internal/database/db/actions.sql.go:106-111 | decisions are never changed or removed |
| `PdfScanner.SplitOfJoin` | internal/lab/parser.go:220 | joining lines and splitting again gives the lines back |
| `PdfScanner.SplitJoins` | internal/lab/parser.go:220 | splitting loses nothing |
| `PdfScanner.SliceOfJoin` | internal/lab/parser.go:253-257 | consecutive lines are the slice of the text between their offsets, on line boundaries |
| `PdfScanner.ContinuePending` | internal/lab/parser.go:249-283 | a pending result is closed with exactly its lines, kept, or given up after six lines, as the specified continuation says |
| `PdfScanner.StartAnalyte` | internal/lab/parser.go:285-308 | a naming line gives exactly its own reading or starts a pending result |
| `PdfScanner.ReadLine` | internal/lab/parser.go:249-308 | what a line delivers and leaves to come makes up what was to come before it |
| `PdfScanner.TrackSample` | internal/lab/parser.go:226-236 | the first sample named is the selected one; a sample line drops what is pending |
| `PdfScanner.ScanLine` | internal/lab/parser.go:220-309 | one turn of the line loop delivers the next of the specified results and keeps sample, column and skip state exact |
| `PdfScanner.ScanPage` | internal/lab/parser.go:215-310 | after a page all its specified results have been delivered |
| `PdfScanner.ParsePdfPages` | internal/lab/parser.go:210-312 | the analytes are exactly the specified results of the pages, in order, with page, offsets, excerpt and reading |
| `PdfScanner.AllBlocksAreRead` | internal/lab/parser.go:210-312 | every result quotes consecutive whole lines of one page of the selected sample exactly, and no line serves two results |
| `PdfScanner.ClosedExactly` | internal/lab/parser.go:249-283 | a result spread over lines closes at a line if and only if its unit is on one of the next five lines, nothing broke in, and the line is that of the unit or, without a detection limit, the next |
| `PdfScanner.UnclaimedNamesAreFound` | internal/lab/parser.go:210-312 | a naming line that no started result takes up gives its result |
| `PdfScanner.ReachedExactly` | internal/lab/parser.go:249-283 | a line is reached with nothing pending if and only if no started result takes it up |
| `PdfScanner.ResultsExactly` | internal/lab/parser.go:210-312 | a block is among the results if and only if its first line names an analyte, is reached with nothing pending, and the block is its own reading or the result it starts |
| `PdfScanner.SamplesStep` | internal/lab/parser.go:226-236 | what one line does to the sample identifiers met so far |
| `ScannerLaws.SkippedExactly` | internal/lab/parser.go:238-244 | a section is skipped from the line of the selected sample that begins it to the end of its page |
| `ScannerLaws.ColumnsExactly` | internal/lab/parser.go:235-237 | the table header in force is the last one of the selected sample before a line, on its page or an earlier one |
| `ScannerLaws.OwnExactly` | internal/lab/parser.go:283-308 | a line is read by the columns of the header in force if they fit, or else by its text if it has a unit |
| `PdfScanner.BoundsAreExact` | internal/lab/parser.go:253-257 | source bounds are a valid range on line boundaries, and the excerpt is the single-space join of the trimmed non-blank lines in it |
| `LabDraft.ResultsAreWellRead` | internal/lab/parser.go:535-566 | whatever a report says, a value read is canonical and limits are not blank |
| `DraftLaws.ResultReads` | internal/lab/parser.go:535-566 | a result is a non-detect by its words or qualifier, and otherwise its value is the number it says |
| `DraftLaws.BelowReads` | internal/lab/parser.go:535-566 | a result below a limit has that limit unless the report states another |
| `LabDraft.SelectAnalyte` | internal/lab/parser.go:601-621 | keeps the first result, reports conflicts and the gaps of its validation |
| `LabDraft.ValidateAnalyte` | internal/lab/parser.go:623-674 | the analyte is brought into normal form and converted in place, and its gaps are exactly the specified ones |
| `LabDraft.CanonicalizeNumbers` | internal/lab/parser.go:646-657 | the three numbers are replaced by their normal forms, each failure a gap |
| `LabDraft.ValidateDraft` | internal/lab/parser.go:568-673 | the grouping and validation loops equal the specified draft and gap list |
| `DraftLaws.GapsExactly` | internal/lab/parser.go:568-673 | a gap is raised if and only if the report, or the first result of PFOS or PFOA, has that flaw |
| `DraftLaws.DraftExactly` | internal/lab/parser.go:568-680 | a draft holds the first result of PFOS and then of PFOA, with numbers in normal form and converted and all else as it was |
| `LabDraft.PolicyInput` | internal/judgedemo/service.go:520-533 | passes values on, and for non-detects the reporting limit or else the detection limit |
| `DraftSoundness.KeptConverts` | internal/lab/parser.go:647-666 | canonicalising first changes neither what can be converted nor the converted value |
| `DraftSoundness.ConvertsExactly` | internal/lab/decimal.go:66-109 | a mass concentration converts exactly when its numbers are representable |
| `DraftSoundness.CleanEvidence` | internal/policy/classifier.go:31-52 | evidence of an analyte without gaps stops the classifier exactly when it starves it, and otherwise resolves its analyte |
| `DraftSoundness.CleanDraftIsUndeterminedExactly` | internal/policy/classifier.go:9-62 | a draft without gaps is undetermined if and only if an analyte cannot be converted or a non-detect's converted limit is over the threshold |
| `DraftSoundness.CleanDraftNeverStarves` | internal/policy/classifier.go:9-62 | with kept results of representable numbers and the solids they need, a draft without gaps is undetermined exactly when a non-detect limit exceeds the elevated threshold |
| `DraftSoundness.TinyTextIsRefused` | internal/lab/decimal.go:54-64 | written out beyond a million places a number is canonical but is refused as a rational |
| `DraftSoundness.UnrepresentableResultStarves` | internal/lab/parser.go:660-664 | a whole report without gaps whose values have more than a million places leaves the batch undetermined |
| `DraftSoundness.UnusableSolidsStarve` | internal/lab/decimal.go:87-97 | a whole report without gaps on a wet basis with percent solids 0 leaves the batch undetermined |
| `Policy.ValidateRulePack` | internal/policy/catalog.go:48-141 | accepts exactly the valid packs |
| `Policy.CheckRules` | internal/policy/catalog.go:96-126 | every rule is known, unique and fits the classifier contract |
| `Policy.CheckRule` | internal/policy/catalog.go:107-125 | one rule fits its expected tier, operator, threshold, rate and prohibition |
| `Policy.CheckRequirements` | internal/policy/catalog.go:127-139 | requirements are complete, unique and name supported tiers |
| `Policy.PackHasEveryRule` | internal/policy/catalog.go:93-126 | a valid pack contains each of the three known rules, fitting its contract |
| `ClassifierLaws.ValidExactly` | internal/policy/catalog.go:48-141 | a pack is valid if and only if it is reviewed, has ascending thresholds, one rule of each of the three kinds, method words and complete requirements |
| `Classifier.Classify` | internal/policy/classifier.go:9-62 | the evidence loop and the tier chain equal the specified classification |
| `Classifier.MatchRule` | internal/policy/classifier.go:68-93 | the matched rule and the tier's requirements are copied into the result |
| `ClassifierLaws.BarredExactly` | internal/policy/classifier.go:9-62 | a batch is barred for exactly the first flaw of its context, then of its evidence, then for a missing analyte, and if for none then it has a tier |
| `ClassifierLaws.TierExactly` | internal/policy/classifier.go:25-66 | the tier of a batch is decided by the value either analyte ends up with, against the two thresholds |
| `ClassifierLaws.ResultExactly` | internal/policy/classifier.go:68-93 | text, rate and bans are those of the first rule with the tier's id, and the requirements are those that name the tier, all and in order |
| `Classifier.TierFindsItsRule` | internal/policy/classifier.go:54-79 | every determined tier comes from its own rule; elevated carries a positive rate, prohibited bans land application |
| `Classifier.EngineAlwaysHasItsCeiling` | internal/placement/engine.go:219-224 | the engine never misses the rate ceiling of a classified batch |
| `Classifier.FieldNeverLacksCeiling` | internal/placement/engine.go:219-224 | no field evaluation of a classified batch fails for want of the ceiling |
| `Classifier.UndeterminedExactly` | internal/policy/classifier.go:9-52 | undetermined if and only if the context is wrong, some evidence stops it or an analyte is missing |
| `Classifier.TierByDetectedValues` | internal/policy/classifier.go:54-66 | with one entry an analyte the tier is read off the detected values |
| `Classifier.TierIsMonotone` | internal/policy/classifier.go:54-66 | raising detected values never lowers the tier and never makes it undetermined |
| `Classifier.TierIgnoresOrder` | internal/policy/classifier.go:29-52 | with one entry an analyte, as the unique key of stored analytes guarantees, the order changes nothing but the reason for stopping |
| `Classifier.OrderMattersExactly` | internal/policy/classifier.go:23-62 | all orders of the evidence give one tier if and only if the batch is undetermined or the least detected values give the same tier as the greatest |
| `Classifier.TierCanDependOnOrder` | internal/policy/classifier.go:23-62 | with any pack, a batch that lists PFOS twice is elevated in one order and prohibited in the other |
| `Classifier.TierOfOrder` | internal/policy/classifier.go:23-62 | in any order the tier is that of the values detected last |
| `Sorting.Sort` | internal/evidence/aggregation.go:110-122 | sorting by insertion equals the specified sort |
| `Sorting.SortIgnoresOrder` | internal/evidence/aggregation.go:110-122 | sorting forgets the order of its input |
| `Aggregation.AggregateField` | internal/evidence/aggregation.go:35-91 | succeeds exactly on known statuses and fitting values, with the specified aggregate |
| `Aggregation.CountStatuses` | internal/evidence/aggregation.go:37-52 | separates the statuses and stops at the first unknown one |
| `Aggregation.ShareProvenance` | internal/evidence/aggregation.go:181-196 | the common unit and source if there is one, and the latest fetch |
| `Aggregation.AnyOf` | internal/evidence/aggregation.go:93-103 | the disjunction of the flags, or nothing when one does not decode |
| `Aggregation.SortedNumbers` | internal/evidence/aggregation.go:131-151 | the decoded numbers sorted, or nothing when one does not decode |
| `Aggregation.CountCategories` | internal/evidence/aggregation.go:158-179 | sorted distinct categories with their counts, however the map yields its keys |
| `Aggregation.Combine` | internal/evidence/aggregation.go:68-83 | the value under each aggregation rule |
| `Aggregation.AggregateIgnoresOrder` | internal/evidence/aggregation.go:35-196 | permuting the observations changes neither value, unit, source, latest fetch, counts nor state |
| `Aggregation.RangeBounds` | internal/evidence/aggregation.go:117-129 | min <= median <= max, the ends are read values that bound all others, and half the values lie on either side of the median |
| `Aggregation.DistributionCounts` | internal/evidence/aggregation.go:158-179 | distinct sorted categories with positive counts that add up to the ok count |
| `Aggregation.LatestIsGreatest` | internal/evidence/aggregation.go:190-193 | the latest fetch is one of the fetches and none is later |
| `Aggregation.SamplesAccountedFor` | internal/evidence/aggregation.go:37-56 | with no surplus observations ok + absent + failed equals the sample count |
| `Aggregation.CompleteExactly` | internal/evidence/aggregation.go:61-64 | complete if and only if all expected samples, and no others, are present and ok |
| `AggregationLaws.CountsExactly` | internal/evidence/aggregation.go:37-60 | the counts are those of the statuses, missing samples count as failed, and nothing usable means unavailable |
| `AggregationLaws.IndicesInOrder` | internal/evidence/aggregation.go:41-44 | the indices of the usable observations are listed in order |
| `AggregationLaws.ProvenanceExactly` | internal/evidence/aggregation.go:181-196 | unit and source are those all usable observations share or else none, and the fetch is their latest |
| `AggregationLaws.FitsExactly` | internal/evidence/aggregation.go:68-83 | there is a value if and only if every usable observation decodes as the rule asks |
| `AggregationLaws.AggregableExactly` | internal/evidence/aggregation.go:35-91 | a field is aggregated if and only if every status is known and every usable observation fits the rule |
| `AggregationLaws.FlagAndBoundaries` | internal/evidence/aggregation.go:93-115 | the flag is true when some observation is; a minimum or maximum is a value read that bounds all others |
| `AggregationLaws.RangeExactly` | internal/evidence/aggregation.go:117-129 | the range has the ends of the values in order and the mean of the middle one or two |
| `AggregationLaws.DistributionExactly` | internal/evidence/aggregation.go:158-179 | each category met is listed once, in string order, with the number of times it was met |
| `AggregationLaws.LexicographicExactly` | internal/evidence/aggregation.go:174 | one string comes first if it is the beginning of the other or smaller where they first differ |

## Left out

- Sampling.SortRearranges: of the standard library's stable sort only the rearrangement is assumed; what it does with a comparison that is no order is not modelled.
- Boundaries.PolygonContainsRing: states what the test examines, not set containment, which vertices, midpoints and proper crossings do not establish.
- Classifier.TierIgnoresOrder: assumes one entry an analyte; the exact condition for any evidence is `Classifier.OrderMattersExactly`.
- Other texts `big.Rat.SetString` reads (fractions, hexadecimal, digit separators) and the memory or integer limits of exponents beyond them.
- Floating-point rounding: coordinates, distances and slopes are reals; the cosine, hypotenuse and slope limit are parameters, and points are always finite.
- Vulnerability bands, category wording, reasons, explanations and counterfactual sentences of a placement; a field enters with its facts already decoded and its bands counted.
- Reading CSV and JSON reports, PDF metadata, and the readings a recognised line yields; only where they come from is modelled.
- Upper-casing beyond ASCII letters, `ſ` and `ı`, and pattern matching on method names beyond containment.
- Report metadata checks of a rule pack (identity, review, source URL, dates) are one flag.
- Action positions, column lengths other than of reviewer names and roles and of idempotency keys, timestamps, and the text of default payloads.
- Failures of the database, of JSON encoding and of hashing; identifiers chosen by the caller stand for random UUIDs, and a repeated action id is refused as the primary key does.
- Slices that library calls sort in place (aggregated values, sample candidates) are sequences that are reassigned; the ranking, which the repository sorts itself, is an array sorted in place.
- HTTP, configuration, queues, provider clients, packages, parties, applications and the web front end.
