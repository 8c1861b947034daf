/**
  What it takes to clear a field over the slope limit, sorted by concern instead of by check: the
  stored bytes, the references between records, the scope, the people, the times, the land.
*/
module ClearanceLaws {
  import opened Wrappers
  import opened Reals
  import opened Geometry
  import opened Boundaries
  import opened Sampling
  import opened SlopeGate
  import Text

  /** A record kept under its own id whose bytes have the hash that it claims. */
  predicate Intact(tools: Tools, store: Store, id: string) {
    id in store && store[id].id == id && store[id].artifactHash == tools.hash(store[id].artifact)
  }

  /** All five records are intact, and decode to the parts of the dossier. */
  ghost predicate RecordsIntact(tools: Tools, ref: Reference, store: Store, d: Dossier) {
    var r := d.resolution;
    && Intact(tools, store, ref.recordId) && tools.resolutionOf(store[ref.recordId].artifact) == Some(r)
    && Intact(tools, store, r.parentRecordId) && tools.parentOf(store[r.parentRecordId].artifact) == Some(d.parent)
    && Intact(tools, store, r.sourceRecordId) && tools.sourceOf(store[r.sourceRecordId].artifact) == Some(d.source)
    && Intact(tools, store, r.screeningRecordId)
    && tools.screeningOf(store[r.screeningRecordId].artifact) == Some(d.screening.screening)
    && Intact(tools, store, r.authorizationRecordId)
    && tools.approvalOf(store[r.authorizationRecordId].artifact) == Some(d.approval)
  }

  /** The field refers to the very bytes that are used, the records name themselves and each other. */
  ghost predicate Referenced(tools: Tools, ref: Reference, store: Store, d: Dossier) {
    var r, a, s := d.resolution, d.approval, d.screening.screening;
    && tools.isUuid(ref.recordId) && tools.isUuid(r.authorizationRecordId)
    && r.id == ref.recordId && d.parent.id == r.parentRecordId && s.id == r.screeningRecordId
    && a.id == r.authorizationRecordId && a.evidenceRecordId == r.id
    && ref.parentRecordId == r.parentRecordId && ref.sourceRecordId == r.sourceRecordId
    && ref.screeningRecordId == r.screeningRecordId
    && (ref.recordId in store ==>
          store[ref.recordId].artifactHash == ref.artifactHash && a.evidenceHash == ref.artifactHash)
    && (r.parentRecordId in store ==> store[r.parentRecordId].artifactHash == r.parentHash == ref.parentHash)
    && (r.sourceRecordId in store ==> store[r.sourceRecordId].artifactHash == r.sourceHash == ref.sourceHash)
    && (r.screeningRecordId in store ==>
          store[r.screeningRecordId].artifactHash == r.screeningHash == ref.screeningHash)
    && tools.compactHash(s.request) == Some(s.requestHash) && tools.compactHash(s.response) == Some(s.responseHash)
  }

  /** Everything is about this field, this version of its boundary and this policy. */
  predicate InScope(site: Site, ref: Reference, policy: Policy, d: Dossier) {
    var r, a, s := d.resolution, d.approval, d.screening.screening;
    && site.fieldId == r.fieldId == d.parent.fieldId == s.fieldId == a.fieldId
    && site.boundaryVersion > 0
    && site.boundaryVersion == ref.boundaryVersion == r.boundaryVersion == s.boundaryVersion == a.boundaryVersion
    && site.boundaryVersion - 1 == d.parent.boundaryVersion == r.parentVersion == ref.parentVersion
    && |policy.version| > 0 && policy.version == ref.policyVersion == r.policyVersion == a.policyVersion
    && ref.evidenceType == "CONFIRMED_BOUNDARY_EXCLUSION" && r.evidenceType == "CONFIRMED_BOUNDARY_EXCLUSION"
    && r.crs == "EPSG:4326" && d.parent.crs == "EPSG:4326"
  }

  /** One role issued the evidence, another reviewed and approved it, and nothing was withdrawn. */
  predicate Authored(policy: Policy, d: Dossier) {
    var r, a := d.resolution, d.approval;
    && r.issuingRole in policy.issuerRoles && a.reviewerRole in policy.reviewerRoles
    && r.reviewerRole == a.reviewerRole && a.reviewerRole != r.issuingRole
    && r.confirmationStatus == "CONFIRMED" && d.parent.confirmationStatus == "CONFIRMED"
    && a.approvalStatus == "APPROVED"
    && Text.Trim(r.supersededBy) == "" && Text.Trim(a.supersededBy) == ""
  }

  /** Recorded parent first, then resolution, then approval, all by now and before the resolution expires. */
  predicate Timely(asOf: Time, d: Dossier) {
    var r, a, s := d.resolution, d.approval, d.screening.screening;
    && d.parent.recordedAt <= r.recordedAt <= a.recordedAt <= asOf < r.expiresAt && s.retrievedAt <= asOf
    && d.parent.recordedAt != 0 && r.recordedAt != 0 && a.recordedAt != 0 && r.expiresAt != 0 && s.retrievedAt != 0
  }

  /** The revised boundary lies in its parent and leaves out every usable sample over the limit. */
  ghost predicate Drawn(tools: Tools, d: Dossier, ring: Ring) {
    && ValidBoundary(d.resolution.boundary, tools.lib.cosDegrees)
    && ValidBoundary(d.parent.boundary, tools.lib.cosDegrees)
    && ContainsRing(RingOf(d.parent.boundary.coordinates[0]), ring)
    && (exists i :: 0 <= i < |d.source| && Over(d.source[i], tools.slopeLimit))
    && (forall i :: 0 <= i < |d.source| && Counted(d.source[i]) ==> Answered(d.source[i].slope))
    && (forall i :: 0 <= i < |d.source| && Over(d.source[i], tools.slopeLimit) ==>
          !InsideOrBoundary(d.source[i].at, ring))
  }

  predicate Counted(s: SourceResult) { s.ok && s.slope.Some? && s.slope.value.status == "ok" }

  predicate Answered(slope: Option<SlopeFact>) { slope.Some? && slope.value.value.Some? }

  predicate Over(s: SourceResult, limit: real) {
    Counted(s) && Answered(s.slope) && s.slope.value.value.value > limit
  }

  /** The screening was ordered by the policy's rules, for the points its plan of the new boundary has. */
  ghost predicate Ordered(tools: Tools, sampling: SamplingPolicy, e: ScreeningEvidence, ring: Ring) {
    var s := e.screening;
    && PlanOf(tools.lib, ring, sampling) == Success(e.plan) && tools.replay(s) == Some(e.replay)
    && s.algorithmVersion == sampling.algorithmVersion && s.minimumSpacing == sampling.minimumSpacing
    && s.nearDistance == sampling.nearDistance && s.maxRequest == sampling.maxRequest
    && s.requestedCount == sampling.target <= s.maxRequest
    && e.replay.request.Some? && e.replay.request.value.fields == ["slope_degrees"]
    && |e.plan.locations| == |e.replay.request.value.locations| == |e.replay.results| == s.returnedCount
  }

  /**
    Each point was asked for and answered where it is, in degrees and within the limit; not all
    answers are negative.
  */
  ghost predicate Passed(tools: Tools, e: ScreeningEvidence, ring: Ring)
    requires e.replay.request.Some?
    requires |e.plan.locations| == |e.replay.request.value.locations| == |e.replay.results|
  {
    var asked, results := e.replay.request.value.locations, e.replay.results;
    && (forall i :: 0 <= i < |results| ==>
          PointPassed(e.plan.locations[i], asked[i], results[i], ring, tools.slopeLimit))
    && (exists i :: 0 <= i < |results| && results[i].slope.value.value.value >= 0.0)
  }

  predicate PointPassed(planned: Point, asked: Point, result: BatchResult, ring: Ring, limit: real) {
    && Near(asked.x, planned.x) && Near(asked.y, planned.y)
    && result.longitude.Some? && Near(result.longitude.value, planned.x)
    && result.latitude.Some? && Near(result.latitude.value, planned.y)
    && InsideOrBoundary(planned, ring)
    && result.ok && Answered(result.slope) && result.slope.value.status == "ok"
    && result.slope.value.unit == Some("degrees") && result.slope.value.value.value <= limit
  }

  predicate Near(x: real, y: real) { -0.000000001 <= x - y <= 0.000000001 }

  /** Every concern is met. */
  ghost predicate Met(tools: Tools, site: Site, store: Store, asOf: Time, policy: Policy, d: Dossier) {
    && site.reference.Some?
    && var ref, ring := site.reference.value, RevisedRing(d);
       && RecordsIntact(tools, ref, store, d) && Referenced(tools, ref, store, d)
       && InScope(site, ref, policy, d) && Authored(policy, d) && Timely(asOf, d) && Drawn(tools, d, ring)
       && Ordered(tools, policy.sampling, d.screening, ring) && Passed(tools, d.screening, ring)
  }

  // ---------- by concern and by check ----------

  lemma {:induction false} HighSamplesExactly(results: seq<SourceResult>, limit: real, ring: Ring)
    ensures HighSamplesExcluded(results, limit, ring) <==>
            && (exists i :: 0 <= i < |results| && Over(results[i], limit))
            && (forall i :: 0 <= i < |results| && Counted(results[i]) ==> Answered(results[i].slope))
            && (forall i :: 0 <= i < |results| && Over(results[i], limit) ==> !InsideOrBoundary(results[i].at, ring))
  {
    hide InsideOrBoundary;
    assert forall i :: 0 <= i < |results| ==> (IsHigh(results[i], limit) <==> Over(results[i], limit));
    if exists i :: 0 <= i < |results| && IsHigh(results[i], limit) {
      var i :| 0 <= i < |results| && IsHigh(results[i], limit);
      assert Over(results[i], limit);
    }
    if exists i :: 0 <= i < |results| && Over(results[i], limit) {
      var i :| 0 <= i < |results| && Over(results[i], limit);
      assert IsHigh(results[i], limit);
    }
  }

  predicate AnsweredWithin(planned: Point, asked: Point, result: BatchResult, ring: Ring, limit: real) {
    Answers(planned, asked, result, ring) && result.slope.value.value.value <= limit
  }

  lemma {:induction false} PointExactly(planned: Point, asked: Point, result: BatchResult, ring: Ring, limit: real)
    ensures PointPassed(planned, asked, result, ring, limit) <==> AnsweredWithin(planned, asked, result, ring, limit)
  {
    hide InsideOrBoundary;
  }

  lemma {:induction false} AllPointsExactly(planned: seq<Point>, asked: seq<Point>, results: seq<BatchResult>,
                                            ring: Ring, limit: real)
    requires |planned| == |asked| == |results|
    ensures AllWithinLimit(planned, asked, results, ring, limit) <==>
            && (forall i :: 0 <= i < |results| ==> PointPassed(planned[i], asked[i], results[i], ring, limit))
            && (exists i :: 0 <= i < |results| && results[i].slope.value.value.value >= 0.0)
  {
    hide Answers, PointPassed;
    if AllWithinLimit(planned, asked, results, ring, limit) {
      forall i | 0 <= i < |results| ensures PointPassed(planned[i], asked[i], results[i], ring, limit) {
        PointExactly(planned[i], asked[i], results[i], ring, limit);
      }
    }
    if forall i :: 0 <= i < |results| ==> PointPassed(planned[i], asked[i], results[i], ring, limit) {
      forall i | 0 <= i < |results| ensures AnsweredWithin(planned[i], asked[i], results[i], ring, limit) {
        PointExactly(planned[i], asked[i], results[i], ring, limit);
      }
    }
  }

  lemma {:induction false} ReplayExactly(tools: Tools, sampling: SamplingPolicy, e: ScreeningEvidence, ring: Ring)
    requires PlanOf(tools.lib, ring, sampling) == Success(e.plan) && tools.replay(e.screening) == Some(e.replay)
    requires && e.screening.algorithmVersion == sampling.algorithmVersion
             && e.screening.minimumSpacing == sampling.minimumSpacing
             && e.screening.nearDistance == sampling.nearDistance && e.screening.maxRequest == sampling.maxRequest
             && e.screening.requestedCount == sampling.target <= sampling.maxRequest
    ensures ReplayClears(tools, e.screening, e.replay, ring, e.plan) <==>
            Ordered(tools, sampling, e, ring) && Passed(tools, e, ring)
  {
    hide PlanOf, AllWithinLimit, PointPassed;
    if Ordered(tools, sampling, e, ring) {
      AllPointsExactly(e.plan.locations, e.replay.request.value.locations, e.replay.results, ring, tools.slopeLimit);
    }
  }

  // ---------- from the checks to the concerns ----------

  lemma {:induction false} ClearedIsKept(tools: Tools, site: Site, store: Store, asOf: Time, policy: Policy, d: Dossier)
    requires Cleared(tools, site, store, asOf, policy, d)
    ensures site.reference.Some?
    ensures RecordsIntact(tools, site.reference.value, store, d) && Referenced(tools, site.reference.value, store, d)
  {
    hide ValidBoundary, ContainsRing, HighSamplesExcluded, ReplayClears, PlanOf, UsableRing, Text.Trim, RevisedRing;
  }

  lemma {:induction false} ClearedIsCurrent(tools: Tools, site: Site, store: Store, asOf: Time, policy: Policy,
                                            d: Dossier)
    requires Cleared(tools, site, store, asOf, policy, d)
    ensures InScope(site, site.reference.value, policy, d) && Authored(policy, d) && Timely(asOf, d)
  {
    hide ValidBoundary, ContainsRing, HighSamplesExcluded, ReplayClears, PlanOf, UsableRing, Text.Trim, RevisedRing;
  }

  lemma {:induction false} ClearedIsSurveyed(tools: Tools, site: Site, store: Store, asOf: Time, policy: Policy,
                                             d: Dossier)
    requires Cleared(tools, site, store, asOf, policy, d)
    ensures Drawn(tools, d, RevisedRing(d)) && Ordered(tools, policy.sampling, d.screening, RevisedRing(d))
    ensures Passed(tools, d.screening, RevisedRing(d))
  {
    var ring := RevisedRing(d);
    HighSamplesExactly(d.source, tools.slopeLimit, ring);
    hide ValidBoundary, ContainsRing, HighSamplesExcluded, ReplayClears, PlanOf, UsableRing, Text.Trim, RevisedRing,
      Ordered, Passed, Over, Counted, Answered, Admissible;
    ReplayExactly(tools, policy.sampling, d.screening, ring);
  }

  // ---------- from the concerns to the checks ----------

  lemma {:induction false} MetAdmits(tools: Tools, site: Site, store: Store, asOf: Time, policy: Policy, d: Dossier)
    requires Met(tools, site, store, asOf, policy, d)
    ensures Admitted(tools, site, store, asOf, policy, d.resolution)
    ensures UsableRing(RevisedRing(d), tools.lib.cosDegrees)
  {
    hide ContainsRing, PlanOf, UsableRing, Text.Trim, Passed, Ordered, Over, Counted;
    ValidIsUsable(d.resolution.boundary, tools.lib.cosDegrees);
    hide ValidBoundary;
  }

  lemma {:induction false} MetAccepts(tools: Tools, site: Site, store: Store, asOf: Time, policy: Policy, d: Dossier)
    requires Met(tools, site, store, asOf, policy, d)
    ensures ParentAccepted(tools, site, store, site.reference.value, d.resolution, RevisedRing(d), d.parent)
    ensures SourceCleared(tools, store, site.reference.value, RevisedRing(d), d.source)
  {
    HighSamplesExactly(d.source, tools.slopeLimit, RevisedRing(d));
    hide ContainsRing, PlanOf, ValidBoundary, Text.Trim, Passed, Ordered, Over, Counted, HighSamplesExcluded,
      RevisedRing;
  }

  lemma {:induction false} MetScreens(tools: Tools, site: Site, store: Store, asOf: Time, policy: Policy, d: Dossier)
    requires Met(tools, site, store, asOf, policy, d)
    ensures Screened(tools, site, store, site.reference.value, d.resolution, RevisedRing(d), asOf, policy, d.screening)
    ensures Authorized(tools, site, store, site.reference.value, d.resolution, asOf, policy, d.approval)
  {
    hide ContainsRing, PlanOf, ValidBoundary, Text.Trim, Passed, Over, Counted, ReplayClears, RevisedRing, Drawn;
    ReplayExactly(tools, policy.sampling, d.screening, RevisedRing(d));
  }

  /** A dossier clears a field exactly when every concern is met. */
  lemma {:induction false} ClearedExactly(tools: Tools, site: Site, store: Store, asOf: Time, policy: Policy,
                                          d: Dossier)
    ensures Cleared(tools, site, store, asOf, policy, d) <==> Met(tools, site, store, asOf, policy, d)
  {
    if Cleared(tools, site, store, asOf, policy, d) {
      ClearedIsKept(tools, site, store, asOf, policy, d);
      ClearedIsCurrent(tools, site, store, asOf, policy, d);
      ClearedIsSurveyed(tools, site, store, asOf, policy, d);
    }
    if Met(tools, site, store, asOf, policy, d) {
      MetAdmits(tools, site, store, asOf, policy, d);
      MetAccepts(tools, site, store, asOf, policy, d);
      MetScreens(tools, site, store, asOf, policy, d);
    }
    hide RecordsIntact, Referenced, InScope, Authored, Timely, Drawn, Passed, RevisedRing, Admitted, ParentAccepted,
      SourceCleared, Screened, Authorized, UsableRing;
  }
}
