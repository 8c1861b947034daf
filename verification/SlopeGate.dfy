/**
  Slope-resolution evidence: the chain of checks that lets a field over the slope limit receive
  material.  Hashing, JSON decoding, identifier syntax and the replay of a captured screening
  are left abstract; the stored artifacts are values.
*/
module SlopeGate {
  import opened Wrappers
  import opened Reals
  import opened Geometry
  import opened Boundaries
  import opened Sampling
  import Text

  type Bytes = string

  /** A point in time; `ZeroTime` is a timestamp that was never set. */
  type Time = int

  const ZeroTime: Time := 0

  // ---------- evidence ----------

  datatype Reference = Reference(
    policyVersion: string, recordId: string, evidenceType: string, artifactHash: string, boundaryVersion: int,
    parentRecordId: string, parentHash: string, parentVersion: int,
    sourceRecordId: string, sourceHash: string, screeningRecordId: string, screeningHash: string)

  /** What the verification reads of a field. */
  datatype Site = Site(fieldId: string, boundaryVersion: int, reference: Option<Reference>)

  datatype StoredArtifact = StoredArtifact(id: string, artifactHash: string, artifact: Bytes)

  type Store = map<string, StoredArtifact>

  datatype Resolution = Resolution(
    policyVersion: string, id: string, evidenceType: string, fieldId: string, boundaryVersion: int, crs: string,
    parentRecordId: string, parentHash: string, parentVersion: int,
    sourceRecordId: string, sourceHash: string, screeningRecordId: string, screeningHash: string,
    issuingRole: string, recordedAt: Time, expiresAt: Time, confirmationStatus: string,
    reviewerRole: string, authorizationRecordId: string, supersededBy: string, boundary: PolygonGeometry)

  datatype Parent = Parent(
    id: string, fieldId: string, boundaryVersion: int, crs: string, confirmationStatus: string, recordedAt: Time,
    boundary: PolygonGeometry)

  datatype Approval = Approval(
    id: string, policyVersion: string, evidenceRecordId: string, evidenceHash: string, fieldId: string,
    boundaryVersion: int,
    reviewerRole: string, approvalStatus: string, recordedAt: Time, supersededBy: string)

  /** A slope value that does not decode to a number is `None`. */
  datatype SlopeFact = SlopeFact(status: string, unit: Option<string>, value: Option<real>)

  datatype SourceResult = SourceResult(index: int, ok: bool, at: Point, slope: Option<SlopeFact>)

  datatype Screening = Screening(
    id: string, fieldId: string, boundaryVersion: int, retrievedAt: Time, algorithmVersion: string,
    minimumSpacing: real, nearDistance: real, maxRequest: int, requestedCount: int, returnedCount: int,
    requestHash: string, responseHash: string, request: Bytes, response: Bytes)

  datatype BatchResult = BatchResult(latitude: Option<real>, longitude: Option<real>, ok: bool,
                                     slope: Option<SlopeFact>)

  datatype BatchRequest = BatchRequest(fields: seq<string>, locations: seq<Point>)

  datatype Replay = Replay(request: Option<BatchRequest>, results: seq<BatchResult>)

  datatype Policy = Policy(version: string, issuerRoles: seq<string>, reviewerRoles: seq<string>,
                           sampling: SamplingPolicy)

  /** The operations this model does not look into. */
  datatype Tools = Tools(
    lib: Library,
    slopeLimit: real,
    hash: Bytes -> string,
    compactHash: Bytes -> Option<string>,
    isUuid: string -> bool,
    resolutionOf: Bytes -> Option<Resolution>,
    parentOf: Bytes -> Option<Parent>,
    sourceOf: Bytes -> Option<seq<SourceResult>>,
    screeningOf: Bytes -> Option<Screening>,
    approvalOf: Bytes -> Option<Approval>,
    replay: Screening -> Option<Replay>)

  datatype Code =
    | MissingReference | UnknownEvidenceId | EvidenceIdMismatch | ArtifactHashMismatch | InvalidEvidenceArtifact
    | ProgramPolicyMismatch | UnsupportedEvidenceType | FieldMismatch | BoundaryVersionMismatch | UnsupportedCrs
    | ParentReferenceMismatch | ScreeningReferenceMismatch | EvidenceNotConfirmed | UnauthorizedIssuer
    | UnauthorizedReviewer
    | MissingReviewAuthorization | InvalidRecordedTime | EvidenceExpired | EvidenceSuperseded | SourceReferenceMismatch
    | InvalidBoundaryGeometry | UnknownParentBoundary | ParentHashMismatch | InvalidParentBoundary | ParentFieldMismatch
    | ParentVersionMismatch | ParentCrsMismatch | ParentNotConfirmed | RevisedBoundaryOutsideParent
    | UnknownSource | SourceHashMismatch | InvalidSource | NoHighSlopeSample | HighSlopeStillInside(index: int)
    | UnknownScreening | ScreeningHashMismatch | InvalidScreening | ScreeningScopeMismatch | InvalidScreeningTime
    | SamplingLimitRequiresReview | UnsupportedSamplingRule | InadequateScreening | RevisedSlopeExceeded
    | UnknownAuthorization | AuthorizationHashMismatch | InvalidAuthorization | AuthorizationEvidenceMismatch
    | AuthorizationScopeMismatch | UnauthorizedApproval | InvalidAuthorizationTime | AuthorizationSuperseded

  const BoundaryExclusion: string := "CONFIRMED_BOUNDARY_EXCLUSION"
  const Wgs84: string := "EPSG:4326"

  // ---------- stored bytes ----------

  /** The stored record under an id, provided it carries that id and its bytes have both hashes. */
  predicate Holds(tools: Tools, store: Store, id: string, artifactHash: string) {
    && id in store && store[id].id == id
    && tools.hash(store[id].artifact) == store[id].artifactHash == artifactHash
  }

  // ---------- the resolution artifact ----------

  /** A reference and its artifact agree with each other, the field, the policy and the time of the decision. */
  predicate Admissible(tools: Tools, site: Site, ref: Reference, r: Resolution, asOf: Time, policy: Policy) {
    && r.id == ref.recordId
    && policy.version != "" && ref.policyVersion == r.policyVersion == policy.version
    && ref.evidenceType == r.evidenceType == BoundaryExclusion
    && r.fieldId == site.fieldId
    && site.boundaryVersion >= 1 && ref.boundaryVersion == r.boundaryVersion == site.boundaryVersion
    && r.crs == Wgs84
    && r.parentRecordId == ref.parentRecordId && r.parentHash == ref.parentHash && r.parentVersion == ref.parentVersion
    && r.screeningRecordId == ref.screeningRecordId && r.screeningHash == ref.screeningHash
    && r.confirmationStatus == "CONFIRMED"
    && r.issuingRole in policy.issuerRoles && r.reviewerRole in policy.reviewerRoles && r.reviewerRole != r.issuingRole
    && tools.isUuid(r.authorizationRecordId)
    && r.recordedAt != ZeroTime && r.recordedAt <= asOf
    && r.expiresAt != ZeroTime && asOf < r.expiresAt
    && Text.Trim(r.supersededBy) == ""
    && r.sourceRecordId == ref.sourceRecordId && r.sourceHash == ref.sourceHash
  }

  ghost predicate Admitted(tools: Tools, site: Site, store: Store, asOf: Time, policy: Policy, r: Resolution) {
    && site.reference.Some?
    && var ref := site.reference.value;
       && tools.isUuid(ref.recordId)
       && Holds(tools, store, ref.recordId, ref.artifactHash)
       && tools.resolutionOf(store[ref.recordId].artifact) == Some(r)
       && Admissible(tools, site, ref, r, asOf, policy)
       && ValidBoundary(r.boundary, tools.lib.cosDegrees)
  }

  method CheckAdmissible(tools: Tools, site: Site, ref: Reference, r: Resolution, asOf: Time, policy: Policy)
    returns (problem: Option<Code>)
    ensures problem.None? <==> Admissible(tools, site, ref, r, asOf, policy)
  {
    if r.id != ref.recordId { return Some(EvidenceIdMismatch); }
    if policy.version == "" || ref.policyVersion != policy.version || r.policyVersion != policy.version {
      return Some(ProgramPolicyMismatch);
    }
    if ref.evidenceType != BoundaryExclusion || r.evidenceType != ref.evidenceType {
      return Some(UnsupportedEvidenceType);
    }
    if r.fieldId != site.fieldId { return Some(FieldMismatch); }
    if site.boundaryVersion < 1 || ref.boundaryVersion != site.boundaryVersion
      || r.boundaryVersion != site.boundaryVersion {
      return Some(BoundaryVersionMismatch);
    }
    if r.crs != Wgs84 { return Some(UnsupportedCrs); }
    if r.parentRecordId != ref.parentRecordId || r.parentHash != ref.parentHash
      || r.parentVersion != ref.parentVersion {
      return Some(ParentReferenceMismatch);
    }
    if r.screeningRecordId != ref.screeningRecordId || r.screeningHash != ref.screeningHash {
      return Some(ScreeningReferenceMismatch);
    }
    if r.confirmationStatus != "CONFIRMED" { return Some(EvidenceNotConfirmed); }
    var issuer := ConfiguredRole(policy.issuerRoles, r.issuingRole);
    if !issuer { return Some(UnauthorizedIssuer); }
    var reviewer := ConfiguredRole(policy.reviewerRoles, r.reviewerRole);
    if !reviewer || r.reviewerRole == r.issuingRole { return Some(UnauthorizedReviewer); }
    if !tools.isUuid(r.authorizationRecordId) { return Some(MissingReviewAuthorization); }
    if r.recordedAt == ZeroTime || r.recordedAt > asOf { return Some(InvalidRecordedTime); }
    if r.expiresAt == ZeroTime || r.expiresAt <= asOf { return Some(EvidenceExpired); }
    if Text.Trim(r.supersededBy) != "" { return Some(EvidenceSuperseded); }
    if r.sourceRecordId != ref.sourceRecordId || r.sourceHash != ref.sourceHash {
      return Some(SourceReferenceMismatch);
    }
    return None;
  }

  /** `configuredRole` */
  method ConfiguredRole(configured: seq<string>, role: string) returns (found: bool)
    ensures found == (role in configured)
  {
    for i := 0 to |configured|
      invariant role !in configured[..i]
    {
      if configured[i] == role { return true; }
    }
    return false;
  }

  method AdmitResolution(tools: Tools, site: Site, store: Option<Store>, asOf: Time, policy: Policy)
    returns (r: Result<(Resolution, Ring, string), Code>)
    ensures r.Success? <==> store.Some? && exists a :: Admitted(tools, site, store.value, asOf, policy, a)
    ensures r.Success? ==>
              && Admitted(tools, site, store.value, asOf, policy, r.value.0)
              && UsableRing(r.value.1, tools.lib.cosDegrees)
              && r.value.1 == RingOf(r.value.0.boundary.coordinates[0])
              && r.value.2 == DerivedAcres(r.value.1, tools.lib.cosDegrees)
  {
    hide Admissible, ValidBoundary;
    if site.reference.None? { return Failure(MissingReference); }
    if store.None? { return Failure(UnknownEvidenceId); }
    var ref := site.reference.value;
    if !tools.isUuid(ref.recordId) || ref.recordId !in store.value { return Failure(UnknownEvidenceId); }
    var record := store.value[ref.recordId];
    if record.id != ref.recordId { return Failure(EvidenceIdMismatch); }
    var actualHash := tools.hash(record.artifact);
    if record.artifactHash != actualHash || ref.artifactHash != actualHash { return Failure(ArtifactHashMismatch); }
    var artifact := tools.resolutionOf(record.artifact);
    if artifact.None? { return Failure(InvalidEvidenceArtifact); }
    var problem := CheckAdmissible(tools, site, ref, artifact.value, asOf, policy);
    if problem.Some? { return Failure(problem.value); }
    var boundary := ValidateBoundaryGeometry(artifact.value.boundary, tools.lib.cosDegrees);
    if boundary.Failure? { return Failure(InvalidBoundaryGeometry); }
    assert Admitted(tools, site, store.value, asOf, policy, artifact.value);
    ValidIsUsable(artifact.value.boundary, tools.lib.cosDegrees);
    return Success((artifact.value, boundary.value.0, boundary.value.1));
  }

  lemma {:induction false} ValidIsUsable(g: PolygonGeometry, cosDegrees: real -> real)
    requires ValidBoundary(g, cosDegrees)
    ensures |g.coordinates| == 1 && UsableRing(RingOf(g.coordinates[0]), cosDegrees)
  {}

  // ---------- the parent boundary ----------

  ghost predicate ParentAccepted(tools: Tools, site: Site, store: Store, ref: Reference, r: Resolution, revised: Ring,
                                 parent: Parent) {
    && Holds(tools, store, ref.parentRecordId, ref.parentHash)
    && tools.parentOf(store[ref.parentRecordId].artifact) == Some(parent)
    && parent.id == ref.parentRecordId && parent.fieldId == site.fieldId
    && parent.boundaryVersion == ref.parentVersion && r.boundaryVersion == parent.boundaryVersion + 1
    && parent.crs == r.crs == Wgs84
    && parent.confirmationStatus == "CONFIRMED" && parent.recordedAt != ZeroTime && parent.recordedAt <= r.recordedAt
    && ValidBoundary(parent.boundary, tools.lib.cosDegrees)
    && ContainsRing(RingOf(parent.boundary.coordinates[0]), revised)
  }

  method CheckParent(tools: Tools, site: Site, store: Store, ref: Reference, r: Resolution, revised: Ring)
    returns (problem: Option<Code>)
    requires |revised| > 0
    ensures problem.None? <==> exists parent :: ParentAccepted(tools, site, store, ref, r, revised, parent)
  {
    hide ValidBoundary, ContainsRing;
    if ref.parentRecordId !in store || store[ref.parentRecordId].id != ref.parentRecordId {
      return Some(UnknownParentBoundary);
    }
    var record := store[ref.parentRecordId];
    var parentHash := tools.hash(record.artifact);
    if record.artifactHash != parentHash || ref.parentHash != parentHash { return Some(ParentHashMismatch); }
    var decoded := tools.parentOf(record.artifact);
    if decoded.None? { return Some(InvalidParentBoundary); }
    var parent := decoded.value;
    if parent.id != record.id || parent.fieldId != site.fieldId { return Some(ParentFieldMismatch); }
    if parent.boundaryVersion != ref.parentVersion || r.boundaryVersion != parent.boundaryVersion + 1 {
      return Some(ParentVersionMismatch);
    }
    if parent.crs != Wgs84 || parent.crs != r.crs { return Some(ParentCrsMismatch); }
    if parent.confirmationStatus != "CONFIRMED" || parent.recordedAt == ZeroTime || parent.recordedAt > r.recordedAt {
      return Some(ParentNotConfirmed);
    }
    var boundary := ValidateBoundaryGeometry(parent.boundary, tools.lib.cosDegrees);
    if boundary.Failure? { return Some(InvalidParentBoundary); }
    ValidIsUsable(parent.boundary, tools.lib.cosDegrees);
    var contained := PolygonContainsRing(boundary.value.0, revised);
    if !contained { return Some(RevisedBoundaryOutsideParent); }
    assert ParentAccepted(tools, site, store, ref, r, revised, parent);
    return None;
  }

  // ---------- the source screening ----------

  /** A result whose slope is taken into account. */
  predicate Usable(s: SourceResult) { s.ok && s.slope.Some? && s.slope.value.status == "ok" }

  datatype HighSample = HighSample(index: int, at: Point, slope: real)

  predicate Decodable(results: seq<SourceResult>) {
    forall i :: 0 <= i < |results| && Usable(results[i]) ==> results[i].slope.value.value.Some?
  }

  predicate IsHigh(s: SourceResult, limit: real) {
    Usable(s) && s.slope.value.value.Some? && s.slope.value.value.value > limit
  }

  /** The usable results over the limit, in order. */
  function HighResults(results: seq<SourceResult>, limit: real): seq<HighSample> {
    if |results| == 0 then []
    else
      var last := results[|results| - 1];
      HighResults(results[..|results| - 1], limit)
      + (if IsHigh(last, limit) then [HighSample(last.index, last.at, last.slope.value.value.value)] else [])
  }

  /** `highSlopeSamples` on decoded evidence */
  method HighSlopeSamples(results: seq<SourceResult>, limit: real) returns (r: Option<seq<HighSample>>)
    ensures r == if Decodable(results) then Some(HighResults(results, limit)) else None
  {
    var high: seq<HighSample> := [];
    for i := 0 to |results|
      invariant Decodable(results[..i]) && high == HighResults(results[..i], limit)
    {
      var item := results[i];
      assert results[..i + 1][..i] == results[..i] && results[..i + 1][i] == item;
      if !Usable(item) { continue; }
      if item.slope.value.value.None? { return None; }
      var slope := item.slope.value.value.value;
      if slope > limit { high := high + [HighSample(item.index, item.at, slope)]; }
    }
    assert results[..|results|] == results;
    return Some(high);
  }

  lemma {:induction false} HighResultListed(results: seq<SourceResult>, limit: real, i: nat) returns (k: nat)
    requires i < |results| && IsHigh(results[i], limit)
    ensures k < |HighResults(results, limit)| && HighResults(results, limit)[k].at == results[i].at
  {
    var n := |results| - 1;
    if i < n {
      k := HighResultListed(results[..n], limit, i);
    } else {
      k := |HighResults(results[..n], limit)|;
    }
  }

  lemma {:induction false} HighResultSource(results: seq<SourceResult>, limit: real, k: nat) returns (i: nat)
    requires k < |HighResults(results, limit)|
    ensures i < |results| && IsHigh(results[i], limit) && HighResults(results, limit)[k].at == results[i].at
  {
    var n := |results| - 1;
    if k < |HighResults(results[..n], limit)| {
      i := HighResultSource(results[..n], limit, k);
    } else {
      i := n;
    }
  }

  /** Some usable sample was over the limit, and every such sample lies off and outside the ring. */
  ghost predicate HighSamplesExcluded(results: seq<SourceResult>, limit: real, ring: Ring) {
    && Decodable(results)
    && (exists i :: 0 <= i < |results| && IsHigh(results[i], limit))
    && (forall i :: 0 <= i < |results| && IsHigh(results[i], limit) ==> !InsideOrBoundary(results[i].at, ring))
  }

  ghost predicate SourceCleared(tools: Tools, store: Store, ref: Reference, ring: Ring, results: seq<SourceResult>) {
    && Holds(tools, store, ref.sourceRecordId, ref.sourceHash)
    && tools.sourceOf(store[ref.sourceRecordId].artifact) == Some(results)
    && HighSamplesExcluded(results, tools.slopeLimit, ring)
  }

  method CheckSource(tools: Tools, store: Store, ref: Reference, ring: Ring) returns (problem: Option<Code>)
    ensures problem.None? <==> exists results :: SourceCleared(tools, store, ref, ring, results)
  {
    if ref.sourceRecordId !in store || store[ref.sourceRecordId].id != ref.sourceRecordId {
      return Some(UnknownSource);
    }
    var source := store[ref.sourceRecordId];
    var actual := tools.hash(source.artifact);
    if source.artifactHash != actual || ref.sourceHash != actual { return Some(SourceHashMismatch); }
    var decoded := tools.sourceOf(source.artifact);
    if decoded.None? { return Some(InvalidSource); }
    problem := CheckHighSamples(decoded.value, tools.slopeLimit, ring);
    if problem.None? { assert SourceCleared(tools, store, ref, ring, decoded.value); }
  }

  method CheckHighSamples(results: seq<SourceResult>, limit: real, ring: Ring) returns (problem: Option<Code>)
    ensures problem.None? <==> HighSamplesExcluded(results, limit, ring)
  {
    hide InsideOrBoundary, HighResults, Decodable, IsHigh;
    var samples := HighSlopeSamples(results, limit);
    if samples.None? { return Some(InvalidSource); }
    var high := samples.value;
    if |high| == 0 {
      NoneListed(results, limit);
      return Some(NoHighSlopeSample);
    }
    for k := 0 to |high|
      invariant forall j :: 0 <= j < k ==> !InsideOrBoundary(high[j].at, ring)
    {
      var inside := PointInPolygonOrBoundary(high[k].at, ring);
      if inside {
        var i := HighResultSource(results, limit, k);
        return Some(HighSlopeStillInside(high[k].index));
      }
    }
    var first := HighResultSource(results, limit, 0);
    forall i: nat | i < |results| && IsHigh(results[i], limit) ensures !InsideOrBoundary(results[i].at, ring) {
      var k := HighResultListed(results, limit, i);
    }
    return None;
  }

  lemma {:induction false} NoneListed(results: seq<SourceResult>, limit: real)
    requires |HighResults(results, limit)| == 0
    ensures !exists i :: 0 <= i < |results| && IsHigh(results[i], limit)
  {
    forall i: nat | i < |results| && IsHigh(results[i], limit) ensures false {
      var k := HighResultListed(results, limit, i);
    }
  }

  /** `maximumSlopeDegrees` on decoded evidence */
  method MaximumSlope(results: seq<SourceResult>) returns (maximum: Option<real>)
    ensures maximum.Some? <==>
              Decodable(results) && exists i ::
                  0 <= i < |results| && Usable(results[i]) && results[i].slope.value.value.value >= 0.0
  {
    var best := -1.0;
    for i := 0 to |results|
      invariant forall k :: 0 <= k < i && Usable(results[k]) ==>
                  results[k].slope.value.value.Some? && results[k].slope.value.value.value <= best
      invariant best >= 0.0 ==>
                  exists k :: 0 <= k < i && Usable(results[k]) && results[k].slope.value.value.value == best
    {
      var item := results[i];
      if !Usable(item) { continue; }
      if item.slope.value.value.None? { return None; }
      best := Max(best, item.slope.value.value.value);
    }
    return if best < 0.0 then None else Some(best);
  }

  // ---------- the revised screening ----------

  predicate Recorded(tools: Tools, site: Site, s: Screening, id: string, asOf: Time, sampling: SamplingPolicy) {
    && s.id == id && s.fieldId == site.fieldId && s.boundaryVersion == site.boundaryVersion
    && s.retrievedAt != ZeroTime && s.retrievedAt <= asOf
    && sampling.target <= sampling.maxRequest
    && s.algorithmVersion == sampling.algorithmVersion && s.minimumSpacing == sampling.minimumSpacing
    && s.nearDistance == sampling.nearDistance && s.maxRequest == sampling.maxRequest
    && s.requestedCount == sampling.target
    && tools.compactHash(s.request) == Some(s.requestHash) && tools.compactHash(s.response) == Some(s.responseHash)
  }

  method CheckRecorded(tools: Tools, site: Site, s: Screening, id: string, asOf: Time, sampling: SamplingPolicy)
    returns (problem: Option<Code>)
    ensures problem.None? <==> Recorded(tools, site, s, id, asOf, sampling)
  {
    if s.id != id || s.fieldId != site.fieldId || s.boundaryVersion != site.boundaryVersion {
      return Some(ScreeningScopeMismatch);
    }
    if s.retrievedAt == ZeroTime || s.retrievedAt > asOf { return Some(InvalidScreeningTime); }
    if sampling.target > sampling.maxRequest { return Some(SamplingLimitRequiresReview); }
    if s.algorithmVersion != sampling.algorithmVersion || s.minimumSpacing != sampling.minimumSpacing
       || s.nearDistance != sampling.nearDistance || s.maxRequest != sampling.maxRequest
       || s.requestedCount != sampling.target {
      return Some(UnsupportedSamplingRule);
    }
    if s.requestedCount > s.maxRequest { return Some(SamplingLimitRequiresReview); }
    var requestHash, responseHash := tools.compactHash(s.request), tools.compactHash(s.response);
    if requestHash != Some(s.requestHash) || responseHash != Some(s.responseHash) {
      return Some(ScreeningHashMismatch);
    }
    return None;
  }

  /** The result answers for the planned point: same place, inside the ring, with a usable slope. */
  predicate Answers(planned: Point, requested: Point, result: BatchResult, ring: Ring) {
    && SamePoint(requested, planned)
    && result.latitude.Some? && result.longitude.Some?
    && SamePoint(Point(result.longitude.value, result.latitude.value), planned)
    && InsideOrBoundary(planned, ring)
    && result.ok && result.slope.Some? && result.slope.value.status == "ok"
    && result.slope.value.unit == Some("degrees") && result.slope.value.value.Some?
  }

  /** Every planned point has an answer within the limit, and some answer is no negative slope. */
  ghost predicate AllWithinLimit(planned: seq<Point>, requested: seq<Point>, results: seq<BatchResult>, ring: Ring,
                                 limit: real)
    requires |planned| == |requested| == |results|
  {
    && (forall i :: 0 <= i < |planned| ==>
          Answers(planned[i], requested[i], results[i], ring) && results[i].slope.value.value.value <= limit)
    && (exists i :: 0 <= i < |planned| && results[i].slope.value.value.value >= 0.0)
  }

  /** The maximum over the replayed results, compared with the limit. */
  method CheckResults(planned: seq<Point>, requested: seq<Point>, results: seq<BatchResult>, ring: Ring, limit: real)
    returns (problem: Option<Code>)
    requires |planned| == |requested| == |results|
    ensures problem.None? <==> AllWithinLimit(planned, requested, results, ring, limit)
  {
    hide SamePoint, InsideOrBoundary;
    var maximum := -1.0;
    for i := 0 to |planned|
      invariant forall k :: 0 <= k < i ==>
                  Answers(planned[k], requested[k], results[k], ring) && results[k].slope.value.value.value <= maximum
      invariant maximum == -1.0 || exists k :: 0 <= k < i && results[k].slope.value.value.value == maximum
    {
      var result := results[i];
      if !SamePoint(requested[i], planned[i]) || result.latitude.None? || result.longitude.None?
         || !SamePoint(Point(result.longitude.value, result.latitude.value), planned[i]) {
        return Some(InadequateScreening);
      }
      var inside := PointInPolygonOrBoundary(planned[i], ring);
      if !inside { return Some(InadequateScreening); }
      if !result.ok || result.slope.None? || result.slope.value.status != "ok"
        || result.slope.value.unit != Some("degrees") {
        return Some(InadequateScreening);
      }
      if result.slope.value.value.None? { return Some(InvalidScreening); }
      assert Answers(planned[i], requested[i], result, ring);
      maximum := Max(maximum, result.slope.value.value.value);
    }
    if maximum < 0.0 { return Some(InadequateScreening); }
    if maximum > limit { return Some(RevisedSlopeExceeded); }
    return None;
  }

  /** The replayed response answers for every point of the plan, within the limit. */
  ghost predicate ReplayClears(tools: Tools, s: Screening, replay: Replay, ring: Ring, plan: SamplePlan) {
    && replay.request.Some? && replay.request.value.fields == ["slope_degrees"]
    && |replay.request.value.locations| == |replay.results| == |plan.locations| == s.returnedCount
    && AllWithinLimit(plan.locations, replay.request.value.locations, replay.results, ring, tools.slopeLimit)
  }

  /** The stored screening is the referenced one and is recorded under the policy. */
  predicate OnRecord(tools: Tools, site: Site, store: Store, ref: Reference, r: Resolution, asOf: Time,
                     policy: Policy) {
    && Holds(tools, store, r.screeningRecordId, r.screeningHash) && r.screeningHash == ref.screeningHash
    && var decoded := tools.screeningOf(store[r.screeningRecordId].artifact);
       decoded.Some? && Recorded(tools, site, decoded.value, r.screeningRecordId, asOf, policy.sampling)
  }

  /** What a passed screening consists of. */
  datatype ScreeningEvidence = ScreeningEvidence(screening: Screening, plan: SamplePlan, replay: Replay)

  /** The screening on record clears the plan that the policy makes of the ring. */
  ghost predicate Screened(tools: Tools, site: Site, store: Store, ref: Reference, r: Resolution, ring: Ring,
                           asOf: Time, policy: Policy, e: ScreeningEvidence) {
    && OnRecord(tools, site, store, ref, r, asOf, policy)
    && tools.screeningOf(store[r.screeningRecordId].artifact) == Some(e.screening)
    && PlanOf(tools.lib, ring, policy.sampling) == Success(e.plan)
    && tools.replay(e.screening) == Some(e.replay) && ReplayClears(tools, e.screening, e.replay, ring, e.plan)
  }

  /** The checks before the plan is made. */
  method LoadScreening(tools: Tools, site: Site, store: Store, ref: Reference, r: Resolution, asOf: Time,
                       policy: Policy)
    returns (screening: Result<Screening, Code>)
    ensures screening.Success? <==> OnRecord(tools, site, store, ref, r, asOf, policy)
    ensures screening.Success? ==> tools.screeningOf(store[r.screeningRecordId].artifact) == Some(screening.value)
  {
    hide Recorded;
    if r.screeningRecordId !in store || store[r.screeningRecordId].id != r.screeningRecordId {
      return Failure(UnknownScreening);
    }
    var record := store[r.screeningRecordId];
    var actualHash := tools.hash(record.artifact);
    if record.artifactHash != actualHash || r.screeningHash != actualHash || ref.screeningHash != actualHash {
      return Failure(ScreeningHashMismatch);
    }
    var decoded := tools.screeningOf(record.artifact);
    if decoded.None? { return Failure(InvalidScreening); }
    var problem := CheckRecorded(tools, site, decoded.value, record.id, asOf, policy.sampling);
    if problem.Some? { return Failure(problem.value); }
    return Success(decoded.value);
  }

  /** The replay measured against the plan. */
  method CheckReplay(tools: Tools, screening: Screening, ring: Ring, plan: SamplePlan) returns (problem: Option<Code>)
    ensures problem.None? <==> (var replayed := tools.replay(screening);
                                replayed.Some? && ReplayClears(tools, screening, replayed.value, ring, plan))
  {
    hide AllWithinLimit;
    var replayed := tools.replay(screening);
    if replayed.None? { return Some(InadequateScreening); }
    if replayed.value.request.None? { return Some(InvalidScreening); }
    var request, results, planned := replayed.value.request.value, replayed.value.results, plan.locations;
    if |request.fields| != 1 || request.fields[0] != "slope_degrees" || |request.locations| != |planned|
       || |results| != |planned| || screening.returnedCount != |results| {
      return Some(InadequateScreening);
    }
    problem := CheckResults(planned, request.locations, results, ring, tools.slopeLimit);
  }

  /** `verifyRevisedSlopeScreening` */
  method VerifyRevisedScreening(tools: Tools, site: Site, store: Store, ref: Reference, r: Resolution, ring: Ring,
                                asOf: Time, policy: Policy)
    returns (problem: Option<Code>)
    ensures problem.None? <==> exists e :: Screened(tools, site, store, ref, r, ring, asOf, policy, e)
  {
    hide OnRecord, PlanOf, ReplayClears;
    var screening := LoadScreening(tools, site, store, ref, r, asOf, policy);
    if screening.Failure? { return Some(screening.error); }
    var plan := PlanScreeningSamples(tools.lib, ring, policy.sampling);
    if plan.Failure? {
      return Some(if plan.error == LimitExceeded then SamplingLimitRequiresReview else InadequateScreening);
    }
    problem := CheckReplay(tools, screening.value, ring, plan.value);
    if problem.None? {
      var e := ScreeningEvidence(screening.value, plan.value, tools.replay(screening.value).value);
      assert Screened(tools, site, store, ref, r, ring, asOf, policy, e);
    }
  }

  // ---------- the reviewer's authorization ----------

  ghost predicate Authorized(tools: Tools, site: Site, store: Store, ref: Reference, r: Resolution, asOf: Time,
                             policy: Policy, a: Approval) {
    && r.authorizationRecordId in store
    && var record := store[r.authorizationRecordId];
       && record.id == r.authorizationRecordId == a.id && tools.hash(record.artifact) == record.artifactHash
       && tools.approvalOf(record.artifact) == Some(a)
       && a.policyVersion == policy.version && a.evidenceRecordId == r.id && a.evidenceHash == ref.artifactHash
       && a.fieldId == site.fieldId && a.boundaryVersion == site.boundaryVersion
       && a.reviewerRole == r.reviewerRole && a.reviewerRole in policy.reviewerRoles && a.reviewerRole != r.issuingRole
       && a.approvalStatus == "APPROVED"
       && a.recordedAt != ZeroTime && r.recordedAt <= a.recordedAt <= asOf
       && Text.Trim(a.supersededBy) == ""
  }

  method CheckAuthorization(tools: Tools, site: Site, store: Store, ref: Reference, r: Resolution, asOf: Time,
                            policy: Policy)
    returns (problem: Option<Code>)
    ensures problem.None? <==> exists a :: Authorized(tools, site, store, ref, r, asOf, policy, a)
  {
    var id := r.authorizationRecordId;
    if id !in store || store[id].id != id { return Some(UnknownAuthorization); }
    var record := store[id];
    if record.artifactHash != tools.hash(record.artifact) { return Some(AuthorizationHashMismatch); }
    var decoded := tools.approvalOf(record.artifact);
    if decoded.None? { return Some(InvalidAuthorization); }
    var a := decoded.value;
    if a.id != record.id || a.policyVersion != policy.version || a.evidenceRecordId != r.id
      || a.evidenceHash != ref.artifactHash {
      return Some(AuthorizationEvidenceMismatch);
    }
    if a.fieldId != site.fieldId || a.boundaryVersion != site.boundaryVersion {
      return Some(AuthorizationScopeMismatch);
    }
    var configured := ConfiguredRole(policy.reviewerRoles, a.reviewerRole);
    if a.reviewerRole != r.reviewerRole || !configured || a.reviewerRole == r.issuingRole
      || a.approvalStatus != "APPROVED" {
      return Some(UnauthorizedApproval);
    }
    if a.recordedAt == ZeroTime || a.recordedAt < r.recordedAt || a.recordedAt > asOf {
      return Some(InvalidAuthorizationTime);
    }
    if Text.Trim(a.supersededBy) != "" { return Some(AuthorizationSuperseded); }
    assert Authorized(tools, site, store, ref, r, asOf, policy, a);
    return None;
  }

  // ---------- the whole verification ----------

  /** Everything a successful verification stands on. */
  datatype Dossier = Dossier(resolution: Resolution, parent: Parent, source: seq<SourceResult>,
                             screening: ScreeningEvidence, approval: Approval)

  function RevisedRing(d: Dossier): Ring {
    if |d.resolution.boundary.coordinates| > 0 then RingOf(d.resolution.boundary.coordinates[0]) else []
  }

  /** The field's over-limit evidence is resolved by this dossier. */
  ghost predicate Cleared(tools: Tools, site: Site, store: Store, asOf: Time, policy: Policy, d: Dossier) {
    && Admitted(tools, site, store, asOf, policy, d.resolution)
    && UsableRing(RevisedRing(d), tools.lib.cosDegrees)
    && ParentAccepted(tools, site, store, site.reference.value, d.resolution, RevisedRing(d), d.parent)
    && SourceCleared(tools, store, site.reference.value, RevisedRing(d), d.source)
    && Screened(tools, site, store, site.reference.value, d.resolution, RevisedRing(d), asOf, policy, d.screening)
    && Authorized(tools, site, store, site.reference.value, d.resolution, asOf, policy, d.approval)
  }

  /** The dossier clears the field, and the acres are those of its revised boundary. */
  ghost predicate ClearsWith(tools: Tools, site: Site, store: Store, asOf: Time, policy: Policy, d: Dossier,
                             acres: string) {
    && Cleared(tools, site, store, asOf, policy, d)
    && acres == DerivedAcres(RevisedRing(d), tools.lib.cosDegrees)
  }

  /** The reference names one artifact, so at most one resolution can be admitted. */
  lemma {:induction false} OneResolution(tools: Tools, site: Site, store: Store, asOf: Time, policy: Policy,
                                         r: Resolution, other: Resolution)
    requires Admitted(tools, site, store, asOf, policy, r) && Admitted(tools, site, store, asOf, policy, other)
    ensures r == other
  {
    hide Admissible, ValidBoundary, Holds;
  }

  /** A dossier holds the one admitted resolution, its ring, and what the checks ask for. */
  lemma {:induction false} DossierParts(tools: Tools, site: Site, store: Store, asOf: Time, policy: Policy,
                                        r: Resolution, ring: Ring, d: Dossier)
    requires Admitted(tools, site, store, asOf, policy, r) && |r.boundary.coordinates| == 1
    requires ring == RingOf(r.boundary.coordinates[0])
    requires site.reference.Some? && Cleared(tools, site, store, asOf, policy, d)
    ensures d.resolution == r && RevisedRing(d) == ring
    ensures ParentAccepted(tools, site, store, site.reference.value, r, ring, d.parent)
    ensures SourceCleared(tools, store, site.reference.value, ring, d.source)
    ensures Screened(tools, site, store, site.reference.value, r, ring, asOf, policy, d.screening)
    ensures Authorized(tools, site, store, site.reference.value, r, asOf, policy, d.approval)
  {
    hide Admitted, ParentAccepted, SourceCleared, Screened, Authorized, UsableRing;
    OneResolution(tools, site, store, asOf, policy, r, d.resolution);
  }

  /** All checks passed: they make up a dossier. */
  lemma {:induction false} DossierComplete(tools: Tools, site: Site, store: Store, asOf: Time, policy: Policy,
                                           r: Resolution, ring: Ring)
    requires Admitted(tools, site, store, asOf, policy, r) && |r.boundary.coordinates| == 1
    requires ring == RingOf(r.boundary.coordinates[0])
    requires site.reference.Some? && |ring| > 1 && UsableRing(ring, tools.lib.cosDegrees)
    requires exists parent :: ParentAccepted(tools, site, store, site.reference.value, r, ring, parent)
    requires exists source :: SourceCleared(tools, store, site.reference.value, ring, source)
    requires exists e :: Screened(tools, site, store, site.reference.value, r, ring, asOf, policy, e)
    requires exists approval :: Authorized(tools, site, store, site.reference.value, r, asOf, policy, approval)
    ensures exists d :: ClearsWith(tools, site, store, asOf, policy, d, DerivedAcres(ring, tools.lib.cosDegrees))
  {
    hide Admitted, ParentAccepted, SourceCleared, Screened, Authorized, UsableRing, DerivedAcres;
    var ref := site.reference.value;
    var parent :| ParentAccepted(tools, site, store, ref, r, ring, parent);
    var source :| SourceCleared(tools, store, ref, ring, source);
    var e :| Screened(tools, site, store, ref, r, ring, asOf, policy, e);
    var approval :| Authorized(tools, site, store, ref, r, asOf, policy, approval);
    var d := Dossier(r, parent, source, e, approval);
    assert ClearsWith(tools, site, store, asOf, policy, d, DerivedAcres(ring, tools.lib.cosDegrees));
  }

  /** Success yields the acres of a dossier that clears the field; failure means that there is none. */
  ghost predicate Verdict(tools: Tools, site: Site, store: Option<Store>, asOf: Time, policy: Policy,
                          r: Result<string, Code>) {
    match r
    case Success(acres) => store.Some? && exists d :: ClearsWith(tools, site, store.value, asOf, policy, d, acres)
    case Failure(_) => store.Some? ==> Unresolved(tools, site, store.value, asOf, policy)
  }

  /** No dossier clears the field. */
  ghost predicate Unresolved(tools: Tools, site: Site, store: Store, asOf: Time, policy: Policy) {
    forall d :: !Cleared(tools, site, store, asOf, policy, d)
  }

  /** If any check of the admitted resolution fails, no dossier clears the field. */
  lemma {:induction false} CheckFailed(tools: Tools, site: Site, store: Store, asOf: Time, policy: Policy,
                                       r: Resolution, ring: Ring)
    requires Admitted(tools, site, store, asOf, policy, r) && |r.boundary.coordinates| == 1
    requires ring == RingOf(r.boundary.coordinates[0])
    requires site.reference.Some?
    requires || (!exists parent :: ParentAccepted(tools, site, store, site.reference.value, r, ring, parent))
             || (!exists source :: SourceCleared(tools, store, site.reference.value, ring, source))
             || (!exists e :: Screened(tools, site, store, site.reference.value, r, ring, asOf, policy, e))
             || (!exists approval :: Authorized(tools, site, store, site.reference.value, r, asOf, policy, approval))
    ensures Unresolved(tools, site, store, asOf, policy)
  {
    hide Admitted, ParentAccepted, SourceCleared, Screened, Authorized, Cleared;
    forall d ensures !Cleared(tools, site, store, asOf, policy, d) {
      if Cleared(tools, site, store, asOf, policy, d) { DossierParts(tools, site, store, asOf, policy, r, ring, d); }
    }
  }

  /**
    `VerifySlopeResolutionWithPolicy`: succeeds exactly when a complete dossier clears the field,
    with the acres of the revised boundary.  The final lookup of the source maximum cannot fail.
  */
  method VerifySlopeResolution(tools: Tools, site: Site, store: Option<Store>, asOf: Time, policy: Policy)
    returns (r: Result<string, Code>)
    requires tools.slopeLimit >= 0.0
    ensures Verdict(tools, site, store, asOf, policy, r)
  {
    hide Admitted, ParentAccepted, SourceCleared, Screened, Authorized, UsableRing, Unresolved, ClearsWith;
    var admitted := AdmitResolution(tools, site, store, asOf, policy);
    if admitted.Failure? {
      if store.Some? { NoneAdmitted(tools, site, store.value, asOf, policy); }
      return Failure(admitted.error);
    }
    var (resolution, ring, acres) := admitted.value;
    HasReference(tools, site, store.value, asOf, policy, resolution);
    UsableIsClosed(ring, tools.lib.cosDegrees);
    var ref := site.reference.value;
    var problem := CheckParent(tools, site, store.value, ref, resolution, ring);
    if problem.Some? {
      CheckFailed(tools, site, store.value, asOf, policy, resolution, ring);
      return Failure(problem.value);
    }
    problem := CheckSource(tools, store.value, ref, ring);
    if problem.Some? {
      CheckFailed(tools, site, store.value, asOf, policy, resolution, ring);
      return Failure(problem.value);
    }
    problem := VerifyRevisedScreening(tools, site, store.value, ref, resolution, ring, asOf, policy);
    if problem.Some? {
      CheckFailed(tools, site, store.value, asOf, policy, resolution, ring);
      return Failure(problem.value);
    }
    problem := CheckAuthorization(tools, site, store.value, ref, resolution, asOf, policy);
    if problem.Some? {
      CheckFailed(tools, site, store.value, asOf, policy, resolution, ring);
      return Failure(problem.value);
    }
    ghost var source :| SourceCleared(tools, store.value, ref, ring, source);
    SourceDecodes(tools, store.value, ref, ring, source);
    var results := tools.sourceOf(store.value[ref.sourceRecordId].artifact).value;
    var maximum := MaximumSlope(results);
    if maximum.None? {
      assert false;
    }
    DossierComplete(tools, site, store.value, asOf, policy, resolution, ring);
    return Success(acres);
  }

  lemma {:induction false} NoneAdmitted(tools: Tools, site: Site, store: Store, asOf: Time, policy: Policy)
    requires !exists a :: Admitted(tools, site, store, asOf, policy, a)
    ensures Unresolved(tools, site, store, asOf, policy)
  {
    hide Admitted, Screened, ParentAccepted, SourceCleared, Authorized, UsableRing;
  }

  lemma {:induction false} HasReference(tools: Tools, site: Site, store: Store, asOf: Time, policy: Policy,
                                        r: Resolution)
    requires Admitted(tools, site, store, asOf, policy, r)
    ensures site.reference.Some? && |r.boundary.coordinates| == 1
  {
    ValidIsUsable(r.boundary, tools.lib.cosDegrees);
  }

  lemma {:induction false} UsableIsClosed(ring: Ring, cosDegrees: real -> real)
    requires UsableRing(ring, cosDegrees)
    ensures Closed(ring) && |ring| >= 4
  {}

  lemma {:induction false} SourceDecodes(tools: Tools, store: Store, ref: Reference, ring: Ring,
                                         results: seq<SourceResult>)
    requires SourceCleared(tools, store, ref, ring, results) && tools.slopeLimit >= 0.0
    ensures ref.sourceRecordId in store && tools.sourceOf(store[ref.sourceRecordId].artifact) == Some(results)
    ensures Decodable(results) && exists i ::
              0 <= i < |results| && Usable(results[i]) && results[i].slope.value.value.value >= 0.0
  {
    hide InsideOrBoundary;
    var i :| 0 <= i < |results| && IsHigh(results[i], tools.slopeLimit);
    assert Usable(results[i]) && results[i].slope.value.value.value >= 0.0;
  }

  /** No usable over-limit source sample lies inside the revised ring or on its boundary. */
  lemma {:induction false} ClearedExcludesHighSamples(tools: Tools, site: Site, store: Store, asOf: Time,
                                                      policy: Policy, d: Dossier, i: nat)
    requires Cleared(tools, site, store, asOf, policy, d)
    requires i < |d.source| && Usable(d.source[i])
    ensures d.source[i].slope.value.value.Some?
    ensures InsideOrBoundary(d.source[i].at, RevisedRing(d)) ==> d.source[i].slope.value.value.value <= tools.slopeLimit
  {
    hide Admitted, ParentAccepted, Screened, Authorized, UsableRing, InsideOrBoundary;
  }

  /**
    Each of the planned screening points, all strictly inside the revised ring, has an answer
    within the limit that was taken no further than a rounding away from it.
  */
  lemma {:induction false} ClearedScreensEveryPoint(tools: Tools, site: Site, store: Store, asOf: Time, policy: Policy,
                                                    d: Dossier, i: nat)
    requires Plausible(tools.lib) && Cleared(tools, site, store, asOf, policy, d) && i < policy.sampling.target
    ensures i < |Samples(tools.lib, RevisedRing(d), policy.sampling)| && i < |d.screening.replay.results|
    ensures var p, result := Samples(tools.lib, RevisedRing(d), policy.sampling)[i].point,
            d.screening.replay.results[i];
            && StrictlyInside(p, RevisedRing(d))
            && result.latitude.Some? && result.longitude.Some? && result.slope.Some? && result.slope.value.value.Some?
            && result.slope.value.value.value <= tools.slopeLimit
            && Abs(result.longitude.value - p.x) <= 0.0000000015 && Abs(result.latitude.value - p.y) <= 0.0000000015
  {
    hide Admitted, ParentAccepted, SourceCleared, Authorized, InsideOrBoundary, StrictlyInside, Spaced, TrulyFlagged,
      OnRecord, RoundedPoint, PlanOf, Plausible, Samples;
    UsableIsClosed(RevisedRing(d), tools.lib.cosDegrees);
    hide UsableRing;
    PlansAreSound(tools.lib, RevisedRing(d), policy.sampling);
    assert PublishedAs(d.screening.plan.locations[i], Samples(tools.lib, RevisedRing(d), policy.sampling)[i]);
    assert Answers(d.screening.plan.locations[i], d.screening.replay.request.value.locations[i],
                   d.screening.replay.results[i], RevisedRing(d));
  }
}
