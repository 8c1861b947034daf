/**
  The placement engine: eligibility of each field, the six-key stable ranking, and the
  greedy allocation of one batch over the ranked fields.  Quantities travel as decimal
  text, exactly as the engine prints and re-reads them.
*/
module Placement {
  import opened Wrappers
  import opened Reals
  import opened Tiers
  import Text
  import Decimals

  datatype Disposition = Eligible | ReviewRequired | Ineligible

  datatype Status = Ready | NeedsReview | InsufficientCapacity | LandApplicationBlocked

  datatype GapCode = LandApplicationProhibited | BatchQuantityMissing | FieldReviewRequired
      | InsufficientEligibleCapacity

  /**
    One candidate field with its stored facts already decoded: `waterOverlap` is a complete
    wetland or surface-water fact that is true, `slopeMaximum` the maximum of a complete slope
    fact, and the band counts are those of the vulnerability categories.
  */
  datatype FieldInput = FieldInput(
    id: string, ready: bool, rmpApproved: bool,
    usableAcres: string, agronomicRate: string, priorLoading: string,
    physicalEvaluationId: string, physicalSucceeded: bool, criticalGaps: int, otherGaps: int,
    waterOverlap: bool, slopeMaximum: Option<real>, roadDistance: Option<real>,
    highBands: nat, moderateBands: nat, unknownBands: nat)

  datatype Input = Input(tier: Tier, policyRate: string, wetMassKg: string, percentSolids: string,
                         fields: seq<FieldInput>)

  datatype PlacementField = PlacementField(
    id: string, disposition: Disposition, rank: Option<int>,
    high: int, moderate: int, gaps: int,
    allowedRate: string, capacity: string, roadDistance: Option<real>)

  datatype Allocation = Allocation(position: int, fieldId: string, dryTons: string, acres: string, rate: string)

  datatype Plan = Plan(
    status: Status, batchDryTons: string, allocatedDryTons: string, unallocatedDryTons: string,
    fields: seq<PlacementField>, allocations: seq<Allocation>, gaps: seq<GapCode>)

  /** `RateRoundsToZero` stands for the division by zero the source does not guard against. */
  datatype EngineError = InvalidNumber | InvalidWetMass | InvalidSolids | CeilingUnavailable | RateRoundsToZero

  // ---------- numbers ----------

  function Decimal(text: string): Option<real> {
    Decimals.RatOf(Text.Trim(text))
  }

  function PositiveDecimal(text: string): Option<real> {
    var x :- Decimal(text);
    if x <= 0.0 then None else Some(x)
  }

  function NonnegativeDecimal(text: string): Option<real> {
    var x :- Decimal(text);
    if x < 0.0 then None else Some(x)
  }

  /** Kilograms in a US short ton. */
  const KilogramsPerTon: real := 45359237.0 / 50000.0

  function DryTons(wetMassKg: string, percentSolids: string): Result<real, EngineError> {
    match PositiveDecimal(wetMassKg)
    case None => Failure(InvalidWetMass)
    case Some(wet) =>
      match PositiveDecimal(percentSolids)
      case None => Failure(InvalidSolids)
      case Some(solids) =>
        if solids > 100.0 then Failure(InvalidSolids)
        else Success(wet * solids / 100.0 / KilogramsPerTon)
  }

  // ---------- one field ----------

  predicate ExceedsSlope(input: FieldInput, slopeLimit: real) {
    input.slopeMaximum.Some? && input.slopeMaximum.value > slopeLimit
  }

  function Gate(input: FieldInput, slopeLimit: real, verified: bool): Disposition {
    if !input.ready || !input.rmpApproved then Ineligible
    else if input.physicalEvaluationId == "" then ReviewRequired
    else if !input.physicalSucceeded || input.criticalGaps > 0 then ReviewRequired
    else if input.waterOverlap then ReviewRequired
    else if ExceedsSlope(input, slopeLimit) && !verified then ReviewRequired
    else Eligible
  }

  /** Usable acres, replaced by the acres derived from a verified revised boundary. */
  function UsableAcres(input: FieldInput, verified: Option<string>): string {
    if verified.Some? then verified.value else input.usableAcres
  }

  /** The controlling rate: the agronomic rate, capped by the policy rate for an elevated batch. */
  function AllowedRate(tier: Tier, policyRate: string, agronomic: real): Result<real, EngineError> {
    if tier == Elevated then
      match PositiveDecimal(policyRate)
      case None => Failure(CeilingUnavailable)
      case Some(cap) => Success(Min(agronomic, cap))
    else Success(agronomic)
  }

  /** What the usable acres take at a rate, less the prior loading. */
  function Headroom(usable: real, allowed: real, prior: real): real { usable * allowed - prior }

  function Capacity(usable: real, allowed: real, prior: real): real {
    var headroom := Headroom(usable, allowed, prior);
    if headroom < 0.0 then 0.0 else headroom
  }

  datatype Limits = Limits(usable: real, allowed: real, prior: real)

  /** The numbers an eligible field is held to. */
  function FieldLimits(tier: Tier, policyRate: string, input: FieldInput, verified: Option<string>)
    : Result<Limits, EngineError>
  {
    match PositiveDecimal(UsableAcres(input, verified))
    case None => Failure(InvalidNumber)
    case Some(usable) =>
      match PositiveDecimal(input.agronomicRate)
      case None => Failure(InvalidNumber)
      case Some(agronomic) =>
        match NonnegativeDecimal(input.priorLoading)
        case None => Failure(InvalidNumber)
        case Some(prior) =>
          var allowed :- AllowedRate(tier, policyRate, agronomic);
          Success(Limits(usable, allowed, prior))
  }

  /** `evaluateField`, given the acres of a successful slope verification, if there was one. */
  function EvaluateField(tier: Tier, policyRate: string, input: FieldInput, slopeLimit: real,
                         verified: Option<string>): Result<PlacementField, EngineError>
  {
    var gate := Gate(input, slopeLimit, verified.Some?);
    var missing := UsableAcres(input, verified) == "" || input.agronomicRate == "" || input.priorLoading == "";
    var disposition := if missing && gate == Eligible then ReviewRequired else gate;
    var blank := PlacementField(
      input.id, disposition, None, input.highBands, input.moderateBands,
      input.unknownBands + input.criticalGaps + input.otherGaps + (if missing then 1 else 0),
      "", "", input.roadDistance);
    if disposition != Eligible then Success(blank)
    else
      var limits :- FieldLimits(tier, policyRate, input, verified);
      var capacity := Capacity(limits.usable, limits.allowed, limits.prior);
      Success(blank.(
        allowedRate := Decimals.FormatRat(limits.allowed),
        capacity := Decimals.FormatRat(capacity),
        disposition := if capacity == 0.0 then Ineligible else Eligible))
  }

  function EvaluateFields(tier: Tier, policyRate: string, fields: seq<FieldInput>, slopeLimit: real,
                          verified: seq<Option<string>>): Result<seq<PlacementField>, EngineError>
    requires |verified| == |fields|
  {
    if |fields| == 0 then Success([])
    else
      var n := |fields| - 1;
      var front :- EvaluateFields(tier, policyRate, fields[..n], slopeLimit, verified[..n]);
      var last :- EvaluateField(tier, policyRate, fields[n], slopeLimit, verified[n]);
      Success(front + [last])
  }

  // ---------- ranking ----------

  function DispositionOrder(d: Disposition): int {
    match d
    case Eligible => 0
    case ReviewRequired => 1
    case Ineligible => 2
  }

  /** The largest finite IEEE 754 double, used when no road distance is known. */
  const MaxFloat64: real :=
      0xFFFF_FFFF_FFFF_F800_0000_0000_0000_0000_0000_0000_0000_0000_0000_0000_0000_0000_0000_0000_0000_0000_0000_0000_0000_0000_0000_0000_0000_0000_0000_0000_0000_0000_0000_0000_0000_0000_0000_0000_0000_0000_0000_0000_0000_0000_0000_0000_0000_0000_0000_0000_0000_0000_0000_0000_0000_0000_0000_0000_0000_0000_0000_0000_0000_0000 as real

  function RoadDistance(road: Option<real>): real {
    if road.Some? then road.value else MaxFloat64
  }

  /** `decimalOrZero` on printed text */
  function PrintedOrZero(text: string): real {
    if text == "" then 0.0
    else match Decimal(text)
         case Some(x) => x
         case None => 0.0
  }

  datatype Key = Key(order: int, high: int, moderate: int, gaps: int, capacity: real, road: real)

  function KeyOf(f: PlacementField): Key {
    Key(DispositionOrder(f.disposition), f.high, f.moderate, f.gaps, PrintedOrZero(f.capacity),
        RoadDistance(f.roadDistance))
  }

  /** Disposition, concerns and gaps ascending, capacity descending, road distance ascending. */
  predicate KeyLess(a: Key, b: Key) {
    if a.order != b.order then a.order < b.order
    else if a.high != b.high then a.high < b.high
    else if a.moderate != b.moderate then a.moderate < b.moderate
    else if a.gaps != b.gaps then a.gaps < b.gaps
    else if a.capacity != b.capacity then a.capacity > b.capacity
    else a.road < b.road
  }

  predicate RanksBefore(a: PlacementField, b: PlacementField) {
    KeyLess(KeyOf(a), KeyOf(b))
  }

  /** Where a stable sort puts x: after everything that x does not rank before. */
  function InsertField(sorted: seq<PlacementField>, x: PlacementField): seq<PlacementField> {
    if |sorted| > 0 && RanksBefore(x, sorted[|sorted| - 1])
    then InsertField(sorted[..|sorted| - 1], x) + [sorted[|sorted| - 1]]
    else sorted + [x]
  }

  function StableSort(fields: seq<PlacementField>): seq<PlacementField> {
    if |fields| == 0 then []
    else InsertField(StableSort(fields[..|fields| - 1]), fields[|fields| - 1])
  }

  function Numbered(fields: seq<PlacementField>): (r: seq<PlacementField>)
    ensures |r| == |fields|
    ensures forall i :: 0 <= i < |r| ==> r[i] == fields[i].(rank := Some(i + 1))
  {
    seq(|fields|, i requires 0 <= i < |fields| => fields[i].(rank := Some(i + 1)))
  }

  function Ranked(fields: seq<PlacementField>): seq<PlacementField> {
    Numbered(StableSort(fields))
  }

  /** `rankFields`: sorts the slice in place, then writes the ranks. */
  method RankFields(fields: array<PlacementField>)
    modifies fields
    ensures fields[..] == Ranked(old(fields[..]))
  {
    hide StableSort, Numbered;
    SortFields(fields);
    ghost var sorted := fields[..];
    for i := 0 to fields.Length
      invariant forall k :: 0 <= k < i ==> fields[k] == sorted[k].(rank := Some(k + 1))
      invariant forall k :: i <= k < fields.Length ==> fields[k] == sorted[k]
    {
      fields[i] := fields[i].(rank := Some(i + 1));
    }
    assert fields[..] == Numbered(sorted);
  }

  method SortFields(fields: array<PlacementField>)
    modifies fields
    ensures fields[..] == StableSort(old(fields[..]))
  {
    ghost var original := fields[..];
    var n := 0;
    while n < fields.Length
      invariant 0 <= n <= fields.Length
      invariant fields[..n] == StableSort(original[..n])
      invariant forall k :: n <= k < fields.Length ==> fields[k] == original[k]
    {
      hide InsertField;
      assert original[..n + 1][..n] == original[..n];
      InsertInPlace(fields, n);
      n := n + 1;
    }
    assert original[..n] == original;
    assert fields[..] == fields[..n];
  }

  /** One insertion step: moves element n down past everything it ranks before. */
  method InsertInPlace(fields: array<PlacementField>, n: nat)
    requires n < fields.Length
    modifies fields
    ensures fields[..n + 1] == InsertField(old(fields[..n]), old(fields[n]))
    ensures forall k :: n < k < fields.Length ==> fields[k] == old(fields[k])
  {
    hide RanksBefore, InsertField;
    var x := fields[n];
    ghost var front, behind := fields[..n], fields[n + 1..];
    var j := n;
    assert front[..n] == front && front[n..] == [] && fields[n + 1..n + 1] == [];
    while j > 0 && RanksBefore(x, fields[j - 1])
      invariant 0 <= j <= n
      invariant fields[..j] == front[..j] && fields[j + 1..n + 1] == front[j..] && fields[n + 1..] == behind
      invariant InsertField(front, x) == InsertField(front[..j], x) + front[j..]
    {
      assert fields[j - 1] == fields[..j][j - 1] == front[j - 1];
      InsertFurther(front, x, j);
      Shifted(fields[..], front, j);
      fields[j] := fields[j - 1];
      j := j - 1;
    }
    fields[j] := x;
    assert j > 0 ==> fields[j - 1] == fields[..j][j - 1] == front[j - 1];
    InsertHere(front, x, j);
    assert fields[..n + 1] == fields[..j] + [x] + fields[j + 1..n + 1];
    assert forall k :: n < k < fields.Length ==> fields[k] == behind[k - n - 1];
  }

  /** Moving the element before the gap into it. */
  lemma {:induction false} Shifted(fields: seq<PlacementField>, front: seq<PlacementField>, j: nat)
    requires 0 < j <= |front| < |fields|
    requires fields[..j] == front[..j] && fields[j + 1..|front| + 1] == front[j..]
    ensures var moved := fields[j := fields[j - 1]];
            && moved[..j - 1] == front[..j - 1] && moved[j..|front| + 1] == front[j - 1..]
            && moved[|front| + 1..] == fields[|front| + 1..]
  {
    assert fields[j - 1] == fields[..j][j - 1] == front[j - 1];
    assert front[j - 1..] == [front[j - 1]] + front[j..];
    var moved := fields[j := fields[j - 1]];
    assert moved[j..|front| + 1] == [fields[j - 1]] + fields[j + 1..|front| + 1];
  }

  lemma {:induction false} InsertFurther(front: seq<PlacementField>, x: PlacementField, j: nat)
    requires 0 < j <= |front| && RanksBefore(x, front[j - 1])
    ensures InsertField(front[..j], x) + front[j..] == InsertField(front[..j - 1], x) + front[j - 1..]
  {
    assert front[..j][..j - 1] == front[..j - 1];
    assert front[j - 1..] == [front[j - 1]] + front[j..];
  }

  lemma {:induction false} InsertHere(front: seq<PlacementField>, x: PlacementField, j: nat)
    requires j <= |front| && (j > 0 ==> !RanksBefore(x, front[j - 1]))
    ensures InsertField(front[..j], x) == front[..j] + [x]
  {}

  // ---------- allocation ----------

  /** The capacity the allocation loop reads for a field; nothing for a field it passes over. */
  function ReadCapacity(f: PlacementField): real {
    if f.disposition != Eligible || f.capacity == "" || f.allowedRate == "" then 0.0
    else PrintedOrZero(f.capacity)
  }

  datatype Progress = Progress(allocations: seq<Allocation>, placed: real, remaining: real)

  function AllocateOne(f: PlacementField, p: Progress): Result<Progress, EngineError> {
    if f.disposition != Eligible || f.capacity == "" || f.allowedRate == "" || p.remaining <= 0.0 then Success(p)
    else
      match Decimal(f.capacity)
      case None => Failure(InvalidNumber)
      case Some(capacity) =>
        match Decimal(f.allowedRate)
        case None => Failure(InvalidNumber)
        case Some(rate) =>
          var amount := Min(p.remaining, capacity);
          if amount <= 0.0 then Success(p)
          else if rate == 0.0 then Failure(RateRoundsToZero)
          else Success(Progress(
            p.allocations + [Allocation(|p.allocations| + 1, f.id, Decimals.FormatRat(amount),
                                        Decimals.FormatRat(amount / rate), f.allowedRate)],
            p.placed + amount, p.remaining - amount))
  }

  function AllocateAll(fields: seq<PlacementField>, batch: real): Result<Progress, EngineError> {
    if |fields| == 0 then Success(Progress([], 0.0, batch))
    else
      var p :- AllocateAll(fields[..|fields| - 1], batch);
      AllocateOne(fields[|fields| - 1], p)
  }

  predicate HasReview(fields: seq<PlacementField>) {
    exists i :: 0 <= i < |fields| && fields[i].disposition == ReviewRequired
  }

  /** The finished plan for ranked fields and a batch that may be unknown. */
  function FinishPlan(fields: seq<PlacementField>, batchText: string): Result<Plan, EngineError> {
    match Decimal(batchText)
    case None => Failure(InvalidNumber)
    case Some(batch) =>
      var p :- AllocateAll(fields, batch);
      var (status, gaps) :=
        if p.remaining <= 0.0 then (Ready, [])
        else if HasReview(fields) then (NeedsReview, [FieldReviewRequired])
        else (InsufficientCapacity, [InsufficientEligibleCapacity]);
      Success(Plan(status, batchText, Decimals.FormatRat(p.placed), Decimals.FormatRat(p.remaining),
                   fields, p.allocations, gaps))
  }

  /** `EvaluateWithEvidenceAndPolicy`, given the outcome of each field's slope verification. */
  function Evaluate(input: Input, slopeLimit: real, verified: seq<Option<string>>): Result<Plan, EngineError>
    requires |verified| == |input.fields|
  {
    if input.tier == Prohibited then ProhibitedPlan(input)
    else if input.wetMassKg == "" || input.percentSolids == "" then
      var fields :- EvaluateFields(input.tier, input.policyRate, input.fields, slopeLimit, verified);
      Success(Plan(NeedsReview, "", "", "", Ranked(fields), [], [BatchQuantityMissing]))
    else
      var tons :- DryTons(input.wetMassKg, input.percentSolids);
      var fields :- EvaluateFields(input.tier, input.policyRate, input.fields, slopeLimit, verified);
      FinishPlan(Ranked(fields), Decimals.FormatRat(tons))
  }

  function ProhibitedPlan(input: Input): Result<Plan, EngineError> {
    if input.wetMassKg == "" || input.percentSolids == "" then
      Success(Plan(LandApplicationBlocked, "", "", "", [], [], [LandApplicationProhibited]))
    else
      var tons :- DryTons(input.wetMassKg, input.percentSolids);
      var text := Decimals.FormatRat(tons);
      Success(Plan(LandApplicationBlocked, text, "0", text, [], [], [LandApplicationProhibited]))
  }

  /** The allocation loop of the engine. */
  method RunAllocation(fields: seq<PlacementField>, batch: real) returns (r: Result<Progress, EngineError>)
    ensures r == AllocateAll(fields, batch)
  {
    var p := Progress([], 0.0, batch);
    var i := 0;
    while i < |fields|
      invariant 0 <= i <= |fields|
      invariant AllocateAll(fields[..i], batch) == Success(p)
    {
      assert fields[..i + 1][..i] == fields[..i];
      var step := AllocateOne(fields[i], p);
      if step.Failure? {
        FailureSticks(fields, i + 1, batch);
        return Failure(step.error);
      }
      p := step.value;
      i := i + 1;
    }
    assert fields[..i] == fields;
    return Success(p);
  }

  lemma {:induction false} FailureSticks(fields: seq<PlacementField>, k: nat, batch: real)
    requires k <= |fields| && AllocateAll(fields[..k], batch).Failure?
    ensures AllocateAll(fields, batch) == AllocateAll(fields[..k], batch)
    decreases |fields|
  {
    if k == |fields| {
      assert fields[..k] == fields;
    } else {
      var front := fields[..|fields| - 1];
      assert front[..k] == fields[..k];
      FailureSticks(front, k, batch);
    }
  }
}
