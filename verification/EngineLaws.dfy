/**
  What the placement engine promises about one field and one plan, stated on the input and the
  printed output alone: the gates, the numbers, the order of the fields and the status.
*/
module EngineLaws {
  import opened Wrappers
  import opened Tiers
  import opened Placement
  import opened AllocationLaws
  import Decimals
  import Digits
  import Ranking
  import Text

  /** A text read as a number. */
  function Number(text: string): Option<real> { Decimals.RatOf(Text.Trim(text)) }

  // ---------- the batch ----------

  /**
    The dry tons of a batch: the wet mass in kilograms, times the percentage of solids, over the
    907.18474 kilograms of a short ton.
  */
  lemma {:induction false} TonsExactly(wetMassKg: string, percentSolids: string)
    ensures var tons, wet, solids := DryTons(wetMassKg, percentSolids), Number(wetMassKg), Number(percentSolids);
            && (tons.Success? <==> wet.Some? && wet.value > 0.0 && solids.Some? && 0.0 < solids.value <= 100.0)
            && (tons.Success? ==> tons.value * 90718.474 == wet.value * solids.value)
            && (tons.Failure? ==>
                  tons.error == if wet.None? || wet.value <= 0.0 then InvalidWetMass else InvalidSolids)
  {
    hide Decimals.RatOf, Text.Trim;
    var wet, solids := Number(wetMassKg), Number(percentSolids);
    if wet.Some? && solids.Some? { PerTon(wet.value * solids.value); }
  }

  lemma {:induction false} PerTon(x: real)
    ensures (x / 100.0 / KilogramsPerTon) * 90718.474 == x
  {}

  // ---------- the gates of one field ----------

  /** A field over the slope limit needs a verified resolution. */
  predicate SlopeIsSettled(f: FieldInput, slopeLimit: real, verified: Option<string>) {
    f.slopeMaximum.Some? && f.slopeMaximum.value > slopeLimit ==> verified.Some?
  }

  /** The evidence a field needs before it can take material. */
  predicate PassesGates(f: FieldInput, slopeLimit: real, verified: Option<string>) {
    && f.ready && f.rmpApproved && f.physicalEvaluationId != "" && f.physicalSucceeded && f.criticalGaps <= 0
    && !f.waterOverlap && SlopeIsSettled(f, slopeLimit, verified)
  }

  lemma {:induction false} GateExactly(f: FieldInput, slopeLimit: real, verified: Option<string>)
    ensures Gate(f, slopeLimit, verified.Some?) == Eligible <==> PassesGates(f, slopeLimit, verified)
    ensures Gate(f, slopeLimit, verified.Some?) == Ineligible <==> !(f.ready && f.rmpApproved)
  {}

  /** The acres a field is counted with: those of the verified boundary if there is one. */
  function AcresText(f: FieldInput, verified: Option<string>): string {
    if verified.Some? then verified.value else f.usableAcres
  }

  /** Acres, agronomic rate and prior loading can be read, as can the ceiling of an elevated batch. */
  predicate Readable(tier: Tier, policyRate: string, f: FieldInput, verified: Option<string>) {
    && Number(AcresText(f, verified)).Some? && Number(AcresText(f, verified)).value > 0.0
    && Number(f.agronomicRate).Some? && Number(f.agronomicRate).value > 0.0
    && Number(f.priorLoading).Some? && Number(f.priorLoading).value >= 0.0
    && (tier == Elevated ==> Number(policyRate).Some? && Number(policyRate).value > 0.0)
  }

  /** The rate a readable field is held to. */
  function RateFor(tier: Tier, policyRate: string, f: FieldInput, verified: Option<string>): real
    requires Readable(tier, policyRate, f, verified)
  {
    var agronomic := Number(f.agronomicRate).value;
    if tier == Elevated && Number(policyRate).value < agronomic then Number(policyRate).value else agronomic
  }

  /** What a readable field can still take. */
  function Room(tier: Tier, policyRate: string, f: FieldInput, verified: Option<string>): real
    requires Readable(tier, policyRate, f, verified)
  {
    Number(AcresText(f, verified)).value * RateFor(tier, policyRate, f, verified) - Number(f.priorLoading).value
  }

  predicate Blank(f: FieldInput, verified: Option<string>) {
    AcresText(f, verified) == "" || f.agronomicRate == "" || f.priorLoading == ""
  }

  lemma {:induction false} LimitsExactly(tier: Tier, policyRate: string, f: FieldInput, verified: Option<string>)
    ensures FieldLimits(tier, policyRate, f, verified).Success? <==> Readable(tier, policyRate, f, verified)
    ensures Readable(tier, policyRate, f, verified) ==>
              FieldLimits(tier, policyRate, f, verified) ==
              Success(Limits(Number(AcresText(f, verified)).value, RateFor(tier, policyRate, f, verified),
                             Number(f.priorLoading).value))
    ensures Readable(tier, policyRate, f, verified) ==>
              Headroom(Number(AcresText(f, verified)).value, RateFor(tier, policyRate, f, verified),
                       Number(f.priorLoading).value) == Room(tier, policyRate, f, verified)
  {
    hide Decimals.RatOf, Text.Trim;
  }

  lemma {:induction false} BlankIsUnreadable(tier: Tier, policyRate: string, f: FieldInput, verified: Option<string>)
    requires Readable(tier, policyRate, f, verified)
    ensures !Blank(f, verified)
  {
    assert Text.Trim("") == "";
    assert Number("").None?;
  }

  /**
    A field is evaluated without error unless it passes every gate, has all three texts and one of
    them, or the ceiling, cannot be read.  It is eligible if and only if it passes every gate, its
    numbers can be read and room is left; ineligible if it is not ready, has no approved plan, or
    passes and has no room; and up for review otherwise.
  */
  lemma {:induction false} FieldExactly(tier: Tier, policyRate: string, f: FieldInput, slopeLimit: real,
                                        verified: Option<string>)
    ensures var r := EvaluateField(tier, policyRate, f, slopeLimit, verified);
            var passes, readable := PassesGates(f, slopeLimit, verified), Readable(tier, policyRate, f, verified);
            && (r.Failure? <==> passes && !Blank(f, verified) && !readable)
            && (r.Success? ==>
                  && (r.value.disposition == Eligible <==>
                        passes && readable && Room(tier, policyRate, f, verified) > 0.0)
                  && (r.value.disposition == Ineligible <==>
                        || !f.ready || !f.rmpApproved
                        || (passes && readable && Room(tier, policyRate, f, verified) <= 0.0)))
  {
    GateExactly(f, slopeLimit, verified);
    LimitsExactly(tier, policyRate, f, verified);
    if Readable(tier, policyRate, f, verified) { BlankIsUnreadable(tier, policyRate, f, verified); }
    hide Gate, FieldLimits, Decimals.FormatRat, PassesGates, Number, Readable, Room, RateFor, Headroom;
  }

  /**
    What an evaluated field carries on: its identity, concerns, gaps and road, and the printed
    numbers if it is eligible.
  */
  lemma {:induction false} FieldCarries(tier: Tier, policyRate: string, f: FieldInput, slopeLimit: real,
                                        verified: Option<string>)
    requires EvaluateField(tier, policyRate, f, slopeLimit, verified).Success?
    ensures var r := EvaluateField(tier, policyRate, f, slopeLimit, verified).value;
            && r.id == f.id && r.high == f.highBands && r.moderate == f.moderateBands
            && r.roadDistance == f.roadDistance
            && r.gaps == f.unknownBands + f.criticalGaps + f.otherGaps + (if Blank(f, verified) then 1 else 0)
            && (r.disposition == Eligible ==>
                  && Readable(tier, policyRate, f, verified)
                  && r.allowedRate == Decimals.FormatRat(RateFor(tier, policyRate, f, verified))
                  && r.capacity == Decimals.FormatRat(Room(tier, policyRate, f, verified)))
  {
    GateExactly(f, slopeLimit, verified);
    LimitsExactly(tier, policyRate, f, verified);
    hide Gate, FieldLimits, Decimals.FormatRat, PassesGates, Number, Readable, Room, RateFor, Headroom;
  }

  // ---------- where tons go ----------

  /**
    Every allocation of a plan goes to an input field that passes every gate, in tons that are no
    more than the room left and with the acres those tons need at the printed rate.
  */
  lemma {:induction false} TonsGoThroughTheGates(input: Input, slopeLimit: real, verified: seq<Option<string>>, k: nat)
    returns (i: nat)
    requires |verified| == |input.fields| && QuantityGiven(input) && input.tier != Prohibited
    requires Evaluate(input, slopeLimit, verified).Success?
    requires k < |Evaluate(input, slopeLimit, verified).value.allocations|
    ensures i < |input.fields|
    ensures var a, f := Evaluate(input, slopeLimit, verified).value.allocations[k], input.fields[i];
            var tons, rate, acres := Number(a.dryTons), Number(a.rate), Number(a.acres);
            && a.fieldId == f.id && PassesGates(f, slopeLimit, verified[i])
            && Readable(input.tier, input.policyRate, f, verified[i])
            && tons.Some? && rate.Some? && acres.Some?
            && 0.0 < tons.value <= Room(input.tier, input.policyRate, f, verified[i]) + HalfMicro
            && a.rate == Decimals.FormatRat(RateFor(input.tier, input.policyRate, f, verified[i]))
            && rate.value > 0.0 && acres.value == Decimals.Rounded(tons.value / rate.value, 6)
  {
    hide Evaluate, EvaluateFields, EvaluateField, Decimals.FormatRat, Ranked, WellPrinted, Decimals.Rounded,
      AllocateAll, Decimals.RatOf, Text.Trim, OnGrid, PassesGates, Readable, RateFor, Room;
    var batch, p := PlanIsLoop(input, slopeLimit, verified);
    var plan := Evaluate(input, slopeLimit, verified).value;
    var fields := EvaluateFields(input.tier, input.policyRate, input.fields, slopeLimit, verified).value;
    FieldsEvaluated(input.tier, input.policyRate, input.fields, slopeLimit, verified);
    var j, amount := AllocationSource(plan.fields, batch, k);
    i := RankedSource(fields, j);
    var f := input.fields[i];
    FieldExactly(input.tier, input.policyRate, f, slopeLimit, verified[i]);
    FieldCarries(input.tier, input.policyRate, f, slopeLimit, verified[i]);
    RatesArePositive(input.tier, input.policyRate, f, verified[i]);
    PrintedAmounts(plan.fields[j], plan.allocations[k], amount, RateFor(input.tier, input.policyRate, f, verified[i]),
                   Room(input.tier, input.policyRate, f, verified[i]));
  }

  lemma {:induction false} RatesArePositive(tier: Tier, policyRate: string, f: FieldInput, verified: Option<string>)
    requires Readable(tier, policyRate, f, verified)
    ensures RateFor(tier, policyRate, f, verified) > 0.0
  {
    hide Number;
  }

  lemma {:induction false} PrintedAmounts(f: PlacementField, a: Allocation, amount: real, rate: real, room: real)
    requires f.disposition == Eligible && f.capacity == Decimals.FormatRat(room) && room > 0.0
    requires a.rate == f.allowedRate == Decimals.FormatRat(rate) && rate >= 0.0
    requires a.dryTons == Decimals.FormatRat(amount) && OnGrid(amount) && 0.0 < amount <= ReadCapacity(f)
    requires AcresFor(a, amount)
    ensures Number(a.dryTons) == Some(amount) && amount <= room + HalfMicro
    ensures Number(a.rate).Some? && Number(a.rate).value > 0.0
    ensures Number(a.acres) == Some(Decimals.Rounded(amount / Number(a.rate).value, 6))
  {
    hide Decimals.FormatRat, Decimals.Rounded, Decimals.RatOf, Text.Trim, OnGrid, PrintedOrZero;
    GridRoundTrip(amount);
    PrintedReads(room);
    PrintedReads(rate);
    Decimals.RoundingError(room, 6);
    HalfMicroIsHalfUnit();
    Quotient(amount, Number(a.rate).value);
    PrintedReads(amount / Number(a.rate).value);
  }

  lemma {:induction false} Quotient(x: real, y: real)
    requires x > 0.0 && y > 0.0
    ensures x / y >= 0.0
  {}

  // ---------- the order of the fields ----------

  /** Eligible fields first, then those up for review, then the rest. */
  predicate Sooner(a: Disposition, b: Disposition) {
    (a == Eligible && b != Eligible) || (a == ReviewRequired && b == Ineligible)
  }

  /** No farther from a road, an unknown distance counting as the largest finite one. */
  predicate NoFarther(a: Option<real>, b: Option<real>) {
    match (a, b)
    case (Some(x), Some(y)) => x <= y
    case (Some(x), None) => x <= MaxFloat64
    case (None, Some(y)) => MaxFloat64 <= y
    case (None, None) => true
  }

  /**
    One field may rank before another: by disposition, fewer high concerns, fewer moderate concerns,
    fewer gaps, more capacity and a shorter way to a road, each deciding only between equals.
  */
  predicate MayPrecede(a: PlacementField, b: PlacementField) {
    || Sooner(a.disposition, b.disposition)
    || (a.disposition == b.disposition
        && (a.high < b.high
            || (a.high == b.high
                && (a.moderate < b.moderate
                    || (a.moderate == b.moderate
                        && (a.gaps < b.gaps
                            || (a.gaps == b.gaps
                                && (PrintedOrZero(a.capacity) > PrintedOrZero(b.capacity)
                                    || (PrintedOrZero(a.capacity) == PrintedOrZero(b.capacity)
                                        && NoFarther(a.roadDistance, b.roadDistance))))))))))
  }

  lemma {:induction false} NotBeforeExactly(a: PlacementField, b: PlacementField)
    ensures !RanksBefore(b, a) <==> MayPrecede(a, b)
  {
    hide PrintedOrZero;
  }

  /** In the ranking every field may precede all behind it, and ranks count from one. */
  lemma {:induction false} RankingOrder(fields: seq<PlacementField>, i: nat, j: nat)
    requires i < j < |Ranked(fields)|
    ensures MayPrecede(Ranked(fields)[i], Ranked(fields)[j])
    ensures Ranked(fields)[i].rank == Some(i + 1) && Ranked(fields)[j].rank == Some(j + 1)
  {
    Ranking.SortIsOrdered(fields);
    var sorted := StableSort(fields);
    hide StableSort, RanksBefore, MayPrecede;
    NotBeforeExactly(sorted[i], sorted[j]);
    SameButRank(sorted[i], sorted[j], i + 1, j + 1);
  }

  lemma {:induction false} SameButRank(a: PlacementField, b: PlacementField, i: int, j: int)
    ensures MayPrecede(a.(rank := Some(i)), b.(rank := Some(j))) == MayPrecede(a, b)
  {
    hide PrintedOrZero;
  }

  // ---------- the status of a plan ----------

  /** A prohibited batch gets no field and no allocation, and keeps all its tons. */
  lemma {:induction false} ProhibitedIsBlocked(input: Input, slopeLimit: real, verified: seq<Option<string>>)
    requires |verified| == |input.fields| && input.tier == Prohibited
    requires Evaluate(input, slopeLimit, verified).Success?
    ensures var plan := Evaluate(input, slopeLimit, verified).value;
            && plan.status == LandApplicationBlocked && plan.gaps == [LandApplicationProhibited]
            && plan.fields == [] && plan.allocations == []
            && plan.unallocatedDryTons == plan.batchDryTons
            && (if QuantityGiven(input) then
                  && DryTons(input.wetMassKg, input.percentSolids).Success?
                  && plan.batchDryTons == Decimals.FormatRat(DryTons(input.wetMassKg, input.percentSolids).value)
                  && plan.allocatedDryTons == "0"
                else plan.batchDryTons == plan.allocatedDryTons == "")
  {
    hide DryTons, Decimals.FormatRat;
  }

  /** Without a quantity the fields are ranked, nothing is allocated and the plan is up for review. */
  lemma {:induction false} MissingQuantityIsReviewed(input: Input, slopeLimit: real, verified: seq<Option<string>>)
    requires |verified| == |input.fields| && input.tier != Prohibited && !QuantityGiven(input)
    requires Evaluate(input, slopeLimit, verified).Success?
    ensures var plan := Evaluate(input, slopeLimit, verified).value;
            && plan.status == NeedsReview && plan.gaps == [BatchQuantityMissing] && plan.allocations == []
            && plan.batchDryTons == plan.allocatedDryTons == plan.unallocatedDryTons == ""
            && EvaluateFields(input.tier, input.policyRate, input.fields, slopeLimit, verified).Success?
            && plan.fields ==
               Ranked(EvaluateFields(input.tier, input.policyRate, input.fields, slopeLimit, verified).value)
  {
    hide EvaluateFields, Ranked;
  }

  /**
    A plan with a quantity is ready if and only if nothing is left over.  What is left over is up
    for review if some field is, and otherwise exceeds the capacity there is.
  */
  lemma {:induction false} StatusExactly(input: Input, slopeLimit: real, verified: seq<Option<string>>)
    requires |verified| == |input.fields| && input.tier != Prohibited && QuantityGiven(input)
    requires Evaluate(input, slopeLimit, verified).Success?
    ensures var plan := Evaluate(input, slopeLimit, verified).value;
            var left := Number(plan.unallocatedDryTons);
            var review := exists f :: f in plan.fields && f.disposition == ReviewRequired;
            && left.Some? && left.value >= 0.0
            && (plan.status == Ready <==> left.value == 0.0)
            && (plan.status == NeedsReview <==> left.value > 0.0 && review)
            && (plan.status == InsufficientCapacity <==> left.value > 0.0 && !review)
            && plan.gaps == (if plan.status == Ready then []
                             else if plan.status == NeedsReview then [FieldReviewRequired]
                             else [InsufficientEligibleCapacity])
  {
    hide EvaluateFields, Ranked, DryTons, Decimals.FormatRat, Decimals.RatOf, AllocateAll, OnGrid, WellPrinted,
      Text.Trim;
    var batch, p := PlanIsLoop(input, slopeLimit, verified);
    var plan := Evaluate(input, slopeLimit, verified).value;
    LoopPlacesMinimum(plan.fields, batch);
    GridRoundTrip(p.remaining);
    ReviewIsListed(plan.fields);
    TonsPositive(input);
    PrintedReads(DryTons(input.wetMassKg, input.percentSolids).value);
    StatusOf(input, slopeLimit, verified, batch, p);
  }

  lemma {:induction false} ReviewIsListed(fields: seq<PlacementField>)
    ensures HasReview(fields) <==> exists f :: f in fields && f.disposition == ReviewRequired
  {}

  lemma {:induction false} StatusOf(input: Input, slopeLimit: real, verified: seq<Option<string>>, batch: real,
                                    p: Progress)
    requires |verified| == |input.fields| && input.tier != Prohibited && QuantityGiven(input)
    requires Evaluate(input, slopeLimit, verified).Success?
    requires var plan := Evaluate(input, slopeLimit, verified).value;
             Decimal(plan.batchDryTons) == Some(batch) && AllocateAll(plan.fields, batch) == Success(p)
    ensures var plan := Evaluate(input, slopeLimit, verified).value;
            plan.status == (if p.remaining <= 0.0 then Ready
                            else if HasReview(plan.fields) then NeedsReview
                            else InsufficientCapacity)
            && plan.gaps == (if p.remaining <= 0.0 then []
                             else if HasReview(plan.fields) then [FieldReviewRequired]
                             else [InsufficientEligibleCapacity])
  {
    hide EvaluateFields, Ranked, DryTons, Decimals.FormatRat, Decimal, AllocateAll, HasReview;
  }
}
