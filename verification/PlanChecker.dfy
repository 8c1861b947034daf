/**
  The independent plan checker of the judge demonstration, and exactly when it accepts what
  the engine returns.
*/
module PlanChecker {
  import opened Wrappers
  import opened Tiers
  import opened Placement
  import opened AllocationLaws
  import opened Ranking
  import Digits
  import Decimals
  import Text

  datatype CheckError = InvalidRank | DuplicateRank | NoEligibleCapacity | PositionMismatch | ExceedsCapacity
      | Unbalanced

  predicate GreaterDecimal(left: string, right: string) {
    var l, r := Decimals.RatOf(left), Decimals.RatOf(right);
    l.None? || r.None? || l.value > r.value
  }

  predicate EqualDecimalSum(left: string, right: string, total: string) {
    var l, r, t := Decimals.RatOf(left), Decimals.RatOf(right), Decimals.RatOf(total);
    l.Some? && r.Some? && t.Some? && l.value + r.value == t.value
  }

  /** The field a later entry of the map would stand for: the last one with the id. */
  function FieldOf(fields: seq<PlacementField>, id: string): Option<PlacementField> {
    if |fields| == 0 then None
    else if fields[|fields| - 1].id == id then Some(fields[|fields| - 1])
    else FieldOf(fields[..|fields| - 1], id)
  }

  ghost predicate RanksValid(fields: seq<PlacementField>) {
    && (forall i :: 0 <= i < |fields| ==> fields[i].rank.Some? && fields[i].rank.value >= 1)
    && (forall i, j :: 0 <= i < j < |fields| ==> fields[i].rank != fields[j].rank)
  }

  predicate AllocationValid(fields: seq<PlacementField>, a: Allocation) {
    match FieldOf(fields, a.fieldId)
    case None => false
    case Some(f) =>
      && f.disposition == Eligible && f.capacity != ""
      && f.rank == Some(a.position)
      && !GreaterDecimal(a.dryTons, f.capacity)
  }

  /** What the checker promises about a plan it accepts. */
  ghost predicate Acceptable(plan: Plan) {
    && RanksValid(plan.fields)
    && (forall k :: 0 <= k < |plan.allocations| ==> AllocationValid(plan.fields, plan.allocations[k]))
    && EqualDecimalSum(plan.allocatedDryTons, plan.unallocatedDryTons, plan.batchDryTons)
  }

  /** `validatePlan` */
  method ValidatePlan(plan: Plan) returns (problem: Option<CheckError>)
    ensures problem.None? <==> Acceptable(plan)
    ensures problem == Some(Unbalanced) ==>
              !EqualDecimalSum(plan.allocatedDryTons, plan.unallocatedDryTons, plan.batchDryTons)
  {
    hide RanksValid, AllocationValid, EqualDecimalSum;
    var rankProblem, fields := IndexFields(plan.fields);
    if rankProblem.Some? { return rankProblem; }
    problem := CheckAllocations(plan.fields, fields, plan.allocations);
    if problem.Some? { return; }
    if !EqualDecimalSum(plan.allocatedDryTons, plan.unallocatedDryTons, plan.batchDryTons) {
      return Some(Unbalanced);
    }
  }

  /** Fills the map from ids to fields while checking the ranks. */
  method IndexFields(all: seq<PlacementField>)
    returns (problem: Option<CheckError>, fields: map<string, PlacementField>)
    ensures problem.None? <==> RanksValid(all)
    ensures problem.None? ==> FieldsAre(all, fields)
    ensures problem != Some(Unbalanced)
  {
    hide FieldOf, RanksValid;
    fields := map[];
    var ranks: set<int> := {};
    NothingIndexed(all[..0]);
    for i := 0 to |all|
      invariant RanksValid(all[..i]) && RanksAre(all[..i], ranks) && FieldsAre(all[..i], fields)
    {
      var field := all[i];
      IndexMore(all, i, ranks, fields);
      if field.rank.None? || field.rank.value < 1 { return Some(InvalidRank), fields; }
      if field.rank.value in ranks { return Some(DuplicateRank), fields; }
      ranks := ranks + {field.rank.value};
      fields := fields[field.id := field];
    }
    assert all[..|all|] == all;
    return None, fields;
  }

  ghost predicate RanksAre(fields: seq<PlacementField>, ranks: set<int>) {
    && (forall k :: 0 <= k < |fields| ==> fields[k].rank.Some? && fields[k].rank.value in ranks)
    && (forall r :: r in ranks ==> exists k :: 0 <= k < |fields| && fields[k].rank == Some(r))
  }

  ghost predicate FieldsAre(all: seq<PlacementField>, fields: map<string, PlacementField>) {
    forall id :: FieldOf(all, id) == if id in fields then Some(fields[id]) else None
  }

  lemma {:induction false} NothingIndexed(none: seq<PlacementField>)
    requires |none| == 0
    ensures RanksValid(none) && RanksAre(none, {}) && FieldsAre(none, map[])
  {}

  /** The next field is indexed when its rank is new; otherwise the ranks are not valid. */
  lemma {:induction false} IndexMore(all: seq<PlacementField>, i: nat, ranks: set<int>,
                                     fields: map<string, PlacementField>)
    requires i < |all| && RanksValid(all[..i]) && RanksAre(all[..i], ranks) && FieldsAre(all[..i], fields)
    ensures FieldsAre(all[..i + 1], fields[all[i].id := all[i]])
    ensures if all[i].rank.Some? && all[i].rank.value >= 1 && all[i].rank.value !in ranks
            then RanksValid(all[..i + 1]) && RanksAre(all[..i + 1], ranks + {all[i].rank.value})
            else !RanksValid(all)
  {
    FieldsMore(all, i, fields);
    hide FieldOf;
    if all[i].rank.Some? && all[i].rank.value >= 1 {
      if all[i].rank.value in ranks {
        RankRepeats(all, i, ranks);
      } else {
        RanksMore(all, i, ranks);
      }
    }
  }

  lemma {:induction false} FieldsMore(all: seq<PlacementField>, i: nat, fields: map<string, PlacementField>)
    requires i < |all| && FieldsAre(all[..i], fields)
    ensures FieldsAre(all[..i + 1], fields[all[i].id := all[i]])
  {
    assert all[..i + 1][..i] == all[..i];
  }

  lemma {:induction false} RankRepeats(all: seq<PlacementField>, i: nat, ranks: set<int>)
    requires i < |all| && RanksAre(all[..i], ranks) && all[i].rank.Some? && all[i].rank.value in ranks
    ensures !RanksValid(all)
  {
    var before, r := all[..i], all[i].rank.value;
    assert r in ranks;
    var k :| 0 <= k < |before| && before[k].rank == Some(r);
    assert all[k].rank == all[i].rank;
  }

  lemma {:induction false} RanksMore(all: seq<PlacementField>, i: nat, ranks: set<int>)
    requires i < |all| && RanksValid(all[..i]) && RanksAre(all[..i], ranks)
    requires all[i].rank.Some? && all[i].rank.value >= 1 && all[i].rank.value !in ranks
    ensures RanksValid(all[..i + 1]) && RanksAre(all[..i + 1], ranks + {all[i].rank.value})
  {
    var more := all[..i + 1];
    forall k | 0 <= k < i ensures more[k] == all[..i][k] && more[k].rank != more[i].rank {}
    forall r | r in ranks + {all[i].rank.value} ensures exists k :: 0 <= k < |more| && more[k].rank == Some(r) {
      if r in ranks {
        var k :| 0 <= k < |all[..i]| && all[..i][k].rank == Some(r);
        assert more[k].rank == Some(r);
      } else {
        assert more[i].rank == Some(r);
      }
    }
  }

  method CheckAllocations(all: seq<PlacementField>, fields: map<string, PlacementField>, allocations: seq<Allocation>)
    returns (problem: Option<CheckError>)
    requires FieldsAre(all, fields)
    ensures problem.None? <==> forall k :: 0 <= k < |allocations| ==> AllocationValid(all, allocations[k])
    ensures problem != Some(Unbalanced)
  {
    hide GreaterDecimal, FieldOf;
    for k := 0 to |allocations|
      invariant forall j :: 0 <= j < k ==> AllocationValid(all, allocations[j])
    {
      var item := allocations[k];
      assert FieldOf(all, item.fieldId) == if item.fieldId in fields then Some(fields[item.fieldId]) else None;
      if item.fieldId !in fields { return Some(NoEligibleCapacity); }
      var field := fields[item.fieldId];
      if field.disposition != Eligible || field.capacity == "" { return Some(NoEligibleCapacity); }
      if field.rank != Some(item.position) { return Some(PositionMismatch); }
      if GreaterDecimal(item.dryTons, field.capacity) { return Some(ExceedsCapacity); }
    }
    return None;
  }

  // ---------- which fields are granted ----------

  /** The loop still holds tons when it reaches field i, and the field can take some. */
  predicate Granted(fields: seq<PlacementField>, batch: real, i: nat)
    requires i < |fields|
  {
    ReadCapacity(fields[i]) > 0.0 && TotalCapacity(fields[..i]) < batch
  }

  function Count(fields: seq<PlacementField>, batch: real): (n: nat)
    requires AllocateAll(fields, batch).Success?
  {
    |AllocateAll(fields, batch).value.allocations|
  }

  /** q is p with one more allocation, to field f. */
  predicate AddsAllocation(p: Progress, q: Progress, f: PlacementField) {
    && |q.allocations| == |p.allocations| + 1
    && q.allocations[..|p.allocations|] == p.allocations
    && q.allocations[|p.allocations|].fieldId == f.id
    && q.allocations[|p.allocations|].position == |p.allocations| + 1
  }

  /** The last step of the loop adds an allocation exactly when the field is granted. */
  predicate StepsAsGranted(fields: seq<PlacementField>, batch: real)
    requires |fields| > 0
  {
    var n := |fields| - 1;
    var p, q := AllocateAll(fields[..n], batch), AllocateAll(fields, batch);
    && p.Success? && q.Success?
    && (if Granted(fields, batch, n) then AddsAllocation(p.value, q.value, fields[n])
        else q.value.allocations == p.value.allocations)
  }

  lemma {:induction false} StepCounts(fields: seq<PlacementField>, batch: real)
    requires |fields| > 0 && AllWellPrinted(fields) && OnGrid(batch) && AllocateAll(fields, batch).Success?
    ensures StepsAsGranted(fields, batch)
  {
    hide Decimal, OnGrid, WellPrinted, ReadCapacity, Decimals.FormatRat;
    var n := |fields| - 1;
    var p := AllocateAll(fields[..n], batch).value;
    LoopPlacesMinimum(fields[..n], batch);
    StepPlaces(fields[n], p);
  }

  /** The loop emits at most one allocation a field, and one for each exactly when all are granted. */
  lemma {:induction false} CountBound(fields: seq<PlacementField>, batch: real, j: nat)
    requires AllWellPrinted(fields) && OnGrid(batch) && AllocateAll(fields, batch).Success? && j <= |fields|
    ensures AllocateAll(fields[..j], batch).Success? && Count(fields[..j], batch) <= j
    ensures (forall i :: 0 <= i < j ==> Granted(fields, batch, i)) ==> Count(fields[..j], batch) == j
    ensures forall i :: 0 <= i < j && !Granted(fields, batch, i) ==> Count(fields[..j], batch) < j
    decreases |fields|, j
  {
    hide Decimal, OnGrid, WellPrinted, ReadCapacity, AllocateOne, TotalCapacity;
    if j == 0 {
      assert fields[..j] == [];
    } else {
      PrefixSucceeds(fields, batch, j);
      CountBound(fields, batch, j - 1);
      assert fields[..j][..j - 1] == fields[..j - 1];
      StepCounts(fields[..j], batch);
      forall i | 0 <= i < j ensures Granted(fields[..j], batch, i) == Granted(fields, batch, i) {
        assert fields[..j][..i] == fields[..i];
      }
    }
  }

  lemma {:induction false} PrefixSucceeds(fields: seq<PlacementField>, batch: real, j: nat)
    requires AllocateAll(fields, batch).Success? && j <= |fields|
    ensures AllocateAll(fields[..j], batch).Success?
  {
    if AllocateAll(fields[..j], batch).Failure? { FailureSticks(fields, j, batch); }
  }

  /** The field behind allocation k, with its place in the ranking. */
  lemma {:induction false} GrantOf(fields: seq<PlacementField>, batch: real, k: nat) returns (j: nat)
    requires AllWellPrinted(fields) && OnGrid(batch) && AllocateAll(fields, batch).Success?
    requires k < Count(fields, batch)
    ensures j < |fields| && Granted(fields, batch, j)
    ensures AllocateAll(fields[..j], batch).Success? && Count(fields[..j], batch) == k
    ensures var a := AllocateAll(fields, batch).value.allocations[k];
            a.fieldId == fields[j].id && a.position == k + 1
  {
    hide Decimal, OnGrid, WellPrinted, ReadCapacity, AllocateOne, TotalCapacity;
    var n := |fields| - 1;
    StepCounts(fields, batch);
    if k < Count(fields[..n], batch) {
      j := GrantOf(fields[..n], batch, k);
      assert fields[..n][..j] == fields[..j];
    } else {
      j := n;
    }
  }

  /** The allocation of a granted field. */
  lemma {:induction false} AllocationOf(fields: seq<PlacementField>, batch: real, j: nat) returns (k: nat)
    requires AllWellPrinted(fields) && OnGrid(batch) && AllocateAll(fields, batch).Success?
    requires j < |fields| && Granted(fields, batch, j)
    ensures AllocateAll(fields[..j], batch).Success? && k == Count(fields[..j], batch) < Count(fields, batch)
    ensures var a := AllocateAll(fields, batch).value.allocations[k];
            a.fieldId == fields[j].id && a.position == k + 1
  {
    hide Decimal, OnGrid, WellPrinted, ReadCapacity, AllocateOne, TotalCapacity;
    var n := |fields| - 1;
    StepCounts(fields, batch);
    if j < n {
      assert fields[..n][..j] == fields[..j];
      k := AllocationOf(fields[..n], batch, j);
    } else {
      k := Count(fields[..n], batch);
    }
  }

  lemma {:induction false} SameIdSameField(fields: seq<PlacementField>, i: nat, j: nat)
    requires DistinctIds(fields) && i < |fields| && j < |fields| && fields[i].id == fields[j].id
    ensures i == j
  {}

  lemma {:induction false} FieldOfDistinct(fields: seq<PlacementField>, j: nat)
    requires DistinctIds(fields) && j < |fields|
    ensures FieldOf(fields, fields[j].id) == Some(fields[j])
  {
    if j < |fields| - 1 {
      FieldOfDistinct(fields[..|fields| - 1], j);
    }
  }

  // ---------- when the checker accepts ----------

  /**
    A field of printed capacity zero stands before a field that still receives tons, so the
    later allocation's position falls behind its rank.
  */
  ghost predicate SkipsAField(fields: seq<PlacementField>, batch: real) {
    exists i, j :: 0 <= i < j < |fields| && ReadCapacity(fields[i]) == 0.0 && Granted(fields, batch, j)
  }

  lemma {:induction false} CapacityPrefixes(fields: seq<PlacementField>, i: nat, j: nat)
    requires i <= j <= |fields| && AllWellPrinted(fields)
    ensures TotalCapacity(fields[..i]) <= TotalCapacity(fields[..j])
  {
    hide ReadCapacity, WellPrinted;
    if i < j {
      CapacityPrefixes(fields, i, j - 1);
      TotalCapacityStep(fields[..j]);
      assert fields[..j][..j - 1] == fields[..j - 1];
      ReadsBack(fields[j - 1]);
    }
  }

  /** Positions equal ranks for the allocations of a loop over ranked fields, unless one is skipped. */
  lemma {:induction false} PositionsMatchRanks(fields: seq<PlacementField>, batch: real, k: nat)
    requires AllWellPrinted(fields) && OnGrid(batch) && AllocateAll(fields, batch).Success?
    requires forall i :: 0 <= i < |fields| ==> fields[i].rank == Some(i + 1)
    requires DistinctIds(fields) && !SkipsAField(fields, batch) && k < Count(fields, batch)
    ensures AllocationValid(fields, AllocateAll(fields, batch).value.allocations[k])
  {
    hide Decimal, OnGrid, WellPrinted, ReadCapacity, AllocateAll, Decimals.RatOf, Decimals.FormatRat, TotalCapacity;
    var j := GrantOf(fields, batch, k);
    var j', amount := AllocationSource(fields, batch, k);
    SameIdSameField(fields, j, j');
    forall i | 0 <= i < j ensures Granted(fields, batch, i) {
      CapacityPrefixes(fields, i, j);
      ReadsBack(fields[i]);
    }
    CountBound(fields, batch, j);
    FieldOfDistinct(fields, j);
    ReadsBack(fields[j]);
    GridRoundTrip(amount);
  }

  /**
    For distinct field ids and a given batch quantity, the checker accepts the engine's plan if
    and only if no field of printed capacity zero is passed over ahead of a field that still
    receives tons.
  */
  lemma {:induction false} CheckerAcceptsExactly(input: Input, slopeLimit: real, verified: seq<Option<string>>)
    requires |verified| == |input.fields| && QuantityGiven(input) && input.tier != Prohibited
    requires Evaluate(input, slopeLimit, verified).Success?
    requires DistinctInputs(input.fields)
    ensures var plan := Evaluate(input, slopeLimit, verified).value;
            && Decimals.RatOf(plan.batchDryTons).Some?
            && (Acceptable(plan) <==> !SkipsAField(plan.fields, Decimals.RatOf(plan.batchDryTons).value))
  {
    hide Evaluate, EvaluateFields, Decimal, OnGrid, WellPrinted, ReadCapacity, AllocateAll, Decimals.RatOf,
      Decimals.FormatRat, TotalCapacity, AllocationValid, Granted, StableSort, EvaluateField;
    var batch, p := PlanIsLoop(input, slopeLimit, verified);
    var plan := Evaluate(input, slopeLimit, verified).value;
    PlanConservesMass(input, slopeLimit, verified);
    PlanIdsDistinct(input, slopeLimit, verified);
    Ranking.EligibleFieldsLead(EvaluateFields(input.tier, input.policyRate, input.fields, slopeLimit, verified).value);
    if SkipsAField(plan.fields, batch) {
      var i, j :| 0 <= i < j < |plan.fields| && ReadCapacity(plan.fields[i]) == 0.0 && Granted(plan.fields, batch, j);
      var k := SkippedIsRejected(plan.fields, batch, i, j);
    } else {
      forall k | 0 <= k < |plan.allocations| ensures AllocationValid(plan.fields, plan.allocations[k]) {
        PositionsMatchRanks(plan.fields, batch, k);
      }
    }
  }

  lemma {:induction false} SkippedIsRejected(fields: seq<PlacementField>, batch: real, i: nat, j: nat) returns (k: nat)
    requires AllWellPrinted(fields) && OnGrid(batch) && AllocateAll(fields, batch).Success?
    requires forall i :: 0 <= i < |fields| ==> fields[i].rank == Some(i + 1)
    requires DistinctIds(fields) && i < j < |fields|
    requires ReadCapacity(fields[i]) == 0.0 && Granted(fields, batch, j)
    ensures k < Count(fields, batch) && !AllocationValid(fields, AllocateAll(fields, batch).value.allocations[k])
  {
    hide Decimal, OnGrid, WellPrinted, AllocateAll, Decimals.RatOf, TotalCapacity;
    k := AllocationOf(fields, batch, j);
    assert !Granted(fields, batch, i);
    hide ReadCapacity, Granted;
    CountBound(fields, batch, j);
    FieldOfDistinct(fields, j);
  }

  /** A capacity that is positive but prints as zero. */
  predicate Vanishes(capacity: real) {
    capacity > 0.0 && Decimals.RoundedUnits(capacity, 6) == 0
  }

  /** What a caller can rule out before asking for a plan: no eligible field's capacity rounds to zero. */
  predicate NoVanishingCapacity(input: Input, slopeLimit: real, verified: seq<Option<string>>)
    requires |verified| == |input.fields|
  {
    forall i :: 0 <= i < |input.fields| ==>
      var limits := FieldLimits(input.tier, input.policyRate, input.fields[i], verified[i]);
      limits.Success? && Gate(input.fields[i], slopeLimit, verified[i].Some?) == Eligible ==>
        !Vanishes(Capacity(limits.value.usable, limits.value.allowed, limits.value.prior))
  }

  /** Without vanishing capacities the checker accepts every plan the engine returns for a given batch. */
  lemma {:induction false} CheckerAcceptsEnginePlans(input: Input, slopeLimit: real, verified: seq<Option<string>>)
    requires |verified| == |input.fields| && QuantityGiven(input)
    requires Evaluate(input, slopeLimit, verified).Success?
    requires DistinctInputs(input.fields)
    requires input.tier != Prohibited ==> NoVanishingCapacity(input, slopeLimit, verified)
    ensures Acceptable(Evaluate(input, slopeLimit, verified).value)
  {
    hide EvaluateFields, Decimal, OnGrid, WellPrinted, ReadCapacity, AllocateAll, Decimals.RatOf, Decimals.FormatRat,
      TotalCapacity, AllocationValid, Granted, StableSort, EvaluateField, DryTons, FieldLimits, Ranked;
    PlanConservesMass(input, slopeLimit, verified);
    if input.tier != Prohibited {
      hide Evaluate;
      CheckerAcceptsExactly(input, slopeLimit, verified);
      var batch, p := PlanIsLoop(input, slopeLimit, verified);
      var plan := Evaluate(input, slopeLimit, verified).value;
      var fields := EvaluateFields(input.tier, input.policyRate, input.fields, slopeLimit, verified).value;
      FieldsEvaluated(input.tier, input.policyRate, input.fields, slopeLimit, verified);
      Ranking.EligibleFieldsLead(fields);
      if SkipsAField(plan.fields, batch) {
        var i, j :| 0 <= i < j < |plan.fields| && ReadCapacity(plan.fields[i]) == 0.0 && Granted(plan.fields, batch, j);
        GrantedIsEligible(plan.fields, batch, j);
        assert plan.fields[i].disposition == Eligible;
        var s := RankedSource(fields, i);
        EligibleReadsPositive(input, slopeLimit, verified, s);
        SameCapacity(fields[s], i + 1);
      }
    }
  }

  lemma {:induction false} GrantedIsEligible(fields: seq<PlacementField>, batch: real, j: nat)
    requires j < |fields| && Granted(fields, batch, j)
    ensures fields[j].disposition == Eligible
  {}

  lemma {:induction false} SameCapacity(f: PlacementField, rank: int)
    ensures ReadCapacity(f.(rank := Some(rank))) == ReadCapacity(f)
  {}

  lemma {:induction false} EligibleReadsPositive(input: Input, slopeLimit: real, verified: seq<Option<string>>, s: nat)
    requires |verified| == |input.fields| && s < |input.fields|
    requires NoVanishingCapacity(input, slopeLimit, verified)
    requires EvaluateField(input.tier, input.policyRate, input.fields[s], slopeLimit, verified[s]).Success?
    requires EvaluateField(input.tier, input.policyRate, input.fields[s], slopeLimit, verified[s]).value.disposition ==
               Eligible
    ensures ReadCapacity(EvaluateField(input.tier, input.policyRate, input.fields[s], slopeLimit,
                                       verified[s]).value) > 0.0
  {
    hide EvaluateField, FieldLimits, Decimals.FormatRat, Decimals.RatOf, Decimal, WellPrinted, OnGrid;
    EligibleNumbers(input.tier, input.policyRate, input.fields[s], slopeLimit, verified[s]);
    var f := EvaluateField(input.tier, input.policyRate, input.fields[s], slopeLimit, verified[s]).value;
    var l := FieldLimits(input.tier, input.policyRate, input.fields[s], verified[s]).value;
    var capacity := Capacity(l.usable, l.allowed, l.prior);
    FieldIsWellPrinted(input.tier, input.policyRate, input.fields[s], slopeLimit, verified[s]);
    ReadsBack(f);
    PrintedReads(capacity);
    Digits.ScaledNonnegative(Decimals.RoundedUnits(capacity, 6), 6);
  }

  // ---------- the unguarded division ----------

  /** The loop reaches field j with tons left for it, and divides by a rate that was printed as zero. */
  ghost predicate DividesByZero(fields: seq<PlacementField>, batch: real) {
    exists j :: 0 <= j < |fields| && ZeroRateGranted(fields, batch, j)
  }

  predicate ZeroRateGranted(fields: seq<PlacementField>, batch: real, j: nat)
    requires j < |fields|
  {
    Granted(fields, batch, j) && Decimal(fields[j].allowedRate) == Some(0.0)
  }

  lemma {:induction false} StepFailsExactly(f: PlacementField, p: Progress)
    requires WellPrinted(f)
    ensures AllocateOne(f, p).Failure? <==>
              p.remaining > 0.0 && ReadCapacity(f) > 0.0 && Decimal(f.allowedRate) == Some(0.0)
    ensures AllocateOne(f, p).Failure? ==> AllocateOne(f, p).error == RateRoundsToZero
  {
    ReadsBack(f);
    hide Decimal, WellPrinted, OnGrid, Decimals.FormatRat, PrintedOrZero;
    if f.disposition != Eligible { assert ReadCapacity(f) == 0.0; }
  }

  /** The loop over engine-made fields fails exactly when it divides by a rate printed as zero. */
  lemma {:induction false} LoopFailsExactly(fields: seq<PlacementField>, batch: real)
    requires AllWellPrinted(fields) && OnGrid(batch)
    ensures AllocateAll(fields, batch).Failure? <==> DividesByZero(fields, batch)
    ensures AllocateAll(fields, batch).Failure? ==> AllocateAll(fields, batch).error == RateRoundsToZero
  {
    hide Decimal, OnGrid, WellPrinted, ReadCapacity, AllocateOne, TotalCapacity;
    if |fields| > 0 {
      var n := |fields| - 1;
      var front := fields[..n];
      LoopFailsExactly(front, batch);
      forall j: nat | j < n ensures ZeroRateGranted(front, batch, j) == ZeroRateGranted(fields, batch, j) {
        assert front[..j] == fields[..j];
      }
      if AllocateAll(front, batch).Success? {
        LoopPlacesMinimum(front, batch);
        StepFailsExactly(fields[n], AllocateAll(front, batch).value);
        assert AllocateAll(fields, batch).Failure? <==> ZeroRateGranted(fields, batch, n);
        assert forall j: nat :: j < n ==> !ZeroRateGranted(fields, batch, j);
      } else {
        var j :| 0 <= j < |front| && ZeroRateGranted(front, batch, j);
        assert ZeroRateGranted(fields, batch, j);
      }
    }
  }

  /** What a caller can rule out before asking for a plan: no eligible field's controlling rate rounds to zero. */
  predicate NoVanishingRate(input: Input, slopeLimit: real, verified: seq<Option<string>>)
    requires |verified| == |input.fields|
  {
    forall i :: 0 <= i < |input.fields| ==>
      var limits := FieldLimits(input.tier, input.policyRate, input.fields[i], verified[i]);
      limits.Success? && Gate(input.fields[i], slopeLimit, verified[i].Some?) == Eligible ==>
        Decimals.RoundedUnits(limits.value.allowed, 6) > 0
  }

  /**
    Once every field is evaluated, the engine fails exactly when its loop divides by a rate printed
    as zero, and it never does when no eligible controlling rate rounds to zero.
  */
  lemma {:induction false} EngineDividesByZeroExactly(input: Input, slopeLimit: real, verified: seq<Option<string>>)
    requires |verified| == |input.fields| && QuantityGiven(input) && input.tier != Prohibited
    requires DryTons(input.wetMassKg, input.percentSolids).Success?
    requires EvaluateFields(input.tier, input.policyRate, input.fields, slopeLimit, verified).Success?
    ensures var fields := Ranked(EvaluateFields(input.tier, input.policyRate, input.fields, slopeLimit,
                                                verified).value);
            var batch := Decimals.Rounded(DryTons(input.wetMassKg, input.percentSolids).value, 6);
            && (Evaluate(input, slopeLimit, verified).Failure? <==> DividesByZero(fields, batch))
            && (Evaluate(input, slopeLimit, verified).Failure? ==>
                Evaluate(input, slopeLimit, verified).error == RateRoundsToZero)
    ensures NoVanishingRate(input, slopeLimit, verified) ==> Evaluate(input, slopeLimit, verified).Success?
  {
    hide EvaluateFields, Ranked, DryTons, WellPrinted, Decimals.FormatRat, Decimal, OnGrid, Decimals.RatOf,
      Decimals.Rounded, AllocateAll, DividesByZero, NoVanishingRate;
    var tons := DryTons(input.wetMassKg, input.percentSolids).value;
    TonsPositive(input);
    PrintedReads(tons);
    RoundedOnGrid(tons);
    var fields := EvaluateFields(input.tier, input.policyRate, input.fields, slopeLimit, verified).value;
    FieldsEvaluated(input.tier, input.policyRate, input.fields, slopeLimit, verified);
    RankWellPrinted(fields);
    LoopFailsExactly(Ranked(fields), Decimals.Rounded(tons, 6));
    if NoVanishingRate(input, slopeLimit, verified) {
      RatesStayPositive(input, slopeLimit, verified, Decimals.Rounded(tons, 6));
    }
  }

  lemma {:induction false} RatesStayPositive(input: Input, slopeLimit: real, verified: seq<Option<string>>, batch: real)
    requires |verified| == |input.fields| && NoVanishingRate(input, slopeLimit, verified)
    requires EvaluateFields(input.tier, input.policyRate, input.fields, slopeLimit, verified).Success?
    ensures !DividesByZero(Ranked(EvaluateFields(input.tier, input.policyRate, input.fields, slopeLimit,
                                                 verified).value), batch)
  {
    hide EvaluateFields, Ranked, WellPrinted, Decimals.FormatRat, OnGrid, Decimals.RatOf, AllocateAll, EvaluateField,
      FieldLimits, Decimal;
    var fields := EvaluateFields(input.tier, input.policyRate, input.fields, slopeLimit, verified).value;
    FieldsEvaluated(input.tier, input.policyRate, input.fields, slopeLimit, verified);
    if DividesByZero(Ranked(fields), batch) {
      var j :| 0 <= j < |Ranked(fields)| && ZeroRateGranted(Ranked(fields), batch, j);
      GrantedIsEligible(Ranked(fields), batch, j);
      var i := RankedSource(fields, j);
      EligibleNumbers(input.tier, input.policyRate, input.fields[i], slopeLimit, verified[i]);
      PositivePrints(FieldLimits(input.tier, input.policyRate, input.fields[i], verified[i]).value.allowed);
    }
  }

  lemma {:induction false} PositivePrints(x: real)
    requires x >= 0.0 && Decimals.RoundedUnits(x, 6) > 0
    ensures Decimal(Decimals.FormatRat(x)) != Some(0.0)
  {
    PrintedReads(x);
    Digits.ScaledNonnegative(Decimals.RoundedUnits(x, 6), 6);
  }

  // ---------- a rejected plan ----------

  /** Two ready fields: one of a ten-millionth of an acre, then one of an acre. */
  function VanishingInput(): Input {
    Input(Standard, "", Million(), Hundred(), [ReadyField("a", TenMillionth(), 0), ReadyField("b", "1", 1)])
  }

  function ReadyField(id: string, acres: string, high: nat): FieldInput {
    FieldInput(id, true, true, acres, "1", "0", "e", true, 0, 0, false, None, None, high, 0, 0)
  }

  function Million(): string { Decimals.Join("1" + Digits.Zeros(6), "") }

  function Hundred(): string { Decimals.Join("1" + Digits.Zeros(2), "") }

  function TenMillionth(): string { Decimals.Join("0", Digits.Zeros(6) + "1") }

  lemma {:induction false} WholeLiteral(k: nat)
    ensures Decimal(Decimals.Join("1" + Digits.Zeros(k), "")) == Some(Digits.Shift(1, k) as real)
    ensures Decimals.Join("1" + Digits.Zeros(k), "") != ""
  {
    var whole: Digits.Numeral := "1" + Digits.Zeros(k);
    hide Decimals.RatOf, Decimals.IsNormal, Text.Trim;
    assert Decimals.NormalParts(whole, "");
    Decimals.JoinDenotes(whole, "");
    assert whole + "" == whole;
    assert Digits.NatOf("1") == 1 by { assert "1"[..0] == ""; }
    Digits.ZeroSuffix("1", k);
    Decimals.NormalIsTrimmed(whole);
  }

  lemma {:induction false} FractionLiteral()
    ensures Decimal(TenMillionth()) == Some(0.0000001) && TenMillionth() != ""
  {
    var fraction: Digits.Numeral := Digits.Zeros(6) + "1";
    hide Decimals.RatOf, Decimals.IsNormal, Text.Trim;
    assert Decimals.NormalParts("0", fraction);
    Decimals.JoinDenotes("0", fraction);
    assert "0" + fraction == Digits.Zeros(1) + fraction by { assert Digits.Zeros(1) == "0"; }
    Digits.ZeroPrefix(1, fraction);
    Digits.ZeroPrefix(6, "1");
    assert Digits.NatOf("1") == 1 by { assert "1"[..0] == ""; }
    Decimals.NormalIsTrimmed(TenMillionth());
    assert Digits.Scaled(1, 7) == 0.0000001;
  }

  lemma {:induction false} ZeroLiteral()
    ensures Decimal("0") == Some(0.0)
  {
    ZeroReads();
    assert Text.Trim("0") == "0";
  }

  lemma {:induction false} OneLiteral()
    ensures Decimal("1") == Some(1.0)
  {
    WholeLiteral(0);
    assert Decimals.Join("1" + Digits.Zeros(0), "") == "1";
  }

  /** What the engine makes of a ready field with one ton an acre and no prior loading. */
  lemma {:induction false} ReadyFieldEvaluates(id: string, acres: string, high: nat, slopeLimit: real, one: real)
    requires PositiveDecimal(acres).Some? && one == 1.0
    ensures EvaluateField(Standard, "", ReadyField(id, acres, high), slopeLimit, None) ==
            Success(PlacementField(id, Eligible, None, high, 0, 0, Decimals.FormatRat(one),
                                   Decimals.FormatRat(PositiveDecimal(acres).value), None))
  {
    ZeroLiteral();
    OneLiteral();
    BlankReads();
    hide Decimal, Decimals.FormatRat;
    assert PositiveDecimal("1") == Some(one) && NonnegativeDecimal("0") == Some(0.0);
    assert FieldLimits(Standard, "", ReadyField(id, acres, high), None) ==
             Success(Limits(PositiveDecimal(acres).value, one, 0.0));
  }

  lemma {:induction false} BlankReads()
    ensures Decimal("").None?
  {
    assert Text.Trim("") == "";
  }

  /** The two fields as evaluated: capacities of `tiny` and one ton. */
  function SkippedFields(tiny: real, one: real): seq<PlacementField> {
    [PlacementField("a", Eligible, None, 0, 0, 0, Decimals.FormatRat(one), Decimals.FormatRat(tiny), None),
     PlacementField("b", Eligible, None, 1, 0, 0, Decimals.FormatRat(one), Decimals.FormatRat(one), None)]
  }

  lemma {:induction false} SkippedFieldsEvaluate(slopeLimit: real, tiny: real, one: real)
    requires one == 1.0 && tiny == 0.0000001
    ensures EvaluateFields(Standard, "", VanishingInput().fields, slopeLimit, [None, None]) ==
              Success(SkippedFields(tiny, one))
  {
    FractionLiteral();
    OneLiteral();
    ReadyFieldEvaluates("a", TenMillionth(), 0, slopeLimit, one);
    ReadyFieldEvaluates("b", "1", 1, slopeLimit, one);
    hide EvaluateField, Decimals.FormatRat, Decimal, TenMillionth, ReadyField;
    var f, g := ReadyField("a", TenMillionth(), 0), ReadyField("b", "1", 1);
    TwoFieldsEvaluate(f, g, slopeLimit);
  }

  lemma {:induction false} TwoFieldsEvaluate(f: FieldInput, g: FieldInput, slopeLimit: real)
    requires EvaluateField(Standard, "", f, slopeLimit, None).Success?
    requires EvaluateField(Standard, "", g, slopeLimit, None).Success?
    ensures EvaluateFields(Standard, "", [f, g], slopeLimit, [None, None]) ==
            Success([EvaluateField(Standard, "", f, slopeLimit, None).value,
                     EvaluateField(Standard, "", g, slopeLimit, None).value])
  {
    hide EvaluateField;
    var none: Option<string> := None;
    assert [f, g][..1] == [f] && [none, none][..1] == [none];
    assert [f][..0] == [] && [none][..0] == [];
    var x, y := EvaluateField(Standard, "", f, slopeLimit, None).value,
      EvaluateField(Standard, "", g, slopeLimit, None).value;
    assert EvaluateFields(Standard, "", [], slopeLimit, []) == Success([]);
    assert [] + [x] == [x] && [x] + [y] == [x, y];
    assert EvaluateFields(Standard, "", [f], slopeLimit, [none]) == Success([x]);
    assert [f, g][1] == g && [none, none][1] == none;
  }

  /** The vanishing field keeps its place in front: it raises fewer concerns. */
  lemma {:induction false} SkippedFieldsRank(tiny: real, one: real)
    ensures Ranked(SkippedFields(tiny, one)) ==
            [SkippedFields(tiny, one)[0].(rank := Some(1)), SkippedFields(tiny, one)[1].(rank := Some(2))]
  {
    hide Decimals.FormatRat, PrintedOrZero;
    var f, g := SkippedFields(tiny, one)[0], SkippedFields(tiny, one)[1];
    assert SkippedFields(tiny, one) == [f, g];
    assert [f, g][..1] == [f] && [f][..0] == [];
    assert InsertField([], f) == [f];
    assert !RanksBefore(g, f);
    assert StableSort([f]) == [f];
    assert StableSort([f, g]) == [f] + [g];
  }

  lemma {:induction false} SkippedNumbers(tiny: real, one: real)
    requires one == 1.0 && tiny == 0.0000001
    ensures Decimal(Decimals.FormatRat(one)) == Some(1.0) && Decimal(Decimals.FormatRat(tiny)) == Some(0.0)
    ensures Decimals.FormatRat(one) != "" && Decimals.FormatRat(tiny) != ""
    ensures PrintedOrZero(Decimals.FormatRat(one)) == 1.0 && PrintedOrZero(Decimals.FormatRat(tiny)) == 0.0
  {
    hide Decimals.FormatRat, Decimal, PrintedOrZero;
    PrintedReads(one);
    PrintedReads(tiny);
    Millionths(1000000, one);
    Decimals.RoundedExact(1000000, 6);
    assert Digits.ShiftReal(tiny, 6) == 0.1;
    assert Decimals.RoundedUnits(tiny, 6) == 0;
    Digits.ScaledZero(6);
  }

  lemma {:induction false} Millionths(n: int, x: real)
    requires n as real == 1000000.0 * x
    ensures Digits.Scaled(n, 6) == x
  {}

  /**
    The checker does not accept every plan: here a field of a ten-millionth of a ton ranks
    first, prints as zero and is passed over, so the only allocation has position 1 and rank 2.
  */
  lemma {:induction false} CheckerRejectsASkippedPlan(slopeLimit: real)
    ensures Evaluate(VanishingInput(), slopeLimit, [None, None]).Success?
    ensures !Acceptable(Evaluate(VanishingInput(), slopeLimit, [None, None]).value)
  {
    var tiny, one := 0.0000001, 1.0;
    SkippedPlan(slopeLimit, tiny, one);
  }

  lemma {:induction false} VanishingLiterals()
    ensures Decimal(Million()) == Some(1000000.0) && Decimal(Hundred()) == Some(100.0)
    ensures Million() != "" && Hundred() != ""
  {
    hide Decimal, Decimals.Join, Digits.Zeros;
    WholeLiteral(6);
    WholeLiteral(2);
    assert Digits.Shift(1, 6) == 1000000 && Digits.Shift(1, 2) == 100;
  }

  lemma {:induction false} VanishingTons()
    ensures QuantityGiven(VanishingInput())
    ensures DryTons(Million(), Hundred()).Success? && DryTons(Million(), Hundred()).value > 1.0
  {
    hide Decimal, Million, Hundred;
    VanishingLiterals();
  }

  lemma {:induction false} SkippedPlan(slopeLimit: real, tiny: real, one: real)
    requires one == 1.0 && tiny == 0.0000001
    ensures Evaluate(VanishingInput(), slopeLimit, [None, None]).Success?
    ensures !Acceptable(Evaluate(VanishingInput(), slopeLimit, [None, None]).value)
  {
    hide EvaluateFields, EvaluateField, DryTons, Decimals.FormatRat, Decimals.RatOf, Decimal, Ranked, OnGrid,
      WellPrinted, PrintedOrZero;
    var input := VanishingInput();
    var verified: seq<Option<string>> := [None, None];
    VanishingTons();
    var tons := DryTons(Million(), Hundred()).value;
    PrintedReads(tons);
    SkippedFieldsEvaluate(slopeLimit, tiny, one);
    SkippedFieldsRank(tiny, one);
    SkippedNumbers(tiny, one);
    var fields := Ranked(SkippedFields(tiny, one));
    var batch := Decimals.Rounded(tons, 6);
    Millionths(1000000, one);
    Decimals.RoundedExact(1000000, 6);
    Decimals.RoundedMonotone(one, tons, 6);
    assert batch >= 1.0;
    assert ReadCapacity(fields[0]) == 0.0 && ReadCapacity(fields[1]) == 1.0;
    SkippedLoop(fields, batch);
    assert Evaluate(input, slopeLimit, verified).Success?;
    CheckerAcceptsExactly(input, slopeLimit, verified);
    assert Granted(fields, batch, 1);
  }

  lemma {:induction false} SkippedLoop(fields: seq<PlacementField>, batch: real)
    requires |fields| == 2 && batch > 0.0
    requires ReadCapacity(fields[0]) == 0.0
    requires forall i :: 0 <= i < 2 ==> Decimal(fields[i].capacity).Some? && Decimal(fields[i].allowedRate) == Some(1.0)
    ensures AllocateAll(fields, batch).Success?
    ensures TotalCapacity(fields[..1]) == 0.0
  {
    hide Decimal, Decimals.FormatRat;
    assert fields[..2] == fields && fields[..1][..0] == [] && fields[..0] == [];
    assert AllocateAll([], batch) == Success(Progress([], 0.0, batch));
    TotalCapacityStep(fields[..1]);
    assert AllocateAll(fields[..1], batch).Success?;
  }

  // ---------- a division by zero ----------

  /** One ready field of a hundred acres, with an agronomic rate of a ten-millionth of a ton an acre. */
  function FaintInput(): Input {
    Input(Standard, "", Million(), Hundred(), [FaintField()])
  }

  function FaintField(): FieldInput { ReadyField("a", Hundred(), 0).(agronomicRate := TenMillionth()) }

  /** The field as evaluated: its rate prints as zero, its capacity as ten millionths of a ton. */
  function FaintResult(rate: real, capacity: real): PlacementField {
    PlacementField("a", Eligible, None, 0, 0, 0, Decimals.FormatRat(rate), Decimals.FormatRat(capacity), None)
  }

  lemma {:induction false} FaintFieldEvaluates(slopeLimit: real, rate: real, capacity: real)
    requires rate == 0.0000001 && capacity == 0.00001
    ensures EvaluateField(Standard, "", FaintField(), slopeLimit, None) == Success(FaintResult(rate, capacity))
  {
    FractionLiteral();
    ZeroLiteral();
    BlankReads();
    VanishingLiterals();
    hide Decimal, Decimals.FormatRat, Million, Hundred, TenMillionth;
    assert FieldLimits(Standard, "", FaintField(), None) == Success(Limits(100.0, rate, 0.0));
    assert Capacity(100.0, rate, 0.0) == capacity;
  }

  lemma {:induction false} OneFieldEvaluates(f: FieldInput, slopeLimit: real)
    requires EvaluateField(Standard, "", f, slopeLimit, None).Success?
    ensures EvaluateFields(Standard, "", [f], slopeLimit, [None]) ==
              Success([EvaluateField(Standard, "", f, slopeLimit, None).value])
  {
    hide EvaluateField;
    var none: Option<string> := None;
    assert [f][..0] == [] && [none][..0] == [];
    assert EvaluateFields(Standard, "", [], slopeLimit, []) == Success([]);
    var x := EvaluateField(Standard, "", f, slopeLimit, None).value;
    assert [] + [x] == [x];
  }

  lemma {:induction false} OneFieldRanks(f: PlacementField)
    ensures Ranked([f]) == [f.(rank := Some(1))]
  {
    assert [f][..0] == [] && InsertField([], f) == [f];
    assert StableSort([f]) == [f];
  }

  lemma {:induction false} FaintNumbers(rate: real, capacity: real)
    requires rate == 0.0000001 && capacity == 0.00001
    ensures Decimal(Decimals.FormatRat(rate)) == Some(0.0) && Decimals.FormatRat(rate) != ""
    ensures PrintedOrZero(Decimals.FormatRat(capacity)) == 0.00001 && Decimals.FormatRat(capacity) != ""
  {
    hide Decimals.FormatRat, Decimal, PrintedOrZero;
    SkippedNumbers(rate, 1.0);
    PrintedReads(capacity);
    Millionths(10, capacity);
    Decimals.RoundedExact(10, 6);
  }

  lemma {:induction false} FaintRateIsReached(f: PlacementField, batch: real)
    requires f.disposition == Eligible && f.capacity != "" && f.allowedRate != "" && Decimal(f.allowedRate) == Some(0.0)
    requires PrintedOrZero(f.capacity) > 0.0 && batch > 0.0
    ensures DividesByZero([f], batch)
  {
    hide Decimal, PrintedOrZero;
    assert [f][..0] == [];
    assert TotalCapacity([]) == 0.0;
    assert ZeroRateGranted([f], batch, 0);
  }

  /** The engine's unguarded division fails on a rate that passes every check of the input but prints as zero. */
  lemma {:induction false} EngineFailsOnAFaintRate(slopeLimit: real)
    ensures Evaluate(FaintInput(), slopeLimit, [None]) == Failure(RateRoundsToZero)
  {
    var rate, capacity := 0.0000001, 0.00001;
    hide EvaluateFields, EvaluateField, DryTons, Decimals.FormatRat, Decimals.RatOf, Decimal, Ranked, FaintField,
      Million, Hundred, PrintedOrZero, Evaluate, DividesByZero;
    FaintFieldEvaluates(slopeLimit, rate, capacity);
    OneFieldEvaluates(FaintField(), slopeLimit);
    var f := FaintResult(rate, capacity);
    OneFieldRanks(f);
    FaintNumbers(rate, capacity);
    var tons := FaintTons();
    FaintRateIsReached(f.(rank := Some(1)), Decimals.Rounded(tons, 6));
    EngineDividesByZeroExactly(FaintInput(), slopeLimit, [None]);
  }

  lemma {:induction false} FaintTons() returns (tons: real)
    ensures QuantityGiven(FaintInput())
    ensures DryTons(Million(), Hundred()) == Success(tons) && Decimals.Rounded(tons, 6) >= 1.0
  {
    hide Decimal, Million, Hundred, Decimals.Rounded, DryTons, FaintField;
    VanishingLiterals();
    VanishingTons();
    tons := DryTons(Million(), Hundred()).value;
    Millionths(1000000, 1.0);
    Decimals.RoundedExact(1000000, 6);
    Decimals.RoundedMonotone(1.0, tons, 6);
  }

  // ---------- what acceptance says ----------

  /** The last field of a plan with an id. */
  ghost predicate LastWithId(fields: seq<PlacementField>, id: string, f: PlacementField) {
    exists i :: 0 <= i < |fields| && fields[i] == f && f.id == id && forall k :: i < k < |fields| ==> fields[k].id != id
  }

  lemma {:induction false} FieldOfExactly(fields: seq<PlacementField>, id: string, f: PlacementField)
    ensures FieldOf(fields, id) == Some(f) <==> LastWithId(fields, id, f)
  {
    if |fields| > 0 {
      var n := |fields| - 1;
      FieldOfExactly(fields[..n], id, f);
      if fields[n].id == id {
        assert LastWithId(fields, id, f) ==> f == fields[n];
        assert f == fields[n] ==> LastWithId(fields, id, f);
      } else {
        if LastWithId(fields, id, f) {
          var i :| 0 <= i < |fields| && fields[i] == f && f.id == id
            && forall k :: i < k < |fields| ==> fields[k].id != id;
          assert fields[..n][i] == f;
        }
        if LastWithId(fields[..n], id, f) {
          var i :| 0 <= i < n && fields[..n][i] == f && f.id == id
            && forall k :: i < k < n ==> fields[..n][k].id != id;
          assert fields[i] == f;
          assert forall k :: i < k < n ==> fields[k] == fields[..n][k];
        }
      }
    }
  }

  /** A field that may carry an allocation: eligible, ranked at its position, and of no smaller printed capacity. */
  predicate Carries(f: PlacementField, a: Allocation) {
    && f.disposition == Eligible && f.rank == Some(a.position) && |f.capacity| > 0
    && Decimals.RatOf(a.dryTons).Some? && Decimals.RatOf(f.capacity).Some?
    && Decimals.RatOf(a.dryTons).value <= Decimals.RatOf(f.capacity).value
  }

  ghost predicate Carried(fields: seq<PlacementField>, a: Allocation) {
    exists f :: LastWithId(fields, a.fieldId, f) && Carries(f, a)
  }

  lemma {:induction false} AllocationExactly(fields: seq<PlacementField>, a: Allocation)
    ensures AllocationValid(fields, a) <==> Carried(fields, a)
  {
    hide Decimals.RatOf, FieldOf, LastWithId;
    var found := FieldOf(fields, a.fieldId);
    if found.Some? { FieldOfExactly(fields, a.fieldId, found.value); }
    forall f | LastWithId(fields, a.fieldId, f) ensures found == Some(f) { FieldOfExactly(fields, a.fieldId, f); }
  }

  /** What is left is what the batch had less what was given. */
  ghost predicate Balanced(given: string, left: string, batch: string) {
    exists g, l, b ::
      && Decimals.RatOf(given) == Some(g) && Decimals.RatOf(left) == Some(l) && Decimals.RatOf(batch) == Some(b)
      && b - g == l
  }

  lemma {:induction false} BalanceExactly(given: string, left: string, batch: string)
    ensures EqualDecimalSum(given, left, batch) <==> Balanced(given, left, batch)
  {
    hide Decimals.RatOf;
    if EqualDecimalSum(given, left, batch) {
      var g, l, b := Decimals.RatOf(given).value, Decimals.RatOf(left).value, Decimals.RatOf(batch).value;
      assert Decimals.RatOf(given) == Some(g) && Decimals.RatOf(left) == Some(l) && Decimals.RatOf(batch) == Some(b);
    }
  }

  /** What an accepted plan is, in terms of what it prints. */
  lemma {:induction false} AcceptableExactly(plan: Plan)
    ensures Acceptable(plan) <==>
            && (forall i :: 0 <= i < |plan.fields| ==> plan.fields[i].rank.Some? && plan.fields[i].rank.value > 0)
            && (forall i, j :: 0 <= i < j < |plan.fields| ==> plan.fields[i].rank != plan.fields[j].rank)
            && (forall k :: 0 <= k < |plan.allocations| ==> Carried(plan.fields, plan.allocations[k]))
            && Balanced(plan.allocatedDryTons, plan.unallocatedDryTons, plan.batchDryTons)
  {
    hide AllocationValid, Carried, EqualDecimalSum, Balanced;
    RanksExactly(plan.fields);
    AllocationsExactly(plan.fields, plan.allocations);
    BalanceExactly(plan.allocatedDryTons, plan.unallocatedDryTons, plan.batchDryTons);
    hide RanksValid;
  }

  lemma {:induction false} RanksExactly(fields: seq<PlacementField>)
    ensures RanksValid(fields) <==>
            && (forall i :: 0 <= i < |fields| ==> fields[i].rank.Some? && fields[i].rank.value > 0)
            && (forall i, j :: 0 <= i < j < |fields| ==> fields[i].rank != fields[j].rank)
  {}

  lemma {:induction false} AllocationsExactly(fields: seq<PlacementField>, allocations: seq<Allocation>)
    ensures (forall k :: 0 <= k < |allocations| ==> AllocationValid(fields, allocations[k])) <==>
            forall k :: 0 <= k < |allocations| ==> Carried(fields, allocations[k])
  {
    forall k | 0 <= k < |allocations|
      ensures AllocationValid(fields, allocations[k]) <==> Carried(fields, allocations[k]) {
      AllocationExactly(fields, allocations[k]);
    }
    hide AllocationValid, Carried;
  }
}
