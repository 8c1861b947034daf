/**
  What the allocation loop achieves: exact conservation of the printed batch, prefix
  dominance over every other split, and a total that depends only on the set of fields.
*/
module AllocationLaws {
  import opened Wrappers
  import opened Reals
  import opened Tiers
  import opened Placement
  import opened Sums
  import opened Ranking
  import Digits
  import Decimals
  import Text

  // ---------- printed quantities ----------

  /** x has at most six decimal places and is not negative. */
  ghost predicate OnGrid(x: real) {
    exists n: nat :: x == Digits.Scaled(n, 6)
  }

  lemma {:induction false} RoundedOnGrid(x: real)
    requires x >= 0.0
    ensures OnGrid(Decimals.Rounded(x, 6))
  {}

  lemma {:induction false} GridSum(x: real, y: real)
    requires OnGrid(x) && OnGrid(y)
    ensures OnGrid(x + y)
    ensures x >= y ==> OnGrid(x - y)
    ensures x >= 0.0
  {
    var m: nat :| x == Digits.Scaled(m, 6);
    var n: nat :| y == Digits.Scaled(n, 6);
    hide Digits.Scaled;
    Digits.ScaledSum(m, n, 6);
    Digits.ScaledNonnegative(m, 6);
    if x >= y {
      Digits.ScaledReflectsOrder(m, n, 6);
      Digits.ScaledSum(m - n, n, 6);
    }
  }

  lemma {:induction false} GridZero()
    ensures OnGrid(0.0)
  {
    Digits.ScaledZero(6);
    assert 0.0 == Digits.Scaled(0, 6);
  }

  /** Printing a value on the grid and reading it back changes nothing. */
  lemma {:induction false} GridRoundTrip(x: real)
    requires OnGrid(x)
    ensures x >= 0.0 && Decimal(Decimals.FormatRat(x)) == Some(x)
    ensures Decimals.RatOf(Decimals.FormatRat(x)) == Some(x)
  {
    var n: nat :| x == Digits.Scaled(n, 6);
    Digits.ScaledNonnegative(n, 6);
    Decimals.RoundedExact(n, 6);
    PrintedReads(x);
  }

  lemma {:induction false} PrintedReads(x: real)
    requires x >= 0.0
    ensures Decimal(Decimals.FormatRat(x)) == Some(Decimals.Rounded(x, 6))
    ensures Decimals.RatOf(Decimals.FormatRat(x)) == Some(Decimals.Rounded(x, 6))
    ensures PrintedOrZero(Decimals.FormatRat(x)) == Decimals.Rounded(x, 6)
    ensures Decimals.FormatRat(x) != ""
    ensures Decimals.Rounded(x, 6) >= 0.0
  {
    hide Decimals.FormatRat, Decimals.RatOf, Decimals.Rounded;
    Decimals.FormatRoundTrip(x);
    Decimals.NormalIsTrimmed(Decimals.FormatRat(x));
    RoundedNonnegative(x);
  }

  lemma {:induction false} RoundedNonnegative(x: real)
    ensures Decimals.Rounded(x, 6) >= 0.0
  {
    Digits.ScaledNonnegative(Decimals.RoundedUnits(x, 6), 6);
  }

  /** The numbers a field carries were printed by the engine, or are absent. */
  ghost predicate WellPrinted(f: PlacementField) {
    || (f.disposition != Eligible && f.capacity == "" && f.allowedRate == "")
    || exists c, r :: c >= 0.0 && r > 0.0 && PrintedFrom(f, c, r)
  }

  predicate PrintedFrom(f: PlacementField, capacity: real, rate: real) {
    f.capacity == Decimals.FormatRat(capacity) && f.allowedRate == Decimals.FormatRat(rate)
  }

  ghost predicate AllWellPrinted(fields: seq<PlacementField>) {
    forall i :: 0 <= i < |fields| ==> WellPrinted(fields[i])
  }

  lemma {:induction false} ReadsBack(f: PlacementField)
    requires WellPrinted(f)
    ensures OnGrid(ReadCapacity(f)) && ReadCapacity(f) >= 0.0
    ensures f.disposition == Eligible ==>
              && f.capacity != "" && f.allowedRate != ""
              && Decimal(f.capacity) == Some(ReadCapacity(f))
              && Decimals.RatOf(f.capacity) == Some(ReadCapacity(f))
              && Decimal(f.allowedRate).Some?
  {
    hide Decimal, PrintedOrZero;
    GridZero();
    if f.disposition == Eligible {
      var c, r :| c >= 0.0 && r > 0.0 && PrintedFrom(f, c, r);
      PrintedReads(c);
      PrintedReads(r);
      RoundedOnGrid(c);
    }
  }

  // ---------- the loop's closed form ----------

  function TotalCapacity(fields: seq<PlacementField>): real {
    SumOf(fields, f => ReadCapacity(f))
  }

  lemma {:induction false} TotalCapacityStep(fields: seq<PlacementField>)
    requires |fields| > 0
    ensures TotalCapacity(fields) == TotalCapacity(fields[..|fields| - 1]) + ReadCapacity(fields[|fields| - 1])
  {}

  /**
    After any number of fields the loop has placed min(batch, capacity so far), holds exactly
    the rest, and both are on the six-place grid.
  */
  lemma {:induction false} LoopPlacesMinimum(fields: seq<PlacementField>, batch: real)
    requires AllWellPrinted(fields) && OnGrid(batch)
    requires AllocateAll(fields, batch).Success?
    ensures var p := AllocateAll(fields, batch).value;
            && p.placed == Min(batch, TotalCapacity(fields))
            && p.remaining == batch - p.placed
            && p.remaining >= 0.0 && p.placed >= 0.0
            && OnGrid(p.placed) && OnGrid(p.remaining)
    ensures TotalCapacity(fields) >= 0.0
  {
    hide Decimal, ReadCapacity, OnGrid;
    if |fields| == 0 {
      GridZero();
      GridSum(batch, batch);
      assert TotalCapacity(fields) == 0.0;
    } else {
      var n := |fields| - 1;
      LoopPlacesMinimum(fields[..n], batch);
      TotalCapacityStep(fields);
      ReadsBack(fields[n]);
      StepPlaces(fields[n], AllocateAll(fields[..n], batch).value);
      GridSum(batch, batch);
    }
  }

  /** The acres of an allocation are its tons over its printed rate. */
  predicate AcresFor(a: Allocation, tons: real) {
    && Decimal(a.rate).Some? && Decimal(a.rate).value != 0.0
    && a.acres == Decimals.FormatRat(tons / Decimal(a.rate).value)
  }

  /** One step grants the smaller of the remainder and the field's capacity. */
  lemma {:induction false} StepPlaces(f: PlacementField, p: Progress)
    requires WellPrinted(f) && OnGrid(p.placed) && OnGrid(p.remaining)
    requires AllocateOne(f, p).Success?
    ensures var q := AllocateOne(f, p).value;
            var amount := Min(p.remaining, ReadCapacity(f));
            && q.placed == p.placed + amount && q.remaining == p.remaining - amount
            && OnGrid(q.placed) && OnGrid(q.remaining)
            && (if amount <= 0.0 then q.allocations == p.allocations
                else && |q.allocations| == |p.allocations| + 1
                     && q.allocations[..|p.allocations|] == p.allocations
                     && var a := q.allocations[|p.allocations|];
                        && a.position == |p.allocations| + 1 && a.fieldId == f.id
                        && a.dryTons == Decimals.FormatRat(amount) && OnGrid(amount)
                        && a.rate == f.allowedRate && f.disposition == Eligible
                        && AcresFor(a, amount))
  {
    hide Decimal, OnGrid, Decimals.FormatRat;
    ReadsBack(f);
    GridSum(p.remaining, p.remaining);
    var amount := Min(p.remaining, ReadCapacity(f));
    if p.remaining >= ReadCapacity(f) { GridSum(p.remaining, ReadCapacity(f)); }
    GridSum(p.placed, amount);
    if f.disposition != Eligible { assert ReadCapacity(f) == 0.0; }
  }

  // ---------- evaluated and ranked fields ----------

  lemma {:induction false} FieldIsWellPrinted(tier: Tier, policyRate: string, input: FieldInput, slopeLimit: real,
                                              verified: Option<string>)
    requires EvaluateField(tier, policyRate, input, slopeLimit, verified).Success?
    ensures WellPrinted(EvaluateField(tier, policyRate, input, slopeLimit, verified).value)
  {
    hide Decimals.FormatRat, FieldLimits, Gate, UsableAcres;
    var f := EvaluateField(tier, policyRate, input, slopeLimit, verified).value;
    if f.capacity != "" || f.allowedRate != "" || f.disposition == Eligible {
      LimitsPositive(tier, policyRate, input, verified);
      var limits := FieldLimits(tier, policyRate, input, verified).value;
      assert PrintedFrom(f, Capacity(limits.usable, limits.allowed, limits.prior), limits.allowed);
    }
  }

  lemma {:induction false} LimitsPositive(tier: Tier, policyRate: string, input: FieldInput, verified: Option<string>)
    requires FieldLimits(tier, policyRate, input, verified).Success?
    ensures var l := FieldLimits(tier, policyRate, input, verified).value;
            l.usable > 0.0 && l.allowed > 0.0 && l.prior >= 0.0
  {
    hide Decimal, UsableAcres;
  }

  lemma {:induction false} FieldsEvaluated(tier: Tier, policyRate: string, fields: seq<FieldInput>, slopeLimit: real,
                                           verified: seq<Option<string>>)
    requires |verified| == |fields|
    requires EvaluateFields(tier, policyRate, fields, slopeLimit, verified).Success?
    ensures var r := EvaluateFields(tier, policyRate, fields, slopeLimit, verified).value;
            && |r| == |fields|
            && AllWellPrinted(r)
            && forall i :: 0 <= i < |fields| ==>
                 EvaluateField(tier, policyRate, fields[i], slopeLimit, verified[i]) == Success(r[i])
  {
    hide EvaluateField, WellPrinted;
    if |fields| > 0 {
      var n := |fields| - 1;
      FieldsEvaluated(tier, policyRate, fields[..n], slopeLimit, verified[..n]);
      FieldIsWellPrinted(tier, policyRate, fields[n], slopeLimit, verified[n]);
    }
  }

  lemma {:induction false} RankWellPrinted(fields: seq<PlacementField>)
    requires AllWellPrinted(fields)
    ensures AllWellPrinted(Ranked(fields))
  {
    Ranking.StableSortLength(fields);
    Ranking.SortPermutes(fields);
    var sorted := StableSort(fields);
    hide StableSort, WellPrinted;
    forall i | 0 <= i < |sorted| ensures WellPrinted(Ranked(fields)[i]) {
      assert sorted[i] in multiset(sorted);
      assert sorted[i] in fields;
      RankKeepsPrinting(sorted[i], i + 1);
    }
  }

  lemma {:induction false} RankKeepsPrinting(f: PlacementField, rank: int)
    requires WellPrinted(f)
    ensures WellPrinted(f.(rank := Some(rank)))
  {
    hide Decimals.FormatRat;
    if !(f.disposition != Eligible && f.capacity == "" && f.allowedRate == "") {
      var c, r :| c >= 0.0 && r > 0.0 && PrintedFrom(f, c, r);
      assert PrintedFrom(f.(rank := Some(rank)), c, r);
    }
  }

  lemma {:induction false} RankKeepsTotal(fields: seq<PlacementField>)
    requires AllWellPrinted(fields)
    ensures TotalCapacity(Ranked(fields)) == TotalCapacity(fields)
  {
    Ranking.SortPermutes(fields);
    NumberedTotal(StableSort(fields));
    forall f | f in fields ensures ReadCapacity(f) >= 0.0 { ReadsBack(f); }
    hide StableSort, ReadCapacity;
    SumOfPermutation(StableSort(fields), fields, f => ReadCapacity(f));
  }

  lemma {:induction false} NumberedTotal(fields: seq<PlacementField>)
    ensures TotalCapacity(Numbered(fields)) == TotalCapacity(fields)
  {
    if |fields| > 0 {
      var n := |fields| - 1;
      NumberedTotal(fields[..n]);
      assert Numbered(fields)[..n] == Numbered(fields[..n]);
      TotalCapacityStep(fields);
      TotalCapacityStep(Numbered(fields));
    }
  }

  // ---------- whole plans ----------

  predicate QuantityGiven(input: Input) { input.wetMassKg != "" && input.percentSolids != "" }

  lemma {:induction false} TonsPositive(input: Input)
    requires DryTons(input.wetMassKg, input.percentSolids).Success?
    ensures DryTons(input.wetMassKg, input.percentSolids).value >= 0.0
  {
    hide Decimal;
    var wet := PositiveDecimal(input.wetMassKg).value;
    var solids := PositiveDecimal(input.percentSolids).value;
    assert wet * solids >= 0.0;
  }

  /** A plan with a known batch that is not prohibited is the outcome of the allocation loop. */
  lemma {:induction false} PlanIsLoop(input: Input, slopeLimit: real, verified: seq<Option<string>>)
    returns (batch: real, p: Progress)
    requires |verified| == |input.fields| && QuantityGiven(input) && input.tier != Prohibited
    requires Evaluate(input, slopeLimit, verified).Success?
    ensures var plan := Evaluate(input, slopeLimit, verified).value;
            && Decimals.RatOf(plan.batchDryTons) == Some(batch) && OnGrid(batch) && batch >= 0.0
            && AllWellPrinted(plan.fields)
            && AllocateAll(plan.fields, batch) == Success(p)
            && plan.allocations == p.allocations
            && plan.allocatedDryTons == Decimals.FormatRat(p.placed)
            && plan.unallocatedDryTons == Decimals.FormatRat(p.remaining)
            && EvaluateFields(input.tier, input.policyRate, input.fields, slopeLimit, verified).Success?
            && plan.fields == Ranked(EvaluateFields(input.tier, input.policyRate, input.fields, slopeLimit,
                                                    verified).value)
            && DryTons(input.wetMassKg, input.percentSolids).Success?
            && batch == Decimals.Rounded(DryTons(input.wetMassKg, input.percentSolids).value, 6)
            && plan.batchDryTons == Decimals.FormatRat(DryTons(input.wetMassKg, input.percentSolids).value)
  {
    hide EvaluateFields, Ranked, DryTons, WellPrinted, Decimals.FormatRat, Decimal, OnGrid, Decimals.RatOf,
      Decimals.Rounded, AllocateAll;
    var tons := DryTons(input.wetMassKg, input.percentSolids).value;
    TonsPositive(input);
    PrintedReads(tons);
    RoundedOnGrid(tons);
    FieldsEvaluated(input.tier, input.policyRate, input.fields, slopeLimit, verified);
    var fields := EvaluateFields(input.tier, input.policyRate, input.fields, slopeLimit, verified).value;
    RankWellPrinted(fields);
    batch := Decimals.Rounded(tons, 6);
    p := AllocateAll(Ranked(fields), batch).value;
  }

  /**
    Mass balance survives the printing: whatever batch the engine prints, the printed allocated
    and unallocated tons add up to it exactly, and the allocated tons are the smaller of the
    batch and the printed eligible capacity.
  */
  lemma {:induction false} PlanConservesMass(input: Input, slopeLimit: real, verified: seq<Option<string>>)
    requires |verified| == |input.fields| && QuantityGiven(input)
    requires Evaluate(input, slopeLimit, verified).Success?
    ensures var plan := Evaluate(input, slopeLimit, verified).value;
            var batch := Decimals.RatOf(plan.batchDryTons);
            var placed := Decimals.RatOf(plan.allocatedDryTons);
            var left := Decimals.RatOf(plan.unallocatedDryTons);
            && batch.Some? && placed.Some? && left.Some?
            && placed.value >= 0.0 && left.value >= 0.0
            && placed.value + left.value == batch.value
            && placed.value == (if input.tier == Prohibited then 0.0 else Min(batch.value, TotalCapacity(plan.fields)))
            && (input.tier == Prohibited ==> plan.allocations == [])
  {
    if input.tier == Prohibited {
      TonsPositive(input);
      PrintedReads(DryTons(input.wetMassKg, input.percentSolids).value);
      ZeroReads();
      hide Decimals.FormatRat, Decimals.RatOf, DryTons;
    } else {
      hide Evaluate, Decimals.FormatRat, Decimals.RatOf, OnGrid, Decimal;
      var batch, p := PlanIsLoop(input, slopeLimit, verified);
      LoopPlacesMinimum(Evaluate(input, slopeLimit, verified).value.fields, batch);
      GridRoundTrip(p.placed);
      GridRoundTrip(p.remaining);
    }
  }

  lemma {:induction false} ZeroReads()
    ensures Decimals.RatOf("0") == Some(0.0)
  {
    assert Decimals.Join("0", "") == "0" && Decimals.NormalParts("0", "");
    Decimals.JoinDenotes("0", "");
    assert "0" + "" == "0";
    assert Digits.NatOf("0") == 0 by { assert "0"[..0] == ""; }
  }

  // ---------- prefix dominance ----------

  /** Tons the printed allocations give to one field. */
  function Received(allocations: seq<Allocation>, id: string): real {
    if |allocations| == 0 then 0.0
    else
      Received(allocations[..|allocations| - 1], id)
      + (if allocations[|allocations| - 1].fieldId == id
         then PrintedOrZero(allocations[|allocations| - 1].dryTons) else 0.0)
  }

  function ReceivedBy(fields: seq<PlacementField>, allocations: seq<Allocation>): real {
    if |fields| == 0 then 0.0
    else ReceivedBy(fields[..|fields| - 1], allocations) + Received(allocations, fields[|fields| - 1].id)
  }

  ghost predicate IdsAmong(allocations: seq<Allocation>, fields: seq<PlacementField>) {
    forall k :: 0 <= k < |allocations| ==> HasId(fields, allocations[k].fieldId)
  }

  ghost predicate HasId(fields: seq<PlacementField>, id: string) {
    exists i :: 0 <= i < |fields| && fields[i].id == id
  }

  lemma {:induction false} NothingReceived(allocations: seq<Allocation>, id: string)
    requires forall k :: 0 <= k < |allocations| ==> allocations[k].fieldId != id
    ensures Received(allocations, id) == 0.0
  {
    if |allocations| > 0 { NothingReceived(allocations[..|allocations| - 1], id); }
  }

  /** An allocation to some other field does not change what these fields receive. */
  lemma {:induction false} OthersUnaffected(fields: seq<PlacementField>, before: seq<Allocation>,
                                            after: seq<Allocation>)
    requires |after| == |before| + 1 && after[..|before|] == before
    requires forall i :: 0 <= i < |fields| ==> fields[i].id != after[|before|].fieldId
    ensures ReceivedBy(fields, after) == ReceivedBy(fields, before)
  {
    if |fields| > 0 { OthersUnaffected(fields[..|fields| - 1], before, after); }
  }

  /** What the first k fields receive in the finished plan is what the loop had placed by then. */
  lemma {:induction false} PrefixReceives(fields: seq<PlacementField>, batch: real, k: nat)
    requires AllWellPrinted(fields) && OnGrid(batch) && DistinctIds(fields) && k <= |fields|
    requires AllocateAll(fields, batch).Success?
    ensures AllocateAll(fields[..k], batch).Success?
    ensures ReceivedBy(fields[..k], AllocateAll(fields, batch).value.allocations) ==
            AllocateAll(fields[..k], batch).value.placed
    ensures IdsAmong(AllocateAll(fields, batch).value.allocations, fields)
  {
    hide Decimal, OnGrid, WellPrinted, ReadCapacity, Decimals.FormatRat, Min;
    if |fields| == 0 {
      assert fields[..k] == [];
    } else {
      var n := |fields| - 1;
      var front := fields[..n];
      var p, q := AllocateAll(front, batch).value, AllocateAll(fields, batch).value;
      PrefixReceives(front, batch, if k <= n then k else n);
      LoopPlacesMinimum(front, batch);
      StepPlaces(fields[n], p);
      StepIds(fields, p, q);
      if k <= n {
        assert fields[..k] == front[..k];
        if q.allocations != p.allocations { OthersUnaffected(front[..k], p.allocations, q.allocations); }
      } else {
        assert fields[..k] == fields && front[..n] == front;
        if q.allocations != p.allocations { OthersUnaffected(front, p.allocations, q.allocations); }
        LastReceives(fields, p, q);
      }
    }
  }

  lemma {:induction false} StepIds(fields: seq<PlacementField>, p: Progress, q: Progress)
    requires |fields| > 0 && IdsAmong(p.allocations, fields[..|fields| - 1])
    requires q.allocations == p.allocations
             || (|q.allocations| == |p.allocations| + 1 && q.allocations[..|p.allocations|] == p.allocations
                 && q.allocations[|p.allocations|].fieldId == fields[|fields| - 1].id)
    ensures IdsAmong(q.allocations, fields)
  {
    forall k | 0 <= k < |q.allocations|
      ensures HasId(fields, q.allocations[k].fieldId)
    {
      if k < |p.allocations| {
        assert q.allocations[k] == p.allocations[k];
        assert HasId(fields[..|fields| - 1], p.allocations[k].fieldId);
        var i :| 0 <= i < |fields| - 1 && fields[..|fields| - 1][i].id == p.allocations[k].fieldId;
        assert fields[i].id == q.allocations[k].fieldId;
      } else {
        assert fields[|fields| - 1].id == q.allocations[k].fieldId;
      }
    }
  }

  lemma {:induction false} LastReceives(fields: seq<PlacementField>, p: Progress, q: Progress)
    requires |fields| > 0 && AllWellPrinted(fields) && DistinctIds(fields)
    requires IdsAmong(p.allocations, fields[..|fields| - 1])
    requires OnGrid(p.placed) && OnGrid(p.remaining)
    requires AllocateOne(fields[|fields| - 1], p) == Success(q)
    ensures Received(q.allocations, fields[|fields| - 1].id) == q.placed - p.placed
  {
    hide Decimal, Decimals.FormatRat;
    var f := fields[|fields| - 1];
    NothingReceived(p.allocations, f.id);
    StepPlaces(f, p);
    GridSum(p.remaining, p.remaining);
    ReadsBack(f);
    var amount := Min(p.remaining, ReadCapacity(f));
    if amount > 0.0 {
      GridRoundTrip(amount);
      PrintedReads(amount);
    }
  }

  /** A split of the batch over the plan's fields that some other scheduler might choose. */
  ghost predicate IsSplit(split: seq<real>, fields: seq<PlacementField>, batch: real) {
    && |split| == |fields|
    && (forall i :: 0 <= i < |split| ==> 0.0 <= split[i] <= ReadCapacity(fields[i]))
    && Sum(split) <= batch
  }

  lemma {:induction false} SplitPrefixBounds(split: seq<real>, fields: seq<PlacementField>, batch: real, k: nat)
    requires IsSplit(split, fields, batch) && k <= |split|
    ensures Sum(split[..k]) <= TotalCapacity(fields[..k])
    ensures Sum(split[..k]) <= batch
  {
    hide ReadCapacity;
    PrefixSum(split, k);
    CapacityBound(split, fields, k);
  }

  lemma {:induction false} PrefixSum(split: seq<real>, k: nat)
    requires k <= |split| && forall i :: 0 <= i < |split| ==> split[i] >= 0.0
    ensures Sum(split[..k]) <= Sum(split)
  {
    if k == |split| {
      assert split[..k] == split;
    } else {
      var front := split[..|split| - 1];
      PrefixSum(front, k);
      assert front[..k] == split[..k];
    }
  }

  lemma {:induction false} CapacityBound(split: seq<real>, fields: seq<PlacementField>, k: nat)
    requires |split| == |fields| && k <= |split|
    requires forall i :: 0 <= i < |split| ==> split[i] <= ReadCapacity(fields[i])
    ensures Sum(split[..k]) <= TotalCapacity(fields[..k])
  {
    hide ReadCapacity;
    if k > 0 {
      CapacityBound(split, fields, k - 1);
      assert split[..k][..k - 1] == split[..k - 1] && fields[..k][..k - 1] == fields[..k - 1];
      TotalCapacityStep(fields[..k]);
    } else {
      assert split[..k] == [] && fields[..k] == [];
    }
  }

  /**
    Greedy allocation is prefix dominant: against any other split of the printed batch that
    respects the printed capacities, no prefix of the ranked fields gets more than the engine
    gives it.
  */
  lemma {:induction false} GreedyIsPrefixDominant(input: Input, slopeLimit: real, verified: seq<Option<string>>,
                                                  split: seq<real>, k: nat)
    requires |verified| == |input.fields| && QuantityGiven(input) && input.tier != Prohibited
    requires Evaluate(input, slopeLimit, verified).Success?
    requires DistinctInputs(input.fields)
    requires Decimals.RatOf(Evaluate(input, slopeLimit, verified).value.batchDryTons).Some?
    requires IsSplit(split, Evaluate(input, slopeLimit, verified).value.fields,
                     Decimals.RatOf(Evaluate(input, slopeLimit, verified).value.batchDryTons).value)
    requires k <= |split|
    ensures var plan := Evaluate(input, slopeLimit, verified).value;
            Sum(split[..k]) <= ReceivedBy(plan.fields[..k], plan.allocations)
  {
    hide Evaluate, Decimals.FormatRat, Decimals.RatOf, OnGrid, Decimal, ReadCapacity, WellPrinted, AllocateAll;
    var batch, p := PlanIsLoop(input, slopeLimit, verified);
    var fields := Evaluate(input, slopeLimit, verified).value.fields;
    PlanIdsDistinct(input, slopeLimit, verified);
    PrefixReceives(fields, batch, k);
    LoopPlacesMinimum(fields[..k], batch);
    SplitPrefixBounds(split, fields, batch, k);
  }

  ghost predicate DistinctInputs(fields: seq<FieldInput>) {
    forall i, j :: 0 <= i < j < |fields| ==> fields[i].id != fields[j].id
  }

  /** Ranking keeps the ids apart. */
  lemma {:induction false} PlanIdsDistinct(input: Input, slopeLimit: real, verified: seq<Option<string>>)
    requires |verified| == |input.fields| && QuantityGiven(input) && input.tier != Prohibited
    requires Evaluate(input, slopeLimit, verified).Success? && DistinctInputs(input.fields)
    ensures DistinctIds(Evaluate(input, slopeLimit, verified).value.fields)
  {
    hide Evaluate, EvaluateFields, Decimals.FormatRat, Decimals.RatOf, OnGrid, Decimal, AllocateAll, StableSort,
      WellPrinted;
    var batch, p := PlanIsLoop(input, slopeLimit, verified);
    var fields := EvaluateFields(input.tier, input.policyRate, input.fields, slopeLimit, verified).value;
    FieldsEvaluated(input.tier, input.policyRate, input.fields, slopeLimit, verified);
    forall i | 0 <= i < |fields| ensures fields[i].id == input.fields[i].id {
      EvaluationKeepsId(input.tier, input.policyRate, input.fields[i], slopeLimit, verified[i]);
    }
    SortKeepsIds(fields);
  }

  lemma {:induction false} EvaluationKeepsId(tier: Tier, policyRate: string, input: FieldInput, slopeLimit: real,
                                             verified: Option<string>)
    requires EvaluateField(tier, policyRate, input, slopeLimit, verified).Success?
    ensures EvaluateField(tier, policyRate, input, slopeLimit, verified).value.id == input.id
  {
    hide FieldLimits, Gate, Decimals.FormatRat;
  }

  // ---------- independence of the input order ----------

  /** A field together with the outcome of its slope verification. */
  type Offer = (FieldInput, Option<string>)

  function Offers(fields: seq<FieldInput>, verified: seq<Option<string>>): (r: seq<Offer>)
    requires |verified| == |fields|
    ensures |r| == |fields| && forall i :: 0 <= i < |r| ==> r[i] == (fields[i], verified[i])
  {
    seq(|fields|, i requires 0 <= i < |fields| => (fields[i], verified[i]))
  }

  function OfferedCapacity(tier: Tier, policyRate: string, slopeLimit: real): Offer -> real {
    (o: Offer) => match EvaluateField(tier, policyRate, o.0, slopeLimit, o.1)
                  case Success(f) => ReadCapacity(f)
                  case Failure(_) => 0.0
  }

  lemma {:induction false} OffersTotal(tier: Tier, policyRate: string, fields: seq<FieldInput>, slopeLimit: real,
                                       verified: seq<Option<string>>)
    requires |verified| == |fields|
    requires EvaluateFields(tier, policyRate, fields, slopeLimit, verified).Success?
    ensures TotalCapacity(EvaluateFields(tier, policyRate, fields, slopeLimit, verified).value) ==
            SumOf(Offers(fields, verified), OfferedCapacity(tier, policyRate, slopeLimit))
  {
    hide EvaluateField, ReadCapacity;
    if |fields| > 0 {
      var n := |fields| - 1;
      var r := EvaluateFields(tier, policyRate, fields, slopeLimit, verified).value;
      FieldsEvaluated(tier, policyRate, fields, slopeLimit, verified);
      OffersTotal(tier, policyRate, fields[..n], slopeLimit, verified[..n]);
      assert Offers(fields, verified)[..n] == Offers(fields[..n], verified[..n]);
      TotalCapacityStep(r);
      assert r[..n] == EvaluateFields(tier, policyRate, fields[..n], slopeLimit, verified[..n]).value;
    }
  }

  lemma {:induction false} OfferNonnegative(tier: Tier, policyRate: string, slopeLimit: real, o: Offer)
    ensures OfferedCapacity(tier, policyRate, slopeLimit)(o) >= 0.0
  {
    hide EvaluateField;
    if EvaluateField(tier, policyRate, o.0, slopeLimit, o.1).Success? {
      FieldIsWellPrinted(tier, policyRate, o.0, slopeLimit, o.1);
      ReadsBack(EvaluateField(tier, policyRate, o.0, slopeLimit, o.1).value);
    }
  }

  /** The fields enter the total only as a set of offers. */
  lemma {:induction false} PlacedByOffers(input: Input, slopeLimit: real, verified: seq<Option<string>>)
    requires |verified| == |input.fields| && QuantityGiven(input) && input.tier != Prohibited
    requires Evaluate(input, slopeLimit, verified).Success?
    ensures var plan := Evaluate(input, slopeLimit, verified).value;
            && Decimals.RatOf(plan.batchDryTons).Some?
            && Decimals.RatOf(plan.allocatedDryTons) ==
                 Some(Min(Decimals.RatOf(plan.batchDryTons).value,
                          SumOf(Offers(input.fields, verified),
                                OfferedCapacity(input.tier, input.policyRate, slopeLimit))))
  {
    hide Evaluate, Decimals.RatOf, Ranked, EvaluateFields, TotalCapacity, WellPrinted, OfferedCapacity,
      Decimals.FormatRat, OnGrid;
    var batch, p := PlanIsLoop(input, slopeLimit, verified);
    PlanConservesMass(input, slopeLimit, verified);
    var fields := EvaluateFields(input.tier, input.policyRate, input.fields, slopeLimit, verified).value;
    FieldsEvaluated(input.tier, input.policyRate, input.fields, slopeLimit, verified);
    RankKeepsTotal(fields);
    OffersTotal(input.tier, input.policyRate, input.fields, slopeLimit, verified);
  }

  /**
    Adding fields never lowers the allocated total, wherever they are inserted; so the total
    does not depend on the order of the fields.
  */
  lemma {:induction false} MoreFieldsNeverPlaceLess(input: Input, verified: seq<Option<string>>,
                                                    larger: seq<FieldInput>, largerVerified: seq<Option<string>>,
                                                    slopeLimit: real)
    requires |verified| == |input.fields| && |largerVerified| == |larger|
    requires QuantityGiven(input) && input.tier != Prohibited
    requires multiset(Offers(input.fields, verified)) <= multiset(Offers(larger, largerVerified))
    requires Evaluate(input, slopeLimit, verified).Success?
    requires Evaluate(input.(fields := larger), slopeLimit, largerVerified).Success?
    ensures var small := Evaluate(input, slopeLimit, verified).value;
            var large := Evaluate(input.(fields := larger), slopeLimit, largerVerified).value;
            && Decimals.RatOf(small.allocatedDryTons).Some? && Decimals.RatOf(large.allocatedDryTons).Some?
            && Decimals.RatOf(small.allocatedDryTons).value <= Decimals.RatOf(large.allocatedDryTons).value
            && (multiset(Offers(input.fields, verified)) == multiset(Offers(larger, largerVerified)) ==>
                  small.allocatedDryTons == large.allocatedDryTons
                    && small.unallocatedDryTons == large.unallocatedDryTons)
  {
    hide Evaluate, Decimals.RatOf, OfferedCapacity, Decimals.FormatRat, OnGrid, AllocateAll;
    var f := OfferedCapacity(input.tier, input.policyRate, slopeLimit);
    forall o | o in Offers(larger, largerVerified) ensures f(o) >= 0.0 {
      OfferNonnegative(input.tier, input.policyRate, slopeLimit, o);
    }
    SumOfMonotone(Offers(input.fields, verified), Offers(larger, largerVerified), f);
    PlacedByOffers(input, slopeLimit, verified);
    PlacedByOffers(input.(fields := larger), slopeLimit, largerVerified);
    var batch, p := PlanIsLoop(input, slopeLimit, verified);
    var batch', p' := PlanIsLoop(input.(fields := larger), slopeLimit, largerVerified);
    assert batch == batch';
    if multiset(Offers(input.fields, verified)) == multiset(Offers(larger, largerVerified)) {
      SumOfPermutation(Offers(input.fields, verified), Offers(larger, largerVerified), f);
      SamePrinting(p, p', Evaluate(input, slopeLimit, verified).value.fields,
                   Evaluate(input.(fields := larger), slopeLimit, largerVerified).value.fields, batch);
    }
  }

  lemma {:induction false} SamePrinting(p: Progress, p': Progress, fields: seq<PlacementField>,
                                        fields': seq<PlacementField>, batch: real)
    requires AllWellPrinted(fields) && AllWellPrinted(fields') && OnGrid(batch)
    requires AllocateAll(fields, batch) == Success(p) && AllocateAll(fields', batch) == Success(p')
    requires Decimals.RatOf(Decimals.FormatRat(p.placed)) == Decimals.RatOf(Decimals.FormatRat(p'.placed))
    ensures p.placed == p'.placed && p.remaining == p'.remaining
  {
    hide WellPrinted, OnGrid, Decimals.RatOf, Decimals.FormatRat;
    LoopPlacesMinimum(fields, batch);
    LoopPlacesMinimum(fields', batch);
    GridRoundTrip(p.placed);
    GridRoundTrip(p'.placed);
  }

  // ---------- the loading bound ----------

  /** Every allocation comes from one eligible ranked field and fits its printed capacity. */
  lemma {:induction false} AllocationSource(fields: seq<PlacementField>, batch: real, k: nat)
    returns (j: nat, amount: real)
    requires AllWellPrinted(fields) && OnGrid(batch)
    requires AllocateAll(fields, batch).Success? && k < |AllocateAll(fields, batch).value.allocations|
    ensures j < |fields| && fields[j].disposition == Eligible
    ensures var a := AllocateAll(fields, batch).value.allocations[k];
            && a.fieldId == fields[j].id && a.rate == fields[j].allowedRate && a.position == k + 1
            && a.dryTons == Decimals.FormatRat(amount) && OnGrid(amount)
            && 0.0 < amount <= ReadCapacity(fields[j]) && AcresFor(a, amount)
  {
    hide Decimal, OnGrid, WellPrinted, ReadCapacity, Decimals.FormatRat;
    var n := |fields| - 1;
    var p := AllocateAll(fields[..n], batch).value;
    LoopPlacesMinimum(fields[..n], batch);
    StepPlaces(fields[n], p);
    if k < |p.allocations| {
      j, amount := AllocationSource(fields[..n], batch, k);
    } else {
      j, amount := n, Min(p.remaining, ReadCapacity(fields[n]));
    }
  }

  /** A ranked field is some evaluated input field with its rank written in. */
  lemma {:induction false} RankedSource(fields: seq<PlacementField>, j: nat) returns (i: nat)
    requires j < |Ranked(fields)|
    ensures i < |fields| && Ranked(fields)[j] == fields[i].(rank := Some(j + 1))
  {
    Ranking.StableSortLength(fields);
    Ranking.SortPermutes(fields);
    var sorted := StableSort(fields);
    hide StableSort;
    assert sorted[j] in multiset(sorted);
    assert sorted[j] in fields;
    i :| 0 <= i < |fields| && fields[i] == sorted[j];
  }

  const HalfMicro: real := 0.0000005

  lemma {:induction false} HalfMicroIsHalfUnit()
    ensures Decimals.ScaledBy(0.5, 6) == HalfMicro && Decimals.ScaledBy(-0.5, 6) == -HalfMicro
  {}

  /** What an eligible field's evaluation says about its numbers. */
  lemma {:induction false} EligibleNumbers(tier: Tier, policyRate: string, input: FieldInput, slopeLimit: real,
                                           verified: Option<string>)
    requires EvaluateField(tier, policyRate, input, slopeLimit, verified).Success?
    requires EvaluateField(tier, policyRate, input, slopeLimit, verified).value.disposition == Eligible
    ensures var f := EvaluateField(tier, policyRate, input, slopeLimit, verified).value;
            && Gate(input, slopeLimit, verified.Some?) == Eligible
            && FieldLimits(tier, policyRate, input, verified).Success?
            && var l := FieldLimits(tier, policyRate, input, verified).value;
               && f.id == input.id
               && f.allowedRate == Decimals.FormatRat(l.allowed)
               && f.capacity == Decimals.FormatRat(Capacity(l.usable, l.allowed, l.prior))
               && Capacity(l.usable, l.allowed, l.prior) > 0.0
               && l.allowed > 0.0
               && PositiveDecimal(input.agronomicRate).Some?
               && (tier != Elevated ==> l.allowed == PositiveDecimal(input.agronomicRate).value)
               && (tier == Elevated ==>
                     && PositiveDecimal(policyRate).Some?
                     && l.allowed == Min(PositiveDecimal(input.agronomicRate).value, PositiveDecimal(policyRate).value))
  {
    hide Decimals.FormatRat, Decimal, UsableAcres;
  }

  /**
    The loading bound under rounding: prior loading plus the printed tons stays within usable
    acres times the controlling rate, up to half a millionth of a ton; the printed rate never
    exceeds a policy cap that has at most six places; and a field over the slope limit receives
    tons only with a verified slope resolution.
  */
  lemma {:induction false} LoadingStaysWithinBound(input: Input, slopeLimit: real, verified: seq<Option<string>>,
                                                   k: nat)
    returns (i: nat)
    requires |verified| == |input.fields| && QuantityGiven(input) && input.tier != Prohibited
    requires Evaluate(input, slopeLimit, verified).Success?
    requires k < |Evaluate(input, slopeLimit, verified).value.allocations|
    ensures i < |input.fields|
    ensures var a := Evaluate(input, slopeLimit, verified).value.allocations[k];
            var limits := FieldLimits(input.tier, input.policyRate, input.fields[i], verified[i]);
            var tons, rate := Decimal(a.dryTons), Decimal(a.rate);
            && a.fieldId == input.fields[i].id
            && limits.Success? && tons.Some? && rate.Some?
            && tons.value > 0.0
            && limits.value.prior + tons.value <= limits.value.usable * limits.value.allowed + HalfMicro
            && PositiveDecimal(input.fields[i].agronomicRate).Some?
            && limits.value.allowed <= PositiveDecimal(input.fields[i].agronomicRate).value
            && (input.tier == Elevated ==>
                  && PositiveDecimal(input.policyRate).Some?
                  && limits.value.allowed <= PositiveDecimal(input.policyRate).value
                  && (OnGrid(PositiveDecimal(input.policyRate).value) ==>
                      rate.value <= PositiveDecimal(input.policyRate).value))
            && (ExceedsSlope(input.fields[i], slopeLimit) ==> verified[i].Some?)
  {
    hide Evaluate, EvaluateFields, EvaluateField, FieldLimits, Decimals.FormatRat, Decimal, OnGrid, Ranked, WellPrinted,
      Decimals.RatOf, Decimals.Rounded, AllocateAll;
    var batch, p := PlanIsLoop(input, slopeLimit, verified);
    var plan := Evaluate(input, slopeLimit, verified).value;
    var fields := EvaluateFields(input.tier, input.policyRate, input.fields, slopeLimit, verified).value;
    FieldsEvaluated(input.tier, input.policyRate, input.fields, slopeLimit, verified);
    var j, amount := AllocationSource(plan.fields, batch, k);
    i := RankedSource(fields, j);
    EligibleNumbers(input.tier, input.policyRate, input.fields[i], slopeLimit, verified[i]);
    var l := FieldLimits(input.tier, input.policyRate, input.fields[i], verified[i]).value;
    var capacity := Capacity(l.usable, l.allowed, l.prior);
    PrintedReads(capacity);
    GridRoundTrip(amount);
    Decimals.RoundingError(capacity, 6);
    HalfMicroIsHalfUnit();
    PrintedReads(l.allowed);
    if input.tier == Elevated && OnGrid(PositiveDecimal(input.policyRate).value) {
      RateUnderCap(l.allowed, PositiveDecimal(input.policyRate).value);
    }
  }

  lemma {:induction false} RateUnderCap(rate: real, cap: real)
    requires 0.0 <= rate <= cap && OnGrid(cap)
    ensures Decimals.Rounded(rate, 6) <= cap
  {
    var n: nat :| cap == Digits.Scaled(n, 6);
    Decimals.RoundedExact(n, 6);
    Decimals.RoundedMonotone(rate, cap, 6);
  }
}
