/**
  The placement engine run against stored slope evidence, and what an allocation to a steep
  field proves about that evidence.
*/
module EvidenceEngine {
  import opened Wrappers
  import opened Reals
  import opened Tiers
  import opened Placement
  import AllocationLaws
  import Boundaries
  import Decimals
  import Digits
  import Geometry
  import Shoelace
  import Text
  import opened SlopeGate

  /**
    Evidence is consulted only over the limit.  A verified field's acres come from a dossier that
    clears it; for one that is not verified, its evidence was not complete.
  */
  ghost predicate Justified(tools: Tools, field: FieldInput, site: Site, store: Option<Store>, asOf: Time,
                            policy: Policy, verified: Option<string>) {
    match verified
    case Some(acres) =>
      ExceedsSlope(field, tools.slopeLimit) && Verdict(tools, site, store, asOf, policy, Success(acres))
    case None =>
      ExceedsSlope(field, tools.slopeLimit) && store.Some? ==> Unresolved(tools, site, store.value, asOf, policy)
  }

  /** The fields the loop reached are justified. */
  ghost predicate AllJustified(tools: Tools, tier: Tier, policyRate: string, fields: seq<FieldInput>, sites: seq<Site>,
                               store: Option<Store>, asOf: Time, policy: Policy, verified: seq<Option<string>>) {
    && |verified| == |fields| == |sites|
    && forall i :: 0 <= i < |fields| && Reached(tier, policyRate, fields, tools.slopeLimit, verified, i) ==>
         Justified(tools, fields[i], sites[i], store, asOf, policy, verified[i])
  }

  /** No field before the i-th fails. */
  predicate Reached(tier: Tier, policyRate: string, fields: seq<FieldInput>, slopeLimit: real,
                    verified: seq<Option<string>>, i: nat)
    requires |verified| == |fields| && i <= |fields|
  {
    EvaluateFields(tier, policyRate, fields[..i], slopeLimit, verified[..i]).Success?
  }

  ghost predicate FieldOutcome(tools: Tools, tier: Tier, policyRate: string, field: FieldInput, site: Site,
                               store: Option<Store>, asOf: Time, policy: Policy, r: Result<PlacementField, EngineError>,
                               verified: Option<string>) {
    && Justified(tools, field, site, store, asOf, policy, verified)
    && r == EvaluateField(tier, policyRate, field, tools.slopeLimit, verified)
  }

  /** `evaluateField`: the acres come from the slope evidence of a field over the limit. */
  method EvaluateFieldWithEvidence(tools: Tools, tier: Tier, policyRate: string, field: FieldInput, site: Site,
                                   store: Option<Store>, asOf: Time, policy: Policy)
                                     returns (r: Result<PlacementField, EngineError>)
    requires tools.slopeLimit >= 0.0
    ensures exists verified :: FieldOutcome(tools, tier, policyRate, field, site, store, asOf, policy, r, verified)
  {
    hide Verdict, Unresolved, EvaluateField;
    var acres: Option<string> := None;
    if ExceedsSlope(field, tools.slopeLimit) {
      var verification := VerifySlopeResolution(tools, site, store, asOf, policy);
      if verification.Success? {
        acres := Some(verification.value);
      } else {
        FailureIsUnresolved(tools, site, store, asOf, policy, verification);
      }
    }
    r := EvaluateVerified(tier, policyRate, field, tools.slopeLimit, acres);
    assert FieldOutcome(tools, tier, policyRate, field, site, store, asOf, policy, r, acres);
  }

  lemma {:induction false} FailureIsUnresolved(tools: Tools, site: Site, store: Option<Store>, asOf: Time,
                                               policy: Policy, r: Result<string, Code>)
    requires Verdict(tools, site, store, asOf, policy, r) && r.Failure?
    ensures store.Some? ==> Unresolved(tools, site, store.value, asOf, policy)
  {
    hide Unresolved;
  }

  /** The field's checks, once its slope evidence has been consulted. */
  method EvaluateVerified(tier: Tier, policyRate: string, field: FieldInput, slopeLimit: real, acres: Option<string>)
    returns (r: Result<PlacementField, EngineError>)
    ensures r == EvaluateField(tier, policyRate, field, slopeLimit, acres)
  {
    hide Decimals.FormatRat, PositiveDecimal, NonnegativeDecimal, Headroom;
    var usableAcres := if acres.Some? then acres.value else field.usableAcres;
    var gaps := field.unknownBands + field.criticalGaps + field.otherGaps;
    var disposition := Eligible;
    if !field.ready || !field.rmpApproved {
      disposition := Ineligible;
    } else if field.physicalEvaluationId == "" {
      disposition := ReviewRequired;
    } else if !field.physicalSucceeded || field.criticalGaps > 0 {
      disposition := ReviewRequired;
    } else if field.waterOverlap {
      disposition := ReviewRequired;
    } else if ExceedsSlope(field, slopeLimit) && acres.None? {
      disposition := ReviewRequired;
    }
    if usableAcres == "" || field.agronomicRate == "" || field.priorLoading == "" {
      if disposition == Eligible { disposition := ReviewRequired; }
      gaps := gaps + 1;
    }
    var allowedRate, capacityText := "", "";
    if disposition == Eligible {
      var usable := PositiveDecimal(usableAcres);
      if usable.None? { return Failure(InvalidNumber); }
      var agronomic := PositiveDecimal(field.agronomicRate);
      if agronomic.None? { return Failure(InvalidNumber); }
      var prior := NonnegativeDecimal(field.priorLoading);
      if prior.None? { return Failure(InvalidNumber); }
      var allowed := agronomic.value;
      if tier == Elevated {
        var cap := PositiveDecimal(policyRate);
        if cap.None? { return Failure(CeilingUnavailable); }
        allowed := Min(allowed, cap.value);
      }
      var capacity := Headroom(usable.value, allowed, prior.value);
      if capacity < 0.0 { capacity := 0.0; }
      var limits := Limits(usable.value, allowed, prior.value);
      assert FieldLimits(tier, policyRate, field, acres) == Success(limits);
      assert capacity == Capacity(limits.usable, limits.allowed, limits.prior);
      allowedRate := Decimals.FormatRat(allowed);
      capacityText := Decimals.FormatRat(capacity);
      if capacity == 0.0 { disposition := Ineligible; }
    }
    return Success(PlacementField(field.id, disposition, None, field.highBands, field.moderateBands, gaps,
                                  allowedRate, capacityText, field.roadDistance));
  }

  lemma {:induction false} FieldFailureSticks(tier: Tier, policyRate: string, fields: seq<FieldInput>, slopeLimit: real,
                                              verified: seq<Option<string>>, k: nat)
    requires |verified| == |fields| && k <= |fields|
    requires EvaluateFields(tier, policyRate, fields[..k], slopeLimit, verified[..k]).Failure?
    ensures EvaluateFields(tier, policyRate, fields, slopeLimit, verified) ==
            EvaluateFields(tier, policyRate, fields[..k], slopeLimit, verified[..k])
    decreases |fields|
  {
    hide EvaluateField;
    if k == |fields| {
      assert fields[..k] == fields && verified[..k] == verified;
    } else {
      var n := |fields| - 1;
      assert fields[..n][..k] == fields[..k] && verified[..n][..k] == verified[..k];
      FieldFailureSticks(tier, policyRate, fields[..n], slopeLimit, verified[..n], k);
    }
  }

  lemma {:induction false} EvaluateNoFields(tier: Tier, policyRate: string, slopeLimit: real)
    ensures EvaluateFields(tier, policyRate, [], slopeLimit, []) == Success([])
  {}

  lemma {:induction false} EvaluateOneMore(tier: Tier, policyRate: string, fields: seq<FieldInput>, slopeLimit: real,
                                           verified: seq<Option<string>>, used: Option<string>)
    requires |verified| < |fields|
    requires EvaluateFields(tier, policyRate, fields[..|verified|], slopeLimit, verified).Success?
    ensures var i := |verified|;
            EvaluateFields(tier, policyRate, fields[..i + 1], slopeLimit, verified + [used]) ==
            match EvaluateField(tier, policyRate, fields[i], slopeLimit, used)
            case Success(f) => Success(EvaluateFields(tier, policyRate, fields[..i], slopeLimit, verified).value + [f])
            case Failure(e) => Failure(e)
  {
    hide EvaluateField;
    var i := |verified|;
    assert fields[..i + 1][..i] == fields[..i] && (verified + [used])[..i] == verified;
  }

  lemma {:induction false} NotReached(tier: Tier, policyRate: string, fields: seq<FieldInput>, slopeLimit: real,
                                      verified: seq<Option<string>>, k: nat, i: nat)
    requires |verified| == |fields| && k <= i <= |fields|
    requires EvaluateFields(tier, policyRate, fields[..k], slopeLimit, verified[..k]).Failure?
    ensures !Reached(tier, policyRate, fields, slopeLimit, verified, i)
  {
    hide EvaluateField, EvaluateFields;
    assert fields[..i][..k] == fields[..k] && verified[..i][..k] == verified[..k];
    FieldFailureSticks(tier, policyRate, fields[..i], slopeLimit, verified[..i], k);
  }

  ghost predicate FieldsOutcome(tools: Tools, tier: Tier, policyRate: string, fields: seq<FieldInput>, sites: seq<Site>,
                                store: Option<Store>, asOf: Time, policy: Policy, r: Result<seq<PlacementField>,
                                EngineError>, verified: seq<Option<string>>) {
    && |verified| == |fields| && AllJustified(tools, tier, policyRate, fields, sites, store, asOf, policy, verified)
    && r == EvaluateFields(tier, policyRate, fields, tools.slopeLimit, verified)
  }

  /** After a field fails, the rest is not reached. */
  lemma {:induction false} FailsAt(tools: Tools, tier: Tier, policyRate: string, fields: seq<FieldInput>,
                                   sites: seq<Site>, store: Option<Store>, asOf: Time, policy: Policy,
                                   verified: seq<Option<string>>, e: EngineError)
    requires |sites| == |fields| && 0 < |verified| <= |fields|
    requires forall k :: 0 <= k < |verified| ==> Justified(tools, fields[k], sites[k], store, asOf, policy, verified[k])
    requires EvaluateFields(tier, policyRate, fields[..|verified|], tools.slopeLimit, verified) == Failure(e)
    ensures exists all :: FieldsOutcome(tools, tier, policyRate, fields, sites, store, asOf, policy, Failure(e), all)
  {
    hide EvaluateField, EvaluateFields, Justified, Reached;
    var n := |verified|;
    var all := verified + seq(|fields| - n, k => None);
    assert all[..n] == verified && all[..|fields|] == all && fields[..|fields|] == fields;
    FieldFailureSticks(tier, policyRate, fields, tools.slopeLimit, all, n);
    forall i | n <= i < |fields| ensures !Reached(tier, policyRate, fields, tools.slopeLimit, all, i) {
      NotReached(tier, policyRate, fields, tools.slopeLimit, all, n, i);
    }
    assert FieldsOutcome(tools, tier, policyRate, fields, sites, store, asOf, policy, Failure(e), all);
  }

  /** The field loop, up to its first error. */
  method EvaluateAllFields(tools: Tools, tier: Tier, policyRate: string, fields: seq<FieldInput>, sites: seq<Site>,
                           store: Option<Store>, asOf: Time, policy: Policy)
                             returns (r: Result<seq<PlacementField>, EngineError>)
    requires |sites| == |fields| && tools.slopeLimit >= 0.0
    ensures exists verified :: FieldsOutcome(tools, tier, policyRate, fields, sites, store, asOf, policy, r, verified)
  {
    hide EvaluateField, EvaluateFields, Justified;
    assert EvaluateFields(tier, policyRate, fields[..0], tools.slopeLimit, []) ==
             Success([]) by { EvaluateNoFields(tier, policyRate, tools.slopeLimit); }
    var results: seq<PlacementField> := [];
    ghost var verified: seq<Option<string>> := [];
    for i := 0 to |fields|
      invariant |verified| == i && forall k :: 0 <= k < i ==>
                  Justified(tools, fields[k], sites[k], store, asOf, policy, verified[k])
      invariant EvaluateFields(tier, policyRate, fields[..i], tools.slopeLimit, verified) == Success(results)
    {
      var result := EvaluateFieldWithEvidence(tools, tier, policyRate, fields[i], sites[i], store, asOf, policy);
      ghost var used :| FieldOutcome(tools, tier, policyRate, fields[i], sites[i], store, asOf, policy, result, used);
      EvaluateOneMore(tier, policyRate, fields, tools.slopeLimit, verified, used);
      verified := verified + [used];
      if result.Failure? {
        FailsAt(tools, tier, policyRate, fields, sites, store, asOf, policy, verified, result.error);
        return Failure(result.error);
      }
      results := results + [result.value];
    }
    assert fields[..|fields|] == fields;
    assert FieldsOutcome(tools, tier, policyRate, fields, sites, store, asOf, policy, Success(results), verified);
    return Success(results);
  }

  method RankedCopy(fields: seq<PlacementField>) returns (ranked: seq<PlacementField>)
    ensures ranked == Ranked(fields)
  {
    hide Ranked;
    var slice := new PlacementField[|fields|](i requires 0 <= i < |fields| => fields[i]);
    assert slice[..] == fields;
    RankFields(slice);
    ranked := slice[..];
  }

  /** The engine gets as far as its field loop. */
  predicate FieldsAreEvaluated(input: Input) {
    input.tier != Prohibited && (input.wetMassKg != "" && input.percentSolids != "" ==>
                                 DryTons(input.wetMassKg, input.percentSolids).Success?)
  }

  ghost predicate EngineOutcome(tools: Tools, input: Input, sites: seq<Site>, store: Option<Store>, asOf: Time,
                                policy: Policy, r: Result<Plan, EngineError>, verified: seq<Option<string>>) {
    && |verified| == |input.fields|
    && (FieldsAreEvaluated(input) ==>
        AllJustified(tools, input.tier, input.policyRate, input.fields, sites, store, asOf, policy, verified))
    && r == Evaluate(input, tools.slopeLimit, verified)
  }

  /** `EvaluateWithEvidenceAndPolicy` */
  method EvaluateWithEvidence(tools: Tools, input: Input, sites: seq<Site>, store: Option<Store>, asOf: Time,
                              policy: Policy)
    returns (r: Result<Plan, EngineError>)
    requires |sites| == |input.fields| && tools.slopeLimit >= 0.0
    ensures exists verified :: EngineOutcome(tools, input, sites, store, asOf, policy, r, verified)
  {
    hide Decimals.FormatRat, Decimal, Ranked, AllocateAll, AllJustified, EvaluateFields, DryTons;
    ghost var verified := seq(|input.fields|, i => None);
    if input.tier == Prohibited {
      r := Prohibit(input);
      assert EngineOutcome(tools, input, sites, store, asOf, policy, r, verified);
      return;
    }
    var batch: Option<real> := None;
    var batchText := "";
    if input.wetMassKg != "" && input.percentSolids != "" {
      var tons := DryTons(input.wetMassKg, input.percentSolids);
      if tons.Failure? {
        r := Failure(tons.error);
        assert EngineOutcome(tools, input, sites, store, asOf, policy, r, verified);
        return;
      }
      batchText := Decimals.FormatRat(tons.value);
      AllocationLaws.TonsPositive(input);
      AllocationLaws.PrintedReads(tons.value);
      batch := Decimal(batchText);
    }
    var results := EvaluateAllFields(tools, input.tier, input.policyRate, input.fields, sites, store, asOf, policy);
    verified :| FieldsOutcome(tools, input.tier, input.policyRate, input.fields, sites, store, asOf, policy, results,
                              verified);
    if results.Failure? {
      r := Failure(results.error);
    } else {
      var fields := RankedCopy(results.value);
      r := Allocate(fields, batch, batchText);
    }
    assert EngineOutcome(tools, input, sites, store, asOf, policy, r, verified);
  }

  method Prohibit(input: Input) returns (r: Result<Plan, EngineError>)
    ensures r == ProhibitedPlan(input)
  {
    hide Decimals.FormatRat, DryTons;
    var plan := Plan(LandApplicationBlocked, "", "", "", [], [], [LandApplicationProhibited]);
    if input.wetMassKg != "" && input.percentSolids != "" {
      var tons := DryTons(input.wetMassKg, input.percentSolids);
      if tons.Failure? { return Failure(tons.error); }
      var text := Decimals.FormatRat(tons.value);
      plan := plan.(batchDryTons := text, allocatedDryTons := "0", unallocatedDryTons := text);
    }
    return Success(plan);
  }

  /** The engine from the ranked fields on. */
  method Allocate(fields: seq<PlacementField>, batch: Option<real>, batchText: string)
    returns (r: Result<Plan, EngineError>)
    requires batch.Some? ==> Decimal(batchText) == batch
    ensures r == if batch.None? then Success(Plan(NeedsReview, "", "", "", fields, [], [BatchQuantityMissing]))
            else FinishPlan(fields, batchText)
  {
    hide Decimals.FormatRat, Decimal, AllocateAll;
    if batch.None? {
      return Success(Plan(NeedsReview, "", "", "", fields, [], [BatchQuantityMissing]));
    }
    var progress := RunAllocation(fields, batch.value);
    if progress.Failure? { return Failure(progress.error); }
    var p := progress.value;
    var status, gaps := Ready, [];
    if p.remaining > 0.0 {
      if HasReview(fields) {
        status, gaps := NeedsReview, [FieldReviewRequired];
      } else {
        status, gaps := InsufficientCapacity, [InsufficientEligibleCapacity];
      }
    }
    return Success(Plan(status, batchText, Decimals.FormatRat(p.placed), Decimals.FormatRat(p.remaining), fields,
                        p.allocations, gaps));
  }

  /** A plan for a given quantity went through all fields. */
  lemma {:induction false} AllAreReached(input: Input, slopeLimit: real, verified: seq<Option<string>>, i: nat)
    requires |verified| == |input.fields| && i <= |input.fields|
    requires AllocationLaws.QuantityGiven(input) && input.tier != Prohibited
    requires Evaluate(input, slopeLimit, verified).Success?
    ensures FieldsAreEvaluated(input)
    ensures Reached(input.tier, input.policyRate, input.fields, slopeLimit, verified, i)
  {
    hide EvaluateFields, FinishPlan, Ranked, Decimals.FormatRat;
    if !Reached(input.tier, input.policyRate, input.fields, slopeLimit, verified, i) {
      FieldFailureSticks(input.tier, input.policyRate, input.fields, slopeLimit, verified, i);
    }
  }

  /** A field over the slope limit receives tons only when a complete dossier clears it. */
  lemma {:induction false} SteepFieldsNeedClearance(tools: Tools, input: Input, sites: seq<Site>, store: Option<Store>,
                                                    asOf: Time, policy: Policy, plan: Plan,
                                                    verified: seq<Option<string>>, k: nat)
    returns (i: nat, dossier: Option<Dossier>)
    requires EngineOutcome(tools, input, sites, store, asOf, policy, Success(plan), verified)
    requires AllocationLaws.QuantityGiven(input) && input.tier != Prohibited && k < |plan.allocations|
    ensures i < |input.fields| && plan.allocations[k].fieldId == input.fields[i].id
    ensures ExceedsSlope(input.fields[i], tools.slopeLimit) ==>
              store.Some? && dossier.Some? && Cleared(tools, sites[i], store.value, asOf, policy, dossier.value)
  {
    hide Evaluate, EvaluateFields, Cleared, Boundaries.DerivedAcres, FieldLimits, Decimal, PositiveDecimal,
      AllocationLaws.OnGrid, ExceedsSlope, Unresolved, Reached, FieldsAreEvaluated;
    i := AllocationLaws.LoadingStaysWithinBound(input, tools.slopeLimit, verified, k);
    AllAreReached(input, tools.slopeLimit, verified, i);
    dossier := None;
    if ExceedsSlope(input.fields[i], tools.slopeLimit) {
      assert Justified(tools, input.fields[i], sites[i], store, asOf, policy, verified[i]);
      var d :| ClearsWith(tools, sites[i], store.value, asOf, policy, d, verified[i].value);
      dossier := Some(d);
    }
  }

  /**
    Slope evidence is used when and only when it is needed and complete: in a plan for a given
    quantity a field counts as verified if and only if it is over the limit and some dossier
    clears it, and then with the acres of one that does.
  */
  lemma {:induction false} VerifiedExactly(tools: Tools, input: Input, sites: seq<Site>, store: Option<Store>,
                                           asOf: Time, policy: Policy, plan: Plan, verified: seq<Option<string>>,
                                           i: nat)
    requires EngineOutcome(tools, input, sites, store, asOf, policy, Success(plan), verified)
    requires AllocationLaws.QuantityGiven(input) && input.tier != Prohibited && i < |input.fields|
    ensures |verified| == |sites| == |input.fields|
    ensures verified[i].Some? <==>
            && ExceedsSlope(input.fields[i], tools.slopeLimit) && store.Some?
            && exists d :: Cleared(tools, sites[i], store.value, asOf, policy, d)
    ensures verified[i].Some? ==>
              exists d :: ClearsWith(tools, sites[i], store.value, asOf, policy, d, verified[i].value)
  {
    hide Evaluate, EvaluateFields, Cleared, Boundaries.DerivedAcres, ExceedsSlope, Reached, FieldsAreEvaluated;
    AllAreReached(input, tools.slopeLimit, verified, i);
    assert Justified(tools, input.fields[i], sites[i], store, asOf, policy, verified[i]);
    if verified[i].Some? {
      var d :| ClearsWith(tools, sites[i], store.value, asOf, policy, d, verified[i].value);
      assert Cleared(tools, sites[i], store.value, asOf, policy, d);
    }
  }

  lemma {:induction false} FixedParts(units: nat) returns (whole: Digits.Numeral, fraction: Digits.Numeral)
    ensures |whole| > 0 && |fraction| == 1 && Digits.NatOf(whole + fraction) == units
    ensures Decimals.FixedDigits(units, 1) == Decimals.Join(whole, fraction)
  {
    hide Digits.Itoa, Digits.PadLeft, Digits.NatOf;
    var digits := Digits.PadLeft(Digits.Itoa(units), 2);
    Digits.PadLeftValue(Digits.Itoa(units), 2);
    var split := |digits| - 1;
    whole, fraction := digits[..split], digits[split..];
    assert digits == whole + fraction;
  }

  lemma {:induction false} JoinedTextIsTrimmed(whole: Digits.Numeral, fraction: Digits.Numeral)
    requires |whole| > 0
    ensures Text.Trim(Decimals.Join(whole, fraction)) == Decimals.Join(whole, fraction)
  {
    Text.CleanTextUnchanged(Decimals.Join(whole, fraction));
  }

  lemma {:induction false} JoinedTextReads(whole: Digits.Numeral, fraction: Digits.Numeral)
    requires |whole| > 0 && |fraction| == 1
    ensures Decimal(Decimals.Join(whole, fraction)) == Some(Digits.Scaled(Digits.NatOf(whole + fraction), 1))
  {
    hide Digits.NatOf, Digits.Scaled, Decimals.Scan, Decimals.Join, Text.Trim;
    JoinedTextIsTrimmed(whole, fraction);
    Decimals.ScanJoin(whole, fraction);
    Digits.ScaledZero(1);
  }

  lemma {:induction false} FixedTextReads(units: nat)
    ensures Decimal(Decimals.FixedDigits(units, 1)) == Some(Digits.Scaled(units, 1))
  {
    hide *;
    var whole, fraction := FixedParts(units);
    JoinedTextReads(whole, fraction);
  }

  /** Acres derived from a usable boundary are text the engine can read back, to the nearest tenth. */
  lemma {:induction false} DerivedAcresAreReadable(ring: Geometry.Ring, cosDegrees: real -> real)
    requires Boundaries.UsableRing(ring, cosDegrees)
    ensures var area := Shoelace.AreaAcres(ring, cosDegrees);
            var acres := PositiveDecimal(Boundaries.DerivedAcres(ring, cosDegrees));
            acres.Some? && -0.05 <= acres.value - area <= 0.05
  {
    var area := Shoelace.AreaAcres(ring, cosDegrees);
    hide Boundaries.UsableRing, Shoelace.AreaAcres, Decimal;
    var units := Decimals.RoundedUnits(area, 1);
    FixedTextReads(units);
    Decimals.RoundingError(area, 1);
    assert Boundaries.DerivedAcres(ring, cosDegrees) == Decimals.FixedDigits(units, 1);
    assert Decimals.ScaledBy(0.5, 1) == 0.05 && Decimals.ScaledBy(-0.5, 1) == -0.05;
  }
}
