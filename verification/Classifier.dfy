/**
  The deterministic classifier: the tier of a batch from its PFOS and PFOA evidence.
*/
module Classifier {
  import opened Wrappers
  import opened Tiers
  import opened Policy
  import Placement
  import Text

  datatype Evidence = Evidence(canonical: string, isNonDetect: bool, normalizedValue: Option<string>,
                               upperBound: Option<string>)

  datatype Input = Input(jurisdiction: string, matrix: Option<string>, labMethod: Option<string>, basis: Option<string>,
                         analytes: seq<Evidence>)

  datatype Block =
    | WrongJurisdiction | MatrixNotConfirmed | MethodNotAccepted | NotDryBasis
    | ValueMissing(name: string) | ValueInvalid(name: string) | LimitAboveThreshold(name: string) | AnalytesMissing

  datatype Evaluation = Evaluation(
    tier: Tier, ruleId: string, explanation: string, maximumRate: Option<string>, prohibitedActions: seq<string>,
    requirements: seq<RequirementDefinition>, block: Option<Block>)

  const Pfos: string := "PFOS"
  const Pfoa: string := "PFOA"

  // ---------- the context of the evidence ----------

  predicate IsBiosolids(value: string) {
    var normalized := Text.Upper(Text.Trim(value));
    normalized == "BIOSOLIDS" || normalized == "SEWAGE SLUDGE" || normalized == "SLUDGE"
  }

  predicate IsAcceptedMethod(tokens: seq<string>, value: string) {
    exists i :: 0 <= i < |tokens| && Text.Contains(Text.Upper(Text.Trim(value)), Text.Upper(tokens[i]))
  }

  /** The checks that come before the analytes. */
  function ContextProblem(pack: RulePack, input: Input): Option<Block> {
    if input.jurisdiction != pack.jurisdiction then Some(WrongJurisdiction)
    else if input.matrix.None? || !IsBiosolids(input.matrix.value) then Some(MatrixNotConfirmed)
    else if input.labMethod.None? || !IsAcceptedMethod(pack.methodTokens, input.labMethod.value)
         then Some(MethodNotAccepted)
    else if input.basis.None? || Text.Upper(Text.Trim(input.basis.value)) != "DRY" then Some(NotDryBasis)
    else None
  }

  // ---------- the analytes ----------

  datatype Finding = Ignored | Stops(reason: Block) | Resolves(name: string, detected: Option<real>)

  function NameOf(e: Evidence): string { Text.Upper(Text.Trim(e.canonical)) }

  /** What one piece of evidence contributes. */
  function FindingOf(e: Evidence, elevated: real): Finding {
    var name := NameOf(e);
    if name != Pfos && name != Pfoa then Ignored
    else
      var text := if e.isNonDetect then e.upperBound else e.normalizedValue;
      if text.None? then Stops(ValueMissing(name))
      else
        match Decimal(text.value)
        case None => Stops(ValueInvalid(name))
        case Some(x) =>
          if x < 0.0 then Stops(ValueInvalid(name))
          else if e.isNonDetect && x > elevated then Stops(LimitAboveThreshold(name))
          else Resolves(name, if e.isNonDetect then None else Some(x))
  }

  datatype Gathered = Gathered(values: map<string, real>, resolved: set<string>)

  function Note(g: Gathered, f: Finding): Gathered
    requires !f.Stops?
  {
    if f.Ignored? then g
    else Gathered(if f.detected.Some? then g.values[f.name := f.detected.value] else g.values, g.resolved + {f.name})
  }

  /** All the evidence, or the first reason to stop. */
  function Gather(analytes: seq<Evidence>, elevated: real): Result<Gathered, Block> {
    if |analytes| == 0 then Success(Gathered(map[], {}))
    else
      var g :- Gather(analytes[..|analytes| - 1], elevated);
      var f := FindingOf(analytes[|analytes| - 1], elevated);
      if f.Stops? then Failure(f.reason) else Success(Note(g, f))
  }

  predicate AtOrAbove(values: map<string, real>, name: string, threshold: real) {
    name in values && values[name] >= threshold
  }

  function TierOf(values: map<string, real>, elevated: real, prohibited: real): Tier {
    if AtOrAbove(values, Pfos, prohibited) || AtOrAbove(values, Pfoa, prohibited) then Prohibited
    else if AtOrAbove(values, Pfos, elevated) || AtOrAbove(values, Pfoa, elevated) then Elevated
    else Standard
  }

  function RuleIdFor(tier: Tier): string {
    match tier
    case Prohibited => ProhibitRule
    case Elevated => ElevatedRule
    case _ => StandardRule
  }

  // ---------- the result ----------

  function RequirementsFor(definitions: seq<RequirementDefinition>, tier: Tier): seq<RequirementDefinition> {
    if |definitions| == 0 then []
    else
      RequirementsFor(definitions[..|definitions| - 1], tier)
      + (if tier in definitions[|definitions| - 1].tiers then [definitions[|definitions| - 1]] else [])
  }

  function Blocked(reason: Block): Evaluation { Evaluation(Undetermined, "", "", None, [], [], Some(reason)) }

  function Matched(pack: RulePack, tier: Tier): Evaluation {
    var id := RuleIdFor(tier);
    var requirements := RequirementsFor(pack.requirements, tier);
    match RuleWithId(pack.rules, id)
    case Some(rule) =>
      Evaluation(tier, id, rule.explanation, rule.maximumRate, rule.prohibitedActions, requirements, None)
    case None => Evaluation(tier, id, "", None, [], requirements, None)
  }

  /** From the gathered evidence to the result. */
  function Conclude(pack: RulePack, gathered: Result<Gathered, Block>): Evaluation
    requires ThresholdsFit(pack)
  {
    match gathered
    case Failure(reason) => Blocked(reason)
    case Success(g) =>
      if Pfos !in g.resolved || Pfoa !in g.resolved then Blocked(AnalytesMissing)
      else Matched(pack, TierOf(g.values, Decimal(pack.elevatedThreshold).value,
                                Decimal(pack.prohibitedThreshold).value))
  }

  function Classification(pack: RulePack, input: Input): Evaluation
    requires ThresholdsFit(pack)
  {
    var problem := ContextProblem(pack, input);
    if problem.Some? then Blocked(problem.value)
    else Conclude(pack, Gather(input.analytes, Decimal(pack.elevatedThreshold).value))
  }

  /** `Evaluate` of the policy package */
  method Classify(pack: RulePack, input: Input) returns (r: Evaluation)
    requires ThresholdsFit(pack)
    ensures r == Classification(pack, input)
  {
    hide FindingOf, ContextProblem, TierOf, Matched, Decimal;
    var problem := ContextProblem(pack, input);
    if problem.Some? { return Blocked(problem.value); }
    var elevated, prohibited := Decimal(pack.elevatedThreshold).value, Decimal(pack.prohibitedThreshold).value;
    var values: map<string, real> := map[];
    var resolved: set<string> := {};
    for i := 0 to |input.analytes|
      invariant Gather(input.analytes[..i], elevated) == Success(Gathered(values, resolved))
    {
      assert input.analytes[..i + 1][..i] == input.analytes[..i];
      var finding := FindingOf(input.analytes[i], elevated);
      if finding.Ignored? { continue; }
      if finding.Stops? {
        GatherStops(input.analytes, i + 1, elevated);
        return Blocked(finding.reason);
      }
      resolved := resolved + {finding.name};
      if finding.detected.Some? { values := values[finding.name := finding.detected.value]; }
    }
    assert input.analytes[..|input.analytes|] == input.analytes;
    if Pfos !in resolved || Pfoa !in resolved { return Blocked(AnalytesMissing); }
    r := MatchRule(pack, TierOf(values, elevated, prohibited));
  }

  lemma {:induction false} GatherStops(analytes: seq<Evidence>, k: nat, elevated: real)
    requires k <= |analytes| && Gather(analytes[..k], elevated).Failure?
    ensures Gather(analytes, elevated) == Gather(analytes[..k], elevated)
    decreases |analytes|
  {
    hide FindingOf;
    if k == |analytes| {
      assert analytes[..k] == analytes;
    } else {
      var front := analytes[..|analytes| - 1];
      assert front[..k] == analytes[..k];
      GatherStops(front, k, elevated);
    }
  }

  /** `matched` and `requirementsFor` */
  method MatchRule(pack: RulePack, tier: Tier) returns (r: Evaluation)
    ensures r == Matched(pack, tier)
  {
    var id := RuleIdFor(tier);
    var requirements: seq<RequirementDefinition> := [];
    for i := 0 to |pack.requirements|
      invariant requirements == RequirementsFor(pack.requirements[..i], tier)
    {
      assert pack.requirements[..i + 1][..i] == pack.requirements[..i];
      if tier in pack.requirements[i].tiers { requirements := requirements + [pack.requirements[i]]; }
    }
    assert pack.requirements[..|pack.requirements|] == pack.requirements;
    r := Evaluation(tier, id, "", None, [], requirements, None);
    var i := 0;
    while i < |pack.rules|
      invariant i <= |pack.rules| && RuleWithId(pack.rules, id) == RuleWithId(pack.rules[i..], id)
    {
      var rule := pack.rules[i];
      if rule.id == id {
        return Evaluation(tier, id, rule.explanation, rule.maximumRate, rule.prohibitedActions, requirements, None);
      }
      assert pack.rules[i..][1..] == pack.rules[i + 1..];
      i := i + 1;
    }
  }

  // ---------- every tier finds its rule ----------

  /**
    With a valid pack every determined tier comes from its own rule: an elevated batch always
    carries a positive rate, and a prohibited one always bans land application.
  */
  lemma {:induction false} TierFindsItsRule(pack: RulePack, input: Input)
    requires ValidPack(pack) && Classification(pack, input).tier != Undetermined
    ensures var r := Classification(pack, input);
            && RuleWithId(pack.rules, r.ruleId).Some?
            && var rule := RuleWithId(pack.rules, r.ruleId).value;
               && rule.tier == r.tier && rule.id == r.ruleId && r.explanation == rule.explanation
               && !Text.IsBlank(r.explanation)
               && r.maximumRate == rule.maximumRate
               && (r.tier == Elevated ==> PositiveRate(r.maximumRate))
               && (r.tier == Prohibited ==> LandApplication in r.prohibitedActions)
  {
    hide ContextProblem, Gather, Decimal, RuleWithId, Text.IsBlank, RequirementsFor, PositiveRate, AtOrAbove;
    PackHasEveryRule(pack, Classification(pack, input).ruleId);
  }

  /** `stringPointerValue`: a missing rate reaches the engine as empty text. */
  function RateText(rate: Option<string>): string { if rate.Some? then rate.value else "" }

  /** So the engine never misses the rate ceiling of a classified batch. */
  lemma {:induction false} EngineAlwaysHasItsCeiling(pack: RulePack, input: Input, agronomic: real)
    requires ValidPack(pack) && Classification(pack, input).tier != Undetermined
    ensures var r := Classification(pack, input);
            Placement.AllowedRate(r.tier, RateText(r.maximumRate), agronomic).Success?
  {
    TierFindsItsRule(pack, input);
    hide Classification, ValidPack, Text.Trim;
  }

  /** And no field evaluation or plan of such a batch fails for want of it. */
  lemma {:induction false} FieldNeverLacksCeiling(pack: RulePack, input: Input, field: Placement.FieldInput,
                                                  slopeLimit: real, verified: Option<string>)
    requires ValidPack(pack) && Classification(pack, input).tier != Undetermined
    ensures var r := Classification(pack, input);
            Placement.EvaluateField(r.tier, RateText(r.maximumRate), field, slopeLimit,
                                    verified) != Failure(Placement.CeilingUnavailable)
  {
    var r := Classification(pack, input);
    forall agronomic: real ensures Placement.AllowedRate(r.tier, RateText(r.maximumRate), agronomic).Success? {
      EngineAlwaysHasItsCeiling(pack, input, agronomic);
    }
    hide Classification, ValidPack, Placement.AllowedRate, Placement.Gate, Placement.PositiveDecimal,
      Placement.NonnegativeDecimal, RateText;
  }

  // ---------- when a batch is undetermined ----------

  ghost predicate Stopped(analytes: seq<Evidence>, elevated: real) {
    exists i :: 0 <= i < |analytes| && FindingOf(analytes[i], elevated).Stops?
  }

  ghost predicate Resolved(analytes: seq<Evidence>, elevated: real, name: string) {
    exists i :: 0 <= i < |analytes| && FindingOf(analytes[i], elevated).Resolves?
      && FindingOf(analytes[i], elevated).name == name
  }

  lemma {:induction false} GatherFailsExactly(analytes: seq<Evidence>, elevated: real)
    ensures Gather(analytes, elevated).Failure? <==> Stopped(analytes, elevated)
    ensures Gather(analytes, elevated).Success? ==>
              forall name :: name in Gather(analytes, elevated).value.resolved <==> Resolved(analytes, elevated, name)
  {
    hide FindingOf;
    if |analytes| > 0 {
      var n := |analytes| - 1;
      var front := analytes[..n];
      GatherFailsExactly(front, elevated);
      assert forall i :: 0 <= i < n ==> front[i] == analytes[i];
      assert Stopped(front, elevated) ==> Stopped(analytes, elevated);
      forall name | Resolved(front, elevated, name) ensures Resolved(analytes, elevated, name) {}
    }
  }

  lemma {:induction false} ConcludesExactly(pack: RulePack, gathered: Result<Gathered, Block>)
    requires ThresholdsFit(pack)
    ensures Conclude(pack, gathered).tier == Undetermined <==>
              gathered.Failure? || Pfos !in gathered.value.resolved || Pfoa !in gathered.value.resolved
  {
    hide Decimal, RuleWithId, RequirementsFor, AtOrAbove, ThresholdsFit;
  }

  /** A batch is undetermined exactly when its context is wrong, some evidence stops it, or an analyte is missing. */
  lemma {:induction false} UndeterminedExactly(pack: RulePack, input: Input)
    requires ThresholdsFit(pack)
    ensures var elevated := Decimal(pack.elevatedThreshold).value;
            Classification(pack, input).tier == Undetermined <==>
              || ContextProblem(pack, input).Some?
              || Stopped(input.analytes, elevated)
              || !Resolved(input.analytes, elevated, Pfos) || !Resolved(input.analytes, elevated, Pfoa)
  {
    hide ContextProblem, Gather, Decimal, Conclude, Stopped, Resolved;
    var elevated := Decimal(pack.elevatedThreshold).value;
    GatherFailsExactly(input.analytes, elevated);
    ConcludesExactly(pack, Gather(input.analytes, elevated));
  }

  // ---------- monotone in the detected values ----------

  function Severity(tier: Tier): int {
    match tier
    case Standard => 0
    case Elevated => 1
    case Prohibited => 2
    case Undetermined => 3
  }

  /** The same evidence, except that a detected value may be higher. */
  predicate NoLower(a: Evidence, b: Evidence) {
    && a.canonical == b.canonical && a.isNonDetect == b.isNonDetect
    && (if a.isNonDetect then a.upperBound == b.upperBound
        else
          && a.normalizedValue.Some? && b.normalizedValue.Some?
          && Decimal(a.normalizedValue.value).Some? && Decimal(b.normalizedValue.value).Some?
          && 0.0 <= Decimal(a.normalizedValue.value).value <= Decimal(b.normalizedValue.value).value)
  }

  predicate FindingNoLower(f: Finding, g: Finding) {
    || f == g
    || (f.Resolves? && g.Resolves? && f.name == g.name && f.detected.Some? && g.detected.Some?
        && f.detected.value <= g.detected.value)
  }

  lemma {:induction false} FindingRises(a: Evidence, b: Evidence, elevated: real)
    requires NoLower(a, b)
    ensures FindingNoLower(FindingOf(a, elevated), FindingOf(b, elevated))
  {
    hide Decimal, Text.Trim, Text.Upper;
  }

  ghost predicate ValuesNoLower(a: map<string, real>, b: map<string, real>) {
    a.Keys == b.Keys && forall name :: name in a ==> a[name] <= b[name]
  }

  lemma {:induction false} GatherRises(a: seq<Evidence>, b: seq<Evidence>, elevated: real)
    requires |a| == |b| && forall i :: 0 <= i < |a| ==> NoLower(a[i], b[i])
    ensures Gather(a, elevated).Success? == Gather(b, elevated).Success?
    ensures Gather(a, elevated).Success? ==>
              && Gather(a, elevated).value.resolved == Gather(b, elevated).value.resolved
              && ValuesNoLower(Gather(a, elevated).value.values, Gather(b, elevated).value.values)
  {
    hide FindingOf, NoLower;
    if |a| > 0 {
      var n := |a| - 1;
      GatherRises(a[..n], b[..n], elevated);
      FindingRises(a[n], b[n], elevated);
    }
  }

  lemma {:induction false} ConclusionRises(pack: RulePack, g: Result<Gathered, Block>, h: Result<Gathered, Block>)
    requires ThresholdsFit(pack) && g.Success? == h.Success?
    requires g.Success? ==> g.value.resolved == h.value.resolved && ValuesNoLower(g.value.values, h.value.values)
    ensures var low, high := Conclude(pack, g).tier, Conclude(pack, h).tier;
            (low == Undetermined <==> high == Undetermined) && Severity(low) <= Severity(high)
  {
    hide Decimal, RuleWithId, RequirementsFor;
  }

  lemma {:induction false} SameContext(pack: RulePack, input: Input, other: seq<Evidence>)
    ensures ContextProblem(pack, input.(analytes := other)) == ContextProblem(pack, input)
  {
    hide IsBiosolids, IsAcceptedMethod, Text.Trim, Text.Upper;
  }

  /** Raising detected values never makes a batch undetermined and never lowers its tier. */
  lemma {:induction false} TierIsMonotone(pack: RulePack, input: Input, higher: seq<Evidence>)
    requires ThresholdsFit(pack) && |higher| == |input.analytes|
    requires forall i :: 0 <= i < |higher| ==> NoLower(input.analytes[i], higher[i])
    ensures var low, high := Classification(pack, input).tier, Classification(pack, input.(analytes := higher)).tier;
            (low == Undetermined <==> high == Undetermined) && Severity(low) <= Severity(high)
  {
    hide ContextProblem, Gather, Decimal, Conclude, NoLower, ValuesNoLower;
    var elevated := Decimal(pack.elevatedThreshold).value;
    GatherRises(input.analytes, higher, elevated);
    ConclusionRises(pack, Gather(input.analytes, elevated), Gather(higher, elevated));
    SameContext(pack, input, higher);
  }

  // ---------- independent of the order ----------

  ghost predicate DistinctNames(analytes: seq<Evidence>) {
    forall i, j :: 0 <= i < j < |analytes| ==> NameOf(analytes[i]) != NameOf(analytes[j])
  }

  /** With one entry an analyte, the values gathered are exactly those the entries detect. */
  lemma {:induction false} GatheredValues(analytes: seq<Evidence>, elevated: real, name: string, x: real)
    requires DistinctNames(analytes) && Gather(analytes, elevated).Success?
    ensures var values := Gather(analytes, elevated).value.values;
            (name in values && values[name] == x) <==>
                exists e :: e in analytes && FindingOf(e, elevated) == Resolves(name, Some(x))
    ensures name in Gather(analytes, elevated).value.values ==> exists e :: e in analytes && NameOf(e) == name
  {
    hide Decimal, Text.Trim, Text.Upper;
    if |analytes| > 0 {
      var n := |analytes| - 1;
      var front, last := analytes[..n], analytes[n];
      assert analytes == front + [last];
      GatheredValues(front, elevated, name, x);
      forall e | e in front ensures NameOf(e) != NameOf(last) {
        var i :| 0 <= i < n && analytes[i] == e;
      }
      hide NameOf;
      assert FindingOf(last, elevated).Resolves? ==> FindingOf(last, elevated).name == NameOf(last);
    }
  }

  /** Some analyte is detected at or above a threshold. */
  ghost predicate DetectedFrom(analytes: seq<Evidence>, elevated: real, threshold: real) {
    exists e, x :: e in analytes && Detects(e, elevated, x) && x >= threshold
  }

  predicate Detects(e: Evidence, elevated: real, x: real) {
    var f := FindingOf(e, elevated);
    f.Resolves? && f.detected == Some(x)
  }

  lemma {:induction false} ReachesByDetection(analytes: seq<Evidence>, elevated: real, threshold: real)
    requires DistinctNames(analytes) && Gather(analytes, elevated).Success?
    ensures var values := Gather(analytes, elevated).value.values;
            AtOrAbove(values, Pfos, threshold) || AtOrAbove(values, Pfoa, threshold) <==>
                DetectedFrom(analytes, elevated, threshold)
  {
    hide FindingOf, Gather, DistinctNames;
    var values := Gather(analytes, elevated).value.values;
    forall name | name in values ensures values[name] >= threshold ==> DetectedFrom(analytes, elevated, threshold) {
      GatheredValues(analytes, elevated, name, values[name]);
      var e :| e in analytes && FindingOf(e, elevated) == Resolves(name, Some(values[name]));
      assert Detects(e, elevated, values[name]);
    }
    if DetectedFrom(analytes, elevated, threshold) {
      var e, x :| e in analytes && Detects(e, elevated, x) && x >= threshold;
      FindingNames(e, elevated);
      GatheredValues(analytes, elevated, FindingOf(e, elevated).name, x);
    }
  }

  lemma {:induction false} FindingNames(e: Evidence, elevated: real)
    requires FindingOf(e, elevated).Resolves?
    ensures FindingOf(e, elevated).name == Pfos || FindingOf(e, elevated).name == Pfoa
  {
    hide Decimal, NameOf;
  }

  /**
    With one entry an analyte, the tier of a determined batch is read off the detected values:
    prohibited when one reaches the prohibited threshold, otherwise elevated when one reaches the
    elevated threshold, otherwise standard.
  */
  lemma {:induction false} TierByDetectedValues(pack: RulePack, input: Input)
    requires ThresholdsFit(pack) && DistinctNames(input.analytes) && Classification(pack, input).tier != Undetermined
    ensures var elevated, prohibited := Decimal(pack.elevatedThreshold).value, Decimal(pack.prohibitedThreshold).value;
            Classification(pack, input).tier ==
            if DetectedFrom(input.analytes, elevated, prohibited) then Prohibited
            else if DetectedFrom(input.analytes, elevated, elevated) then Elevated
            else Standard
  {
    hide ContextProblem, Gather, Decimal, RuleWithId, RequirementsFor, DetectedFrom, AtOrAbove, DistinctNames;
    var elevated, prohibited := Decimal(pack.elevatedThreshold).value, Decimal(pack.prohibitedThreshold).value;
    ReachesByDetection(input.analytes, elevated, elevated);
    ReachesByDetection(input.analytes, elevated, prohibited);
  }

  lemma {:induction false} SameFindings(a: seq<Evidence>, b: seq<Evidence>, elevated: real)
    requires multiset(a) == multiset(b)
    ensures forall e :: e in a <==> e in b
    ensures Stopped(a, elevated) <==> Stopped(b, elevated)
    ensures forall name :: Resolved(a, elevated, name) <==> Resolved(b, elevated, name)
  {
    hide FindingOf;
    forall e ensures e in a <==> e in b { assert e in a <==> e in multiset(a); assert e in b <==> e in multiset(b); }
    StoppedByMember(a, elevated);
    StoppedByMember(b, elevated);
  }

  lemma {:induction false} StoppedByMember(a: seq<Evidence>, elevated: real)
    ensures Stopped(a, elevated) <==> exists e :: e in a && FindingOf(e, elevated).Stops?
    ensures forall name :: Resolved(a, elevated, name) <==>
              exists e :: e in a && FindingOf(e, elevated).Resolves? && FindingOf(e, elevated).name == name
  {
    hide FindingOf;
  }

  lemma {:induction false} GatherIgnoresOrder(a: seq<Evidence>, b: seq<Evidence>, elevated: real)
    requires multiset(a) == multiset(b) && DistinctNames(a) && DistinctNames(b)
    ensures Gather(a, elevated).Success? == Gather(b, elevated).Success?
    ensures Gather(a, elevated).Success? ==> Gather(a, elevated) == Gather(b, elevated)
  {
    SameFindings(a, b, elevated);
    GatherFailsExactly(a, elevated);
    GatherFailsExactly(b, elevated);
    hide Gather, Stopped, Resolved, FindingOf, NameOf;
    if Gather(a, elevated).Success? {
      SameValues(a, b, elevated);
      assert Gather(a, elevated).value.resolved == Gather(b, elevated).value.resolved;
    }
  }

  // ---------- when the order matters ----------

  /** The value an entry detects for an analyte. */
  function DetectedBy(e: Evidence, elevated: real, name: string): Option<real> {
    var f := FindingOf(e, elevated);
    if f.Resolves? && f.name == name then f.detected else None
  }

  /** The value detected last. */
  function LastDetected(analytes: seq<Evidence>, elevated: real, name: string): Option<real> {
    if |analytes| == 0 then None
    else
      var n := |analytes| - 1;
      var x := DetectedBy(analytes[n], elevated, name);
      if x.Some? then x else LastDetected(analytes[..n], elevated, name)
  }

  function Less(a: Option<real>, b: Option<real>): Option<real> {
    if a.None? then b else if b.None? || a.value <= b.value then a else b
  }

  function Greater(a: Option<real>, b: Option<real>): Option<real> {
    if a.None? then b else if b.None? || a.value >= b.value then a else b
  }

  function LeastDetected(analytes: seq<Evidence>, elevated: real, name: string): Option<real> {
    if |analytes| == 0 then None
    else
      var n := |analytes| - 1;
      Less(LeastDetected(analytes[..n], elevated, name), DetectedBy(analytes[n], elevated, name))
  }

  function GreatestDetected(analytes: seq<Evidence>, elevated: real, name: string): Option<real> {
    if |analytes| == 0 then None
    else
      var n := |analytes| - 1;
      Greater(GreatestDetected(analytes[..n], elevated, name), DetectedBy(analytes[n], elevated, name))
  }

  predicate From(x: Option<real>, threshold: real) { x.Some? && x.value >= threshold }

  /** The tier for one value of each analyte. */
  function TierBy(pfos: Option<real>, pfoa: Option<real>, elevated: real, prohibited: real): Tier {
    if From(pfos, prohibited) || From(pfoa, prohibited) then Prohibited
    else if From(pfos, elevated) || From(pfoa, elevated) then Elevated
    else Standard
  }

  /** What is gathered for an analyte is what was detected last. */
  lemma {:induction false} GatherKeepsLast(analytes: seq<Evidence>, elevated: real, name: string)
    requires Gather(analytes, elevated).Success?
    ensures var values := Gather(analytes, elevated).value.values;
            LastDetected(analytes, elevated, name) == if name in values then Some(values[name]) else None
  {
    hide FindingOf;
    if |analytes| > 0 { GatherKeepsLast(analytes[..|analytes| - 1], elevated, name); }
  }

  lemma {:induction false} TierByLast(analytes: seq<Evidence>, elevated: real, prohibited: real)
    requires Gather(analytes, elevated).Success?
    ensures TierOf(Gather(analytes, elevated).value.values, elevated, prohibited) ==
            TierBy(LastDetected(analytes, elevated, Pfos), LastDetected(analytes, elevated, Pfoa), elevated, prohibited)
  {
    GatherKeepsLast(analytes, elevated, Pfos);
    GatherKeepsLast(analytes, elevated, Pfoa);
    hide Gather, LastDetected;
  }

  /** Both extremes are detected by some entry, and everything detected lies between them. */
  lemma {:induction false} Extremes(analytes: seq<Evidence>, elevated: real, name: string)
    ensures var least, greatest := LeastDetected(analytes, elevated, name), GreatestDetected(analytes, elevated, name);
            && (least.Some? <==> greatest.Some?)
            && (least.Some? ==>
                Detected(analytes, elevated, name, least.value) && Detected(analytes, elevated, name, greatest.value))
            && (forall x :: Detected(analytes, elevated, name, x) ==> least.Some? && least.value <= x <= greatest.value)
  {
    hide DetectedBy;
    if |analytes| > 0 {
      var n := |analytes| - 1;
      Extremes(analytes[..n], elevated, name);
      forall x ensures Detected(analytes, elevated, name, x) <==>
                       Detected(analytes[..n], elevated, name, x) || DetectedBy(analytes[n], elevated, name) == Some(x)
      {
        DetectedMore(analytes, elevated, name, x);
      }
      hide Detected;
    }
  }

  /** Some entry detects the value. */
  ghost predicate Detected(analytes: seq<Evidence>, elevated: real, name: string, x: real) {
    exists i :: 0 <= i < |analytes| && DetectedBy(analytes[i], elevated, name) == Some(x)
  }

  lemma {:induction false} DetectedMore(analytes: seq<Evidence>, elevated: real, name: string, x: real)
    requires |analytes| > 0
    ensures var n := |analytes| - 1;
            Detected(analytes, elevated, name, x) <==>
            Detected(analytes[..n], elevated, name, x) || DetectedBy(analytes[n], elevated, name) == Some(x)
  {
    hide DetectedBy;
    var front := analytes[..|analytes| - 1];
    assert forall i :: 0 <= i < |front| ==> front[i] == analytes[i];
    if Detected(front, elevated, name, x) {
      var i :| 0 <= i < |front| && DetectedBy(front[i], elevated, name) == Some(x);
      assert DetectedBy(analytes[i], elevated, name) == Some(x);
    }
  }

  lemma {:induction false} LastIsDetected(analytes: seq<Evidence>, elevated: real, name: string)
    ensures var last := LastDetected(analytes, elevated, name);
            if last.Some? then Detected(analytes, elevated, name, last.value)
            else forall x :: !Detected(analytes, elevated, name, x)
  {
    hide DetectedBy;
    if |analytes| > 0 {
      var n := |analytes| - 1;
      LastIsDetected(analytes[..n], elevated, name);
      forall x ensures Detected(analytes, elevated, name, x) <==>
                       Detected(analytes[..n], elevated, name, x) || DetectedBy(analytes[n], elevated, name) == Some(x)
      {
        DetectedMore(analytes, elevated, name, x);
      }
      hide Detected;
    }
  }

  lemma {:induction false} SameDetected(a: seq<Evidence>, b: seq<Evidence>, elevated: real, name: string, x: real)
    requires (forall e :: e in a <==> e in b) && Detected(a, elevated, name, x)
    ensures Detected(b, elevated, name, x)
  {
    hide DetectedBy;
    var i :| 0 <= i < |a| && DetectedBy(a[i], elevated, name) == Some(x);
    assert a[i] in b;
    var j :| 0 <= j < |b| && b[j] == a[i];
  }

  /** Whatever the order, what is detected last lies between the extremes. */
  lemma {:induction false} LastIsBetween(a: seq<Evidence>, b: seq<Evidence>, elevated: real, name: string)
    requires multiset(a) == multiset(b)
    ensures var last, least, greatest :=
              LastDetected(b, elevated, name), LeastDetected(a, elevated, name), GreatestDetected(a, elevated, name);
            if last.Some? then least.Some? && greatest.Some? && least.value <= last.value <= greatest.value
            else least.None? && greatest.None?
  {
    SameFindings(a, b, elevated);
    Extremes(a, elevated, name);
    LastIsDetected(b, elevated, name);
    hide LastDetected, LeastDetected, GreatestDetected, Detected, Stopped, Resolved;
    var last, least := LastDetected(b, elevated, name), LeastDetected(a, elevated, name);
    if last.Some? {
      SameDetected(b, a, elevated, name, last.value);
    } else if least.Some? {
      SameDetected(a, b, elevated, name, least.value);
    }
  }

  lemma {:induction false} TierByRises(p: Option<real>, q: Option<real>, p': Option<real>, q': Option<real>,
                                       elevated: real, prohibited: real)
    requires elevated < prohibited
    requires if p.Some? then p'.Some? && p.value <= p'.value else p'.None?
    requires if q.Some? then q'.Some? && q.value <= q'.value else q'.None?
    ensures Severity(TierBy(p, q, elevated, prohibited)) <= Severity(TierBy(p', q', elevated, prohibited))
  {}

  // ---------- an order that gives chosen values ----------

  /** Entry i moved to the end. */
  function MovedLast(a: seq<Evidence>, i: nat): seq<Evidence>
    requires i < |a|
  {
    a[..i] + a[i + 1..] + [a[i]]
  }

  lemma {:induction false} MovedIsSame(a: seq<Evidence>, i: nat)
    requires i < |a|
    ensures multiset(MovedLast(a, i)) == multiset(a)
  {
    assert a == a[..i] + [a[i]] + a[i + 1..];
  }

  lemma {:induction false} LastOfParts(a: seq<Evidence>, b: seq<Evidence>, elevated: real, name: string)
    ensures LastDetected(a + b, elevated, name) ==
            if LastDetected(b, elevated, name).Some? then LastDetected(b, elevated, name)
              else LastDetected(a, elevated, name)
  {
    hide DetectedBy;
    if |b| == 0 {
      assert a + b == a;
    } else {
      var n := |b| - 1;
      assert (a + b)[..|a + b| - 1] == a + b[..n];
      LastOfParts(a, b[..n], elevated, name);
    }
  }

  lemma {:induction false} LastOfOne(e: Evidence, elevated: real, name: string)
    ensures LastDetected([e], elevated, name) == DetectedBy(e, elevated, name)
  {
    hide DetectedBy;
    assert [e][..0] == [];
    assert LastDetected([], elevated, name).None?;
  }

  /** Moving an entry to the end makes its value the last, and changes nothing for other analytes. */
  lemma {:induction false} MovedDetects(a: seq<Evidence>, i: nat, elevated: real, name: string)
    requires i < |a|
    ensures DetectedBy(a[i], elevated, name).Some? ==>
              LastDetected(MovedLast(a, i), elevated, name) == DetectedBy(a[i], elevated, name)
    ensures DetectedBy(a[i], elevated, name).None? ==>
              LastDetected(MovedLast(a, i), elevated, name) == LastDetected(a, elevated, name)
  {
    hide DetectedBy, LastDetected;
    var front, e, back := a[..i], a[i], a[i + 1..];
    LastOfOne(e, elevated, name);
    LastOfParts(front + back, [e], elevated, name);
    LastOfParts(front, back, elevated, name);
    LastOfParts(front, [e], elevated, name);
    LastOfParts(front + [e], back, elevated, name);
    assert a == front + [e] + back;
  }

  lemma {:induction false} OneNameEach(e: Evidence, elevated: real, name: string, other: string)
    requires DetectedBy(e, elevated, name).Some? && name != other
    ensures DetectedBy(e, elevated, other).None?
  {
    hide FindingOf;
  }

  /** Any detected value can be made the last of its analyte, without touching another one. */
  lemma {:induction false} PutLast(a: seq<Evidence>, elevated: real, name: string, x: Option<real>, other: string)
    returns (b: seq<Evidence>)
    requires name != other
    requires (if x.Some? then Detected(a, elevated, name, x.value) else LastDetected(a, elevated, name).None?)
    ensures multiset(b) == multiset(a)
    ensures LastDetected(b, elevated, name) == x && LastDetected(b, elevated, other) == LastDetected(a, elevated, other)
  {
    hide DetectedBy, LastDetected;
    if x.None? { return a; }
    var i :| 0 <= i < |a| && DetectedBy(a[i], elevated, name) == x;
    OneNameEach(a[i], elevated, name, other);
    MovedIsSame(a, i);
    MovedDetects(a, i, elevated, name);
    MovedDetects(a, i, elevated, other);
    return MovedLast(a, i);
  }

  /** Any two detected values can be made the last of their analytes. */
  lemma {:induction false} OrderFor(a: seq<Evidence>, elevated: real, p: Option<real>, q: Option<real>)
    returns (b: seq<Evidence>)
    requires if p.Some? then Detected(a, elevated, Pfos, p.value) else LastDetected(a, elevated, Pfos).None?
    requires if q.Some? then Detected(a, elevated, Pfoa, q.value) else LastDetected(a, elevated, Pfoa).None?
    ensures multiset(b) == multiset(a)
    ensures LastDetected(b, elevated, Pfos) == p && LastDetected(b, elevated, Pfoa) == q
  {
    hide LastDetected;
    var c := PutLast(a, elevated, Pfos, p, Pfoa);
    if q.Some? {
      SameFindings(a, c, elevated);
      SameDetected(a, c, elevated, Pfoa, q.value);
    }
    b := PutLast(c, elevated, Pfoa, q, Pfos);
  }

  // ---------- exactly when the order matters ----------

  ghost predicate OrderIsIrrelevant(pack: RulePack, input: Input)
    requires ThresholdsFit(pack)
  {
    forall other :: multiset(other) == multiset(input.analytes) ==>
      Classification(pack, input.(analytes := other)).tier == Classification(pack, input).tier
  }

  /** The tier of a determined batch, in any order, is that of the values detected last. */
  lemma {:induction false} TierOfOrder(pack: RulePack, input: Input, other: seq<Evidence>)
    requires ThresholdsFit(pack) && multiset(other) == multiset(input.analytes)
    ensures var elevated, prohibited := Decimal(pack.elevatedThreshold).value, Decimal(pack.prohibitedThreshold).value;
            var tier := Classification(pack, input.(analytes := other)).tier;
            if Classification(pack, input).tier == Undetermined then tier == Undetermined
            else tier == TierBy(LastDetected(other, elevated, Pfos), LastDetected(other, elevated, Pfoa), elevated,
                                prohibited)
  {
    hide ContextProblem, Gather, Decimal, TierOf, TierBy, LastDetected, RuleWithId, RequirementsFor;
    var elevated, prohibited := Decimal(pack.elevatedThreshold).value, Decimal(pack.prohibitedThreshold).value;
    SameContext(pack, input, other);
    SameFindings(input.analytes, other, elevated);
    UndeterminedExactly(pack, input);
    UndeterminedExactly(pack, input.(analytes := other));
    hide Stopped, Resolved;
    if Gather(other, elevated).Success? { TierByLast(other, elevated, prohibited); }
  }

  /**
    The order of the evidence does not matter if and only if the batch is undetermined, or the
    least detected value of each analyte gives the same tier as the greatest.
  */
  lemma {:induction false} OrderMattersExactly(pack: RulePack, input: Input)
    requires ThresholdsFit(pack)
    ensures var elevated, prohibited := Decimal(pack.elevatedThreshold).value, Decimal(pack.prohibitedThreshold).value;
            OrderIsIrrelevant(pack, input) <==>
            || Classification(pack, input).tier == Undetermined
            || TierBy(LeastDetected(input.analytes, elevated, Pfos), LeastDetected(input.analytes, elevated, Pfoa),
                      elevated, prohibited)
               == TierBy(GreatestDetected(input.analytes, elevated, Pfos),
                         GreatestDetected(input.analytes, elevated, Pfoa), elevated, prohibited)
  {
    hide Classification, Decimal, TierBy, LastDetected, LeastDetected, GreatestDetected;
    var a, elevated, prohibited := input.analytes, Decimal(pack.elevatedThreshold).value,
      Decimal(pack.prohibitedThreshold).value;
    var least := TierBy(LeastDetected(a, elevated, Pfos), LeastDetected(a, elevated, Pfoa), elevated, prohibited);
    var greatest := TierBy(GreatestDetected(a, elevated, Pfos), GreatestDetected(a, elevated, Pfoa), elevated,
                           prohibited);
    forall other | multiset(other) == multiset(a)
      ensures Classification(pack, input).tier == Undetermined ==>
                Classification(pack, input.(analytes := other)).tier == Undetermined
      ensures Classification(pack, input).tier != Undetermined && least == greatest ==>
                Classification(pack, input.(analytes := other)).tier == least
    {
      TierOfOrder(pack, input, other);
      TierIsBetween(a, other, elevated, prohibited);
    }
    assert input.(analytes := a) == input;
    if OrderIsIrrelevant(pack, input) && Classification(pack, input).tier != Undetermined {
      var low, high := ExtremeOrders(a, elevated);
      TierOfOrder(pack, input, low);
      TierOfOrder(pack, input, high);
    }
  }

  lemma {:induction false} TierIsBetween(a: seq<Evidence>, other: seq<Evidence>, elevated: real, prohibited: real)
    requires multiset(other) == multiset(a) && elevated < prohibited
    ensures var tier := TierBy(LastDetected(other, elevated, Pfos), LastDetected(other, elevated, Pfoa), elevated,
                               prohibited);
            var least := TierBy(LeastDetected(a, elevated, Pfos), LeastDetected(a, elevated, Pfoa), elevated,
                                prohibited);
            var greatest := TierBy(GreatestDetected(a, elevated, Pfos), GreatestDetected(a, elevated, Pfoa), elevated,
                                   prohibited);
            Severity(least) <= Severity(tier) <= Severity(greatest) && (least == greatest ==> tier == least)
  {
    LastIsBetween(a, other, elevated, Pfos);
    LastIsBetween(a, other, elevated, Pfoa);
    hide LastDetected, LeastDetected, GreatestDetected, TierBy;
    TierByRises(LeastDetected(a, elevated, Pfos), LeastDetected(a, elevated, Pfoa),
                LastDetected(other, elevated, Pfos), LastDetected(other, elevated, Pfoa), elevated, prohibited);
    TierByRises(LastDetected(other, elevated, Pfos), LastDetected(other, elevated, Pfoa),
                GreatestDetected(a, elevated, Pfos), GreatestDetected(a, elevated, Pfoa), elevated, prohibited);
  }

  /** One order in which the least values come last, and one in which the greatest do. */
  lemma {:induction false} ExtremeOrders(a: seq<Evidence>, elevated: real)
    returns (low: seq<Evidence>, high: seq<Evidence>)
    ensures multiset(low) == multiset(a) && multiset(high) == multiset(a)
    ensures LastDetected(low, elevated, Pfos) == LeastDetected(a, elevated, Pfos)
    ensures LastDetected(low, elevated, Pfoa) == LeastDetected(a, elevated, Pfoa)
    ensures LastDetected(high, elevated, Pfos) == GreatestDetected(a, elevated, Pfos)
    ensures LastDetected(high, elevated, Pfoa) == GreatestDetected(a, elevated, Pfoa)
  {
    Extremes(a, elevated, Pfos);
    Extremes(a, elevated, Pfoa);
    LastIsBetween(a, a, elevated, Pfos);
    LastIsBetween(a, a, elevated, Pfoa);
    hide LastDetected, LeastDetected, GreatestDetected, Detected;
    low := OrderFor(a, elevated, LeastDetected(a, elevated, Pfos), LeastDetected(a, elevated, Pfoa));
    high := OrderFor(a, elevated, GreatestDetected(a, elevated, Pfos), GreatestDetected(a, elevated, Pfoa));
  }

  // ---------- evidence whose order matters ----------

  function DetectedPfos(text: string): Evidence { Evidence(Pfos, false, Some(text), None) }

  /** PFOS listed twice, at the prohibited and at the elevated threshold, and PFOA below its limit. */
  function ListedTwice(pack: RulePack, highFirst: bool): seq<Evidence> {
    var high, low := DetectedPfos(pack.prohibitedThreshold), DetectedPfos(pack.elevatedThreshold);
    (if highFirst then [high, low] else [low, high]) + [PfoaBelow(pack.elevatedThreshold)]
  }

  lemma {:induction false} DetectedFinding(text: string, elevated: real)
    requires Decimal(text).Some? && Decimal(text).value >= 0.0
    ensures FindingOf(DetectedPfos(text), elevated) == Resolves(Pfos, Some(Decimal(text).value))
  {
    Text.CapitalsUnchanged("PFOS");
    hide Decimal, Text.Upper, Text.Trim;
  }

  function PfoaBelow(limit: string): Evidence { Evidence(Pfoa, true, None, Some(limit)) }

  lemma {:induction false} LimitFinding(text: string, elevated: real)
    requires Decimal(text) == Some(elevated) && elevated >= 0.0
    ensures FindingOf(PfoaBelow(text), elevated) == Resolves(Pfoa, None)
  {
    Text.CapitalsUnchanged("PFOA");
    hide Decimal, Text.Upper, Text.Trim;
  }

  lemma {:induction false} GatherOneMore(front: seq<Evidence>, e: Evidence, elevated: real)
    requires Gather(front, elevated).Success? && !FindingOf(e, elevated).Stops?
    ensures Gather(front + [e], elevated) == Success(Note(Gather(front, elevated).value, FindingOf(e, elevated)))
  {
    hide FindingOf;
    assert (front + [e])[..|front|] == front;
  }

  lemma {:induction false} NotesOf(p: string, q: string, x: real, y: real)
    ensures Note(Note(Note(Gathered(map[], {}), Resolves(p, Some(x))), Resolves(p, Some(y))), Resolves(q, None)) ==
            Gathered(map[p := y], {p, q})
  {}

  lemma {:induction false} GatherThree(a: Evidence, b: Evidence, c: Evidence, elevated: real, p: string, q: string,
                                       x: real, y: real)
    requires FindingOf(a, elevated) == Resolves(p, Some(x)) && FindingOf(b, elevated) == Resolves(p, Some(y))
    requires FindingOf(c, elevated) == Resolves(q, None)
    ensures Gather([a, b, c], elevated) == Success(Gathered(map[p := y], {p, q}))
  {
    assert Gather([], elevated) == Success(Gathered(map[], {}));
    hide FindingOf, Gather, Note;
    GatherOneMore([], a, elevated);
    GatherOneMore([] + [a], b, elevated);
    GatherOneMore([] + [a] + [b], c, elevated);
    assert [] + [a] + [b] + [c] == [a, b, c];
    NotesOf(p, q, x, y);
  }

  lemma {:induction false} TierOfOneValue(pack: RulePack, input: Input, x: real)
    requires ThresholdsFit(pack) && ContextProblem(pack, input).None?
    requires Gather(input.analytes, Decimal(pack.elevatedThreshold).value) ==
               Success(Gathered(map[Pfos := x], {Pfos, Pfoa}))
    ensures Classification(pack, input).tier ==
            if x >= Decimal(pack.prohibitedThreshold).value then Prohibited
            else if x >= Decimal(pack.elevatedThreshold).value then Elevated else Standard
  {
    hide ContextProblem, Decimal, Gather, RuleWithId, RequirementsFor;
  }

  /** The value listed last decides. */
  lemma {:induction false} ListedTier(pack: RulePack, input: Input, highFirst: bool)
    requires ThresholdsFit(pack) && ContextProblem(pack, input).None?
    ensures Classification(pack, input.(analytes := ListedTwice(pack, highFirst))).tier == if highFirst then Elevated
            else Prohibited
  {
    hide ContextProblem, Decimal, FindingOf, Gather, Classification, DetectedPfos, PfoaBelow;
    var elevated, prohibited := Decimal(pack.elevatedThreshold).value, Decimal(pack.prohibitedThreshold).value;
    DetectedFinding(pack.elevatedThreshold, elevated);
    DetectedFinding(pack.prohibitedThreshold, elevated);
    LimitFinding(pack.elevatedThreshold, elevated);
    var high, low := DetectedPfos(pack.prohibitedThreshold), DetectedPfos(pack.elevatedThreshold);
    var limit := PfoaBelow(pack.elevatedThreshold);
    assert ListedTwice(pack, highFirst) == if highFirst then [high, low, limit] else [low, high, limit];
    hide ListedTwice;
    if highFirst {
      GatherThree(high, low, limit, elevated, Pfos, Pfoa, prohibited, elevated);
    } else {
      GatherThree(low, high, limit, elevated, Pfos, Pfoa, elevated, prohibited);
    }
    SameContext(pack, input, ListedTwice(pack, highFirst));
    TierOfOneValue(pack, input.(analytes := ListedTwice(pack, highFirst)), if highFirst then elevated else prohibited);
  }

  /** With any pack, a batch that lists PFOS twice can be elevated in one order and prohibited in the other. */
  lemma {:induction false} TierCanDependOnOrder(pack: RulePack, input: Input)
    requires ThresholdsFit(pack) && ContextProblem(pack, input).None?
    ensures multiset(ListedTwice(pack, true)) == multiset(ListedTwice(pack, false))
    ensures Classification(pack, input.(analytes := ListedTwice(pack, true))).tier == Elevated
    ensures Classification(pack, input.(analytes := ListedTwice(pack, false))).tier == Prohibited
  {
    ListedTier(pack, input, true);
    ListedTier(pack, input, false);
    hide Classification, ContextProblem, ThresholdsFit, DetectedPfos;
  }

  /** With one entry an analyte, the order of the evidence changes nothing but the reason for stopping. */
  lemma {:induction false} TierIgnoresOrder(pack: RulePack, input: Input, other: seq<Evidence>)
    requires ThresholdsFit(pack) && multiset(other) == multiset(input.analytes)
    requires DistinctNames(input.analytes) && DistinctNames(other)
    ensures var r, s := Classification(pack, input), Classification(pack, input.(analytes := other));
            r.tier == s.tier && (r.tier != Undetermined ==> r == s)
  {
    hide ContextProblem, Gather, Decimal, Matched, TierOf, DistinctNames;
    GatherIgnoresOrder(input.analytes, other, Decimal(pack.elevatedThreshold).value);
    SameContext(pack, input, other);
  }

  lemma {:induction false} SameValues(a: seq<Evidence>, b: seq<Evidence>, elevated: real)
    requires DistinctNames(a) && DistinctNames(b) && forall e :: e in a <==> e in b
    requires Gather(a, elevated).Success? && Gather(b, elevated).Success?
    ensures Gather(a, elevated).value.values == Gather(b, elevated).value.values
  {
    hide FindingOf, Gather;
    var v, w := Gather(a, elevated).value.values, Gather(b, elevated).value.values;
    forall name ensures name in v ==> name in w && w[name] == v[name] {
      if name in v { GatheredValues(a, elevated, name, v[name]); GatheredValues(b, elevated, name, v[name]); }
    }
    forall name ensures name in w ==> name in v && w[name] == v[name] {
      if name in w { GatheredValues(a, elevated, name, w[name]); GatheredValues(b, elevated, name, w[name]); }
    }
  }
}
