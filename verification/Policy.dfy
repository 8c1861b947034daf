/**
  Rule packs and the classifier: what a valid pack contains, and the tier of a batch.
*/
module Policy {
  import opened Wrappers
  import opened Tiers
  import Decimals
  import Placement
  import Text

  // ---------- rule packs ----------

  datatype Rule = Rule(
    id: string, tier: Tier, operator: string, threshold: string, maximumRate: Option<string>,
    prohibitedActions: seq<string>, explanation: string)

  datatype RequirementDefinition = RequirementDefinition(id: string, tiers: seq<Tier>, title: string, detail: string,
                                                         timing: string)

  /** `reviewed` stands for the checks of a pack's identity, review, source and effective date. */
  datatype RulePack = RulePack(
    reviewed: bool, jurisdiction: string, elevatedThreshold: string, prohibitedThreshold: string,
    methodTokens: seq<string>, rules: seq<Rule>, requirements: seq<RequirementDefinition>)

  const ProhibitRule: string := "MI-PFAS-PROHIBIT-100"
  const ElevatedRule: string := "MI-PFAS-ELEVATED-20"
  const StandardRule: string := "MI-PFAS-STANDARD-BELOW-20"
  const LandApplication: string := "LAND_APPLICATION"

  function Decimal(text: string): Option<real> { Decimals.RatOf(Text.Trim(text)) }

  datatype Expected = Expected(tier: Tier, operator: string, threshold: string)

  /** What the classifier expects of the rule with an id. */
  function ExpectedRule(pack: RulePack, id: string): Option<Expected> {
    if id == ProhibitRule then Some(Expected(Prohibited, "ANY_GTE", pack.prohibitedThreshold))
    else if id == ElevatedRule then Some(Expected(Elevated, "ANY_GTE", pack.elevatedThreshold))
    else if id == StandardRule then Some(Expected(Standard, "ALL_LT", pack.elevatedThreshold))
    else None
  }

  predicate PositiveRate(rate: Option<string>) {
    rate.Some? && Decimal(rate.value).Some? && Decimal(rate.value).value > 0.0
  }

  predicate RuleFits(pack: RulePack, rule: Rule) {
    && ExpectedRule(pack, rule.id) == Some(Expected(rule.tier, rule.operator, rule.threshold))
    && !Text.IsBlank(rule.explanation)
    && (rule.tier == Elevated ==> PositiveRate(rule.maximumRate))
    && (rule.tier == Prohibited ==> LandApplication in rule.prohibitedActions)
  }

  predicate RequirementFits(d: RequirementDefinition) {
    && !Text.IsBlank(d.id) && |d.tiers| > 0 && !Text.IsBlank(d.title) && !Text.IsBlank(d.detail)
    && !Text.IsBlank(d.timing)
    && Undetermined !in d.tiers
  }

  predicate ThresholdsFit(pack: RulePack) {
    var elevated, prohibited := Decimal(pack.elevatedThreshold), Decimal(pack.prohibitedThreshold);
    && elevated.Some? && elevated.value >= 0.0 && prohibited.Some? && prohibited.value >= 0.0
    && elevated.value < prohibited.value
  }

  ghost predicate ValidPack(pack: RulePack) {
    && pack.reviewed && ThresholdsFit(pack)
    && |pack.methodTokens| > 0 && (forall i :: 0 <= i < |pack.methodTokens| ==> !Text.IsBlank(pack.methodTokens[i]))
    && |pack.rules| == 3 && |pack.requirements| > 0
    && (forall i :: 0 <= i < |pack.rules| ==> RuleFits(pack, pack.rules[i]))
    && (forall i, j :: 0 <= i < j < |pack.rules| ==> pack.rules[i].id != pack.rules[j].id)
    && (forall i :: 0 <= i < |pack.requirements| ==> RequirementFits(pack.requirements[i]))
    && (forall i, j :: 0 <= i < j < |pack.requirements| ==> pack.requirements[i].id != pack.requirements[j].id)
  }

  datatype PackError = NotReviewed | BadThresholds | BadMethodTokens | BadCounts | BadRule(id: string)
      | BadRequirement(id: string)

  /** `validateRulePack` */
  method ValidateRulePack(pack: RulePack) returns (problem: Option<PackError>)
    ensures problem.None? <==> ValidPack(pack)
  {
    hide RuleFits, RequirementFits, Text.IsBlank, ThresholdsFit;
    if !pack.reviewed { return Some(NotReviewed); }
    if !ThresholdsFit(pack) { return Some(BadThresholds); }
    if |pack.methodTokens| == 0 { return Some(BadMethodTokens); }
    for i := 0 to |pack.methodTokens|
      invariant forall k :: 0 <= k < i ==> !Text.IsBlank(pack.methodTokens[k])
    {
      if Text.IsBlank(pack.methodTokens[i]) { return Some(BadMethodTokens); }
    }
    if |pack.rules| != 3 || |pack.requirements| == 0 { return Some(BadCounts); }
    problem := CheckRules(pack);
    if problem.Some? { return; }
    problem := CheckRequirements(pack);
  }

  method CheckRules(pack: RulePack) returns (problem: Option<PackError>)
    ensures problem.None? <==>
              && (forall i :: 0 <= i < |pack.rules| ==> RuleFits(pack, pack.rules[i]))
              && (forall i, j :: 0 <= i < j < |pack.rules| ==> pack.rules[i].id != pack.rules[j].id)
  {
    hide RuleFits;
    var seen: set<string> := {};
    for i := 0 to |pack.rules|
      invariant forall k :: 0 <= k < i ==> RuleFits(pack, pack.rules[k])
      invariant forall k, l :: 0 <= k < l < i ==> pack.rules[k].id != pack.rules[l].id
      invariant forall id :: id in seen <==> exists k :: 0 <= k < i && pack.rules[k].id == id
    {
      var rule := pack.rules[i];
      if rule.id in seen { return Some(BadRule(rule.id)); }
      seen := seen + {rule.id};
      var fits := CheckRule(pack, rule);
      if !fits { return Some(BadRule(rule.id)); }
    }
    return None;
  }

  method CheckRule(pack: RulePack, rule: Rule) returns (fits: bool)
    ensures fits == RuleFits(pack, rule)
  {
    hide Decimal, Text.IsBlank;
    var expected := ExpectedRule(pack, rule.id);
    if expected.None? { return false; }
    if rule.tier != expected.value.tier || rule.operator != expected.value.operator
      || rule.threshold != expected.value.threshold
       || Text.IsBlank(rule.explanation) {
      return false;
    }
    if rule.tier == Elevated {
      if rule.maximumRate.None? { return false; }
      var rate := Decimal(rule.maximumRate.value);
      if rate.None? || rate.value <= 0.0 { return false; }
    }
    if rule.tier == Prohibited && LandApplication !in rule.prohibitedActions { return false; }
    return true;
  }

  method CheckRequirements(pack: RulePack) returns (problem: Option<PackError>)
    ensures problem.None? <==>
              && (forall i :: 0 <= i < |pack.requirements| ==> RequirementFits(pack.requirements[i]))
              && (forall i, j :: 0 <= i < j < |pack.requirements| ==>
                  pack.requirements[i].id != pack.requirements[j].id)
  {
    hide Text.IsBlank;
    var seen: set<string> := {};
    for i := 0 to |pack.requirements|
      invariant forall k :: 0 <= k < i ==> RequirementFits(pack.requirements[k])
      invariant forall k, l :: 0 <= k < l < i ==> pack.requirements[k].id != pack.requirements[l].id
      invariant forall id :: id in seen <==> exists k :: 0 <= k < i && pack.requirements[k].id == id
    {
      var d := pack.requirements[i];
      if Text.IsBlank(d.id) || d.id in seen || |d.tiers| == 0 || Text.IsBlank(d.title) || Text.IsBlank(d.detail)
        || Text.IsBlank(d.timing) {
        return Some(BadRequirement(d.id));
      }
      seen := seen + {d.id};
      for t := 0 to |d.tiers|
        invariant Undetermined !in d.tiers[..t]
      {
        if d.tiers[t] == Undetermined { return Some(BadRequirement(d.id)); }
      }
    }
    return None;
  }

  /** The first rule with an id. */
  function RuleWithId(rules: seq<Rule>, id: string): Option<Rule> {
    if |rules| == 0 then None
    else if rules[0].id == id then Some(rules[0])
    else RuleWithId(rules[1..], id)
  }

  predicate IsKnownRule(id: string) { id == ProhibitRule || id == ElevatedRule || id == StandardRule }

  lemma {:induction false} FindsRule(rules: seq<Rule>, i: nat)
    requires i < |rules| && forall k :: 0 <= k < i ==> rules[k].id != rules[i].id
    ensures RuleWithId(rules, rules[i].id) == Some(rules[i])
  {
    if i > 0 { FindsRule(rules[1..], i - 1); }
  }

  lemma {:induction false} FitsIsKnown(pack: RulePack, rule: Rule)
    requires RuleFits(pack, rule)
    ensures IsKnownRule(rule.id)
  {
    hide Text.IsBlank, PositiveRate;
  }

  /** Three fitting rules with distinct ids leave none of the three known rules out. */
  lemma {:induction false} PackHasEveryRule(pack: RulePack, id: string)
    requires ValidPack(pack) && IsKnownRule(id)
    ensures RuleWithId(pack.rules, id).Some?
    ensures RuleWithId(pack.rules, id).value.id == id && RuleFits(pack, RuleWithId(pack.rules, id).value)
  {
    hide Text.IsBlank, PositiveRate, RuleWithId, RuleFits, ThresholdsFit, RequirementFits;
    forall i | 0 <= i < 3 ensures IsKnownRule(pack.rules[i].id) { FitsIsKnown(pack, pack.rules[i]); }
    var i := Pigeonhole(pack.rules[0].id, pack.rules[1].id, pack.rules[2].id, id);
    FindsRule(pack.rules, i);
  }

  lemma {:induction false} Pigeonhole(a: string, b: string, c: string, id: string) returns (i: nat)
    requires IsKnownRule(a) && IsKnownRule(b) && IsKnownRule(c) && IsKnownRule(id)
    requires a != b && a != c && b != c
    ensures i < 3 && id == [a, b, c][i]
  {
    i := if id == a then 0 else if id == b then 1 else 2;
  }
}
