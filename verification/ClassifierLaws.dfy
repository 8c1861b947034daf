/**
  What the classifier's answer says about the batch: when there is a tier at all, why not, which
  tier it is, and which rule and requirements come with it.
*/
module ClassifierLaws {
  import opened Wrappers
  import opened Tiers
  import opened Policy
  import opened Classifier
  import opened Counting
  import Text

  function Word(s: string): string { Text.Upper(Text.Trim(s)) }

  /** One of the two analytes that decide. */
  predicate Decides(e: Evidence) { Word(e.canonical) == "PFOS" || Word(e.canonical) == "PFOA" }

  /** A detected value counts as it is, a non-detect by its limit. */
  predicate ReadsAs(e: Evidence, x: real) {
    var text := if e.isNonDetect then e.upperBound else e.normalizedValue;
    text.Some? && Decimal(text.value) == Some(x) && x >= 0.0
  }

  /** Nothing is wrong with it: a non-detect proves that the value is not above the elevated threshold. */
  ghost predicate Sound(e: Evidence, elevated: real) {
    Decides(e) ==> exists x :: ReadsAs(e, x) && (e.isNonDetect ==> x <= elevated)
  }

  /** The reason why a piece of evidence stops the evaluation. */
  ghost predicate Unsound(e: Evidence, elevated: real, reason: Block) {
    && Decides(e)
    && var name, text := Word(e.canonical), if e.isNonDetect then e.upperBound else e.normalizedValue;
       match reason
       case ValueMissing(n) => n == name && text.None?
       case ValueInvalid(n) => n == name && text.Some? && forall x :: !ReadsAs(e, x)
       case LimitAboveThreshold(n) => n == name && e.isNonDetect && exists x :: ReadsAs(e, x) && x > elevated
       case _ => false
  }

  lemma {:induction false} FindingStops(e: Evidence, elevated: real)
    ensures FindingOf(e, elevated).Stops? <==> !Sound(e, elevated)
    ensures FindingOf(e, elevated).Stops? ==> forall reason ::
      Unsound(e, elevated, reason) <==> reason == FindingOf(e, elevated).reason
  {
    hide Decimal, Text.Upper, Text.Trim;
    var text := if e.isNonDetect then e.upperBound else e.normalizedValue;
    if text.Some? && Decimal(text.value).Some? && Decimal(text.value).value >= 0.0 {
      assert ReadsAs(e, Decimal(text.value).value);
    }
  }

  lemma {:induction false} FindingResolves(e: Evidence, elevated: real)
    requires Sound(e, elevated)
    ensures FindingOf(e, elevated).Resolves? <==> Decides(e)
    ensures Decides(e) ==> FindingOf(e, elevated).name == Word(e.canonical)
    ensures Decides(e) ==> forall x :: FindingOf(e, elevated).detected == Some(x) <==> !e.isNonDetect && ReadsAs(e, x)
  {
    hide Decimal, Text.Upper, Text.Trim;
    var text := if e.isNonDetect then e.upperBound else e.normalizedValue;
    if text.Some? && Decimal(text.value).Some? && Decimal(text.value).value >= 0.0 {
      assert ReadsAs(e, Decimal(text.value).value);
    }
  }

  /** The batch is what the rules are about: its jurisdiction, matrix, method and basis. */
  ghost predicate InScope(pack: RulePack, input: Input) {
    && input.jurisdiction == pack.jurisdiction
    && input.matrix.Some? && Word(input.matrix.value) in {"BIOSOLIDS", "SEWAGE SLUDGE", "SLUDGE"}
    && AcceptedMethod(pack, input)
    && input.basis.Some? && Word(input.basis.value) == "DRY"
  }

  ghost predicate AcceptedMethod(pack: RulePack, input: Input) {
    input.labMethod.Some? && exists token ::
        token in pack.methodTokens && Text.Contains(Word(input.labMethod.value), Text.Upper(token))
  }

  /** The checks of the context, in their order. */
  ghost predicate OutOfScope(pack: RulePack, input: Input, reason: Block) {
    var here := input.jurisdiction == pack.jurisdiction;
    var confirmed := input.matrix.Some? && Word(input.matrix.value) in {"BIOSOLIDS", "SEWAGE SLUDGE", "SLUDGE"};
    match reason
    case WrongJurisdiction => !here
    case MatrixNotConfirmed => here && !confirmed
    case MethodNotAccepted => here && confirmed && !AcceptedMethod(pack, input)
    case NotDryBasis => here && confirmed && AcceptedMethod(pack, input) && !InScope(pack, input)
    case _ => false
  }

  lemma {:induction false} MethodExactly(pack: RulePack, input: Input)
    ensures AcceptedMethod(pack, input) <==>
            input.labMethod.Some? && IsAcceptedMethod(pack.methodTokens, input.labMethod.value)
  {
    hide Text.Upper, Text.Trim, Text.Contains;
    if AcceptedMethod(pack, input) {
      var token :| token in pack.methodTokens && Text.Contains(Word(input.labMethod.value), Text.Upper(token));
      var i :| 0 <= i < |pack.methodTokens| && pack.methodTokens[i] == token;
      assert Text.Contains(Word(input.labMethod.value), Text.Upper(pack.methodTokens[i]));
    }
  }

  lemma {:induction false} ScopeExactly(pack: RulePack, input: Input)
    ensures ContextProblem(pack, input).None? <==> InScope(pack, input)
    ensures forall reason :: ContextProblem(pack, input) == Some(reason) <==> OutOfScope(pack, input, reason)
  {
    MethodExactly(pack, input);
    hide Text.Upper, Text.Trim, Text.Contains, AcceptedMethod, IsAcceptedMethod;
  }

  // ---------- the evidence as a whole ----------

  ghost predicate SoundUpTo(analytes: seq<Evidence>, elevated: real, end: int)
    requires end <= |analytes|
  {
    forall i :: 0 <= i < end ==> Sound(analytes[i], elevated)
  }

  /** The first unsound piece of evidence gives the reason. */
  ghost predicate FirstUnsound(analytes: seq<Evidence>, elevated: real, reason: Block) {
    exists i :: 0 <= i < |analytes| && Unsound(analytes[i], elevated, reason) && SoundUpTo(analytes, elevated, i)
  }

  lemma {:induction false} FrontIsSound(analytes: seq<Evidence>, elevated: real, end: nat)
    requires end < |analytes|
    ensures SoundUpTo(analytes[..|analytes| - 1], elevated, end) <==> SoundUpTo(analytes, elevated, end)
  {
    hide Sound;
    assert forall i :: 0 <= i < end ==> analytes[..|analytes| - 1][i] == analytes[i];
  }

  lemma {:induction false} UnsoundIsNotSound(e: Evidence, elevated: real, reason: Block)
    requires Unsound(e, elevated, reason)
    ensures !Sound(e, elevated)
  {
    hide Decimal, Text.Upper, Text.Trim;
  }

  lemma {:induction false} GatherExactly(analytes: seq<Evidence>, elevated: real)
    ensures Gather(analytes, elevated).Success? <==> SoundUpTo(analytes, elevated, |analytes|)
    ensures forall reason ::
      Gather(analytes, elevated) == Failure(reason) <==> FirstUnsound(analytes, elevated, reason)
  {
    hide FindingOf, Sound, Unsound;
    if |analytes| > 0 {
      var n := |analytes| - 1;
      var front, last := analytes[..n], analytes[n];
      GatherExactly(front, elevated);
      FrontIsSound(analytes, elevated, n);
      FindingStops(last, elevated);
      var before, f, g := Gather(front, elevated), FindingOf(last, elevated), Gather(analytes, elevated);
      assert g == if before.Failure? then before else if f.Stops? then Failure(f.reason)
             else Success(Note(before.value, f));
      assert SoundUpTo(analytes, elevated, |analytes|) <==> SoundUpTo(front, elevated, n) && Sound(last, elevated);
      hide FirstUnsound, SoundUpTo, Gather;
      forall reason ensures g == Failure(reason) <==> FirstUnsound(analytes, elevated, reason) {
        UnsoundInFront(analytes, elevated, reason);
        assert before == Failure(reason) <==> FirstUnsound(front, elevated, reason);
        if f.Stops? { assert Unsound(last, elevated, reason) <==> reason == f.reason; }
        if Unsound(last, elevated, reason) { UnsoundIsNotSound(last, elevated, reason); }
      }
    }
  }

  lemma {:induction false} UnsoundInFront(analytes: seq<Evidence>, elevated: real, reason: Block)
    requires |analytes| > 0
    ensures var n := |analytes| - 1;
            FirstUnsound(analytes, elevated, reason) <==>
            FirstUnsound(analytes[..n], elevated, reason)
            || (SoundUpTo(analytes[..n], elevated, n) && Unsound(analytes[n], elevated, reason))
  {
    hide Sound, Unsound;
    var n := |analytes| - 1;
    var front := analytes[..n];
    forall i | 0 <= i <= n ensures SoundUpTo(front, elevated, i) <==> SoundUpTo(analytes, elevated, i) {
      FrontIsSound(analytes, elevated, i);
    }
    hide SoundUpTo;
    if FirstUnsound(front, elevated, reason) {
      var i :| 0 <= i < n && Unsound(front[i], elevated, reason) && SoundUpTo(front, elevated, i);
      assert Unsound(analytes[i], elevated, reason) && SoundUpTo(analytes, elevated, i);
    }
    if FirstUnsound(analytes, elevated, reason) {
      var i :| 0 <= i < |analytes| && Unsound(analytes[i], elevated, reason) && SoundUpTo(analytes, elevated, i);
      if i < n { assert Unsound(front[i], elevated, reason) && SoundUpTo(front, elevated, i); }
    }
  }

  ghost predicate Names(analytes: seq<Evidence>, name: string) {
    exists e :: e in analytes && Word(e.canonical) == name
  }

  lemma {:induction false} ResolvedExactly(analytes: seq<Evidence>, elevated: real, name: string)
    requires SoundUpTo(analytes, elevated, |analytes|) && (name == "PFOS" || name == "PFOA")
    ensures Resolved(analytes, elevated, name) <==> Names(analytes, name)
  {
    hide FindingOf, Sound;
    forall i | 0 <= i < |analytes|
      ensures FindingOf(analytes[i], elevated).Resolves? && FindingOf(analytes[i], elevated).name == name <==>
              Word(analytes[i].canonical) == name {
      FindingResolves(analytes[i], elevated);
    }
    hide Word;
    if Names(analytes, name) {
      var e :| e in analytes && Word(e.canonical) == name;
      var i :| 0 <= i < |analytes| && analytes[i] == e;
      assert FindingOf(analytes[i], elevated).Resolves?;
    }
  }

  /** Why a batch has no tier; without such a reason it has one. */
  ghost predicate Barred(pack: RulePack, input: Input, elevated: real, reason: Block) {
    || OutOfScope(pack, input, reason)
    || (InScope(pack, input) && FirstUnsound(input.analytes, elevated, reason))
    || (InScope(pack, input) && SoundUpTo(input.analytes, elevated, |input.analytes|) && reason == AnalytesMissing
          && !(Names(input.analytes, "PFOS") && Names(input.analytes, "PFOA")))
  }

  lemma {:induction false} ConclusionBlocks(pack: RulePack, gathered: Result<Gathered, Block>)
    requires ThresholdsFit(pack)
    ensures Conclude(pack, gathered).block ==
            if gathered.Failure? then Some(gathered.error)
            else if Pfos !in gathered.value.resolved || Pfoa !in gathered.value.resolved then Some(AnalytesMissing)
            else None
  {
    hide Decimal, RuleWithId, RequirementsFor, AtOrAbove, ThresholdsFit;
  }

  lemma {:induction false} NeverMissingByEvidence(e: Evidence, elevated: real)
    ensures !Unsound(e, elevated, AnalytesMissing)
  {}

  /** A batch is barred for exactly the reason given, and if for none then it has a tier. */
  lemma {:induction false} BarredExactly(pack: RulePack, input: Input, reason: Block)
    requires ThresholdsFit(pack)
    ensures var r, elevated := Classification(pack, input), Decimal(pack.elevatedThreshold).value;
            && (r.block == Some(reason) <==> Barred(pack, input, elevated, reason))
            && (r.block.None? <==> r.tier != Undetermined)
            && (r.block.Some? ==> r == Evaluation(Undetermined, "", "", None, [], [], r.block))
  {
    var elevated := Decimal(pack.elevatedThreshold).value;
    ScopeExactly(pack, input);
    GatherExactly(input.analytes, elevated);
    GatherFailsExactly(input.analytes, elevated);
    ConclusionBlocks(pack, Gather(input.analytes, elevated));
    ConcludesExactly(pack, Gather(input.analytes, elevated));
    if SoundUpTo(input.analytes, elevated, |input.analytes|) {
      ResolvedExactly(input.analytes, elevated, "PFOS");
      ResolvedExactly(input.analytes, elevated, "PFOA");
    }
    hide Decimal, Gather, ContextProblem, InScope, OutOfScope, FirstUnsound, SoundUpTo, Names, Resolved, Stopped,
      RuleWithId, RequirementsFor, TierOf, ThresholdsFit;
  }

  // ---------- the tier ----------

  /** A detected value x that no later detection of the same analyte replaces. */
  ghost predicate FinalDetection(analytes: seq<Evidence>, i: int, name: string, x: real) {
    && 0 <= i < |analytes| && Word(analytes[i].canonical) == name && !analytes[i].isNonDetect && ReadsAs(analytes[i], x)
    && forall j :: i < j < |analytes| && Word(analytes[j].canonical) == name ==> analytes[j].isNonDetect
  }

  ghost predicate FinallyDetected(analytes: seq<Evidence>, name: string, x: real) {
    exists i :: FinalDetection(analytes, i, name, x)
  }

  lemma {:induction false} DetectionExactly(e: Evidence, elevated: real, name: string, x: real)
    requires Sound(e, elevated) && (name == "PFOS" || name == "PFOA")
    ensures DetectedBy(e, elevated, name) == Some(x) <==> Word(e.canonical) == name && !e.isNonDetect && ReadsAs(e, x)
    ensures DetectedBy(e, elevated, name).None? <==> Word(e.canonical) != name || e.isNonDetect
  {
    FindingResolves(e, elevated);
    hide FindingOf, Decimal, Word;
    if Word(e.canonical) == name && !e.isNonDetect {
      var y :| ReadsAs(e, y);
      assert FindingOf(e, elevated).detected == Some(y);
    }
  }

  lemma {:induction false} DetectionInFront(analytes: seq<Evidence>, name: string, x: real)
    requires |analytes| > 0
    ensures var n := |analytes| - 1;
            var last := analytes[n];
            FinallyDetected(analytes, name, x) <==>
            if Word(last.canonical) == name && !last.isNonDetect then ReadsAs(last, x)
            else FinallyDetected(analytes[..n], name, x)
  {
    hide Word, ReadsAs;
    var n := |analytes| - 1;
    var front, last := analytes[..n], analytes[n];
    if Word(last.canonical) == name && !last.isNonDetect {
      if ReadsAs(last, x) { assert FinalDetection(analytes, n, name, x); }
    } else {
      forall i | FinalDetection(analytes, i, name, x) ensures FinalDetection(front, i, name, x) {
        assert forall j :: 0 <= j < n ==> front[j] == analytes[j];
      }
      forall i | FinalDetection(front, i, name, x) ensures FinalDetection(analytes, i, name, x) {
        assert forall j :: 0 <= j < n ==> front[j] == analytes[j];
      }
    }
  }

  lemma {:induction false} LastIsFinal(analytes: seq<Evidence>, elevated: real, name: string, x: real)
    requires SoundUpTo(analytes, elevated, |analytes|) && (name == "PFOS" || name == "PFOA")
    ensures LastDetected(analytes, elevated, name) == Some(x) <==> FinallyDetected(analytes, name, x)
  {
    if |analytes| > 0 {
      var n := |analytes| - 1;
      FrontIsSound(analytes, elevated, n);
      DetectionExactly(analytes[n], elevated, name, x);
      DetectionInFront(analytes, name, x);
      hide Word, ReadsAs, DetectedBy, FinallyDetected, Sound;
      LastIsFinal(analytes[..n], elevated, name, x);
    }
  }

  /** The value an analyte ends up with reaches a threshold. */
  ghost predicate Reaches(analytes: seq<Evidence>, name: string, threshold: real) {
    exists x :: FinallyDetected(analytes, name, x) && x >= threshold
  }

  lemma {:induction false} ReachesExactly(analytes: seq<Evidence>, elevated: real, name: string, threshold: real)
    requires SoundUpTo(analytes, elevated, |analytes|) && (name == "PFOS" || name == "PFOA")
    ensures From(LastDetected(analytes, elevated, name), threshold) <==> Reaches(analytes, name, threshold)
  {
    hide FinallyDetected, SoundUpTo, LastDetected;
    var last := LastDetected(analytes, elevated, name);
    if last.Some? { LastIsFinal(analytes, elevated, name, last.value); }
    if Reaches(analytes, name, threshold) {
      var x :| FinallyDetected(analytes, name, x) && x >= threshold;
      LastIsFinal(analytes, elevated, name, x);
    }
  }

  /** The tier of a batch that has one: what either analyte ends up with decides. */
  lemma {:induction false} TierExactly(pack: RulePack, input: Input)
    requires ThresholdsFit(pack) && Classification(pack, input).tier != Undetermined
    ensures var analytes, elevated, prohibited :=
              input.analytes, Decimal(pack.elevatedThreshold).value, Decimal(pack.prohibitedThreshold).value;
            Classification(pack, input).tier ==
            if Reaches(analytes, "PFOS", prohibited) || Reaches(analytes, "PFOA", prohibited) then Prohibited
            else if Reaches(analytes, "PFOS", elevated) || Reaches(analytes, "PFOA", elevated) then Elevated
            else Standard
  {
    var analytes, elevated, prohibited :=
      input.analytes, Decimal(pack.elevatedThreshold).value, Decimal(pack.prohibitedThreshold).value;
    TierOfGathered(pack, input);
    GatherExactly(analytes, elevated);
    hide Decimal, Classification, Gather, SoundUpTo, LastDetected, Reaches, From, ThresholdsFit;
    TierByLast(analytes, elevated, prohibited);
    ReachesExactly(analytes, elevated, "PFOS", prohibited);
    ReachesExactly(analytes, elevated, "PFOA", prohibited);
    ReachesExactly(analytes, elevated, "PFOS", elevated);
    ReachesExactly(analytes, elevated, "PFOA", elevated);
  }

  lemma {:induction false} TierOfGathered(pack: RulePack, input: Input)
    requires ThresholdsFit(pack) && Classification(pack, input).tier != Undetermined
    ensures var elevated, prohibited := Decimal(pack.elevatedThreshold).value, Decimal(pack.prohibitedThreshold).value;
            var g := Gather(input.analytes, elevated);
            g.Success? && Classification(pack, input).tier == TierOf(g.value.values, elevated, prohibited)
  {
    hide Decimal, Gather, ContextProblem, TierOf, RuleWithId, RequirementsFor;
  }

  // ---------- the rule and the requirements ----------

  /** How many of the definitions name the tier. */
  ghost function CountFor(definitions: seq<RequirementDefinition>, tier: Tier): nat {
    |Positions(definitions, (d: RequirementDefinition) => tier in d.tiers)|
  }

  /** The definitions that name the tier, all of them and in their order. */
  lemma {:induction false} RequirementsExactly(definitions: seq<RequirementDefinition>, tier: Tier)
    ensures |RequirementsFor(definitions, tier)| == CountFor(definitions, tier)
    ensures forall i :: 0 <= i < |definitions| && tier in definitions[i].tiers ==>
              var k := CountFor(definitions[..i], tier);
              k < |RequirementsFor(definitions, tier)| && RequirementsFor(definitions, tier)[k] == definitions[i]
  {
    if |definitions| == 0 {
      NoPositions(definitions, (d: RequirementDefinition) => tier in d.tiers);
    } else {
      var n := |definitions| - 1;
      RequirementsExactly(definitions[..n], tier);
      PositionsStep(definitions, (d: RequirementDefinition) => tier in d.tiers);
      hide Positions;
      forall i | 0 <= i < n && tier in definitions[i].tiers
        ensures var k := CountFor(definitions[..i], tier);
                k < |RequirementsFor(definitions, tier)| && RequirementsFor(definitions, tier)[k] == definitions[i] {
        assert definitions[..n][..i] == definitions[..i] && definitions[..n][i] == definitions[i];
      }
    }
  }

  /** The first rule of a pack with an id. */
  ghost predicate FirstRule(rules: seq<Rule>, id: string, rule: Rule) {
    exists i :: 0 <= i < |rules| && rules[i] == rule && rule.id == id && forall k :: 0 <= k < i ==> rules[k].id != id
  }

  lemma {:induction false} RuleExactly(rules: seq<Rule>, id: string, rule: Rule)
    ensures RuleWithId(rules, id) == Some(rule) <==> FirstRule(rules, id, rule)
  {
    if |rules| > 0 {
      RuleExactly(rules[1..], id, rule);
      if FirstRule(rules, id, rule) && rules[0].id != id {
        var i :| 0 <= i < |rules| && rules[i] == rule && rule.id == id && forall k :: 0 <= k < i ==> rules[k].id != id;
        assert rules[1..][i - 1] == rule;
        assert forall k :: 0 <= k < i - 1 ==> rules[1..][k] == rules[k + 1];
      }
      if FirstRule(rules[1..], id, rule) && rules[0].id != id {
        var i :| 0 <= i < |rules| - 1 && rules[1..][i] == rule && rule.id == id
          && forall k :: 0 <= k < i ==> rules[1..][k].id != id;
        assert rules[i + 1] == rule;
        forall k | 0 <= k < i + 1 ensures rules[k].id != id {
          if k > 0 { assert rules[1..][k - 1] == rules[k]; }
        }
      }
    }
  }

  lemma {:induction false} MatchedResult(pack: RulePack, input: Input)
    requires ThresholdsFit(pack) && Classification(pack, input).tier != Undetermined
    ensures Classification(pack, input) == Matched(pack, Classification(pack, input).tier)
  {
    hide Decimal, Gather, ContextProblem, TierOf, RuleWithId, RequirementsFor;
  }

  /** What comes with a tier: the text, rate and bans of its rule, and the requirements that name it. */
  lemma {:induction false} ResultExactly(pack: RulePack, input: Input, rule: Rule)
    requires ThresholdsFit(pack) && Classification(pack, input).tier != Undetermined
    ensures var r := Classification(pack, input);
            && r.ruleId == (if r.tier == Prohibited then "MI-PFAS-PROHIBIT-100"
                            else if r.tier == Elevated then "MI-PFAS-ELEVATED-20"
                            else "MI-PFAS-STANDARD-BELOW-20")
            && (FirstRule(pack.rules, r.ruleId, rule) ==>
                r.explanation == rule.explanation && r.maximumRate == rule.maximumRate
                  && r.prohibitedActions == rule.prohibitedActions)
            && |r.requirements| == CountFor(pack.requirements, r.tier)
            && forall i :: 0 <= i < |pack.requirements| && r.tier in pack.requirements[i].tiers ==>
                var k := CountFor(pack.requirements[..i], r.tier);
                k < |r.requirements| && r.requirements[k] == pack.requirements[i]
  {
    var r := Classification(pack, input);
    MatchedResult(pack, input);
    RequirementsExactly(pack.requirements, r.tier);
    RuleExactly(pack.rules, r.ruleId, rule);
    hide Classification, ThresholdsFit, RuleWithId, RequirementsFor, FirstRule, CountFor;
  }

  // ---------- valid packs ----------

  predicate Stated(text: string) { Text.Trim(text) != "" }

  predicate IsProhibition(pack: RulePack, rule: Rule) {
    && rule.id == "MI-PFAS-PROHIBIT-100" && rule.tier == Prohibited && rule.operator == "ANY_GTE"
    && rule.threshold == pack.prohibitedThreshold && Stated(rule.explanation)
    && "LAND_APPLICATION" in rule.prohibitedActions
  }

  predicate IsElevation(pack: RulePack, rule: Rule) {
    && rule.id == "MI-PFAS-ELEVATED-20" && rule.tier == Elevated && rule.operator == "ANY_GTE"
    && rule.threshold == pack.elevatedThreshold && Stated(rule.explanation)
    && rule.maximumRate.Some? && Decimal(rule.maximumRate.value).Some? && Decimal(rule.maximumRate.value).value > 0.0
  }

  predicate IsStandard(pack: RulePack, rule: Rule) {
    && rule.id == "MI-PFAS-STANDARD-BELOW-20" && rule.tier == Standard && rule.operator == "ALL_LT"
    && rule.threshold == pack.elevatedThreshold && Stated(rule.explanation)
  }

  /** One rule of each kind, in any order. */
  ghost predicate OneOfEach(pack: RulePack) {
    && |pack.rules| == 3
    && (exists rule :: rule in pack.rules && IsProhibition(pack, rule))
    && (exists rule :: rule in pack.rules && IsElevation(pack, rule))
    && (exists rule :: rule in pack.rules && IsStandard(pack, rule))
  }

  ghost predicate Complete(pack: RulePack) {
    && |pack.requirements| > 0
    && (forall i :: 0 <= i < |pack.requirements| ==>
          && Stated(pack.requirements[i].id) && Stated(pack.requirements[i].title)
          && Stated(pack.requirements[i].detail)
          && Stated(pack.requirements[i].timing)
          && |pack.requirements[i].tiers| > 0 && Undetermined !in pack.requirements[i].tiers)
    && (forall i, j :: 0 <= i < j < |pack.requirements| ==> pack.requirements[i].id != pack.requirements[j].id)
  }

  lemma {:induction false} RuleFitsExactly(pack: RulePack, rule: Rule)
    ensures RuleFits(pack, rule) <==> IsProhibition(pack, rule) || IsElevation(pack, rule) || IsStandard(pack, rule)
  {
    hide Decimal, Text.Trim;
  }

  ghost predicate FittingAndDistinct(pack: RulePack) {
    && (forall i :: 0 <= i < |pack.rules| ==> RuleFits(pack, pack.rules[i]))
    && (forall i, j :: 0 <= i < j < |pack.rules| ==> pack.rules[i].id != pack.rules[j].id)
  }

  lemma {:induction false} KindsDiffer(pack: RulePack, p: Rule, e: Rule, s: Rule)
    requires IsProhibition(pack, p) && IsElevation(pack, e) && IsStandard(pack, s)
    ensures p.id != e.id && p.id != s.id && e.id != s.id
  {
    hide Decimal, Stated;
    assert |p.id| == 20 && |e.id| == 19 && |s.id| == 25;
  }

  lemma {:induction false} KindsFit(pack: RulePack, i: nat, j: nat, k: nat)
    requires |pack.rules| == 3 && i < 3 && j < 3 && k < 3
    requires IsProhibition(pack, pack.rules[i]) && IsElevation(pack, pack.rules[j]) && IsStandard(pack, pack.rules[k])
    ensures FittingAndDistinct(pack)
  {
    RuleFitsExactly(pack, pack.rules[i]);
    RuleFitsExactly(pack, pack.rules[j]);
    RuleFitsExactly(pack, pack.rules[k]);
    KindsDiffer(pack, pack.rules[i], pack.rules[j], pack.rules[k]);
    hide RuleFits, IsProhibition, IsElevation, IsStandard;
    forall n | 0 <= n < |pack.rules| ensures RuleFits(pack, pack.rules[n]) { assert n == i || n == j || n == k; }
    forall m, n | 0 <= m < n < |pack.rules| ensures pack.rules[m].id != pack.rules[n].id {
      assert (m == i || m == j || m == k) && (n == i || n == j || n == k);
    }
  }

  lemma {:induction false} KindsPresent(pack: RulePack)
    requires |pack.rules| == 3 && FittingAndDistinct(pack)
    ensures OneOfEach(pack)
  {
    forall id | IsKnownRule(id)
      ensures exists rule :: rule in pack.rules && rule.id == id && RuleFits(pack, rule) {
      var i := KnownAt(pack, id);
      assert pack.rules[i] in pack.rules;
    }
    forall rule ensures RuleFits(pack, rule) <==>
                        IsProhibition(pack, rule) || IsElevation(pack, rule) || IsStandard(pack, rule) {
      RuleFitsExactly(pack, rule);
    }
    assert IsKnownRule("MI-PFAS-PROHIBIT-100") && IsKnownRule("MI-PFAS-ELEVATED-20")
        && IsKnownRule("MI-PFAS-STANDARD-BELOW-20");
    hide RuleFits, Decimal, Stated, FittingAndDistinct, IsKnownRule;
  }

  lemma {:induction false} KnownAt(pack: RulePack, id: string) returns (i: nat)
    requires |pack.rules| == 3 && FittingAndDistinct(pack) && IsKnownRule(id)
    ensures i < 3 && pack.rules[i].id == id && RuleFits(pack, pack.rules[i])
  {
    forall k | 0 <= k < 3 ensures IsKnownRule(pack.rules[k].id) { FitsIsKnown(pack, pack.rules[k]); }
    hide RuleFits, IsKnownRule;
    i := Pigeonhole(pack.rules[0].id, pack.rules[1].id, pack.rules[2].id, id);
  }

  lemma {:induction false} RulesExactly(pack: RulePack)
    ensures OneOfEach(pack) <==> |pack.rules| == 3 && FittingAndDistinct(pack)
  {
    hide IsProhibition, IsElevation, IsStandard, FittingAndDistinct;
    if OneOfEach(pack) {
      var p :| p in pack.rules && IsProhibition(pack, p);
      var e :| e in pack.rules && IsElevation(pack, e);
      var s :| s in pack.rules && IsStandard(pack, s);
      var i :| 0 <= i < |pack.rules| && pack.rules[i] == p;
      var j :| 0 <= j < |pack.rules| && pack.rules[j] == e;
      var k :| 0 <= k < |pack.rules| && pack.rules[k] == s;
      KindsFit(pack, i, j, k);
    } else if |pack.rules| == 3 && FittingAndDistinct(pack) {
      KindsPresent(pack);
      assert false;
    }
  }

  /**
    A pack is valid when it is reviewed, its thresholds ascend, and it has one rule of each kind and
    complete requirements.
  */
  lemma {:induction false} ValidExactly(pack: RulePack)
    ensures ValidPack(pack) <==>
            && pack.reviewed && OneOfEach(pack) && Complete(pack)
            && |pack.methodTokens| > 0 && (forall token :: token in pack.methodTokens ==> Stated(token))
            && Decimal(pack.elevatedThreshold).Some? && Decimal(pack.prohibitedThreshold).Some?
            && 0.0 <= Decimal(pack.elevatedThreshold).value < Decimal(pack.prohibitedThreshold).value
  {
    RulesExactly(pack);
    TokensStated(pack.methodTokens);
    hide RuleFits, Decimal, Text.Trim, OneOfEach;
  }

  lemma {:induction false} TokensStated(tokens: seq<string>)
    ensures (forall token :: token in tokens ==> Stated(token)) <==>
            forall i :: 0 <= i < |tokens| ==> Stated(tokens[i])
  {}
}
