/**
  Laboratory drafts: how a reported result becomes an analyte, the gaps found in a draft, and
  the evidence a draft passes on to the classifier.  Recognising analyte names, units and bases
  in text is left to `Labels`.
*/
module LabDraft {
  import opened Wrappers
  import opened Decimals
  import Classifier
  import Text

  datatype Labels = Labels(
    analyteOf: string -> string, unitOf: string -> Option<MassUnit>, basisOf: string -> Option<Basis>,
    matrixOf: string -> string, isDate: string -> bool)

  datatype Analyte = Analyte(
    canonical: string, resultText: string, value: Option<string>, unit: Option<MassUnit>, basis: Option<Basis>,
    qualifier: Option<string>, isNonDetect: bool, reportingLimit: Option<string>, detectionLimit: Option<string>,
    normalizedValue: Option<string>, normalizedReporting: Option<string>, normalizedDetection: Option<string>,
    sourcePage: int, sourceExcerpt: string)

  datatype RawDraft = RawDraft(
    laboratory: Option<string>, sampleIdentifier: Option<string>, collectionDate: Option<string>,
    matrix: Option<string>,
    labMethod: Option<string>, basis: Option<string>, analytes: seq<Analyte>)

  datatype Draft = Draft(
    laboratory: Option<string>, sampleIdentifier: Option<string>, collectionDate: Option<string>,
    matrix: Option<string>,
    labMethod: Option<string>, basis: Option<Basis>, analytes: seq<Analyte>)

  datatype Gap =
    | MissingLaboratory | MissingSampleIdentifier | MissingCollectionDate | InvalidCollectionDate | MissingMatrix
    | UnverifiedMatrix | MissingMethod | MissingBasis
    | MissingAnalyte(name: string) | ConflictingResults(name: string)
    | AmbiguousResult(name: string) | MissingUnit(name: string) | MissingAnalyteBasis(name: string)
    | MissingReportingLimit(name: string) | InvalidSourcePage(name: string) | MissingSourceExcerpt(name: string)
    | InvalidResultNumber(name: string) | InvalidReportingLimit(name: string) | InvalidDetectionLimit(name: string)
    | UnsupportedConcentrationUnit(name: string) | MissingPercentSolids(name: string)

  // ---------- one reported result ----------

  function CleanPointer(value: Option<string>): Option<string> {
    if value.None? || Text.Clean(value.value) == "" then None else Some(Text.Clean(value.value))
  }

  predicate MeansNonDetect(qualifier: Option<string>) {
    qualifier.Some? && (Text.Upper(qualifier.value) == "ND" || Text.Upper(qualifier.value) == "U"
                        || Text.Upper(qualifier.value) == "UJ")
  }

  function Apply<T>(f: string -> Option<T>, text: Option<string>): Option<T> {
    if text.None? then None else f(text.value)
  }

  predicate BelowLimit(result: string) { |result| > 0 && result[0] == '<' }

  /** `analyteFromResult` */
  function AnalyteFromResult(labels: Labels, name: string, reported: string, unit: Option<string>,
                             basis: Option<string>, qualifier: Option<string>, reportingLimit: Option<string>,
                             detectionLimit: Option<string>): Analyte
  {
    var result := Text.Clean(reported);
    var cleanQualifier := CleanPointer(qualifier);
    var isNonDetect := Text.Upper(result) == "ND" || BelowLimit(result) || MeansNonDetect(cleanQualifier);
    var value := if !isNonDetect && result != ""
      && CanonicalDecimal(result).Success? then Some(CanonicalDecimal(result).value) else None;
    var limit := if reportingLimit.None? && BelowLimit(result) then Some(result[1..]) else reportingLimit;
    Analyte(labels.analyteOf(name), result, value, Apply(labels.unitOf, unit), Apply(labels.basisOf, basis),
            if isNonDetect && cleanQualifier.None? then Some("ND") else cleanQualifier,
            isNonDetect, CleanPointer(limit), CleanPointer(detectionLimit), None, None, None, 0, "")
  }

  /** What every analyte in a draft satisfies: its value is canonical, its limits are not blank. */
  predicate WellRead(a: Analyte) {
    && (a.value.Some? ==>
        !a.isNonDetect && CanonicalDecimal(a.value.value) == Success(a.value.value) && !Text.IsBlank(a.value.value))
    && (a.reportingLimit.Some? ==> !Text.IsBlank(a.reportingLimit.value))
    && (a.detectionLimit.Some? ==> !Text.IsBlank(a.detectionLimit.value))
  }

  lemma {:induction false} CleanPointerIsNotBlank(value: Option<string>)
    ensures CleanPointer(value).Some? ==> !Text.IsBlank(CleanPointer(value).value)
  {
    hide Text.Clean, Text.Trim;
    if value.Some? { Text.CleanIsBlankOrEmpty(value.value); }
  }

  /** Whatever a report says, reading a result yields a well-read analyte. */
  lemma {:induction false} ResultsAreWellRead(labels: Labels, name: string, reported: string, unit: Option<string>,
                                              basis: Option<string>, qualifier: Option<string>,
                                              reportingLimit: Option<string>, detectionLimit: Option<string>)
    ensures WellRead(AnalyteFromResult(labels, name, reported, unit, basis, qualifier, reportingLimit, detectionLimit))
  {
    hide CanonicalDecimal, Text.Clean, Text.IsBlank, Text.Upper, CleanPointer;
    var result := Text.Clean(reported);
    CleanPointerIsNotBlank(detectionLimit);
    CleanPointerIsNotBlank(if reportingLimit.None? && BelowLimit(result) then Some(result[1..]) else reportingLimit);
    if CanonicalDecimal(result).Success? { CanonicalStays(result); }
  }

  lemma {:induction false} CanonicalStays(input: string)
    requires CanonicalDecimal(input).Success?
    ensures var text := CanonicalDecimal(input).value;
            CanonicalDecimal(text) == Success(text) && !Text.IsBlank(text)
  {
    hide CanonicalDecimal, IsNormal, Text.Trim;
    CanonicalPreservesValue(input);
    CanonicalIsIdempotent(input);
    NormalIsTrimmed(CanonicalDecimal(input).value);
    NormalIsClean(CanonicalDecimal(input).value);
  }

  // ---------- the gaps of one analyte ----------

  /** `decimalPointer` */
  function DecimalPointer(input: Option<string>): Result<Option<string>, DecimalError> {
    if input.None? || Text.IsBlank(input.value) then Success(None)
    else
      var text :- CanonicalDecimal(input.value);
      Success(Some(text))
  }

  /** What is kept after an attempt: nothing when the number is refused. */
  function Kept(r: Result<Option<string>, DecimalError>): Option<string> { if r.Success? then r.value else None }

  /** The converted number, if there is one and it can be converted. */
  function Normalized(value: Option<string>, unit: MassUnit, basis: Basis,
                      percentSolids: Option<string>): Option<string> {
    if value.None? then None else Kept(NormalizeConcentration(value.value, unit, basis, percentSolids))
  }

  function When(condition: bool, gap: Gap): seq<Gap> { if condition then [gap] else [] }

  /** The gaps in what was entered, in order. */
  function EntryGaps(a: Analyte, pageCount: nat): seq<Gap> {
    When(Text.IsBlank(a.resultText) || (!a.isNonDetect && a.value.None?), AmbiguousResult(a.canonical))
    + When(a.unit.None?, MissingUnit(a.canonical))
    + When(a.basis.None?, MissingAnalyteBasis(a.canonical))
    + When(a.isNonDetect && a.reportingLimit.None?, MissingReportingLimit(a.canonical))
    + When(a.sourcePage < 1 || a.sourcePage > pageCount, InvalidSourcePage(a.canonical))
    + When(Text.IsBlank(a.sourceExcerpt), MissingSourceExcerpt(a.canonical))
  }

  function NumberGaps(a: Analyte): seq<Gap> {
    When(DecimalPointer(a.value).Failure?, InvalidResultNumber(a.canonical))
    + When(DecimalPointer(a.reportingLimit).Failure?, InvalidReportingLimit(a.canonical))
    + When(DecimalPointer(a.detectionLimit).Failure?, InvalidDetectionLimit(a.canonical))
  }

  function ConversionGaps(a: Analyte, percentSolids: Option<string>): seq<Gap> {
    if a.unit.None? || a.basis.None? then []
    else
      When(a.unit == Some(UgPerL), UnsupportedConcentrationUnit(a.canonical))
      + When(a.basis == Some(Wet) && percentSolids.None?, MissingPercentSolids(a.canonical))
  }

  /** The gaps of an analyte, in order. */
  function AnalyteGaps(a: Analyte, percentSolids: Option<string>, pageCount: nat): seq<Gap> {
    EntryGaps(a, pageCount) + NumberGaps(a) + ConversionGaps(a, percentSolids)
  }

  /** The analyte with its numbers in normal form, without those that are no numbers. */
  function WithCanonicalNumbers(a: Analyte): Analyte {
    a.(value := Kept(DecimalPointer(a.value)), reportingLimit := Kept(DecimalPointer(a.reportingLimit)),
       detectionLimit := Kept(DecimalPointer(a.detectionLimit)))
  }

  /** The analyte with its numbers in normal form and converted. */
  function Normalize(a: Analyte, percentSolids: Option<string>): Analyte {
    var canonical := WithCanonicalNumbers(a);
    if a.unit.None? || a.basis.None? then canonical
    else
      var unit, basis := a.unit.value, a.basis.value;
      canonical.(normalizedValue := Normalized(canonical.value, unit, basis, percentSolids),
                 normalizedReporting := Normalized(canonical.reportingLimit, unit, basis, percentSolids),
                 normalizedDetection := Normalized(canonical.detectionLimit, unit, basis, percentSolids))
  }

  /** `normalizePointer` */
  method NormalizePointer(value: Option<string>, unit: MassUnit, basis: Basis, percentSolids: Option<string>)
    returns (r: Option<string>)
    ensures r == Normalized(value, unit, basis, percentSolids)
  {
    hide NormalizeConcentration;
    if value.None? { return None; }
    var converted := Convert(value.value, unit, basis, percentSolids);
    return Kept(converted);
  }

  /** `validateAnalyte`: the analyte is brought into normal form while its gaps are collected. */
  method ValidateAnalyte(a: Analyte, percentSolids: Option<string>, pageCount: nat)
    returns (analyte: Analyte, gaps: seq<Gap>)
    ensures analyte == Normalize(a, percentSolids) && gaps == AnalyteGaps(a, percentSolids, pageCount)
  {
    hide DecimalPointer, Normalized, Text.IsBlank, EntryGaps, NumberGaps, When;
    gaps := EntryGaps(a, pageCount);
    var more;
    analyte, more := CanonicalizeNumbers(a);
    gaps := gaps + more;
    if analyte.unit.Some? && analyte.basis.Some? {
      var unit, basis := analyte.unit.value, analyte.basis.value;
      var normalized := NormalizePointer(analyte.value, unit, basis, percentSolids);
      analyte := analyte.(normalizedValue := normalized);
      normalized := NormalizePointer(analyte.reportingLimit, unit, basis, percentSolids);
      analyte := analyte.(normalizedReporting := normalized);
      normalized := NormalizePointer(analyte.detectionLimit, unit, basis, percentSolids);
      analyte := analyte.(normalizedDetection := normalized);
    }
    gaps := gaps + ConversionGaps(a, percentSolids);
  }

  /** The numbers of an analyte replaced by their normal forms, one after the other. */
  method CanonicalizeNumbers(a: Analyte) returns (analyte: Analyte, gaps: seq<Gap>)
    ensures analyte == WithCanonicalNumbers(a) && gaps == NumberGaps(a)
  {
    hide DecimalPointer;
    analyte := a;
    var number := DecimalPointer(analyte.value);
    analyte := analyte.(value := Kept(number));
    gaps := When(number.Failure?, InvalidResultNumber(a.canonical));
    number := DecimalPointer(analyte.reportingLimit);
    analyte := analyte.(reportingLimit := Kept(number));
    gaps := gaps + When(number.Failure?, InvalidReportingLimit(a.canonical));
    number := DecimalPointer(analyte.detectionLimit);
    analyte := analyte.(detectionLimit := Kept(number));
    gaps := gaps + When(number.Failure?, InvalidDetectionLimit(a.canonical));
  }

  // ---------- the draft ----------

  /** `equivalentAnalyte` */
  predicate Equivalent(a: Analyte, b: Analyte) {
    a.resultText == b.resultText && a.unit == b.unit && a.basis == b.basis && a.qualifier == b.qualifier
  }

  /** The results read for one analyte, in order. */
  function ResultsFor(analytes: seq<Analyte>, name: string): seq<Analyte> {
    if |analytes| == 0 then []
    else
      ResultsFor(analytes[..|analytes| - 1], name)
      + (if analytes[|analytes| - 1].canonical == name then [analytes[|analytes| - 1]] else [])
  }

  predicate Conflicting(results: seq<Analyte>) {
    exists i :: 0 < i < |results| && !Equivalent(results[0], results[i])
  }

  /** The result kept for an analyte, with the report's basis when it has none of its own. */
  function Chosen(results: seq<Analyte>, basis: Option<Basis>): Analyte
    requires |results| > 0
  {
    if results[0].basis.None? then results[0].(basis := basis) else results[0]
  }

  function NamedGaps(analytes: seq<Analyte>, name: string, basis: Option<Basis>, percentSolids: Option<string>,
                     pageCount: nat): seq<Gap> {
    var results := ResultsFor(analytes, name);
    if |results| == 0 then [MissingAnalyte(name)]
    else When(Conflicting(results), ConflictingResults(name))
         + AnalyteGaps(Chosen(results, basis), percentSolids, pageCount)
  }

  function NamedAnalyte(analytes: seq<Analyte>, name: string, basis: Option<Basis>,
                        percentSolids: Option<string>): seq<Analyte> {
    var results := ResultsFor(analytes, name);
    if |results| == 0 then [] else [Normalize(Chosen(results, basis), percentSolids)]
  }

  /** The gaps about the report itself. */
  function ReportGaps(labels: Labels, d: Draft): seq<Gap> {
    When(d.laboratory.None?, MissingLaboratory)
    + When(d.sampleIdentifier.None?, MissingSampleIdentifier)
    + When(d.collectionDate.None?, MissingCollectionDate)
    + When(d.collectionDate.Some? && !labels.isDate(d.collectionDate.value), InvalidCollectionDate)
    + When(d.matrix.None?, MissingMatrix)
    + When(d.matrix.Some? && d.matrix.value != "BIOSOLIDS", UnverifiedMatrix)
    + When(d.labMethod.None?, MissingMethod)
    + When(d.basis.None?, MissingBasis)
  }

  function Header(labels: Labels, raw: RawDraft): Draft {
    Draft(CleanPointer(raw.laboratory), CleanPointer(raw.sampleIdentifier), CleanPointer(raw.collectionDate),
          if raw.matrix.None? then None else Some(labels.matrixOf(raw.matrix.value)),
          CleanPointer(raw.labMethod), Apply(labels.basisOf, raw.basis), [])
  }

  function ValidatedDraft(labels: Labels, raw: RawDraft, pageCount: nat,
                          percentSolids: Option<string>): (Draft, seq<Gap>) {
    var header := Header(labels, raw);
    (header.(analytes := NamedAnalyte(raw.analytes, Classifier.Pfos, header.basis, percentSolids)
                         + NamedAnalyte(raw.analytes, Classifier.Pfoa, header.basis, percentSolids)),
     ReportGaps(labels, header)
     + NamedGaps(raw.analytes, Classifier.Pfos, header.basis, percentSolids, pageCount)
     + NamedGaps(raw.analytes, Classifier.Pfoa, header.basis, percentSolids, pageCount))
  }

  /** The first result of one analyte, checked against the others. */
  method SelectAnalyte(results: seq<Analyte>, name: string, basis: Option<Basis>, percentSolids: Option<string>,
                       pageCount: nat)
    returns (selected: seq<Analyte>, gaps: seq<Gap>)
    ensures selected == (if |results| == 0 then [] else [Normalize(Chosen(results, basis), percentSolids)])
    ensures gaps == if |results| == 0 then [MissingAnalyte(name)]
                    else When(Conflicting(results), ConflictingResults(name))
                         + AnalyteGaps(Chosen(results, basis), percentSolids, pageCount)
  {
    hide Normalize, AnalyteGaps;
    if |results| == 0 { return [], [MissingAnalyte(name)]; }
    gaps := [];
    var i := 1;
    while i < |results|
      invariant 1 <= i <= |results| && gaps == [] && forall k :: 0 < k < i ==> Equivalent(results[0], results[k])
    {
      if !Equivalent(results[0], results[i]) {
        gaps := [ConflictingResults(name)];
        break;
      }
      i := i + 1;
    }
    var analyte, analyteGaps := ValidateAnalyte(Chosen(results, basis), percentSolids, pageCount);
    return [analyte], gaps + analyteGaps;
  }

  /** `validateDraft`: groups the analytes by name, then selects and validates PFOS and PFOA. */
  method ValidateDraft(labels: Labels, raw: RawDraft, pageCount: nat, percentSolids: Option<string>)
    returns (draft: Draft, gaps: seq<Gap>)
    ensures (draft, gaps) == ValidatedDraft(labels, raw, pageCount, percentSolids)
  {
    hide AnalyteGaps, Normalize, Header, ReportGaps, Conflicting;
    draft := Header(labels, raw);
    gaps := ReportGaps(labels, draft);
    var grouped: map<string, seq<Analyte>> := map[];
    for i := 0 to |raw.analytes|
      invariant forall name :: name != "" ==>
                  ResultsFor(raw.analytes[..i], name) == if name in grouped then grouped[name] else []
    {
      var a := raw.analytes[i];
      assert raw.analytes[..i + 1][..i] == raw.analytes[..i];
      if a.canonical == "" { continue; }
      grouped := grouped[a.canonical := (if a.canonical in grouped then grouped[a.canonical] else []) + [a]];
    }
    assert raw.analytes[..|raw.analytes|] == raw.analytes;
    var pfos, pfosGaps := SelectAnalyte(if Classifier.Pfos in grouped then grouped[Classifier.Pfos] else [],
                                        Classifier.Pfos, draft.basis,
                                        percentSolids, pageCount);
    var pfoa, pfoaGaps := SelectAnalyte(if Classifier.Pfoa in grouped then grouped[Classifier.Pfoa] else [],
                                        Classifier.Pfoa, draft.basis,
                                        percentSolids, pageCount);
    gaps := gaps + pfosGaps + pfoaGaps;
    draft := draft.(analytes := pfos + pfoa);
  }

  // ---------- what the classifier is given ----------

  /** The limit a non-detect is judged by: the reporting limit, or else the detection limit. */
  function UpperBound(a: Analyte): Option<string> {
    if !a.isNonDetect then None
    else if a.normalizedReporting.Some? then a.normalizedReporting
    else a.normalizedDetection
  }

  function EvidenceOf(a: Analyte): Classifier.Evidence {
    Classifier.Evidence(a.canonical, a.isNonDetect, a.normalizedValue, UpperBound(a))
  }

  function EvidenceOfAll(analytes: seq<Analyte>): (r: seq<Classifier.Evidence>)
    ensures |r| == |analytes| && forall i :: 0 <= i < |r| ==> r[i] == EvidenceOf(analytes[i])
  {
    seq(|analytes|, i requires 0 <= i < |analytes| => EvidenceOf(analytes[i]))
  }

  function BasisText(basis: Option<Basis>): Option<string> {
    match basis
    case None => None
    case Some(Dry) => Some("DRY")
    case Some(Wet) => Some("WET")
  }

  /** `policyInput` */
  method PolicyInput(draft: Draft) returns (input: Classifier.Input)
    ensures input == Classifier.Input("MI", draft.matrix, draft.labMethod, BasisText(draft.basis),
                                      EvidenceOfAll(draft.analytes))
  {
    var analytes: seq<Classifier.Evidence> := [];
    for i := 0 to |draft.analytes|
      invariant |analytes| == i && forall k :: 0 <= k < i ==> analytes[k] == EvidenceOf(draft.analytes[k])
    {
      var a := draft.analytes[i];
      var upperBound: Option<string> := None;
      if a.isNonDetect {
        upperBound := a.normalizedReporting;
        if upperBound.None? { upperBound := a.normalizedDetection; }
      }
      analytes := analytes + [Classifier.Evidence(a.canonical, a.isNonDetect, a.normalizedValue, upperBound)];
    }
    input := Classifier.Input("MI", draft.matrix, draft.labMethod, BasisText(draft.basis), analytes);
  }
}
