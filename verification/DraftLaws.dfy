/**
  What a laboratory draft says about the report it was made of: which gap is raised when, and
  what becomes of the results.
*/
module DraftLaws {
  import opened Wrappers
  import opened Decimals
  import opened LabDraft
  import Text

  // ---------- the result an analyte is judged by ----------

  /** The first result of an analyte in the report. */
  ghost predicate FirstResult(analytes: seq<Analyte>, name: string, a: Analyte) {
    exists i :: 0 <= i < |analytes| && analytes[i] == a && a.canonical == name && NoneBefore(analytes, name, i)
  }

  ghost predicate NoneBefore(analytes: seq<Analyte>, name: string, end: int)
    requires end <= |analytes|
  {
    forall k :: 0 <= k < end ==> analytes[k].canonical != name
  }

  lemma {:induction false} ResultsAreNamed(analytes: seq<Analyte>, name: string, a: Analyte)
    ensures a in ResultsFor(analytes, name) <==> a in analytes && a.canonical == name
  {
    if |analytes| > 0 {
      var n := |analytes| - 1;
      ResultsAreNamed(analytes[..n], name, a);
      assert analytes == analytes[..n] + [analytes[n]];
    }
  }

  lemma {:induction false} FirstIsFirst(analytes: seq<Analyte>, name: string)
    ensures |ResultsFor(analytes, name)| == 0 <==> NoneBefore(analytes, name, |analytes|)
    ensures |ResultsFor(analytes, name)| > 0 ==> FirstResult(analytes, name, ResultsFor(analytes, name)[0])
  {
    if |analytes| > 0 {
      var n := |analytes| - 1;
      var front := analytes[..n];
      FirstIsFirst(front, name);
      if |ResultsFor(front, name)| > 0 {
        var i :| 0 <= i < n && front[i] == ResultsFor(front, name)[0] && front[i].canonical == name
          && NoneBefore(front, name, i);
        assert analytes[i] == front[i] && NoneBefore(analytes, name, i);
        assert ResultsFor(analytes, name)[0] == analytes[i];
      } else {
        assert NoneBefore(analytes, name, n);
      }
    }
  }

  lemma {:induction false} OneFirst(analytes: seq<Analyte>, name: string, a: Analyte, b: Analyte)
    requires FirstResult(analytes, name, a) && FirstResult(analytes, name, b)
    ensures a == b
  {}

  /** Some result of the same analyte differs from the first in its text, unit, basis or qualifier. */
  ghost predicate Contradicted(analytes: seq<Analyte>, a: Analyte) {
    exists b :: b in analytes && b.canonical == a.canonical &&
        (b.resultText != a.resultText || b.unit != a.unit || b.basis != a.basis || b.qualifier != a.qualifier)
  }

  lemma {:induction false} ConflictExactly(analytes: seq<Analyte>, name: string)
    requires |ResultsFor(analytes, name)| > 0
    ensures Conflicting(ResultsFor(analytes, name)) <==> Contradicted(analytes, ResultsFor(analytes, name)[0])
  {
    var results := ResultsFor(analytes, name);
    forall b ensures b in results <==> b in analytes && b.canonical == name { ResultsAreNamed(analytes, name, b); }
    hide ResultsFor;
    assert results[0] in results && Equivalent(results[0], results[0]);
    if Contradicted(analytes, results[0]) {
      var b :| b in analytes && b.canonical == name && !Equivalent(results[0], b);
      var i :| 0 <= i < |results| && results[i] == b;
    }
    if Conflicting(results) {
      var i :| 0 < i < |results| && !Equivalent(results[0], results[i]);
      assert results[i] in results;
    }
  }

  // ---------- the gaps ----------

  /** Nothing but white space, or nothing at all. */
  predicate Blank(value: Option<string>) { value.None? || Text.Clean(value.value) == "" }

  predicate Stated(value: Option<string>) { value.Some? && Text.Trim(value.value) != "" }

  predicate IsNoNumber(value: Option<string>) { Stated(value) && CanonicalDecimal(value.value).Failure? }

  /** The basis an analyte is taken to have: its own, or else the report's. */
  function BasisOf(labels: Labels, raw: RawDraft, a: Analyte): Option<Basis> {
    if a.basis.Some? then a.basis else if raw.basis.Some? then labels.basisOf(raw.basis.value) else None
  }

  /** What is wrong with the report itself. */
  predicate ReportLacks(labels: Labels, raw: RawDraft, gap: Gap) {
    match gap
    case MissingLaboratory => Blank(raw.laboratory)
    case MissingSampleIdentifier => Blank(raw.sampleIdentifier)
    case MissingCollectionDate => Blank(raw.collectionDate)
    case InvalidCollectionDate =>
      !Blank(raw.collectionDate) && !labels.isDate(Text.Clean(raw.collectionDate.value))
    case MissingMatrix => raw.matrix.None?
    case UnverifiedMatrix => raw.matrix.Some? && labels.matrixOf(raw.matrix.value) != "BIOSOLIDS"
    case MissingMethod => Blank(raw.labMethod)
    case MissingBasis => raw.basis.None? || labels.basisOf(raw.basis.value).None?
    case _ => false
  }

  /** What is wrong with the first result of an analyte. */
  ghost predicate ResultLacks(analytes: seq<Analyte>, a: Analyte, basis: Option<Basis>, percentSolids: Option<string>,
                              pageCount: nat, gap: Gap) {
    match gap
    case ConflictingResults(name) => name == a.canonical && Contradicted(analytes, a)
    case AmbiguousResult(name) =>
      name == a.canonical && (Text.Trim(a.resultText) == "" || (!a.isNonDetect && a.value.None?))
    case MissingUnit(name) => name == a.canonical && a.unit.None?
    case MissingAnalyteBasis(name) => name == a.canonical && basis.None?
    case MissingReportingLimit(name) => name == a.canonical && a.isNonDetect && a.reportingLimit.None?
    case InvalidSourcePage(name) => name == a.canonical && !(1 <= a.sourcePage <= pageCount)
    case MissingSourceExcerpt(name) => name == a.canonical && Text.Trim(a.sourceExcerpt) == ""
    case InvalidResultNumber(name) => name == a.canonical && IsNoNumber(a.value)
    case InvalidReportingLimit(name) => name == a.canonical && IsNoNumber(a.reportingLimit)
    case InvalidDetectionLimit(name) => name == a.canonical && IsNoNumber(a.detectionLimit)
    case UnsupportedConcentrationUnit(name) => name == a.canonical && a.unit == Some(UgPerL) && basis.Some?
    case MissingPercentSolids(name) =>
      name == a.canonical && a.unit.Some? && basis == Some(Wet) && percentSolids.None?
    case _ => false
  }

  ghost predicate AnalyteLacks(labels: Labels, raw: RawDraft, percentSolids: Option<string>, pageCount: nat,
                               name: string, gap: Gap) {
    || (gap == MissingAnalyte(name) && forall a :: a in raw.analytes ==> a.canonical != name)
    || (exists a :: FirstResult(raw.analytes, name, a)
          && ResultLacks(raw.analytes, a, BasisOf(labels, raw, a), percentSolids, pageCount, gap))
  }

  lemma {:induction false} WhenExactly(condition: bool, g: Gap, gap: Gap)
    ensures gap in When(condition, g) <==> condition && gap == g
  {}

  lemma {:induction false} EntryExactly(a: Analyte, pageCount: nat, gap: Gap)
    ensures gap in EntryGaps(a, pageCount) <==>
            || (gap == AmbiguousResult(a.canonical) &&
                (Text.Trim(a.resultText) == "" || (!a.isNonDetect && a.value.None?)))
            || (gap == MissingUnit(a.canonical) && a.unit.None?)
            || (gap == MissingAnalyteBasis(a.canonical) && a.basis.None?)
            || (gap == MissingReportingLimit(a.canonical) && a.isNonDetect && a.reportingLimit.None?)
            || (gap == InvalidSourcePage(a.canonical) && !(1 <= a.sourcePage <= pageCount))
            || (gap == MissingSourceExcerpt(a.canonical) && Text.Trim(a.sourceExcerpt) == "")
  {
    hide Text.Trim;
  }

  lemma {:induction false} NumbersExactly(a: Analyte, gap: Gap)
    ensures gap in NumberGaps(a) <==>
            || (gap == InvalidResultNumber(a.canonical) && IsNoNumber(a.value))
            || (gap == InvalidReportingLimit(a.canonical) && IsNoNumber(a.reportingLimit))
            || (gap == InvalidDetectionLimit(a.canonical) && IsNoNumber(a.detectionLimit))
  {
    hide Text.Trim, CanonicalDecimal;
  }

  lemma {:induction false} ConversionExactly(a: Analyte, percentSolids: Option<string>, gap: Gap)
    ensures gap in ConversionGaps(a, percentSolids) <==>
            || (gap == UnsupportedConcentrationUnit(a.canonical) && a.unit == Some(UgPerL) && a.basis.Some?)
            || (gap == MissingPercentSolids(a.canonical) && a.unit.Some? && a.basis == Some(Wet) && percentSolids.None?)
  {}

  lemma {:induction false} ResultExactly(analytes: seq<Analyte>, first: Analyte, basis: Option<Basis>,
                                         percentSolids: Option<string>, pageCount: nat, gap: Gap)
    ensures var a := first.(basis := basis);
            (gap in AnalyteGaps(a, percentSolids, pageCount)
              || (gap == ConflictingResults(first.canonical) && Contradicted(analytes, first))) <==>
            ResultLacks(analytes, first, basis, percentSolids, pageCount, gap)
  {
    var a := first.(basis := basis);
    EntryExactly(a, pageCount, gap);
    NumbersExactly(a, gap);
    ConversionExactly(a, percentSolids, gap);
    hide EntryGaps, NumberGaps, ConversionGaps, Contradicted, IsNoNumber, Text.Trim;
  }

  lemma {:induction false} NamedExactly(labels: Labels, raw: RawDraft, percentSolids: Option<string>, pageCount: nat,
                                        name: string, gap: Gap)
    ensures gap in NamedGaps(raw.analytes, name, Header(labels, raw).basis, percentSolids, pageCount) <==>
            AnalyteLacks(labels, raw, percentSolids, pageCount, name, gap)
  {
    var results := ResultsFor(raw.analytes, name);
    FirstIsFirst(raw.analytes, name);
    if |results| > 0 {
      var a := results[0];
      ConflictExactly(raw.analytes, name);
      var basis := BasisOf(labels, raw, a);
      assert Chosen(results, Header(labels, raw).basis) == a.(basis := basis);
      ResultExactly(raw.analytes, a, basis, percentSolids, pageCount, gap);
      forall b | FirstResult(raw.analytes, name, b) ensures b == a { OneFirst(raw.analytes, name, a, b); }
      NamedIsPresent(raw.analytes, name, a);
      hide ResultsFor, AnalyteGaps, ResultLacks, Contradicted, FirstResult, NoneBefore, Header, Chosen, Conflicting,
        BasisOf;
    } else {
      NothingNamed(raw.analytes, name);
      hide ResultsFor, ResultLacks, FirstResult, NoneBefore, Header;
    }
  }

  lemma {:induction false} NamedIsPresent(analytes: seq<Analyte>, name: string, a: Analyte)
    requires FirstResult(analytes, name, a)
    ensures a in analytes && a.canonical == name
  {}

  lemma {:induction false} NothingNamed(analytes: seq<Analyte>, name: string)
    requires NoneBefore(analytes, name, |analytes|)
    ensures forall a :: a in analytes ==> a.canonical != name
    ensures forall a :: !FirstResult(analytes, name, a)
  {}

  lemma {:induction false} ReportExactly(labels: Labels, raw: RawDraft, gap: Gap)
    ensures gap in ReportGaps(labels, Header(labels, raw)) <==> ReportLacks(labels, raw, gap)
  {
    hide Text.Clean;
  }

  /** A gap is raised exactly when the report, or the first result of one of the two analytes, has that flaw. */
  lemma {:induction false} GapsExactly(labels: Labels, raw: RawDraft, pageCount: nat, percentSolids: Option<string>,
                                       gap: Gap)
    ensures gap in ValidatedDraft(labels, raw, pageCount, percentSolids).1 <==>
            || ReportLacks(labels, raw, gap)
            || AnalyteLacks(labels, raw, percentSolids, pageCount, "PFOS", gap)
            || AnalyteLacks(labels, raw, percentSolids, pageCount, "PFOA", gap)
  {
    ReportExactly(labels, raw, gap);
    NamedExactly(labels, raw, percentSolids, pageCount, "PFOS", gap);
    NamedExactly(labels, raw, percentSolids, pageCount, "PFOA", gap);
    hide ReportGaps, NamedGaps, NamedAnalyte, Header, ReportLacks, AnalyteLacks;
  }

  // ---------- the analytes ----------

  /** A number in normal form, or nothing when there is none. */
  function Canonical(value: Option<string>): Option<string> {
    if !Stated(value) then None
    else match CanonicalDecimal(value.value) case Success(text) => Some(text) case Failure(_) => None
  }

  /** A number converted to µg/kg of dry solids, if that can be done. */
  function Converted(value: Option<string>, unit: Option<MassUnit>, basis: Option<Basis>,
                     percentSolids: Option<string>): Option<string> {
    if Canonical(value).None? || unit.None? || basis.None? then None
    else match NormalizeConcentration(Canonical(value).value, unit.value, basis.value, percentSolids)
         case Success(text) => text
         case Failure(_) => None
  }

  /** What a draft holds of a result: the numbers in normal form and converted, the rest as it was. */
  predicate DraftedFrom(d: Analyte, a: Analyte, basis: Option<Basis>, percentSolids: Option<string>) {
    && d.canonical == a.canonical && d.resultText == a.resultText && d.unit == a.unit && d.basis == basis
    && d.qualifier == a.qualifier && d.isNonDetect == a.isNonDetect
    && d.sourcePage == a.sourcePage && d.sourceExcerpt == a.sourceExcerpt
    && d.value == Canonical(a.value) && d.reportingLimit == Canonical(a.reportingLimit)
    && d.detectionLimit == Canonical(a.detectionLimit)
    && (a.unit.Some? && basis.Some? ==>
          && d.normalizedValue == Converted(a.value, a.unit, basis, percentSolids)
          && d.normalizedReporting == Converted(a.reportingLimit, a.unit, basis, percentSolids)
          && d.normalizedDetection == Converted(a.detectionLimit, a.unit, basis, percentSolids))
    && (a.unit.None? || basis.None? ==>
          && d.normalizedValue == a.normalizedValue && d.normalizedReporting == a.normalizedReporting
          && d.normalizedDetection == a.normalizedDetection)
  }

  lemma {:induction false} NormalizedFrom(a: Analyte, basis: Option<Basis>, percentSolids: Option<string>)
    ensures DraftedFrom(Normalize(a.(basis := basis), percentSolids), a, basis, percentSolids)
  {
    hide Text.Trim, CanonicalDecimal, NormalizeConcentration;
  }

  /** The draft's entries for one analyte: its first result, if there is one. */
  ghost predicate DraftedAs(labels: Labels, raw: RawDraft, percentSolids: Option<string>, name: string,
                            drafted: seq<Analyte>) {
    if forall a :: a in raw.analytes ==> a.canonical != name then drafted == []
    else
      && |drafted| == 1
      && exists a :: FirstResult(raw.analytes, name, a) &&
           DraftedFrom(drafted[0], a, BasisOf(labels, raw, a), percentSolids)
  }

  lemma {:induction false} NamedAnalyteExactly(labels: Labels, raw: RawDraft, percentSolids: Option<string>,
                                               name: string)
    ensures DraftedAs(labels, raw, percentSolids, name,
                      NamedAnalyte(raw.analytes, name, Header(labels, raw).basis, percentSolids))
  {
    var results := ResultsFor(raw.analytes, name);
    FirstIsFirst(raw.analytes, name);
    if |results| > 0 {
      var a := results[0];
      var basis := BasisOf(labels, raw, a);
      assert Chosen(results, Header(labels, raw).basis) == a.(basis := basis);
      NormalizedFrom(a, basis, percentSolids);
      NamedIsPresent(raw.analytes, name, a);
    } else {
      NothingNamed(raw.analytes, name);
    }
    hide ResultsFor, FirstResult, NoneBefore, Header, Chosen, Normalize, DraftedFrom, BasisOf;
  }

  /** A draft holds the first result of PFOS and then that of PFOA, brought into normal form. */
  lemma {:induction false} DraftExactly(labels: Labels, raw: RawDraft, pageCount: nat, percentSolids: Option<string>)
    returns (pfos: seq<Analyte>, pfoa: seq<Analyte>)
    ensures ValidatedDraft(labels, raw, pageCount, percentSolids).0.analytes == pfos + pfoa
    ensures DraftedAs(labels, raw, percentSolids, "PFOS", pfos) && DraftedAs(labels, raw, percentSolids, "PFOA", pfoa)
  {
    var basis := Header(labels, raw).basis;
    pfos := NamedAnalyte(raw.analytes, "PFOS", basis, percentSolids);
    pfoa := NamedAnalyte(raw.analytes, "PFOA", basis, percentSolids);
    NamedAnalyteExactly(labels, raw, percentSolids, "PFOS");
    NamedAnalyteExactly(labels, raw, percentSolids, "PFOA");
    hide NamedAnalyte, NamedGaps, ReportGaps, Header, DraftedAs;
  }

  // ---------- reading a result ----------

  /** The words of a result or a qualifier that mean that nothing was detected. */
  predicate SaysNonDetect(result: string, qualifier: Option<string>) {
    || Text.Upper(Text.Clean(result)) == "ND"
    || "<" <= Text.Clean(result)
    || (qualifier.Some? && Text.Upper(Text.Clean(qualifier.value)) in {"ND", "U", "UJ"})
  }

  lemma {:induction false} EmptyIsNoQualifier()
    ensures Text.Upper("") !in {"ND", "U", "UJ"}
  {
    assert Text.Upper("") == "";
  }

  /** A result is a non-detect by its words; otherwise its value is the number it says, if it says one. */
  lemma {:induction false} ResultReads(labels: Labels, name: string, reported: string, unit: Option<string>,
                                       basis: Option<string>, qualifier: Option<string>, reportingLimit: Option<string>,
                                       detectionLimit: Option<string>)
    ensures var a := AnalyteFromResult(labels, name, reported, unit, basis, qualifier, reportingLimit, detectionLimit);
            && (a.isNonDetect <==> SaysNonDetect(reported, qualifier))
            && (forall text :: a.value == Some(text) <==>
                !a.isNonDetect && Text.Clean(reported) != "" && CanonicalDecimal(Text.Clean(reported)) == Success(text))
            && (a.qualifier.None? <==> Blank(qualifier) && !a.isNonDetect)
            && (a.qualifier.Some? ==>
                a.qualifier.value == if Blank(qualifier) then "ND" else Text.Clean(qualifier.value))
            && a.resultText == Text.Clean(reported) && a.canonical == labels.analyteOf(name)
  {
    EmptyIsNoQualifier();
    hide Text.Clean, Text.Upper, CanonicalDecimal;
  }

  /** A result below a limit has that limit, unless the report states another. */
  lemma {:induction false} BelowReads(labels: Labels, name: string, reported: string, unit: Option<string>,
                                      basis: Option<string>, qualifier: Option<string>, reportingLimit: Option<string>,
                                      detectionLimit: Option<string>, limit: string)
    ensures var a := AnalyteFromResult(labels, name, reported, unit, basis, qualifier, reportingLimit, detectionLimit);
            && (reportingLimit.None? && Text.Clean(reported) == "<" + limit && Text.Clean(limit) != "" ==>
                a.reportingLimit == Some(Text.Clean(limit)))
            && (reportingLimit.Some? || !("<" <= Text.Clean(reported)) ==>
                a.reportingLimit == if Blank(reportingLimit) then None else Some(Text.Clean(reportingLimit.value)))
            && a.detectionLimit == (if Blank(detectionLimit) then None else Some(Text.Clean(detectionLimit.value)))
  {
    hide Text.Clean, Text.Upper, CanonicalDecimal;
    assert ("<" + limit)[1..] == limit;
  }
}
