/**
  From laboratory drafts to tiers: a draft without gaps never starves the classifier, with
  exactly two exceptions, and both are visible in the draft.
*/
module DraftSoundness {
  import opened Wrappers
  import opened Tiers
  import opened Decimals
  import opened LabDraft
  import opened Policy
  import Classifier
  import Digits
  import Text

  // ---------- conversion of one number ----------

  /** A conversion of a nonblank mass concentration succeeds exactly when its numbers are representable. */
  lemma {:induction false} ConvertsExactly(value: string, unit: MassUnit, basis: Basis, percentSolids: Option<string>)
    requires !Text.IsBlank(value) && unit != UgPerL
    ensures Normalized(Some(value), unit, basis, percentSolids).Some? <==>
              DecimalRat(value).Success? && SolidsUsed(basis, percentSolids).Some?
  {
    BlankIsNoDecimal(percentSolids);
    hide DecimalRat, Text.IsBlank, FloatString, TrimFixed;
  }

  lemma {:induction false} BlankIsNoDecimal(text: Option<string>)
    ensures text.Some? && Text.IsBlank(text.value) ==> DecimalRat(text.value).Failure?
  {
    if text.Some? && Text.IsBlank(text.value) {
      assert Text.RemoveCommas("") == "" && LeadingDigits("") == [];
      assert MatchPattern("").None?;
      assert Cleaned(text.value) == "";
    }
  }

  /** What a converted number reads as. */
  function ConvertedValue(value: string, unit: MassUnit, basis: Basis, percentSolids: Option<string>): real
    requires DecimalRat(value).Success? && SolidsUsed(basis, percentSolids).Some?
  {
    Rounded(ExactConversion(DecimalRat(value).value, unit, basis, SolidsUsed(basis, percentSolids).value), 12)
  }

  lemma {:induction false} ConvertedReads(value: string, unit: MassUnit, basis: Basis, percentSolids: Option<string>)
    requires Normalized(Some(value), unit, basis, percentSolids).Some?
    ensures DecimalRat(value).Success? && SolidsUsed(basis, percentSolids).Some?
    ensures Policy.Decimal(Normalized(Some(value), unit, basis, percentSolids).value) ==
              Some(ConvertedValue(value, unit, basis, percentSolids))
    ensures ConvertedValue(value, unit, basis, percentSolids) >= 0.0
  {
    hide DecimalRat, FloatString, TrimFixed, IsNormal, CanonicalDecimal, RatOf, Rounded, Text.Trim, Digits.Scaled;
    NormalizedIsCanonicalAndClose(value, unit, basis, percentSolids);
    var text := Normalized(Some(value), unit, basis, percentSolids).value;
    CanonicalFixesNormal(text);
    NormalIsTrimmed(text);
    ReadsNonnegative(text);
  }

  lemma {:induction false} ReadsNonnegative(text: string)
    requires IsNormal(text) && RatOf(text).Some?
    ensures RatOf(text).value >= 0.0
  {
    NormalRat(text);
    CanonicalFixesNormal(text);
    CanonicalPreservesValue(text);
    hide IsNormal, RatOf, CanonicalDecimal;
    NormalIsClean(text);
  }

  // ---------- an analyte without gaps ----------

  /** The number an analyte is judged by: its value, or the first limit that can be converted. */
  function JudgedText(a: Analyte, percentSolids: Option<string>): Option<string>
    requires a.unit.Some? && a.basis.Some?
  {
    if !a.isNonDetect then Convertible(a.value, a.basis.value, percentSolids)
    else if Convertible(a.reportingLimit, a.basis.value, percentSolids).Some?
         then Convertible(a.reportingLimit, a.basis.value, percentSolids)
    else Convertible(a.detectionLimit, a.basis.value, percentSolids)
  }

  /** The text, if it can be converted. */
  function Convertible(text: Option<string>, basis: Basis, percentSolids: Option<string>): Option<string> {
    if text.Some? && DecimalRat(text.value).Success? && SolidsUsed(basis, percentSolids).Some? then text else None
  }

  /** The concentration an analyte is judged by. */
  function JudgedValue(a: Analyte, percentSolids: Option<string>): Option<real>
    requires a.unit.Some? && a.basis.Some?
  {
    ConvertibleIsItself(a.value, a.basis.value, percentSolids);
    ConvertibleIsItself(a.reportingLimit, a.basis.value, percentSolids);
    ConvertibleIsItself(a.detectionLimit, a.basis.value, percentSolids);
    match JudgedText(a, percentSolids)
    case None => None
    case Some(text) => Some(ConvertedValue(text, a.unit.value, a.basis.value, percentSolids))
  }

  lemma {:induction false} ConvertibleIsItself(text: Option<string>, basis: Basis, percentSolids: Option<string>)
    ensures var c := Convertible(text, basis, percentSolids);
            c.Some? ==> c == text && DecimalRat(text.value).Success? && SolidsUsed(basis, percentSolids).Some?
  {
    hide DecimalRat, SolidsUsed;
  }

  /** Why evidence from a clean draft can still stop the classifier. */
  predicate Starves(a: Analyte, percentSolids: Option<string>, elevated: real)
    requires a.unit.Some? && a.basis.Some?
  {
    var judged := JudgedValue(a, percentSolids);
    judged.None? || (a.isNonDetect && judged.value > elevated)
  }

  /** An analyte for which validation reported nothing. */
  predicate Clean(a: Analyte, percentSolids: Option<string>, pageCount: nat) {
    WellRead(a) && AnalyteGaps(a, percentSolids, pageCount) == []
  }

  /** What an empty gap list says about an analyte. */
  lemma {:induction false} CleanFacts(a: Analyte, percentSolids: Option<string>, pageCount: nat)
    requires Clean(a, percentSolids, pageCount)
    ensures a.unit.Some? && a.basis.Some? && a.unit != Some(UgPerL)
    ensures !a.isNonDetect ==> a.value.Some?
    ensures a.isNonDetect ==> a.reportingLimit.Some?
    ensures a.basis == Some(Wet) ==> percentSolids.Some?
    ensures DecimalPointer(a.value).Success? && DecimalPointer(a.reportingLimit).Success?
    ensures DecimalPointer(a.detectionLimit).Success?
  {
    hide DecimalPointer, WellRead, Text.IsBlank;
    assert |AnalyteGaps(a, percentSolids, pageCount)| == 0;
  }

  /** Canonicalising a nonblank number keeps what can be converted, and its value. */
  lemma {:induction false} KeptConverts(text: Option<string>, unit: MassUnit, basis: Basis,
                                        percentSolids: Option<string>)
    requires text.Some? ==> !Text.IsBlank(text.value)
    requires DecimalPointer(text).Success? && unit != UgPerL
    ensures var kept := Kept(DecimalPointer(text));
            var n := Normalized(kept, unit, basis, percentSolids);
            && (n.Some? <==> Convertible(text, basis, percentSolids).Some?)
            && (n.Some? ==> Policy.Decimal(n.value) == Some(ConvertedValue(text.value, unit, basis, percentSolids)))
            && (n.Some? ==> Policy.Decimal(n.value).value >= 0.0)
  {
    hide CanonicalDecimal, FloatString, TrimFixed, IsNormal, RatOf, Rounded, Text.Trim, SolidsUsed,
      NormalizeConcentration, ExactConversion;
    if text.Some? {
      var kept := CanonicalDecimal(text.value).value;
      CanonicalPreservesValue(text.value);
      CanonicalIsIdempotent(text.value);
      NormalIsTrimmed(kept);
      NormalIsClean(kept);
      assert DecimalRat(kept) == DecimalRat(text.value);
      hide DecimalRat;
      ConvertsExactly(kept, unit, basis, percentSolids);
      if Normalized(Some(kept), unit, basis, percentSolids).Some? { ConvertedReads(kept, unit, basis, percentSolids); }
    }
  }

  /** The text the classifier reads a piece of evidence by. */
  function EvidenceText(e: Classifier.Evidence): Option<string> {
    if e.isNonDetect then e.upperBound else e.normalizedValue
  }

  lemma {:induction false} FindingByText(e: Classifier.Evidence, elevated: real)
    requires e.canonical == Classifier.Pfos || e.canonical == Classifier.Pfoa
    requires EvidenceText(e).Some? ==>
               Policy.Decimal(EvidenceText(e).value).Some? && Policy.Decimal(EvidenceText(e).value).value >= 0.0
    ensures var f := Classifier.FindingOf(e, elevated);
            && (f.Stops? <==>
                EvidenceText(e).None? || (e.isNonDetect && Policy.Decimal(EvidenceText(e).value).value > elevated))
            && (!f.Stops? ==> f.Resolves? && f.name == e.canonical)
  {
    KnownNames();
    hide Policy.Decimal, Text.Upper, Text.Trim;
  }

  lemma {:induction false} EvidenceTextOf(a: Analyte, percentSolids: Option<string>)
    requires a.unit.Some? && a.basis.Some?
    ensures var e := EvidenceOf(Normalize(a, percentSolids));
            var unit, basis := a.unit.value, a.basis.value;
            var value, reporting, detection :=
              Normalized(Kept(DecimalPointer(a.value)), unit, basis, percentSolids),
              Normalized(Kept(DecimalPointer(a.reportingLimit)), unit, basis, percentSolids),
              Normalized(Kept(DecimalPointer(a.detectionLimit)), unit, basis, percentSolids);
            && e.canonical == a.canonical && e.isNonDetect == a.isNonDetect
            && EvidenceText(e) == if !a.isNonDetect then value else if reporting.Some? then reporting else detection
  {
    hide Normalized, Kept, DecimalPointer;
  }

  /** One number of an analyte: converted text, and what it reads as. */
  predicate ReadsAs(n: Option<string>, text: Option<string>, unit: MassUnit, basis: Basis,
                    percentSolids: Option<string>) {
    ConvertibleIsItself(text, basis, percentSolids);
    && (n.Some? <==> Convertible(text, basis, percentSolids).Some?)
    && (n.Some? ==> Policy.Decimal(n.value) == Some(ConvertedValue(text.value, unit, basis, percentSolids))
                    && ConvertedValue(text.value, unit, basis, percentSolids) >= 0.0)
  }

  lemma {:induction false} KeptReads(text: Option<string>, unit: MassUnit, basis: Basis, percentSolids: Option<string>)
    requires text.Some? ==> !Text.IsBlank(text.value)
    requires DecimalPointer(text).Success? && unit != UgPerL
    ensures ReadsAs(Normalized(Kept(DecimalPointer(text)), unit, basis, percentSolids), text, unit, basis,
                    percentSolids)
  {
    hide DecimalPointer, Kept, Normalized, Convertible, Policy.Decimal, ConvertedValue, DecimalRat, SolidsUsed,
      Text.IsBlank;
    KeptConverts(text, unit, basis, percentSolids);
    ConvertibleIsItself(text, basis, percentSolids);
  }

  lemma {:induction false} EvidenceReads(a: Analyte, percentSolids: Option<string>, pageCount: nat)
    requires Clean(a, percentSolids, pageCount)
    ensures a.unit.Some? && a.basis.Some?
    ensures var text := EvidenceText(EvidenceOf(Normalize(a, percentSolids)));
            && (text.None? <==> JudgedValue(a, percentSolids).None?)
            && (text.Some? ==>
                Policy.Decimal(text.value) == JudgedValue(a, percentSolids)
                  && JudgedValue(a, percentSolids).value >= 0.0)
  {
    CleanFacts(a, percentSolids, pageCount);
    hide DecimalPointer, Normalized, Text.IsBlank, AnalyteGaps, Policy.Decimal, ConvertedValue, Convertible,
      EvidenceText, EvidenceOf, Normalize, Kept, CanonicalDecimal, DecimalRat, SolidsUsed;
    KeptReads(a.value, a.unit.value, a.basis.value, percentSolids);
    KeptReads(a.reportingLimit, a.unit.value, a.basis.value, percentSolids);
    KeptReads(a.detectionLimit, a.unit.value, a.basis.value, percentSolids);
    ConvertibleIsItself(a.value, a.basis.value, percentSolids);
    ConvertibleIsItself(a.reportingLimit, a.basis.value, percentSolids);
    ConvertibleIsItself(a.detectionLimit, a.basis.value, percentSolids);
    EvidenceTextOf(a, percentSolids);
  }

  /** How the classifier takes the evidence of a clean analyte. */
  lemma {:induction false} CleanEvidence(a: Analyte, percentSolids: Option<string>, pageCount: nat, elevated: real)
    requires Clean(a, percentSolids, pageCount) && (a.canonical == Classifier.Pfos || a.canonical == Classifier.Pfoa)
    ensures a.unit.Some? && a.basis.Some?
    ensures var f := Classifier.FindingOf(EvidenceOf(Normalize(a, percentSolids)), elevated);
            && (f.Stops? <==> Starves(a, percentSolids, elevated))
            && (!f.Stops? ==> f.Resolves? && f.name == a.canonical)
  {
    hide Clean, JudgedValue, Policy.Decimal, EvidenceText, EvidenceOf, Normalize, Classifier.FindingOf;
    EvidenceReads(a, percentSolids, pageCount);
    EvidenceTextOf(a, percentSolids);
    FindingByText(EvidenceOf(Normalize(a, percentSolids)), elevated);
  }

  lemma {:induction false} KnownNames()
    ensures Text.Upper(Text.Trim(Classifier.Pfos)) == Classifier.Pfos
    ensures Text.Upper(Text.Trim(Classifier.Pfoa)) == Classifier.Pfoa
    ensures Classifier.Pfos != Classifier.Pfoa && Classifier.Pfos != "" && Classifier.Pfoa != ""
  {
    Text.CapitalsUnchanged("PFOS");
    Text.CapitalsUnchanged("PFOA");
  }

  // ---------- a draft without gaps ----------

  lemma {:induction false} ResultsAreListed(analytes: seq<Analyte>, name: string)
    ensures forall a :: a in ResultsFor(analytes, name) ==> a in analytes && a.canonical == name
  {
    if |analytes| > 0 { ResultsAreListed(analytes[..|analytes| - 1], name); }
  }

  /** The analyte a clean draft keeps under a name, before normalization. */
  function Kept1(labels: Labels, raw: RawDraft, name: string): Analyte
    requires |ResultsFor(raw.analytes, name)| > 0
  {
    Chosen(ResultsFor(raw.analytes, name), Header(labels, raw).basis)
  }

  predicate AllWellRead(analytes: seq<Analyte>) { forall i :: 0 <= i < |analytes| ==> WellRead(analytes[i]) }

  lemma {:induction false} KeptIsClean(labels: Labels, raw: RawDraft, name: string, pageCount: nat,
                                       percentSolids: Option<string>)
    requires AllWellRead(raw.analytes)
    requires NamedGaps(raw.analytes, name, Header(labels, raw).basis, percentSolids, pageCount) == []
    ensures |ResultsFor(raw.analytes, name)| > 0
    ensures Kept1(labels, raw, name).canonical == name && Clean(Kept1(labels, raw, name), percentSolids, pageCount)
    ensures NamedAnalyte(raw.analytes, name, Header(labels, raw).basis, percentSolids) ==
              [Normalize(Kept1(labels, raw, name), percentSolids)]
  {
    hide AnalyteGaps, Normalize, WellRead, Header, Conflicting;
    ResultsAreListed(raw.analytes, name);
    var results := ResultsFor(raw.analytes, name);
    if |results| > 0 {
      assert results[0] in raw.analytes;
      ChosenIsWellRead(results, Header(labels, raw).basis);
      assert |NamedGaps(raw.analytes, name, Header(labels, raw).basis, percentSolids, pageCount)| >=
             |AnalyteGaps(Chosen(results, Header(labels, raw).basis), percentSolids, pageCount)|;
    }
  }

  lemma {:induction false} ChosenIsWellRead(results: seq<Analyte>, basis: Option<Basis>)
    requires |results| > 0 && WellRead(results[0])
    ensures WellRead(Chosen(results, basis)) && Chosen(results, basis).canonical == results[0].canonical
  {
    hide CanonicalDecimal, Text.IsBlank;
  }

  function InputOf(draft: Draft): Classifier.Input {
    Classifier.Input("MI", draft.matrix, draft.labMethod, BasisText(draft.basis), EvidenceOfAll(draft.analytes))
  }

  /** The facts outside the draft that classification needs: a Michigan pack, an accepted method, a dry report. */
  predicate Classifiable(pack: RulePack, draft: Draft) {
    && ThresholdsFit(pack) && pack.jurisdiction == "MI" && draft.basis == Some(Dry)
    && draft.labMethod.Some? && Classifier.IsAcceptedMethod(pack.methodTokens, draft.labMethod.value)
  }

  lemma {:induction false} NoReportGaps(labels: Labels, d: Draft)
    requires ReportGaps(labels, d) == []
    ensures d.matrix == Some("BIOSOLIDS") && d.labMethod.Some? && d.basis.Some?
  {
    assert |ReportGaps(labels, d)| == 0;
  }

  lemma {:induction false} ContextIsRight(pack: RulePack, draft: Draft)
    requires Classifiable(pack, draft) && draft.matrix == Some("BIOSOLIDS")
    ensures Classifier.ContextProblem(pack, InputOf(draft)).None?
  {
    KnownWords();
    hide Classifier.IsAcceptedMethod, EvidenceOfAll, ThresholdsFit, Text.Trim, Text.Upper;
  }

  lemma {:induction false} KnownWords()
    ensures Text.Upper(Text.Trim("BIOSOLIDS")) == "BIOSOLIDS" && Text.Upper(Text.Trim("DRY")) == "DRY"
  {
    Text.CapitalsUnchanged("BIOSOLIDS");
    Text.CapitalsUnchanged("DRY");
  }

  lemma {:induction false} PairIsUndetermined(pack: RulePack, input: Classifier.Input, p: Classifier.Evidence,
                                              q: Classifier.Evidence)
    requires ThresholdsFit(pack) && Classifier.ContextProblem(pack, input).None? && input.analytes == [p, q]
    requires var f := Classifier.FindingOf(p, Policy.Decimal(pack.elevatedThreshold).value);
             !f.Stops? ==> f.Resolves? && f.name == Classifier.Pfos
    requires var g := Classifier.FindingOf(q, Policy.Decimal(pack.elevatedThreshold).value);
             !g.Stops? ==> g.Resolves? && g.name == Classifier.Pfoa
    ensures Classifier.Classification(pack, input).tier == Undetermined <==>
              || Classifier.FindingOf(p, Policy.Decimal(pack.elevatedThreshold).value).Stops?
              || Classifier.FindingOf(q, Policy.Decimal(pack.elevatedThreshold).value).Stops?
  {
    hide Classifier.FindingOf, Classifier.ContextProblem, Classifier.Classification, Policy.Decimal, ThresholdsFit;
    Classifier.UndeterminedExactly(pack, input);
    assert input.analytes[0] == p && input.analytes[1] == q;
  }

  /**
    A draft without gaps never starves the classifier, with two exceptions: a batch with a Michigan
    pack, an accepted method and a dry report is undetermined exactly when one of its two analytes
    cannot be converted for want of representable numbers or valid percent solids, or is a
    non-detect whose converted limit exceeds the elevated threshold.
  */
  lemma {:induction false} CleanDraftIsUndeterminedExactly(labels: Labels, raw: RawDraft, pageCount: nat,
                                                           percentSolids: Option<string>, pack: RulePack)
    requires AllWellRead(raw.analytes)
    requires ValidatedDraft(labels, raw, pageCount, percentSolids).1 == []
    requires Classifiable(pack, ValidatedDraft(labels, raw, pageCount, percentSolids).0)
    ensures |ResultsFor(raw.analytes, Classifier.Pfos)| > 0 && |ResultsFor(raw.analytes, Classifier.Pfoa)| > 0
    ensures var pfos, pfoa := Kept1(labels, raw, Classifier.Pfos), Kept1(labels, raw, Classifier.Pfoa);
            var elevated := Policy.Decimal(pack.elevatedThreshold).value;
            var draft := ValidatedDraft(labels, raw, pageCount, percentSolids).0;
            && pfos.unit.Some? && pfos.basis.Some? && pfoa.unit.Some? && pfoa.basis.Some?
            && (Classifier.Classification(pack, InputOf(draft)).tier == Undetermined <==>
                  Starves(pfos, percentSolids, elevated) || Starves(pfoa, percentSolids, elevated))
  {
    hide Header, ReportGaps, NamedGaps, NamedAnalyte, Kept1, Clean, Starves, Classifiable, Classifier.Classification,
      Policy.Decimal, Normalize, EvidenceOf;
    var (draft, gaps) := ValidatedDraft(labels, raw, pageCount, percentSolids);
    var header := Header(labels, raw);
    assert |gaps| == |ReportGaps(labels, header)|
           + |NamedGaps(raw.analytes, Classifier.Pfos, header.basis, percentSolids, pageCount)|
                     + |NamedGaps(raw.analytes, Classifier.Pfoa, header.basis, percentSolids, pageCount)|;
    NoReportGaps(labels, header);
    KeptIsClean(labels, raw, Classifier.Pfos, pageCount, percentSolids);
    KeptIsClean(labels, raw, Classifier.Pfoa, pageCount, percentSolids);
    var pfos, pfoa := Kept1(labels, raw, Classifier.Pfos), Kept1(labels, raw, Classifier.Pfoa);
    ThresholdsOf(pack, draft);
    var elevated := Policy.Decimal(pack.elevatedThreshold).value;
    CleanEvidence(pfos, percentSolids, pageCount, elevated);
    CleanEvidence(pfoa, percentSolids, pageCount, elevated);
    ContextIsRight(pack, draft);
    var p, q := EvidenceOf(Normalize(pfos, percentSolids)), EvidenceOf(Normalize(pfoa, percentSolids));
    assert InputOf(draft).analytes == [p, q];
    PairIsUndetermined(pack, InputOf(draft), p, q);
  }

  lemma {:induction false} ThresholdsOf(pack: RulePack, draft: Draft)
    requires Classifiable(pack, draft)
    ensures ThresholdsFit(pack)
  {}

  /** The numbers an analyte is judged by can be held as rationals, and its wet basis has solids to convert with. */
  predicate Representable(a: Analyte, percentSolids: Option<string>) {
    && (!a.isNonDetect && a.value.Some? ==> DecimalRat(a.value.value).Success?)
    && (a.isNonDetect && a.reportingLimit.Some? ==> DecimalRat(a.reportingLimit.value).Success?)
    && (a.basis == Some(Wet) && percentSolids.Some? ==> SolidsUsed(Wet, percentSolids).Some?)
  }

  /** With representable numbers only a non-detect above the threshold is left. */
  lemma {:induction false} RepresentableStarvesOnlyAbove(a: Analyte, percentSolids: Option<string>, pageCount: nat,
                                                         elevated: real)
    requires Clean(a, percentSolids, pageCount) && Representable(a, percentSolids)
    ensures a.unit.Some? && a.basis.Some? && JudgedValue(a, percentSolids).Some?
    ensures Starves(a, percentSolids, elevated) <==> a.isNonDetect && JudgedValue(a, percentSolids).value > elevated
  {
    CleanFacts(a, percentSolids, pageCount);
    hide Clean, DecimalRat, DecimalPointer, CanonicalDecimal, ConvertedValue, Rounded;
    assert a.basis.value == Dry ==> SolidsUsed(Dry, percentSolids).Some?;
    hide SolidsUsed;
    assert JudgedText(a, percentSolids).Some?;
    hide JudgedText;
  }

  /** The result kept under a name, if there is one, has representable numbers and the solids it needs. */
  predicate KeptRepresentable(labels: Labels, raw: RawDraft, name: string, percentSolids: Option<string>) {
    |ResultsFor(raw.analytes, name)| > 0 ==> Representable(Kept1(labels, raw, name), percentSolids)
  }

  /**
    As promised: without gaps, and with representable numbers and valid or absent percent solids,
    a batch is undetermined exactly when a non-detect's converted limit exceeds the threshold.
  */
  lemma {:induction false} CleanDraftNeverStarves(labels: Labels, raw: RawDraft, pageCount: nat,
                                                  percentSolids: Option<string>, pack: RulePack)
    requires AllWellRead(raw.analytes)
    requires ValidatedDraft(labels, raw, pageCount, percentSolids).1 == []
    requires Classifiable(pack, ValidatedDraft(labels, raw, pageCount, percentSolids).0)
    requires KeptRepresentable(labels, raw, Classifier.Pfos, percentSolids)
    requires KeptRepresentable(labels, raw, Classifier.Pfoa, percentSolids)
    ensures |ResultsFor(raw.analytes, Classifier.Pfos)| > 0 && |ResultsFor(raw.analytes, Classifier.Pfoa)| > 0
    ensures var pfos, pfoa := Kept1(labels, raw, Classifier.Pfos), Kept1(labels, raw, Classifier.Pfoa);
            var elevated := Policy.Decimal(pack.elevatedThreshold).value;
            var draft := ValidatedDraft(labels, raw, pageCount, percentSolids).0;
            && pfos.unit.Some? && pfos.basis.Some? && pfoa.unit.Some? && pfoa.basis.Some?
            && JudgedValue(pfos, percentSolids).Some? && JudgedValue(pfoa, percentSolids).Some?
            && (Classifier.Classification(pack, InputOf(draft)).tier == Undetermined <==>
                  || (pfos.isNonDetect && JudgedValue(pfos, percentSolids).value > elevated)
                  || (pfoa.isNonDetect && JudgedValue(pfoa, percentSolids).value > elevated))
  {
    hide Header, ReportGaps, NamedGaps, NamedAnalyte, Clean, Starves, Classifiable, Classifier.Classification,
      Policy.Decimal, Normalize, EvidenceOf, Representable, JudgedValue, SolidsUsed;
    CleanDraftIsUndeterminedExactly(labels, raw, pageCount, percentSolids, pack);
    var draft := ValidatedDraft(labels, raw, pageCount, percentSolids).0;
    var gaps := ValidatedDraft(labels, raw, pageCount, percentSolids).1;
    var header := Header(labels, raw);
    assert |gaps| == |ReportGaps(labels, header)|
           + |NamedGaps(raw.analytes, Classifier.Pfos, header.basis, percentSolids, pageCount)|
                     + |NamedGaps(raw.analytes, Classifier.Pfoa, header.basis, percentSolids, pageCount)|;
    ThresholdsOf(pack, draft);
    var elevated := Policy.Decimal(pack.elevatedThreshold).value;
    KeptIsClean(labels, raw, Classifier.Pfos, pageCount, percentSolids);
    KeptIsClean(labels, raw, Classifier.Pfoa, pageCount, percentSolids);
    RepresentableStarvesOnlyAbove(Kept1(labels, raw, Classifier.Pfos), percentSolids, pageCount, elevated);
    RepresentableStarvesOnlyAbove(Kept1(labels, raw, Classifier.Pfoa), percentSolids, pageCount, elevated);
  }

  // ---------- the other exception is real ----------

  /** 10^-(n+1) written out in full. */
  function TinyText(n: nat): string { Join("0", Digits.Zeros(n) + "1") }

  lemma {:induction false} TinyIsNormal(n: nat)
    ensures IsNormal(TinyText(n)) && TinyText(n)[..2] == "0." && |TinyText(n)| > 2
    ensures forall i :: 0 <= i < |TinyText(n)| ==> !Text.IsSpace(TinyText(n)[i])
  {
    assert NormalParts("0", Digits.Zeros(n) + "1");
  }

  /** Written out beyond a million places, a number is canonical but cannot be read as a rational. */
  lemma {:induction false} TinyTextIsRefused(n: nat)
    requires n >= MaxRatExponent
    ensures CanonicalDecimal(TinyText(n)) == Success(TinyText(n)) && DecimalRat(TinyText(n)).Failure?
    ensures Text.Clean(TinyText(n)) == TinyText(n) && !Text.IsBlank(TinyText(n)) && TinyText(n)[..2] == "0."
    ensures |TinyText(n)| > 2
  {
    hide IsNormal, CanonicalDecimal, RatOf, TinyText, Text.Clean, Text.Trim, Text.IsSpace;
    TinyIsNormal(n);
    CanonicalFixesNormal(TinyText(n));
    TinyRat(n);
    Text.WordIsClean(TinyText(n));
    NormalIsTrimmed(TinyText(n));
  }

  lemma {:induction false} TinyRat(n: nat)
    requires n >= MaxRatExponent
    ensures RatOf(TinyText(n)).None?
  {
    var fraction: Digits.Numeral := Digits.Zeros(n) + "1";
    TinyMantissa(n);
    hide RatOf, Join, Digits.Zeros, Digits.NatOf, Digits.Scaled;
    JoinReads("0", fraction);
  }

  lemma {:induction false} TinyMantissa(n: nat)
    ensures Digits.NatOf("0" + (Digits.Zeros(n) + "1")) == 1
  {
    var fraction: Digits.Numeral := Digits.Zeros(n) + "1";
    assert "0" + fraction == Digits.Zeros(1) + fraction by { assert Digits.Zeros(1) == "0"; }
    assert Digits.NatOf("1") == 1 by { assert "1"[..0] == ""; }
    hide Digits.Zeros, Digits.NatOf;
    Digits.ZeroPrefix(1, fraction);
    Digits.ZeroPrefix(n, "1");
  }

  /** A detected result as read from a report, and nothing else to complain about. */
  function PlainAnalyte(labels: Labels, name: string, text: string, basis: string): Analyte {
    AnalyteFromResult(labels, name, text, Some("ug/kg"), Some(basis), None, None, None).(sourcePage := 1,
          sourceExcerpt := name)
  }

  /** The terms of the reports below are recognised. */
  predicate KnowsTerms(labels: Labels) {
    && labels.unitOf("ug/kg") == Some(UgPerKg) && labels.basisOf("dry") == Some(Dry)
    && labels.basisOf("wet") == Some(Wet)
    && labels.analyteOf(Classifier.Pfos) == Classifier.Pfos && labels.analyteOf(Classifier.Pfoa) == Classifier.Pfoa
    && labels.matrixOf("BIOSOLIDS") == "BIOSOLIDS" && labels.isDate("2026-01-05")
  }

  /** Canonical text that starts with a digit. */
  predicate PlainNumber(text: string) {
    && CanonicalDecimal(text) == Success(text) && Text.Clean(text) == text && !Text.IsBlank(text)
    && text != "" && IsDigit(text[0])
  }

  lemma {:induction false} DigitsStay(text: string)
    requires text != "" && IsDigit(text[0])
    ensures Text.Upper(text) != "ND" && !BelowLimit(text)
  {
    assert Text.Upper(text)[0] == text[0];
  }

  lemma {:induction false} PlainAnalyteIs(labels: Labels, name: string, text: string, basis: string)
    requires KnowsTerms(labels) && PlainNumber(text)
    ensures PlainAnalyte(labels, name, text, basis) ==
            Analyte(labels.analyteOf(name), text, Some(text), Some(UgPerKg), labels.basisOf(basis), None, false, None,
                    None, None, None, None,
                    1, name)
  {
    DigitsStay(text);
    hide CanonicalDecimal, Text.Clean, Text.Upper, Text.IsBlank, IsDigit, BelowLimit;
  }

  /** A detected value in µg/kg with canonical text leaves no gap, provided a wet one comes with some percent solids. */
  lemma {:induction false} PlainAnalyteIsClean(labels: Labels, name: string, text: string, basis: string,
                                               percentSolids: Option<string>, pageCount: nat)
    requires KnowsTerms(labels) && PlainNumber(text) && !Text.IsBlank(name) && pageCount >= 1
    requires labels.basisOf(basis).Some? && (labels.basisOf(basis) == Some(Wet) ==> percentSolids.Some?)
    ensures Clean(PlainAnalyte(labels, name, text, basis), percentSolids, pageCount)
  {
    hide CanonicalDecimal, Text.IsBlank, PlainAnalyte, KnowsTerms, IsDigit, Text.Clean;
    PlainAnalyteIs(labels, name, text, basis);
  }

  /** A complete report of two results. */
  function Report(labMethod: string, pfos: Analyte, pfoa: Analyte): RawDraft {
    RawDraft(Some("LAB"), Some("S"), Some("2026-01-05"), Some("BIOSOLIDS"), Some(labMethod), Some("dry"), [pfos, pfoa])
  }

  lemma {:induction false} WordKept(word: string)
    requires word != "" && forall i :: 0 <= i < |word| ==> !Text.IsSpace(word[i])
    ensures CleanPointer(Some(word)) == Some(word)
  {
    hide Text.Clean, Text.IsSpace;
    Text.WordIsClean(word);
  }

  lemma {:induction false} CompleteHasNoGaps(labels: Labels, d: Draft)
    requires d.laboratory.Some? && d.sampleIdentifier.Some? && d.collectionDate.Some?
    requires labels.isDate(d.collectionDate.value)
    requires d.matrix == Some("BIOSOLIDS") && d.labMethod.Some? && d.basis.Some?
    ensures ReportGaps(labels, d) == []
  {}

  lemma {:induction false} ReportHeader(labels: Labels, labMethod: string, pfos: Analyte, pfoa: Analyte)
    requires KnowsTerms(labels) && CleanPointer(Some(labMethod)).Some?
    ensures ReportGaps(labels, Header(labels, Report(labMethod, pfos, pfoa))) == []
  {
    hide CleanPointer, ReportGaps, Text.IsSpace;
    WordKept("LAB") by { WordsHaveNoSpace(); }
    WordKept("S") by { WordsHaveNoSpace(); }
    WordKept("2026-01-05") by { WordsHaveNoSpace(); }
    CompleteHasNoGaps(labels, Header(labels, Report(labMethod, pfos, pfoa)));
  }

  lemma {:induction false} WordsHaveNoSpace()
    ensures forall i :: 0 <= i < 3 ==> !Text.IsSpace("LAB"[i])
    ensures !Text.IsSpace("S"[0])
    ensures forall i :: 0 <= i < 10 ==> !Text.IsSpace("2026-01-05"[i])
  {}

  lemma {:induction false} OneResultEach(pfos: Analyte, pfoa: Analyte)
    requires pfos.canonical == Classifier.Pfos && pfoa.canonical == Classifier.Pfoa
    ensures ResultsFor([pfos, pfoa], Classifier.Pfos) == [pfos] && ResultsFor([pfos, pfoa], Classifier.Pfoa) == [pfoa]
  {
    assert [pfos, pfoa][..1] == [pfos] && [pfos][..0] == [];
    assert ResultsFor([pfos], Classifier.Pfos) == [pfos] && ResultsFor([pfos], Classifier.Pfoa) == [];
  }

  lemma {:induction false} OneResultHasNoGaps(analytes: seq<Analyte>, name: string, a: Analyte, basis: Option<Basis>,
                                              percentSolids: Option<string>, pageCount: nat)
    requires ResultsFor(analytes, name) == [a] && a.basis.Some? && Clean(a, percentSolids, pageCount)
    ensures NamedGaps(analytes, name, basis, percentSolids, pageCount) == []
  {
    hide AnalyteGaps, WellRead, ResultsFor;
    assert Chosen([a], basis) == a;
  }

  /**
    A complete report of two clean results leaves no gap at all, and starves the classifier as soon
    as one of them does.
  */
  lemma {:induction false} ReportStarves(labels: Labels, labMethod: string, pfos: Analyte, pfoa: Analyte,
                                         pageCount: nat, percentSolids: Option<string>, pack: RulePack)
    requires KnowsTerms(labels)
    requires pfos.canonical == Classifier.Pfos && pfoa.canonical == Classifier.Pfoa && pfos.unit.Some?
    requires pfos.basis.Some? && pfoa.basis.Some?
    requires Clean(pfos, percentSolids, pageCount) && Clean(pfoa, percentSolids, pageCount)
    requires Classifiable(pack, ValidatedDraft(labels, Report(labMethod, pfos, pfoa), pageCount, percentSolids).0)
    requires Starves(pfos, percentSolids, Policy.Decimal(pack.elevatedThreshold).value)
    ensures var (draft, gaps) := ValidatedDraft(labels, Report(labMethod, pfos, pfoa), pageCount, percentSolids);
            gaps == [] && Classifier.Classification(pack, InputOf(draft)).tier == Undetermined
  {
    hide Clean, Starves, ReportGaps, Header, NamedGaps, NamedAnalyte, Classifiable, Classifier.Classification, InputOf,
      WellRead, ResultsFor, Policy.Decimal;
    var raw := Report(labMethod, pfos, pfoa);
    MethodIsGiven(labels, labMethod, pfos, pfoa, pageCount, percentSolids, pack);
    ReportHeader(labels, labMethod, pfos, pfoa);
    OneResultEach(pfos, pfoa);
    OneResultHasNoGaps(raw.analytes, Classifier.Pfos, pfos, Header(labels, raw).basis, percentSolids, pageCount);
    OneResultHasNoGaps(raw.analytes, Classifier.Pfoa, pfoa, Header(labels, raw).basis, percentSolids, pageCount);
    CleanIsWellRead(pfos, percentSolids, pageCount);
    CleanIsWellRead(pfoa, percentSolids, pageCount);
    CleanDraftIsUndeterminedExactly(labels, raw, pageCount, percentSolids, pack);
    assert Kept1(labels, raw, Classifier.Pfos) == pfos;
  }

  lemma {:induction false} MethodIsGiven(labels: Labels, labMethod: string, pfos: Analyte, pfoa: Analyte,
                                         pageCount: nat, percentSolids: Option<string>, pack: RulePack)
    requires Classifiable(pack, ValidatedDraft(labels, Report(labMethod, pfos, pfoa), pageCount, percentSolids).0)
    ensures CleanPointer(Some(labMethod)).Some?
  {
    hide ReportGaps, NamedGaps, NamedAnalyte, CleanPointer, ThresholdsFit, Classifier.IsAcceptedMethod;
  }

  lemma {:induction false} CleanIsWellRead(a: Analyte, percentSolids: Option<string>, pageCount: nat)
    requires Clean(a, percentSolids, pageCount)
    ensures WellRead(a)
  {
    hide WellRead, AnalyteGaps;
  }

  lemma {:induction false} NamesAreNotBlank()
    ensures !Text.IsBlank(Classifier.Pfos) && !Text.IsBlank(Classifier.Pfoa)
  {
    KnownNames();
  }

  lemma {:induction false} ZeroIsPlain()
    ensures PlainNumber("0") && DecimalRat("0") == Success(0.0)
  {
    assert NormalParts("0", "");
    JoinDenotes("0", "");
    assert Join("0", "") == "0" && "0" + "" == "0" && Digits.NatOf("0") == 0 by { assert "0"[..0] == ""; }
    hide IsNormal, CanonicalDecimal, RatOf, Denotes, Text.Clean, Text.Trim;
    CanonicalFixesNormal("0");
    NormalIsTrimmed("0");
    Text.WordIsClean("0");
    Digits.ScaledZero(0);
  }

  lemma {:induction false} RefusedValueStarves(a: Analyte, text: string, percentSolids: Option<string>, elevated: real)
    requires a.value == Some(text) && a.unit.Some? && a.basis.Some? && !a.isNonDetect
    requires DecimalRat(text).Failure? || SolidsUsed(a.basis.value, percentSolids).None?
    ensures Starves(a, percentSolids, elevated)
  {
    hide DecimalRat, ConvertedValue, SolidsUsed;
  }

  lemma {:induction false} NoSolids(percentSolids: Option<string>)
    requires percentSolids.Some? && DecimalRat(percentSolids.value) == Success(0.0)
    ensures SolidsUsed(Wet, percentSolids).None?
  {
    hide DecimalRat;
  }

  lemma {:induction false} TinyIsPlain(n: nat)
    requires n >= MaxRatExponent
    ensures PlainNumber(TinyText(n)) && DecimalRat(TinyText(n)).Failure?
  {
    hide CanonicalDecimal, TinyText, Text.Clean, Text.IsBlank, DecimalRat;
    TinyTextIsRefused(n);
    assert TinyText(n)[0] == '0' by { assert TinyText(n)[..2][0] == '0'; }
  }

  function PlainReport(labels: Labels, labMethod: string, text: string, basis: string): RawDraft {
    Report(labMethod, PlainAnalyte(labels, Classifier.Pfos, text, basis),
           PlainAnalyte(labels, Classifier.Pfoa, text, basis))
  }

  /** A report of two equal results that no conversion can be made of has no gaps, and leaves the batch undetermined. */
  lemma {:induction false} PlainReportStarves(labels: Labels, labMethod: string, text: string, term: string,
                                              basis: Basis, pageCount: nat, percentSolids: Option<string>,
                                              pack: RulePack)
    requires KnowsTerms(labels) && PlainNumber(text) && pageCount >= 1
    requires labels.basisOf(term) == Some(basis) && (basis == Wet ==> percentSolids.Some?)
    requires DecimalRat(text).Failure? || SolidsUsed(basis, percentSolids).None?
    requires Classifiable(pack, ValidatedDraft(labels, PlainReport(labels, labMethod, text, term), pageCount,
                                               percentSolids).0)
    ensures var (draft, gaps) := ValidatedDraft(labels, PlainReport(labels, labMethod, text, term), pageCount,
                                                percentSolids);
            gaps == [] && Classifier.Classification(pack, InputOf(draft)).tier == Undetermined
  {
    hide Clean, PlainAnalyte, PlainNumber, DecimalRat, SolidsUsed, Classifier.Classification, ValidatedDraft,
      Classifiable, Policy.Decimal, Text.IsBlank, InputOf, Report;
    var pfos, pfoa := PlainAnalyte(labels, Classifier.Pfos, text, term),
      PlainAnalyte(labels, Classifier.Pfoa, text, term);
    NamesAreNotBlank();
    PlainAnalyteIs(labels, Classifier.Pfos, text, term);
    PlainAnalyteIs(labels, Classifier.Pfoa, text, term);
    PlainAnalyteIsClean(labels, Classifier.Pfos, text, term, percentSolids, pageCount);
    PlainAnalyteIsClean(labels, Classifier.Pfoa, text, term, percentSolids, pageCount);
    ThresholdsOf(pack, ValidatedDraft(labels, PlainReport(labels, labMethod, text, term), pageCount, percentSolids).0);
    RefusedValueStarves(pfos, text, percentSolids, Policy.Decimal(pack.elevatedThreshold).value);
    ReportStarves(labels, labMethod, pfos, pfoa, pageCount, percentSolids, pack);
  }

  /**
    The first exception: a report without gaps whose values have more than a million decimal places
    leaves the batch undetermined.
  */
  lemma {:induction false} UnrepresentableResultStarves(labels: Labels, labMethod: string, n: nat, pageCount: nat,
                                                        pack: RulePack)
    requires KnowsTerms(labels) && n >= MaxRatExponent && pageCount >= 1
    requires Classifiable(pack, ValidatedDraft(labels, PlainReport(labels, labMethod, TinyText(n), "dry"), pageCount,
                                               None).0)
    ensures var (draft, gaps) := ValidatedDraft(labels, PlainReport(labels, labMethod, TinyText(n), "dry"), pageCount,
                                                None);
            gaps == [] && Classifier.Classification(pack, InputOf(draft)).tier == Undetermined
  {
    TermsOf(labels);
    TinyIsPlain(n);
    hide *;
    PlainReportStarves(labels, labMethod, TinyText(n), "dry", Dry, pageCount, None, pack);
  }

  /** The second: a report without gaps on a wet basis, with percent solids that nothing can be divided by. */
  lemma {:induction false} UnusableSolidsStarve(labels: Labels, labMethod: string, pageCount: nat, pack: RulePack)
    requires KnowsTerms(labels) && pageCount >= 1
    requires Classifiable(pack, ValidatedDraft(labels, PlainReport(labels, labMethod, "0", "wet"), pageCount,
                                               Some("0")).0)
    ensures var (draft, gaps) := ValidatedDraft(labels, PlainReport(labels, labMethod, "0", "wet"), pageCount,
                                                Some("0"));
            gaps == [] && Classifier.Classification(pack, InputOf(draft)).tier == Undetermined
  {
    TermsOf(labels);
    ZeroIsPlain();
    hide *;
    NoSolids(Some("0"));
    PlainReportStarves(labels, labMethod, "0", "wet", Wet, pageCount, Some("0"), pack);
  }

  lemma {:induction false} TermsOf(labels: Labels)
    requires KnowsTerms(labels)
    ensures labels.basisOf("dry") == Some(Dry) && labels.basisOf("wet") == Some(Wet)
  {}
}
